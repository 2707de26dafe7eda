/**
 * The two ends of the segmentation stream put together. The server writes
 * every frame as `data: <json>\n\n` (backend/api.py); the client splits the
 * text on blank lines and classifies each "data:" segment
 * (frontend/src/api.js). `dumps` stands for `json.dumps` and `parse` for
 * `JSON.parse`; the lemmas assume only that `dumps` writes one line with no
 * white space at its ends and that `parse` reads back the keys it wrote.
 */
module Wire {
  import opened Wrappers
  import opened JsText
  import SS = ServerStream
  import SC = StreamClient

  const DataPrefix: string := "data: "

  /** One server-sent event as the server writes it. */
  function EventText(json: string): (t: string)
    ensures |t| == |DataPrefix| + |json| + 2
  {
    DataPrefix + json + SC.Sep
  }

  /** The whole response body for a sequence of frames. */
  function StreamText(frames: seq<SS.Frame>, dumps: SS.Frame -> string): string
    decreases |frames|
  {
    if frames == [] then "" else EventText(dumps(frames[0])) + StreamText(frames[1..], dumps)
  }

  /** The JSON text of a frame: non-empty, one line, and starting and ending with a non-space (`{` and `}`). */
  predicate OneLine(json: string) {
    json != [] && !IsJsSpace(json[0]) && !IsJsSpace(json[|json| - 1])
    && forall i :: 0 <= i < |json| ==> json[i] != '\n'
  }

  ghost predicate WritesOneLine(dumps: SS.Frame -> string) {
    forall f :: OneLine(dumps(f))
  }

  function Number(n: int): SC.JsValue {
    SC.JsNumber(n as real)
  }

  /** A list of integers as a JSON array. */
  function Numbers(ns: seq<int>): (v: SC.JsValue)
    ensures v.JsArray? && |v.items| == |ns|
  {
    SC.JsArray(seq(|ns|, i requires 0 <= i < |ns| => Number(ns[i])))
  }

  /** The keys each frame carries, as the client reads them; an error frame has none of them. */
  function FieldsOf(f: SS.Frame): SC.Fields {
    match f
    case HeaderFrame(t) => SC.Fields(Some(Number(t)), None, None, None, None)
    case BatchFrame(b, preds) => SC.Fields(None, Some(Number(b)), Some(Numbers(preds)), None, None)
    case FinalFrame(fin) => SC.Fields(None, None, None, Some(SC.JsBool(true)), Some(Numbers(fin)))
    case ErrorFrame(_) => SC.Fields(None, None, None, None, None)
  }

  ghost predicate ParsesBack(parse: string -> SC.Fields, dumps: SS.Frame -> string) {
    forall f :: parse(dumps(f)) == FieldsOf(f)
  }

  /** The callback a frame leads to: none for a header of 0 batches or an error frame. */
  function CallOf(f: SS.Frame): (c: Option<SC.Call>)
    ensures f.ErrorFrame? ==> c == None
    ensures f.HeaderFrame? ==> (c.Some? <==> f.totalBatches != 0)
    ensures f.HeaderFrame? && f.totalBatches != 0 ==> c == Some(SC.OnBatch(SC.Header(Number(f.totalBatches))))
    ensures f.BatchFrame? ==> (c.Some? <==> f.batch != 0)
    ensures f.BatchFrame? && f.batch != 0 ==> c == Some(SC.OnBatch(SC.BatchUpdate(Number(f.batch), Numbers(f.preds))))
    ensures f.FinalFrame? ==> c == Some(SC.OnComplete(Numbers(f.final)))
  {
    SC.Classify(FieldsOf(f))
  }

  function ExpectedCalls(frames: seq<SS.Frame>): seq<SC.Call>
    decreases |frames|
  {
    if frames == [] then [] else SC.AsSeq(CallOf(frames[0])) + ExpectedCalls(frames[1..])
  }

  lemma {:induction false} ExpectedCallsAppend(a: seq<SS.Frame>, b: seq<SS.Frame>)
    ensures ExpectedCalls(a + b) == ExpectedCalls(a) + ExpectedCalls(b)
    decreases |a|
  {
    if a == [] {
      assert a + b == b;
    } else {
      assert (a + b)[1..] == a[1..] + b;
      ExpectedCallsAppend(a[1..], b);
    }
  }

  function Segments(frames: seq<SS.Frame>, dumps: SS.Frame -> string): (segs: seq<string>)
    ensures |segs| == |frames|
  {
    seq(|frames|, k requires 0 <= k < |frames| => DataPrefix + dumps(frames[k]))
  }

  lemma SegmentClean(json: string)
    requires OneLine(json)
    ensures SC.NoSep(DataPrefix + json) && !SC.EndsInNewline(DataPrefix + json)
  {
    var s := DataPrefix + json;
    assert forall j :: 0 <= j < |s| ==> s[j] != '\n' by {
      forall j | 0 <= j < |s| ensures s[j] != '\n' {
        if j >= |DataPrefix| { assert s[j] == json[j - |DataPrefix|]; }
      }
    }
    assert s[|s| - 1] == json[|json| - 1];
  }

  /** The body splits into one "data:" segment per frame, and nothing is left in the buffer. */
  lemma {:induction false} SplitStream(frames: seq<SS.Frame>, dumps: SS.Frame -> string)
    requires WritesOneLine(dumps)
    ensures SC.Split(StreamText(frames, dumps)) == Segments(frames, dumps) + [""]
    decreases |frames|
  {
    if frames != [] {
      var seg := DataPrefix + dumps(frames[0]);
      SegmentClean(dumps(frames[0]));
      SplitStream(frames[1..], dumps);
      assert StreamText(frames, dumps) == seg + SC.Sep + StreamText(frames[1..], dumps);
      SC.SplitPiece(seg, StreamText(frames[1..], dumps));
      assert Segments(frames, dumps) == [seg] + Segments(frames[1..], dumps);
    }
  }

  /** Each segment leads to the callback of its frame. */
  lemma {:induction false} CallOfSegment(f: SS.Frame, parse: string -> SC.Fields, dumps: SS.Frame -> string)
    requires OneLine(dumps(f)) && parse(dumps(f)) == FieldsOf(f)
    ensures SC.CallFor(DataPrefix + dumps(f), parse) == CallOf(f)
  {
    DataPayload(dumps(f));
  }

  /** The client finds the prefix "data:" and reads back exactly the JSON text. */
  lemma {:induction false} DataPayload(json: string)
    requires OneLine(json)
    ensures StartsWith(DataPrefix + json, SC.Prefix)
    ensures SC.Payload(DataPrefix + json) == json
  {
    DataSplit(json);
    SC.PayloadOfDataSegment(DataPrefix + json);
    SpaceIsSpace();
    TrimPadded(" ", json, "");
  }

  /** "data: " is "data:" followed by one space. */
  lemma {:induction false} DataSplit(json: string)
    ensures StartsWith(DataPrefix + json, SC.Prefix)
    ensures (DataPrefix + json)[|SC.Prefix|..] == " " + json + ""
  {
    var seg := DataPrefix + json;
    assert seg[..|SC.Prefix|] == SC.Prefix;
    assert seg[|SC.Prefix|..] == " " + json;
  }

  lemma SpaceIsSpace()
    ensures AllSpace(" ")
  {
    assert IsJsSpace(" "[0]);
  }

  lemma {:induction false} CallsOfSegments(frames: seq<SS.Frame>, parse: string -> SC.Fields, dumps: SS.Frame -> string)
    requires WritesOneLine(dumps) && ParsesBack(parse, dumps)
    ensures SC.CallsFor(Segments(frames, dumps), parse) == ExpectedCalls(frames)
    decreases |frames|
  {
    if frames != [] {
      var seg, segs := DataPrefix + dumps(frames[0]), Segments(frames[1..], dumps);
      CallOfSegment(frames[0], parse, dumps);
      CallsOfSegments(frames[1..], parse, dumps);
      SegmentsCons(frames, dumps);
      SC.CallsForAppend([seg], segs, parse);
      CallsForOne(seg, parse);
    }
  }

  lemma SegmentsCons(frames: seq<SS.Frame>, dumps: SS.Frame -> string)
    requires frames != []
    ensures Segments(frames, dumps) == [DataPrefix + dumps(frames[0])] + Segments(frames[1..], dumps)
  {
  }

  lemma CallsForOne(seg: string, parse: string -> SC.Fields)
    ensures SC.CallsFor([seg], parse) == SC.AsSeq(SC.CallFor(seg, parse))
  {
    assert SC.AllButLast([seg]) == [] && SC.Last([seg]) == seg;
  }

  /** Whatever the chunking, the client's callbacks are those of the server's frames, in order, and its buffer ends empty. */
  lemma ClientSeesFrames(frames: seq<SS.Frame>, parse: string -> SC.Fields, dumps: SS.Frame -> string)
    requires WritesOneLine(dumps) && ParsesBack(parse, dumps)
    ensures SC.CallsFor(SC.CompleteSegments(StreamText(frames, dumps)), parse) == ExpectedCalls(frames)
    ensures SC.Remainder(StreamText(frames, dumps)) == ""
  {
    SplitStream(frames, dumps);
    assert SC.AllButLast(Segments(frames, dumps) + [""]) == Segments(frames, dumps);
    CallsOfSegments(frames, parse, dumps);
  }

  /** The stream `event_generator` produces for points it completes. */
  function ServerFrames(points: seq<SS.Row>, predict: seq<SS.Row> -> seq<int>): seq<SS.Frame> {
    [SS.HeaderFrame(SS.TotalBatches(|points|))] + SS.BatchFrames(points, predict)
      + [SS.FinalFrame(SS.BatchPreds(SS.BatchFrames(points, predict)))]
  }

  /** The callbacks of the batch frames: one `onBatch` per batch, numbered from 1. */
  function BatchCalls(points: seq<SS.Row>, predict: seq<SS.Row> -> seq<int>): (cs: seq<SC.Call>)
    ensures |cs| == |SS.Batches(points)|
  {
    var bs := SS.Batches(points);
    seq(|bs|, k requires 0 <= k < |bs| => SC.OnBatch(SC.BatchUpdate(Number(k + 1), Numbers(predict(bs[k])))))
  }

  lemma {:induction false} BatchFramesCalls(fs: seq<SS.Frame>, cs: seq<SC.Call>)
    requires |fs| == |cs|
    requires forall k :: 0 <= k < |fs| ==>
      fs[k].BatchFrame? && fs[k].batch != 0 && cs[k] == SC.OnBatch(SC.BatchUpdate(Number(fs[k].batch), Numbers(fs[k].preds)))
    ensures ExpectedCalls(fs) == cs
    decreases |fs|
  {
    if fs != [] {
      BatchFramesCalls(fs[1..], cs[1..]);
      assert cs == [cs[0]] + cs[1..];
    }
  }

  /**
   * End to end: for a non-empty point set, the client reports the header
   * with the batch count, every batch in order numbered from 1, then the
   * final predictions, and its promise is resolved.
   */
  lemma EndToEnd(points: seq<SS.Row>, predict: seq<SS.Row> -> seq<int>, parse: string -> SC.Fields, dumps: SS.Frame -> string)
    requires |points| > 0 && WritesOneLine(dumps) && ParsesBack(parse, dumps)
    ensures var calls := ExpectedCalls(ServerFrames(points, predict));
      calls == [SC.OnBatch(SC.Header(Number(SS.TotalBatches(|points|))))] + BatchCalls(points, predict)
               + [SC.OnComplete(Numbers(SS.BatchPreds(SS.BatchFrames(points, predict))))]
      && SC.SettlementOf(calls) == SC.Resolved
  {
    var bf := SS.BatchFrames(points, predict);
    var header := SS.HeaderFrame(SS.TotalBatches(|points|));
    var fin := SS.FinalFrame(SS.BatchPreds(bf));
    ExpectedCallsAppend([header] + bf, [fin]);
    ExpectedCallsAppend([header], bf);
    assert ExpectedCalls([header]) == [SC.OnBatch(SC.Header(Number(SS.TotalBatches(|points|))))] by {
      assert [header][1..] == [];
    }
    assert ExpectedCalls([fin]) == [SC.OnComplete(Numbers(SS.BatchPreds(bf)))] by {
      assert [fin][1..] == [];
    }
    BatchFramesCalls(bf, BatchCalls(points, predict));
    var calls := ExpectedCalls(ServerFrames(points, predict));
    assert calls[|calls| - 1].OnComplete?;
  }

  /**
   * `segmentStream` reading the body of a completed request, however
   * the transport cut it into chunks: the calls of `EndToEnd`, an empty
   * buffer, and a resolved promise.
   */
  method ReceiveServerStream(points: seq<SS.Row>, predict: seq<SS.Row> -> seq<int>, chunks: seq<string>,
                             parse: string -> SC.Fields, dumps: SS.Frame -> string)
    returns (calls: seq<SC.Call>, settlement: SC.Settlement, rest: string)
    requires |points| > 0 && WritesOneLine(dumps) && ParsesBack(parse, dumps)
    requires SC.Concat(chunks) == StreamText(ServerFrames(points, predict), dumps)
    ensures calls == [SC.OnBatch(SC.Header(Number(SS.TotalBatches(|points|))))] + BatchCalls(points, predict)
                     + [SC.OnComplete(Numbers(SS.BatchPreds(SS.BatchFrames(points, predict))))]
    ensures settlement == SC.Resolved && rest == ""
  {
    calls, settlement, rest := SC.Run(true, chunks, parse);
    ClientSeesFrames(ServerFrames(points, predict), parse, dumps);
    EndToEnd(points, predict, parse, dumps);
  }

  /** A stream for no points ends after a header of 0 batches, which the client does not report. */
  lemma EmptyStreamIsSilent(dumps: SS.Frame -> string)
    ensures ExpectedCalls([SS.HeaderFrame(0)]) == []
  {
    assert [SS.HeaderFrame(0)][1..] == [];
  }

  /** A missing-points reply gives no callback, so the promise stays pending. */
  lemma ErrorStreamIsSilent(message: string)
    ensures ExpectedCalls([SS.ErrorFrame(message)]) == []
    ensures SC.SettlementOf(ExpectedCalls([SS.ErrorFrame(message)])) == SC.Pending
  {
    assert [SS.ErrorFrame(message)][1..] == [];
  }
}
