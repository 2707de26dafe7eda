/**
 * The browser side of the segmentation stream (`segmentStream` in
 * frontend/src/api.js). The response body arrives as text chunks; the
 * client appends each chunk to a buffer, splits the buffer on blank lines
 * ("\n\n"), keeps the last piece as the new buffer and turns every complete
 * piece that starts with "data:" into at most one callback.
 *
 * `JSON.parse` is a parameter `parse` from payload text to the fields the
 * client looks at; the fetch, the stream reader and the text decoder are
 * outside the model (chunks arrive already decoded).
 */
module StreamClient {
  import opened Wrappers
  import opened JsText

  // ---------------------------------------------------------------------
  // Splitting on the blank-line delimiter, as `buffer.split("\n\n")`
  // ---------------------------------------------------------------------

  const Sep: string := "\n\n"

  /** `s.endsWith("\n")`. */
  predicate EndsInNewline(s: string) {
    |s| > 0 && s[|s| - 1] == '\n'
  }

  function Last<T>(s: seq<T>): T
    requires |s| > 0
  {
    s[|s| - 1]
  }

  function AllButLast<T>(s: seq<T>): seq<T>
    requires |s| > 0
  {
    s[..|s| - 1]
  }

  /** Prefix the first piece of `parts` with `c`. */
  function Cons(c: char, parts: seq<string>): (r: seq<string>)
    requires |parts| > 0
  {
    [[c] + parts[0]] + parts[1..]
  }

  /**
   * `s.split("\n\n")`: scanning from the left, every occurrence of the
   * delimiter that does not overlap an earlier one ends a piece.
   */
  function Split(s: string): (parts: seq<string>)
    ensures |parts| > 0
    decreases |s|
  {
    if |s| < 2 then [s]
    else if s[0] == '\n' && s[1] == '\n' then [""] + Split(s[2..])
    else Cons(s[0], Split(s[1..]))
  }

  /** `parts.join("\n\n")`. */
  function Join(parts: seq<string>): string
    requires |parts| > 0
  {
    if |parts| == 1 then parts[0] else parts[0] + Sep + Join(parts[1..])
  }

  /** A piece that contains no delimiter. */
  ghost predicate NoSep(s: string) {
    forall j :: 0 <= j < |s| - 1 ==> !(s[j] == '\n' && s[j + 1] == '\n')
  }

  /** The pieces a split produces: none holds a delimiter, and none but the last ends in a newline. */
  ghost predicate WellSplit(parts: seq<string>) {
    && (forall k :: 0 <= k < |parts| ==> NoSep(parts[k]))
    && (forall k :: 0 <= k < |parts| - 1 ==> !EndsInNewline(parts[k]))
  }

  /** The complete segments of a text: every piece before the last delimiter. */
  function CompleteSegments(s: string): seq<string> {
    AllButLast(Split(s))
  }

  /** What stays in the buffer: the text after the last delimiter. */
  function Remainder(s: string): string {
    Last(Split(s))
  }

  /** Splitting and joining again gives back the text, and the pieces are well formed. */
  lemma {:induction false} SplitJoin(s: string)
    ensures Join(Split(s)) == s
    ensures WellSplit(Split(s))
    decreases |s|, 1
  {
    if |s| < 2 {
    } else if s[0] == '\n' && s[1] == '\n' {
      SplitJoinAtSep(s);
    } else {
      SplitJoinAtChar(s);
    }
  }

  lemma {:induction false} SplitJoinAtSep(s: string)
    requires |s| >= 2 && s[0] == '\n' && s[1] == '\n'
    ensures Join(Split(s)) == s
    ensures WellSplit(Split(s))
    decreases |s|, 0
  {
    SplitJoin(s[2..]);
    SepWell(Split(s[2..]));
    assert s == Sep + s[2..];
  }

  lemma {:induction false} SplitJoinAtChar(s: string)
    requires |s| >= 2 && !(s[0] == '\n' && s[1] == '\n')
    ensures Join(Split(s)) == s
    ensures WellSplit(Split(s))
    decreases |s|, 0
  {
    SplitJoin(s[1..]);
    var q := Split(s[1..]);
    if |q| > 1 && q[0] == [] {
      // then s[1..] starts with the delimiter, so s[0] is not a newline
      assert s[1..] == Sep + Join(q[1..]);
    }
    if q[0] != [] {
      assert Join(q)[0] == q[0][0];
    }
    ConsWell(s[0], q);
    assert s == [s[0]] + s[1..];
  }

  /** An empty piece in front of well-formed pieces keeps them well formed. */
  lemma {:induction false} SepWell(q: seq<string>)
    requires |q| > 0 && WellSplit(q)
    ensures Join([""] + q) == Sep + Join(q)
    ensures WellSplit([""] + q)
  {
    var p := [""] + q;
    assert p[1..] == q;
    assert Join(p) == "" + Sep + Join(q);
    forall k | 1 <= k < |p| ensures NoSep(p[k]) && (k < |p| - 1 ==> !EndsInNewline(p[k])) {
      assert p[k] == q[k - 1];
    }
  }

  /** Putting a character in front of well-formed pieces keeps them well formed, unless it makes a newline end the first. */
  lemma {:induction false} ConsWell(c: char, q: seq<string>)
    requires |q| > 0 && WellSplit(q)
    requires |q| > 1 && q[0] == [] ==> c != '\n'
    requires q[0] != [] ==> c != '\n' || q[0][0] != '\n'
    ensures Join(Cons(c, q)) == [c] + Join(q)
    ensures WellSplit(Cons(c, q))
  {
    JoinCons(c, q);
    var p := Cons(c, q);
    assert p[0] == [c] + q[0];
    NoSepCons(c, q[0]);
    if |q| > 1 {
      NewlineCons(c, q[0]);
    }
    forall k | 1 <= k < |p| ensures NoSep(p[k]) && (k < |p| - 1 ==> !EndsInNewline(p[k])) {
      assert p[k] == q[k];
    }
  }

  lemma {:induction false} JoinCons(c: char, q: seq<string>)
    requires |q| > 0
    ensures Join(Cons(c, q)) == [c] + Join(q)
  {
    var p := Cons(c, q);
    assert p[0] == [c] + q[0] && p[1..] == q[1..];
    if |q| > 1 {
      var j := Join(q[1..]);
      assert Join(p) == p[0] + Sep + j;
      assert ([c] + q[0]) + Sep + j == [c] + (q[0] + Sep + j);
    }
  }

  lemma NoSepCons(c: char, t: string)
    requires NoSep(t) && (t != [] ==> c != '\n' || t[0] != '\n')
    ensures NoSep([c] + t)
  {
    var h := [c] + t;
    forall j | 0 <= j < |h| - 1 ensures !(h[j] == '\n' && h[j + 1] == '\n') {
      if j > 0 { assert h[j] == t[j - 1] && h[j + 1] == t[j]; }
    }
  }

  lemma NewlineCons(c: char, t: string)
    requires t == [] ==> c != '\n'
    requires t != [] ==> !EndsInNewline(t)
    ensures !EndsInNewline([c] + t)
  {
    var h := [c] + t;
    if t != [] {
      assert h[|h| - 1] == t[|t| - 1];
    }
  }

  /** A text without a delimiter is one piece. */
  lemma SplitOfClean(s: string)
    requires NoSep(s)
    ensures Split(s) == [s]
  {
    SplitJoin(s);
  }

  /** The other half of the round trip: well-formed pieces survive joining and splitting. */
  lemma {:induction false} JoinSplit(parts: seq<string>)
    requires |parts| > 0 && WellSplit(parts)
    ensures Split(Join(parts)) == parts
  {
    if |parts| == 1 {
      SplitOfClean(parts[0]);
    } else {
      assert WellSplit(parts[1..]) by {
        forall k | 0 <= k < |parts[1..]| ensures NoSep(parts[1..][k]) { assert parts[1..][k] == parts[k + 1]; }
        forall k | 0 <= k < |parts[1..]| - 1 ensures !EndsInNewline(parts[1..][k]) { assert parts[1..][k] == parts[k + 1]; }
      }
      JoinSplit(parts[1..]);
      assert !EndsInNewline(parts[0]);
      SplitPiece(parts[0], Join(parts[1..]));
      assert parts == [parts[0]] + parts[1..];
    }
  }

  /** A clean first piece followed by the delimiter splits off on its own. */
  lemma {:induction false} SplitPiece(x: string, y: string)
    requires NoSep(x) && !EndsInNewline(x)
    ensures Split(x + Sep + y) == [x] + Split(y)
    decreases |x|
  {
    var s := x + Sep + y;
    if x == [] {
      assert s == Sep + y;
      assert s[2..] == y;
    } else {
      assert s[1..] == x[1..] + Sep + y;
      assert NoSep(x[1..]);
      if x[1..] == [] {
        assert |x| == 1 && x[0] != '\n';
        assert s[1..] == Sep + y;
        assert Split(s[1..]) == [""] + Split(y);
      } else {
        assert !EndsInNewline(x[1..]) by { assert x[1..][|x| - 2] == x[|x| - 1]; }
        SplitPiece(x[1..], y);
        assert s[0] != '\n' || s[1] != '\n' by { assert s[1] == x[1]; }
      }
      assert Split(s) == Cons(x[0], Split(s[1..]));
      assert [x[0]] + x[1..] == x;
    }
  }

  /**
   * Appending text to a split only reworks its last piece: the complete
   * pieces of `s` stay complete pieces of `s + t`.
   */
  lemma {:induction false} SplitAppend(s: string, t: string)
    ensures Split(s + t) == AllButLast(Split(s)) + Split(Last(Split(s)) + t)
    decreases |s|, 1
  {
    var p := Split(s);
    if |p| == 1 {
      SplitJoin(s);
      assert Last(p) == s;
      assert AllButLast(p) == [];
    } else if s[0] == '\n' && s[1] == '\n' {
      SplitAppendAtSep(s, t);
    } else {
      SplitAppendAtChar(s, t);
    }
  }

  lemma {:induction false} SplitAppendAtSep(s: string, t: string)
    requires |s| >= 2 && s[0] == '\n' && s[1] == '\n'
    ensures Split(s + t) == AllButLast(Split(s)) + Split(Last(Split(s)) + t)
    decreases |s|, 0
  {
    var p := Split(s);
    var q := Split(s[2..]);
    assert p == [""] + q;
    assert (s + t)[0] == '\n' && (s + t)[1] == '\n';
    assert (s + t)[2..] == s[2..] + t;
    assert Split(s + t) == [""] + Split(s[2..] + t);
    SplitAppend(s[2..], t);
    assert AllButLast(p) == [""] + AllButLast(q);
  }

  lemma {:induction false} SplitAppendAtChar(s: string, t: string)
    requires |s| >= 2 && !(s[0] == '\n' && s[1] == '\n') && |Split(s)| > 1
    ensures Split(s + t) == AllButLast(Split(s)) + Split(Last(Split(s)) + t)
    decreases |s|, 0
  {
    var p := Split(s);
    var q := Split(s[1..]);
    assert p == Cons(s[0], q);
    assert (s + t)[0] == s[0] && (s + t)[1] == s[1];
    assert (s + t)[1..] == s[1..] + t;
    assert Split(s + t) == Cons(s[0], Split(s[1..] + t));
    SplitAppend(s[1..], t);
    var w := Split(Last(q) + t);
    assert Last(p) == Last(q);
    assert AllButLast(p) == Cons(s[0], AllButLast(q));
    ConsAppend(s[0], AllButLast(q), w);
  }

  lemma ConsAppend(c: char, a: seq<string>, w: seq<string>)
    requires |a| > 0
    ensures Cons(c, a + w) == Cons(c, a) + w
  {
    assert (a + w)[0] == a[0];
    assert (a + w)[1..] == a[1..] + w;
  }

  /**
   * Feeding a chunk to a buffer that holds the remainder of what came
   * before yields the same complete segments, and the same new remainder,
   * as splitting everything received so far.
   */
  lemma ChunkBoundary(received: string, chunk: string)
    ensures CompleteSegments(received + chunk)
         == CompleteSegments(received) + CompleteSegments(Remainder(received) + chunk)
    ensures Remainder(received + chunk) == Remainder(Remainder(received) + chunk)
  {
    SplitAppend(received, chunk);
    var w := Split(Remainder(received) + chunk);
    var all := AllButLast(Split(received)) + w;
    assert AllButLast(all) == AllButLast(Split(received)) + AllButLast(w);
  }

  /** The remainder is the text after the last delimiter: a suffix that holds no delimiter. */
  lemma {:induction false} RemainderIsTail(s: string)
    ensures NoSep(Remainder(s))
    ensures EndsWith(s, Remainder(s))
    ensures Remainder(s) != s ==> EndsWith(s[..|s| - |Remainder(s)|], Sep)
  {
    var parts := Split(s);
    SplitJoin(s);
    assert NoSep(parts[|parts| - 1]);
    JoinLast(parts);
    if |parts| == 1 {
      assert Join(parts) == parts[0] == Remainder(s);
    } else {
      assert s[..|s| - |Remainder(s)|] == Join(parts)[..|Join(parts)| - |Last(parts)|];
    }
  }

  lemma {:induction false} JoinLast(parts: seq<string>)
    requires |parts| > 0
    ensures EndsWith(Join(parts), Last(parts))
    ensures |parts| > 1 ==> EndsWith(Join(parts)[..|Join(parts)| - |Last(parts)|], Sep)
  {
    if |parts| > 1 {
      JoinLast(parts[1..]);
      assert Last(parts[1..]) == Last(parts);
      var j := Join(parts[1..]);
      assert Join(parts) == parts[0] + Sep + j;
      if |parts| > 2 {
        var cut := Join(parts)[..|Join(parts)| - |Last(parts)|];
        assert cut == parts[0] + Sep + j[..|j| - |Last(parts)|];
        assert cut[|cut| - 2..] == j[..|j| - |Last(parts)|][|j| - |Last(parts)| - 2..];
      } else {
        assert Join(parts)[..|Join(parts)| - |Last(parts)|] == parts[0] + Sep;
      }
    }
  }

  // ---------------------------------------------------------------------
  // What a segment means
  // ---------------------------------------------------------------------

  /** The JSON values the client can receive. */
  datatype JsValue =
    | JsNull
    | JsBool(b: bool)
    | JsNumber(n: real)
    | JsString(s: string)
    | JsArray(items: seq<JsValue>)
    | JsObject

  /** ECMAScript ToBoolean on a JSON value: an empty array or object is truthy, 0 and "" are not. */
  predicate Truthy(v: JsValue)
    ensures Truthy(v) <==> v != JsNull && v != JsBool(false) && v != JsNumber(0.0) && v != JsString("")
  {
    match v
    case JsNull => false
    case JsBool(b) => b
    case JsNumber(n) => n != 0.0
    case JsString(s) => s != []
    case JsArray(_) => true
    case JsObject => true
  }

  /** The properties the client reads from a parsed payload; a missing one is `undefined`. */
  datatype Fields = Fields(
    totalBatches: Option<JsValue>,
    batch: Option<JsValue>,
    preds: Option<JsValue>,
    done: Option<JsValue>,
    final: Option<JsValue>)

  /** `data.key` is truthy. */
  predicate Has(field: Option<JsValue>) {
    field.Some? && Truthy(field.value)
  }

  /** The argument of `onBatch`: a header notice or a batch of predictions. */
  datatype Notice = Header(total: JsValue) | BatchUpdate(batch: JsValue, preds: JsValue)

  /** One callback the client makes. */
  datatype Call = OnBatch(notice: Notice) | OnComplete(final: JsValue)

  const Prefix: string := "data:"

  /** The JSON text of a segment: its first "data:" removed, then trimmed. */
  function Payload(part: string): string {
    Trim(ReplaceFirst(part, Prefix, ""))
  }

  /** Header first, then batch, then final; anything else is ignored. */
  function Classify(data: Fields): (r: Option<Call>)
    ensures r == None <==>
      !Has(data.totalBatches) && !(Has(data.batch) && Has(data.preds)) && !(Has(data.done) && Has(data.final))
    ensures Has(data.totalBatches) ==> r == Some(OnBatch(Header(data.totalBatches.value)))
    ensures !Has(data.totalBatches) && Has(data.batch) && Has(data.preds) ==>
      r == Some(OnBatch(BatchUpdate(data.batch.value, data.preds.value)))
    ensures !Has(data.totalBatches) && !(Has(data.batch) && Has(data.preds)) && Has(data.done) && Has(data.final) ==>
      r == Some(OnComplete(data.final.value))
    ensures r.Some? && r.value.OnComplete? ==>
      !Has(data.totalBatches) && !(Has(data.batch) && Has(data.preds)) && data.final == Some(r.value.final)
  {
    if Has(data.totalBatches) then Some(OnBatch(Header(data.totalBatches.value)))
    else if Has(data.batch) && Has(data.preds) then Some(OnBatch(BatchUpdate(data.batch.value, data.preds.value)))
    else if Has(data.done) && Has(data.final) then Some(OnComplete(data.final.value))
    else None
  }

  /** The callback, if any, that one complete segment triggers. */
  function CallFor(part: string, parse: string -> Fields): (r: Option<Call>)
    ensures !StartsWith(part, Prefix) ==> r == None
  {
    if !StartsWith(part, Prefix) then None else Classify(parse(Payload(part)))
  }

  function AsSeq<T>(o: Option<T>): seq<T> {
    if o.Some? then [o.value] else []
  }

  /** The callbacks of a run of segments, in order. */
  function CallsFor(parts: seq<string>, parse: string -> Fields): (calls: seq<Call>)
    ensures |calls| <= |parts|
  {
    if parts == [] then [] else CallsFor(AllButLast(parts), parse) + AsSeq(CallFor(Last(parts), parse))
  }

  lemma {:induction false} CallsForAppend(a: seq<string>, b: seq<string>, parse: string -> Fields)
    ensures CallsFor(a + b, parse) == CallsFor(a, parse) + CallsFor(b, parse)
    decreases |b|
  {
    if b == [] {
      assert a + b == a;
    } else {
      assert AllButLast(a + b) == a + AllButLast(b);
      assert Last(a + b) == Last(b);
      CallsForAppend(a, AllButLast(b), parse);
    }
  }

  lemma CallsForSnoc(parts: seq<string>, k: nat, parse: string -> Fields)
    requires k < |parts|
    ensures CallsFor(parts[..k + 1], parse) == CallsFor(parts[..k], parse) + AsSeq(CallFor(parts[k], parse))
  {
    assert AllButLast(parts[..k + 1]) == parts[..k];
  }

  /** The payload of a "data:" segment is the rest of the segment, trimmed. */
  lemma PayloadOfDataSegment(part: string)
    requires StartsWith(part, Prefix)
    ensures Payload(part) == Trim(part[|Prefix|..])
  {
    ReplacePrefix(part, Prefix);
  }

  /** A header of 0 batches is falsy, so it is not reported, and neither is batch number 0. */
  lemma ZeroIsNotReported(preds: JsValue)
    ensures Classify(Fields(Some(JsNumber(0.0)), None, None, None, None)) == None
    ensures Classify(Fields(None, Some(JsNumber(0.0)), Some(preds), None, None)) == None
    ensures Classify(Fields(None, Some(JsNumber(1.0)), Some(JsArray([])), None, None))
         == Some(OnBatch(BatchUpdate(JsNumber(1.0), JsArray([]))))
  {
  }

  // ---------------------------------------------------------------------
  // The session: buffer, callbacks and the promise
  // ---------------------------------------------------------------------

  /** The state of the promise `segmentStream` returns. */
  datatype Settlement = Pending | Resolved | Rejected(reason: string)

  const NoBodyMessage: string := "No response body received"

  predicate Completes(calls: seq<Call>) {
    exists k :: 0 <= k < |calls| && calls[k].OnComplete?
  }

  lemma CompletesSnoc(calls: seq<Call>, c: Call)
    ensures Completes(calls + [c]) <==> Completes(calls) || c.OnComplete?
  {
    if Completes(calls) {
      var k :| 0 <= k < |calls| && calls[k].OnComplete?;
      assert (calls + [c])[k] == calls[k];
    }
    if c.OnComplete? {
      assert (calls + [c])[|calls|] == c;
    }
    if Completes(calls + [c]) {
      var k :| 0 <= k < |calls| + 1 && (calls + [c])[k].OnComplete?;
      if k < |calls| { assert calls[k] == (calls + [c])[k]; }
    }
  }

  lemma CompletesAppend(a: seq<Call>, b: seq<Call>)
    ensures Completes(a + b) <==> Completes(a) || Completes(b)
  {
    if Completes(a) {
      var k :| 0 <= k < |a| && a[k].OnComplete?;
      assert (a + b)[k] == a[k];
    }
    if Completes(b) {
      var k :| 0 <= k < |b| && b[k].OnComplete?;
      assert (a + b)[|a| + k] == b[k];
    }
    if Completes(a + b) {
      var k :| 0 <= k < |a + b| && (a + b)[k].OnComplete?;
      if k < |a| { assert a[k] == (a + b)[k]; } else { assert b[k - |a|] == (a + b)[k]; }
    }
  }

  /** The promise resolves at the first final frame and stays resolved. */
  function SettlementOf(calls: seq<Call>): Settlement {
    if Completes(calls) then Resolved else Pending
  }

  /** The calls of a session after one more chunk: the earlier ones, then those of the segments it completes. */
  lemma {:induction false} ReceiveStep(received: string, chunk: string, parse: string -> Fields, calls: seq<Call>, made: seq<Call>)
    requires calls == CallsFor(CompleteSegments(received), parse)
    requires made == CallsFor(CompleteSegments(Remainder(received) + chunk), parse)
    ensures calls + made == CallsFor(CompleteSegments(received + chunk), parse)
    ensures Remainder(received + chunk) == Remainder(Remainder(received) + chunk)
    ensures Completes(calls + made) <==> Completes(calls) || Completes(made)
  {
    ChunkBoundary(received, chunk);
    CallsForAppend(CompleteSegments(received), CompleteSegments(Remainder(received) + chunk), parse);
    CompletesAppend(calls, made);
  }

  class StreamSession {
    const parse: string -> Fields
    var buffer: string
    var calls: seq<Call>
    var settlement: Settlement
    var reading: bool
    /** Everything the reader has delivered so far. */
    ghost var received: string

    ghost predicate Valid()
      reads this
    {
      && buffer == Remainder(received)
      && calls == CallsFor(CompleteSegments(received), parse)
      && (settlement.Rejected? ==> !reading && received == "")
      && (!settlement.Rejected? ==> settlement == SettlementOf(calls))
    }

    /** The response arrives; without a body the promise is rejected and nothing is read. */
    constructor Open(hasBody: bool, parse: string -> Fields)
      ensures Valid() && this.parse == parse
      ensures received == "" && buffer == "" && calls == []
      ensures reading == hasBody
      ensures settlement == if hasBody then Pending else Rejected(NoBodyMessage)
    {
      this.parse := parse;
      buffer := "";
      calls := [];
      received := "";
      reading := hasBody;
      settlement := if hasBody then Pending else Rejected(NoBodyMessage);
    }

    /** One chunk from the reader: append, split, keep the tail, handle every complete segment. */
    method Receive(chunk: string)
      requires Valid() && reading
      modifies this
      ensures Valid() && reading && received == old(received) + chunk
      ensures buffer == Remainder(old(buffer) + chunk)
      ensures calls == old(calls) + CallsFor(CompleteSegments(old(buffer) + chunk), parse)
    {
      var text := buffer + chunk;
      var parts := Split(text);
      var made: seq<Call> := [];
      var st := settlement;
      var k := 0;
      while k < |parts| - 1
        invariant 0 <= k <= |parts| - 1
        invariant made == CallsFor(parts[..k], parse)
        invariant st == if Completes(made) then Resolved else old(settlement)
        modifies {}
      {
        var call := HandleSegment(parts[k], parse);
        CallsForSnoc(parts, k, parse);
        if call.Some? {
          CompletesSnoc(made, call.value);
          made := made + [call.value];
          if call.value.OnComplete? {
            st := Resolved;
          }
        }
        k := k + 1;
      }
      assert parts[..k] == CompleteSegments(text);
      ReceiveStep(received, chunk, parse, calls, made);
      assert parts[|parts| - 1] == Remainder(received + chunk);
      assert st == SettlementOf(calls + made);
      buffer := parts[|parts| - 1];
      calls, settlement := calls + made, st;
      received := received + chunk;
    }

    /** The reader reports `done`: reading stops, and whatever is left in the buffer is dropped. */
    method Finish()
      requires Valid() && reading
      modifies this`reading
      ensures Valid() && !reading
    {
      reading := false;
    }
  }

  /**
   * The body of the `for` loop over the parts: skip a part without the
   * "data:" prefix, parse the rest, and try header, batch and final in turn.
   */
  method HandleSegment(part: string, parse: string -> Fields) returns (call: Option<Call>)
    ensures call == CallFor(part, parse)
  {
    if !StartsWith(part, Prefix) {
      return None;
    }
    var data := parse(Payload(part));
    if Has(data.totalBatches) {
      return Some(OnBatch(Header(data.totalBatches.value)));
    }
    if Has(data.batch) && Has(data.preds) {
      return Some(OnBatch(BatchUpdate(data.batch.value, data.preds.value)));
    }
    if Has(data.done) && Has(data.final) {
      return Some(OnComplete(data.final.value));
    }
    return None;
  }

  /** All the chunks, in delivery order, as one text. */
  function Concat(chunks: seq<string>): string {
    if chunks == [] then "" else Concat(AllButLast(chunks)) + Last(chunks)
  }

  lemma ConcatSnoc(chunks: seq<string>, i: nat)
    requires i < |chunks|
    ensures Concat(chunks[..i + 1]) == Concat(chunks[..i]) + chunks[i]
  {
    assert AllButLast(chunks[..i + 1]) == chunks[..i];
  }

  /**
   * A whole response: open, feed every chunk, stop at `done`. The callbacks
   * and the settlement depend only on the concatenated text, not on how it
   * was cut into chunks.
   */
  method Run(hasBody: bool, chunks: seq<string>, parse: string -> Fields)
    returns (calls: seq<Call>, settlement: Settlement, rest: string)
    ensures !hasBody ==> calls == [] && settlement == Rejected(NoBodyMessage) && rest == ""
    ensures hasBody ==> calls == CallsFor(CompleteSegments(Concat(chunks)), parse)
    ensures hasBody ==> rest == Remainder(Concat(chunks))
    ensures hasBody ==> settlement == SettlementOf(calls)
  {
    var session := new StreamSession.Open(hasBody, parse);
    if !hasBody {
      return session.calls, session.settlement, session.buffer;
    }
    var i := 0;
    while i < |chunks|
      invariant 0 <= i <= |chunks|
      invariant session.Valid() && session.reading && session.parse == parse
      invariant session.received == Concat(chunks[..i])
    {
      ConcatSnoc(chunks, i);
      session.Receive(chunks[i]);
      i := i + 1;
    }
    assert chunks[..i] == chunks;
    session.Finish();
    calls, settlement, rest := session.calls, session.settlement, session.buffer;
  }

  /** Once the promise is resolved, later final frames still call `onComplete` but settle nothing. */
  lemma ResolvedStaysResolved(calls: seq<Call>, more: seq<Call>)
    requires SettlementOf(calls) == Resolved
    ensures SettlementOf(calls + more) == Resolved
  {
    var k :| 0 <= k < |calls| && calls[k].OnComplete?;
    assert (calls + more)[k] == calls[k];
  }
}
