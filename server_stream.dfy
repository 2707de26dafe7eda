/**
 * The server side of the segmentation stream (backend/api.py): feature
 * shaping, the batch count, and the generator that frames the predictions
 * as "data: <json>\n\n" events. The network that predicts labels for a
 * batch of points is a parameter `predict`.
 */
module ServerStream {
  import opened Wrappers

  /** One point: its feature values (float32 in the source). */
  type Row = seq<real>

  /** Every row has `width` columns: an N x width array. */
  ghost predicate IsMatrix(m: seq<Row>, width: nat) {
    forall i :: 0 <= i < |m| ==> |m[i]| == width
  }

  const Features: nat := 7
  const BatchSize: nat := 50000

  function Zeros(n: nat): (z: Row)
    ensures |z| == n && forall j :: 0 <= j < n ==> z[j] == 0.0
  {
    seq(n, _ => 0.0)
  }

  /** A row followed by `n` zero columns. */
  function PadRow(row: Row, n: nat): (r: Row)
    ensures |r| == |row| + n
    ensures forall j :: 0 <= j < |r| ==> r[j] == if j < |row| then row[j] else 0.0
  {
    row + Zeros(n)
  }

  /** `normalize_point_features`: crop to the first 7 columns, or pad with zero columns up to 7. */
  function NormalizePointFeatures(points: seq<Row>, f: nat): (r: seq<Row>)
    requires IsMatrix(points, f)
    ensures |r| == |points| && IsMatrix(r, Features)
    ensures forall i, j :: 0 <= i < |r| && 0 <= j < Features ==>
              r[i][j] == if j < f then points[i][j] else 0.0
    ensures f == Features ==> r == points
  {
    if f > Features then
      var r := seq(|points|, i requires 0 <= i < |points| => points[i][..Features]);
      assert forall i, j :: 0 <= i < |r| && 0 <= j < Features ==> r[i][j] == points[i][..Features][j];
      r
    else if f < Features then
      seq(|points|, i requires 0 <= i < |points| => PadRow(points[i], Features - f))
    else points
  }

  /** `(N + batch_size - 1) // batch_size`: the number of batches, rounded up. */
  function TotalBatches(n: nat): (t: nat)
    ensures n <= t * BatchSize
    ensures n > 0 ==> (t - 1) * BatchSize < n
    ensures n == 0 <==> t == 0
  {
    (n + BatchSize - 1) / BatchSize
  }

  /** The consecutive slices `points[i:i+batch_size]` for i = 0, batch_size, 2*batch_size, ... */
  function Batches<T>(points: seq<T>): (bs: seq<seq<T>>)
    decreases |points|
  {
    if points == [] then []
    else if |points| <= BatchSize then [points]
    else [points[..BatchSize]] + Batches(points[BatchSize..])
  }

  function Flatten<T>(parts: seq<seq<T>>): (s: seq<T>) {
    if parts == [] then [] else parts[0] + Flatten(parts[1..])
  }

  lemma {:induction false} FlattenAppend<T>(a: seq<seq<T>>, b: seq<seq<T>>)
    ensures Flatten(a + b) == Flatten(a) + Flatten(b)
  {
    if a == [] {
      assert a + b == b;
    } else {
      assert (a + b)[1..] == a[1..] + b;
      FlattenAppend(a[1..], b);
    }
  }

  /**
   * The batches partition the points in order: there are TotalBatches of
   * them, none empty, all but the last of exactly batch_size points.
   */
  lemma {:induction false} BatchesPartition<T>(points: seq<T>)
    ensures |Batches(points)| == TotalBatches(|points|)
    ensures Flatten(Batches(points)) == points
    ensures forall k :: 0 <= k < |Batches(points)| ==> 0 < |Batches(points)[k]| <= BatchSize
    ensures forall k :: 0 <= k < |Batches(points)| - 1 ==> |Batches(points)[k]| == BatchSize
    decreases |points|
  {
    if points == [] {
    } else if |points| <= BatchSize {
      assert Flatten([points]) == points + Flatten<T>([]);
    } else {
      var rest := points[BatchSize..];
      BatchesPartition(rest);
      var bs := Batches(points);
      assert bs == [points[..BatchSize]] + Batches(rest);
      assert bs[1..] == Batches(rest);
      assert points == points[..BatchSize] + rest;
      assert TotalBatches(|points|) == 1 + TotalBatches(|rest|);
      forall k | 1 <= k < |bs| ensures 0 < |bs[k]| <= BatchSize { assert bs[k] == Batches(rest)[k - 1]; }
      forall k | 1 <= k < |bs| - 1 ensures |bs[k]| == BatchSize { assert bs[k] == Batches(rest)[k - 1]; }
    }
  }

  /** Batch k (from 0) is the slice starting at k * batch_size. */
  lemma {:induction false} BatchAt<T>(points: seq<T>, k: nat)
    requires k < |Batches(points)|
    ensures k * BatchSize < |points|
    ensures Batches(points)[k] == points[k * BatchSize .. if (k + 1) * BatchSize < |points| then (k + 1) * BatchSize else |points|]
    decreases k
  {
    if k > 0 {
      assert |points| > BatchSize;
      var rest := points[BatchSize..];
      assert Batches(points)[k] == Batches(rest)[k - 1];
      BatchAt(rest, k - 1);
      var lo := (k - 1) * BatchSize;
      assert lo + BatchSize == k * BatchSize;
      var hi := if k * BatchSize < |rest| then k * BatchSize else |rest|;
      assert Batches(rest)[k - 1] == rest[lo..hi];
      assert rest[lo..hi] == points[lo + BatchSize..hi + BatchSize];
    }
  }

  /** The batches of a suffix: the slice up to batch_size points on, then the batches after it. */
  lemma BatchesFrom<T>(points: seq<T>, i: nat, end: nat)
    requires i < |points| && end == if i + BatchSize < |points| then i + BatchSize else |points|
    ensures Batches(points[i..]) == [points[i..end]] + Batches(points[end..])
  {
    if |points[i..]| > BatchSize {
      assert points[i..][..BatchSize] == points[i..end];
      assert points[i..][BatchSize..] == points[end..];
    } else {
      assert points[end..] == [];
      assert points[i..end] == points[i..];
    }
  }

  /** One server-sent event, before it is written out as text. */
  datatype Frame =
    | HeaderFrame(totalBatches: nat)
    | BatchFrame(batch: nat, preds: seq<int>)
    | FinalFrame(final: seq<int>)
    | ErrorFrame(error: string)

  /** The predictions that the batch frames of a stream carry, in order. */
  function BatchPreds(frames: seq<Frame>): seq<int> {
    if frames == [] then []
    else (if frames[0].BatchFrame? then frames[0].preds else []) + BatchPreds(frames[1..])
  }

  lemma {:induction false} BatchPredsSnoc(frames: seq<Frame>, f: Frame)
    ensures BatchPreds(frames + [f]) == BatchPreds(frames) + (if f.BatchFrame? then f.preds else [])
  {
    if frames != [] {
      assert (frames + [f])[1..] == frames[1..] + [f];
      BatchPredsSnoc(frames[1..], f);
    } else {
      assert [f][1..] == [];
    }
  }

  /** One more batch frame adds its predictions to the collected list and to the frames' predictions alike. */
  lemma PredsStep(sent: seq<Frame>, allPreds: seq<seq<int>>, batchNum: nat, preds: seq<int>)
    requires Flatten(allPreds) == BatchPreds(sent)
    ensures Flatten(allPreds + [preds]) == BatchPreds(sent + [BatchFrame(batchNum, preds)])
  {
    FlattenAppend(allPreds, [preds]);
    assert Flatten([preds]) == preds + Flatten<int>([]);
    BatchPredsSnoc(sent, BatchFrame(batchNum, preds));
  }

  /** The network keeps one prediction per point. */
  ghost predicate KeepsLength(predict: seq<Row> -> seq<int>) {
    forall part :: |predict(part)| == |part|
  }

  /** The batch frames the generator yields: batch k + 1 carries the predictions for the k-th slice. */
  function BatchFrames(points: seq<Row>, predict: seq<Row> -> seq<int>): (fs: seq<Frame>) {
    FramesOf(Batches(points), predict)
  }

  /** Frame k + 1 for the k-th of the slices `bs`. */
  function FramesOf(bs: seq<seq<Row>>, predict: seq<Row> -> seq<int>): (fs: seq<Frame>)
    ensures |fs| == |bs|
    ensures forall k :: 0 <= k < |bs| ==> fs[k] == BatchFrame(k + 1, predict(bs[k]))
  {
    seq(|bs|, k requires 0 <= k < |bs| => BatchFrame(k + 1, predict(bs[k])))
  }

  /** One more slice adds one more frame, numbered after the others. */
  lemma FramesOfSnoc(bs: seq<seq<Row>>, part: seq<Row>, predict: seq<Row> -> seq<int>)
    ensures FramesOf(bs + [part], predict) == FramesOf(bs, predict) + [BatchFrame(|bs| + 1, predict(part))]
  {
    assert (bs + [part])[|bs|] == part;
  }

  /**
   * `event_generator`: the header, then one frame per batch numbered from
   * 1, then the final frame holding every batch's predictions in order.
   * With no points the concatenation of an empty list raises after the
   * header, so `completed` is false and no other frame is sent.
   */
  method EventGenerator(points: seq<Row>, predict: seq<Row> -> seq<int>)
    returns (frames: seq<Frame>, completed: bool)
    ensures completed <==> |points| > 0
    ensures !completed ==> frames == [HeaderFrame(0)]
    ensures completed ==> frames == [HeaderFrame(TotalBatches(|points|))] + BatchFrames(points, predict)
                                    + [FinalFrame(BatchPreds(BatchFrames(points, predict)))]
  {
    var header := HeaderFrame(TotalBatches(|points|));
    frames := [header];
    var allPreds: seq<seq<int>> := [];
    ghost var done: seq<seq<Row>> := [];
    ghost var sent: seq<Frame> := [];
    var batchNum := 1;
    var i := 0;
    while i < |points|
      invariant i <= |points|
      invariant Batches(points) == done + Batches(points[i..])
      invariant batchNum == |done| + 1
      invariant frames == [header] + sent && sent == FramesOf(done, predict)
      invariant Flatten(allPreds) == BatchPreds(sent)
      invariant allPreds == [] <==> i == 0
      decreases |points| - i
    {
      var end := if i + BatchSize < |points| then i + BatchSize else |points|;
      var part := points[i..end];
      BatchesFrom(points, i, end);
      var preds := predict(part);
      PredsStep(sent, allPreds, batchNum, preds);
      FramesOfSnoc(done, part, predict);
      allPreds := allPreds + [preds];
      frames := frames + [BatchFrame(batchNum, preds)];
      sent := sent + [BatchFrame(batchNum, preds)];
      done := done + [part];
      batchNum := batchNum + 1;
      i := end;
    }
    assert points[i..] == [];
    assert done == Batches(points);
    assert sent == BatchFrames(points, predict);
    if allPreds == [] {
      completed := false;
      return;
    }
    frames := frames + [FinalFrame(Flatten(allPreds))];
    completed := true;
  }

  /** The batch frames are numbered 1, 2, ... and batch k covers the points from (k - 1) * batch_size on. */
  lemma BatchFramesNumbered(points: seq<Row>, predict: seq<Row> -> seq<int>, k: nat)
    requires 1 <= k <= TotalBatches(|points|)
    ensures |BatchFrames(points, predict)| == TotalBatches(|points|)
    ensures (k - 1) * BatchSize < |points|
    ensures BatchFrames(points, predict)[k - 1]
         == BatchFrame(k, predict(points[(k - 1) * BatchSize .. if k * BatchSize < |points| then k * BatchSize else |points|]))
  {
    BatchesPartition(points);
    BatchAt(points, k - 1);
  }

  lemma {:induction false} BatchPredsLength(fs: seq<Frame>, bs: seq<seq<Row>>, predict: seq<Row> -> seq<int>)
    requires KeepsLength(predict) && |fs| == |bs|
    requires forall k :: 0 <= k < |fs| ==> fs[k].BatchFrame? && fs[k].preds == predict(bs[k])
    ensures |BatchPreds(fs)| == |Flatten(bs)|
  {
    if fs != [] {
      BatchPredsLength(fs[1..], bs[1..], predict);
    }
  }

  /** When the network keeps one label per point, the final frame holds exactly N labels. */
  lemma FinalCoversAllPoints(points: seq<Row>, predict: seq<Row> -> seq<int>)
    requires KeepsLength(predict)
    ensures |BatchPreds(BatchFrames(points, predict))| == |points|
  {
    BatchesPartition(points);
    BatchPredsLength(BatchFrames(points, predict), Batches(points), predict);
  }

  /** `segment_stream`: a single error frame without points, otherwise the shaped points' stream. */
  method SegmentStream(points: Option<seq<Row>>, f: nat, predict: seq<Row> -> seq<int>)
    returns (frames: seq<Frame>, completed: bool)
    requires points.Some? ==> IsMatrix(points.value, f)
    ensures points.None? ==> frames == [ErrorFrame("points missing")] && completed
    ensures points.Some? ==> completed == (|points.value| > 0)
    ensures points.Some? && completed ==>
              var shaped := NormalizePointFeatures(points.value, f);
              frames == [HeaderFrame(TotalBatches(|shaped|))] + BatchFrames(shaped, predict)
                        + [FinalFrame(BatchPreds(BatchFrames(shaped, predict)))]
    ensures points.Some? && !completed ==> frames == [HeaderFrame(0)]
  {
    if points.None? {
      return [ErrorFrame("points missing")], true;
    }
    var shaped := NormalizePointFeatures(points.value, f);
    frames, completed := EventGenerator(shaped, predict);
  }
}
