/**
 * The batch upload panel (frontend/src/components/BatchView.jsx): the
 * file list that drops append to and the file input replaces, and the
 * sequential run that uploads every file and reports integer progress.
 * The upload call is outside the model: its reply for the k-th file of a
 * run is the input `replies[k]`.
 */
module BatchView {
  import opened JsText

  /** A selected file; only its name matters here. */
  datatype FileRef = FileRef(name: string)

  /** What `segmentPointCloud` did for one file: a reply, or an exception with its message. */
  datatype Reply = Answered(numPoints: int) | Threw(message: string)

  /** One entry of the results list. */
  datatype Entry = Counted(name: string, numPoints: int) | Failed(name: string, error: string)

  const Extension := ".npz"

  /** The files of `fs` whose names end in ".npz", in order. */
  function NpzOnly(fs: seq<FileRef>): (kept: seq<FileRef>)
    ensures |kept| <= |fs|
    ensures forall f :: f in kept <==> f in fs && EndsWith(f.name, Extension)
    decreases |fs|
  {
    if fs == [] then []
    else
      var rest := NpzOnly(fs[..|fs| - 1]);
      var f := fs[|fs| - 1];
      assert forall g :: g in fs <==> g in fs[..|fs| - 1] || g == f;
      if EndsWith(f.name, Extension) then rest + [f] else rest
  }

  /** Filtering two lists one after the other filters their concatenation. */
  lemma {:induction false} NpzOnlyAppend(a: seq<FileRef>, b: seq<FileRef>)
    ensures NpzOnly(a + b) == NpzOnly(a) + NpzOnly(b)
    decreases |b|
  {
    if b != [] {
      var init := b[..|b| - 1];
      assert (a + b)[..|a + b| - 1] == a + init;
      NpzOnlyAppend(a, init);
    } else {
      assert a + b == a;
    }
  }

  /** A list of ".npz" files passes the filter unchanged. */
  lemma {:induction false} NpzOnlyKeepsAll(fs: seq<FileRef>)
    requires forall k :: 0 <= k < |fs| ==> EndsWith(fs[k].name, Extension)
    ensures NpzOnly(fs) == fs
    decreases |fs|
  {
    if fs != [] {
      NpzOnlyKeepsAll(fs[..|fs| - 1]);
      assert fs[..|fs| - 1] + [fs[|fs| - 1]] == fs;
    }
  }

  /** The entry pushed for one file. */
  function EntryFor(f: FileRef, r: Reply): (e: Entry)
    ensures e.name == f.name
    ensures e.Failed? <==> r.Threw?
    ensures r.Answered? ==> e == Counted(f.name, r.numPoints)
    ensures r.Threw? ==> e == Failed(f.name, r.message)
  {
    match r
    case Answered(n) => Counted(f.name, n)
    case Threw(m) => Failed(f.name, m)
  }

  /** The results of a run: one entry per file, in file order. */
  function Entries(fs: seq<FileRef>, rs: seq<Reply>): (es: seq<Entry>)
    requires |fs| == |rs|
    ensures |es| == |fs|
    ensures forall k :: 0 <= k < |fs| ==> es[k] == EntryFor(fs[k], rs[k])
  {
    seq(|fs|, k requires 0 <= k < |fs| => EntryFor(fs[k], rs[k]))
  }

  /** A failing file does not stop the files after it: every later file gets the entry its own reply gives. */
  lemma FailureDoesNotStop(fs: seq<FileRef>, rs: seq<Reply>, k: nat)
    requires |fs| == |rs| && k < |fs| && rs[k].Threw?
    ensures Entries(fs, rs)[k] == Failed(fs[k].name, rs[k].message)
    ensures forall j :: k < j < |fs| ==> Entries(fs, rs)[j] == EntryFor(fs[j], rs[j])
  {
  }

  /** `Math.round(((i + 1) / total) * 100)`, in exact arithmetic: the floor of (i + 1) * 100 / total + 1/2. */
  function Progress(i: nat, total: nat): (p: int)
    requires total > 0
  {
    ((i + 1) * 200 + total) / (2 * total)
  }

  lemma DivMonotone(x: int, y: int, d: int)
    requires 0 <= x <= y && d > 0
    ensures x / d <= y / d
  {
    var qx, qy := x / d, y / d;
    assert d * qx <= x && y < d * qy + d;
    assert d * qy + d == d * (qy + 1);
    MulLess(d, qx, qy + 1);
  }

  lemma MulLess(d: int, a: int, b: int)
    requires d > 0 && d * a < d * b
    ensures a < b
  {
    assert d * b - d * a == d * (b - a);
  }

  /** The progress after file i lies in 0..100 and never decreases from one file to a later one. */
  lemma ProgressMonotone(i: nat, j: nat, total: nat)
    requires i <= j < total
    ensures 0 <= Progress(i, total) <= Progress(j, total) <= 100
  {
    var a, b, c := (i + 1) * 200 + total, (j + 1) * 200 + total, total * 200 + total;
    assert a <= b <= c by {
      assert (i + 1) * 200 <= (j + 1) * 200 <= total * 200;
    }
    DivMonotone(a, b, 2 * total);
    DivMonotone(b, c, 2 * total);
    ProgressEnds(total);
  }

  /** After the last file the progress is exactly 100. */
  lemma ProgressEnds(total: nat)
    requires total > 0
    ensures Progress(total - 1, total) == 100
  {
    var d := 2 * total;
    assert (total - 1 + 1) * 200 + total == d * 100 + total;
    DivUnique(d * 100 + total, d, 100);
  }

  /** The quotient of x by d is the q with d * q <= x < d * q + d. */
  lemma DivUnique(x: int, d: int, q: int)
    requires d > 0 && d * q <= x < d * q + d
    ensures x / d == q
  {
    var r := x / d;
    assert d * r <= x < d * r + d;
    if r < q {
      assert d * (r + 1) <= d * q by { MulMono(d, r + 1, q); }
    } else if r > q {
      assert d * (q + 1) <= d * r by { MulMono(d, q + 1, r); }
    }
  }

  lemma MulMono(d: int, a: int, b: int)
    requires d > 0 && a <= b
    ensures d * a <= d * b
  {
    assert d * b - d * a == d * (b - a);
  }

  class BatchPanel {
    var files: seq<FileRef>
    var dragging: bool
    var results: seq<Entry>
    var loading: bool
    var progress: int

    constructor ()
      ensures files == [] && !dragging && results == [] && !loading && progress == 0
    {
      files := [];
      dragging := false;
      results := [];
      loading := false;
      progress := 0;
    }

    /** `handleDrop`: the dropped ".npz" files are appended, in order, after the ones already listed. */
    method HandleDrop(dropped: seq<FileRef>)
      modifies this
      ensures files == old(files) + NpzOnly(dropped) && !dragging
      ensures results == old(results) && loading == old(loading) && progress == old(progress)
    {
      dragging := false;
      var list := NpzOnly(dropped);
      files := files + list;
    }

    /** The file input's change handler: the chosen files replace the list, unfiltered. */
    method ChooseFiles(chosen: seq<FileRef>)
      modifies this
      ensures files == chosen
      ensures dragging == old(dragging) && results == old(results) && loading == old(loading) && progress == old(progress)
    {
      files := chosen;
    }

    /**
     * `runBatch`: with no files nothing happens; otherwise every file is
     * uploaded in order, its entry appended whatever the reply, the
     * progress advanced, and loading is off at the end.
     */
    method RunBatch(replies: seq<Reply>)
      requires |replies| == |files|
      modifies this
      ensures files == old(files) && dragging == old(dragging)
      ensures old(files) == [] ==> results == old(results) && loading == old(loading) && progress == old(progress)
      ensures old(files) != [] ==> results == Entries(files, replies) && progress == 100 && !loading
    {
      if |files| == 0 {
        return;
      }
      loading := true;
      progress := 0;
      results := [];
      var out: seq<Entry> := [];
      var total := |files|;
      for i := 0 to total
        invariant files == old(files) && dragging == old(dragging) && loading
        invariant out == Entries(files[..i], replies[..i]) && results == out
        invariant i > 0 ==> progress == Progress(i - 1, total)
      {
        var f := files[i];
        match replies[i] {
          case Answered(n) => out := out + [Counted(f.name, n)];
          case Threw(m) => out := out + [Failed(f.name, m)];
        }
        results := out;
        progress := Progress(i, total);
      }
      ProgressEnds(total);
      loading := false;
      assert files[..total] == files && replies[..total] == replies;
    }
  }
}
