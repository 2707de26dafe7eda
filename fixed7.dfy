/**
 * The offline converter backend/convert_npy_to_npz.py: an N x D point
 * array becomes N x 7 by copying whole column groups, each only when the
 * input is wide enough for all of it (xyz needs 3 columns, rgb 6,
 * intensity 7).
 */
module Fixed7 {
  import opened Wrappers
  import opened ServerStream

  /** Whether output column j is copied from an input of width d. */
  predicate Copied(d: nat, j: nat) {
    (j < 3 && d >= 3) || (3 <= j < 6 && d >= 6) || (j == 6 && d >= 7)
  }

  /** What `convert_to_fixed7` computes, as a function of the rows. */
  function Fixed7Rows(points: seq<Row>, d: nat): (r: seq<Row>)
    requires IsMatrix(points, d)
    ensures |r| == |points| && IsMatrix(r, Features)
    ensures forall i, j :: 0 <= i < |r| && 0 <= j < Features ==>
              r[i][j] == if Copied(d, j) then points[i][j] else 0.0
  {
    seq(|points|, i requires 0 <= i < |points| =>
      seq(Features, j requires 0 <= j < Features => if Copied(d, j) then points[i][j] else 0.0))
  }

  /** The rows of a 2-D array. */
  function Rows(a: array2<real>): (m: seq<Row>)
    reads a
    ensures |m| == a.Length0 && IsMatrix(m, a.Length1)
    ensures forall i, j :: 0 <= i < a.Length0 && 0 <= j < a.Length1 ==> m[i][j] == a[i, j]
  {
    seq(a.Length0, i requires 0 <= i < a.Length0 reads a =>
      seq(a.Length1, j requires 0 <= j < a.Length1 reads a => a[i, j]))
  }

  lemma SameRows(a: seq<Row>, b: seq<Row>, width: nat)
    requires |a| == |b| && IsMatrix(a, width) && IsMatrix(b, width)
    requires forall i, j :: 0 <= i < |a| && 0 <= j < width ==> a[i][j] == b[i][j]
    ensures a == b
  {
    forall i | 0 <= i < |a|
      ensures a[i] == b[i]
    {
      assert forall j :: 0 <= j < width ==> a[i][j] == b[i][j];
    }
  }

  /** `out[:, lo:hi] = arr[:, lo:hi]`: columns lo..hi-1 copied, every other cell kept. */
  method CopyColumns(src: array2<real>, dst: array2<real>, lo: nat, hi: nat)
    requires src != dst && src.Length0 == dst.Length0
    requires lo <= hi <= src.Length1 && hi <= dst.Length1
    modifies dst
    ensures forall i, j :: 0 <= i < dst.Length0 && 0 <= j < dst.Length1 ==>
              dst[i, j] == if lo <= j < hi then src[i, j] else old(dst[i, j])
  {
    for i := 0 to dst.Length0
      invariant forall r, j :: 0 <= r < dst.Length0 && 0 <= j < dst.Length1 ==>
                  dst[r, j] == if r < i && lo <= j < hi then src[r, j] else old(dst[r, j])
    {
      for j := lo to hi
        invariant forall r, c :: 0 <= r < dst.Length0 && 0 <= c < dst.Length1 ==>
                    dst[r, c] == if (r < i && lo <= c < hi) || (r == i && lo <= c < j) then src[r, c] else old(dst[r, c])
      {
        dst[i, j] := src[i, j];
      }
    }
  }

  /** `convert_to_fixed7`: a new N x 7 array, zero except for the copied column groups. */
  method ConvertToFixed7(arr: array2<real>) returns (out: array2<real>)
    ensures fresh(out) && out.Length0 == arr.Length0 && out.Length1 == Features
    ensures Rows(out) == Fixed7Rows(Rows(arr), arr.Length1)
  {
    var n, d := arr.Length0, arr.Length1;
    out := new real[n, Features]((i, j) => 0.0);
    if d >= 3 {
      CopyColumns(arr, out, 0, 3);
    }
    if d >= 6 {
      CopyColumns(arr, out, 3, 6);
    }
    if d >= 7 {
      CopyColumns(arr, out, 6, 7);
    }
    SameRows(Rows(out), Fixed7Rows(Rows(arr), d), Features);
  }

  /** Narrower than 3 columns, the output is all zeros. */
  lemma NarrowIsZero(points: seq<Row>, d: nat)
    requires IsMatrix(points, d) && d < 3
    ensures Fixed7Rows(points, d) == seq(|points|, _ => Zeros(Features))
  {
    SameRows(Fixed7Rows(points, d), seq(|points|, _ => Zeros(Features)), Features);
  }

  /**
   * Columns 0-2 are copied from 3 input columns on; 3-5 only from 6 on,
   * so input columns 3 and 4 of a 4- or 5-wide input are dropped; column
   * 6 only from 7 on. No input column past 6 is read.
   */
  lemma ColumnGroups(points: seq<Row>, d: nat, i: nat)
    requires IsMatrix(points, d) && i < |points|
    ensures var r := Fixed7Rows(points, d)[i];
      (d >= 3 ==> r[..3] == points[i][..3])
      && (d < 6 ==> r[3..] == Zeros(4))
      && (d >= 6 ==> r[3..6] == points[i][3..6])
      && (d >= 7 ==> r[6] == points[i][6])
      && (d == 6 ==> r[6] == 0.0)
      && (d >= 7 ==> r == points[i][..7])
  {
  }

  /**
   * Where `convert_to_fixed7` and `normalize_point_features` agree: an input
   * of width 0, 3, or at least 6.
   */
  lemma AgreesWithNormalize(points: seq<Row>, d: nat)
    requires IsMatrix(points, d) && (d == 0 || d == 3 || d >= 6)
    ensures Fixed7Rows(points, d) == NormalizePointFeatures(points, d)
  {
    SameRows(Fixed7Rows(points, d), NormalizePointFeatures(points, d), Features);
  }

  /**
   * For widths 1, 2, 4 and 5 they differ on every input with a non-zero
   * value in its last column: the server keeps that column, the converter
   * zeroes it.
   */
  lemma DiffersFromNormalize(points: seq<Row>, d: nat, i: nat)
    requires IsMatrix(points, d) && d in {1, 2, 4, 5}
    requires i < |points| && points[i][d - 1] != 0.0
    ensures Fixed7Rows(points, d)[i][d - 1] == 0.0
    ensures NormalizePointFeatures(points, d)[i][d - 1] == points[i][d - 1]
    ensures Fixed7Rows(points, d) != NormalizePointFeatures(points, d)
  {
  }

  /** A loaded file: a 2-D array of the given width, or anything else. */
  datatype Loaded = Table(rows: seq<Row>, width: nat) | NotTable

  ghost predicate WellFormed(x: Loaded) {
    x.Table? ==> IsMatrix(x.rows, x.width)
  }

  /** The conversion step of `process_file`: anything that is not 2-D is rejected before conversion. */
  method ProcessFile(x: Loaded) returns (points: Option<seq<Row>>)
    requires WellFormed(x)
    ensures x.NotTable? <==> points.None?
    ensures x.Table? ==> points == Some(Fixed7Rows(x.rows, x.width))
  {
    if x.NotTable? {
      return None;
    }
    var arr := new real[|x.rows|, x.width]((i, j) =>
      if 0 <= i < |x.rows| && 0 <= j < x.width then x.rows[i][j] else 0.0);
    SameRows(Rows(arr), x.rows, x.width);
    var out := ConvertToFixed7(arr);
    points := Some(Rows(out));
  }
}
