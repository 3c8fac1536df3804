/** The value held by a two-dimensional array. */
module Matrix {

  /** `a` read as a sequence of rows: `Snapshot(a)[i][j] == a[i, j]`. */
  ghost function Snapshot<T>(a: array2<T>): (s: seq<seq<T>>)
    reads a
    ensures |s| == a.Length0
    ensures forall i :: 0 <= i < |s| ==> |s[i]| == a.Length1
    ensures forall i, j :: 0 <= i < a.Length0 && 0 <= j < a.Length1 ==> s[i][j] == a[i, j]
  {
    seq(a.Length0, i requires 0 <= i < a.Length0 reads a =>
      seq(a.Length1, j requires 0 <= j < a.Length1 reads a => a[i, j]))
  }

  /** Two sequences of rows with the same shape and the same entries are
      equal. */
  lemma {:induction false} RowsEqual<T>(s: seq<seq<T>>, t: seq<seq<T>>)
    requires |s| == |t|
    requires forall i :: 0 <= i < |s| ==> |s[i]| == |t[i]|
    requires forall i, j :: 0 <= i < |s| && 0 <= j < |s[i]| ==> s[i][j] == t[i][j]
    ensures s == t
  {
    forall i | 0 <= i < |s| ensures s[i] == t[i] {
      assert forall j :: 0 <= j < |s[i]| ==> s[i][j] == t[i][j];
    }
  }
}
