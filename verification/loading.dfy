/** Reading at most n_per_file rows of every file and stacking the files in
    list order (`table[...][:npf]` followed by `np.vstack`). */
module Loading {
  import opened Outcomes
  import opened Events

  /** Length of `s[:npf]` for a sequence of length n, with Python's slice rules:
      None keeps everything, a negative bound counts from the end. */
  function SliceLen(n: nat, npf: Option<int>): nat
  {
    match npf
    case None => n
    case Some(k) =>
      if k >= 0 then (if k < n then k else n)
      else (if n + k > 0 then n + k else 0)
  }

  /** `s[:npf]`. */
  function Take<T>(s: seq<T>, npf: Option<int>): (r: seq<T>)
    ensures r <= s
    ensures npf.None? ==> r == s
    ensures npf.Some? && npf.value >= 0 ==> |r| == if npf.value < |s| then npf.value else |s|
    ensures npf.Some? && npf.value < 0 ==> |r| == if -npf.value < |s| then |s| + npf.value else 0
  {
    s[..SliceLen(|s|, npf)]
  }

  /** Number of events loaded from the files: the sum of the per-file slice lengths. */
  function LoadedCount(files: seq<FileTable>, npf: Option<int>): nat
  {
    if |files| == 0 then 0
    else SliceLen(|files[0].rows|, npf) + LoadedCount(files[1..], npf)
  }

  /** The truncated per-file rows stacked in file order. */
  function Stack(files: seq<FileTable>, npf: Option<int>): (events: seq<RawEvent>)
    ensures |events| == LoadedCount(files, npf)
  {
    if |files| == 0 then []
    else Take(files[0].rows, npf) + Stack(files[1..], npf)
  }

  /** Position in the stacked events of the first row loaded from file f. */
  function Offset(files: seq<FileTable>, npf: Option<int>, f: nat): nat
    requires f <= |files|
  {
    LoadedCount(files[..f], npf)
  }

  /** Without a per-file bound every row of every file is loaded. */
  lemma {:induction false} LoadedCountAll(files: seq<FileTable>)
    ensures |Stack(files, None)| == SumRows(files)
  {
    if |files| > 0 {
      LoadedCountAll(files[1..]);
    }
  }

  function SumRows(files: seq<FileTable>): nat
  {
    if |files| == 0 then 0 else |files[0].rows| + SumRows(files[1..])
  }

  /** With a non-negative bound k, min(k, rows) events are loaded per file. */
  lemma {:induction false} LoadedCountBounded(files: seq<FileTable>, k: nat)
    ensures |Stack(files, Some(k))| == SumMin(files, k)
  {
    if |files| > 0 {
      LoadedCountBounded(files[1..], k);
    }
  }

  function SumMin(files: seq<FileTable>, k: nat): nat
  {
    if |files| == 0 then 0
    else (if k < |files[0].rows| then k else |files[0].rows|) + SumMin(files[1..], k)
  }

  /** Row r of file f is the stacked event at Offset(f) + r. */
  lemma {:induction false} StackIndex(files: seq<FileTable>, npf: Option<int>, f: nat, r: nat)
    requires f < |files|
    requires r < SliceLen(|files[f].rows|, npf)
    ensures Offset(files, npf, f) + r < |Stack(files, npf)|
    ensures Stack(files, npf)[Offset(files, npf, f) + r] == files[f].rows[r]
  {
    var head := Take(files[0].rows, npf);
    assert Stack(files, npf) == head + Stack(files[1..], npf);
    if f == 0 {
      assert files[..0] == [];
    } else {
      StackIndex(files[1..], npf, f - 1, r);
      assert files[..f][1..] == files[1..][..f - 1];
      assert files[..f][0] == files[0];
    }
  }

  /** The block of file f1 ends before the block of any later file f2 begins. */
  lemma {:induction false} OffsetsOrdered(files: seq<FileTable>, npf: Option<int>, f1: nat, f2: nat)
    requires f1 < f2 <= |files|
    ensures Offset(files, npf, f1) + SliceLen(|files[f1].rows|, npf) <= Offset(files, npf, f2)
    decreases f2
  {
    if f2 > f1 + 1 {
      OffsetsOrdered(files, npf, f1, f2 - 1);
    }
    CountSnoc(files[..f2 - 1], files[f2 - 1], npf);
    assert files[..f2] == files[..f2 - 1] + [files[f2 - 1]];
  }

  lemma {:induction false} CountSnoc(files: seq<FileTable>, t: FileTable, npf: Option<int>)
    ensures LoadedCount(files + [t], npf) == LoadedCount(files, npf) + SliceLen(|t.rows|, npf)
  {
    if |files| > 0 {
      CountSnoc(files[1..], t, npf);
      assert (files + [t])[1..] == files[1..] + [t];
    }
  }

  /** Every stacked event has the shape shared by all files. */
  lemma {:induction false} StackFits(files: seq<FileTable>, npf: Option<int>, s: Shape)
    requires forall i :: 0 <= i < |files| ==> files[i].shape == s && WellFormedTable(files[i])
    ensures forall e :: 0 <= e < |Stack(files, npf)| ==> EventFits(Stack(files, npf)[e], s)
  {
    if |files| > 0 {
      StackFits(files[1..], npf, s);
      var head := Take(files[0].rows, npf);
      assert Stack(files, npf) == head + Stack(files[1..], npf);
      assert forall e :: 0 <= e < |head| ==> head[e] == files[0].rows[e];
    }
  }
}
