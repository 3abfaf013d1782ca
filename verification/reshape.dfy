/** The per-event reshaping the dataset applies after stacking: the misc row,
    the jet padding mask, the neutrino column projection and the charge
    ordering of the leptons. */
module Reshape {
  import opened Events
  import opened Sorting

  // ---------------------------------------------------------------- misc

  /** `np.vstack([njets, nbjets])`: two columns, one entry per event. */
  function MiscColumns(ev: seq<RawEvent>): (cols: seq<Row>)
    ensures |cols| == 2 && RowsShaped(cols, |ev|)
  {
    [seq(|ev|, e requires 0 <= e < |ev| => ev[e].njets),
     seq(|ev|, e requires 0 <= e < |ev| => ev[e].nbjets)]
  }

  /** `.T` of a matrix whose rows all have n entries. */
  function Transpose(m: seq<Row>, n: nat): (t: seq<Row>)
    requires RowsShaped(m, n)
    ensures IsMatrix(t, n, |m|)
    ensures forall i, j :: 0 <= i < n && 0 <= j < |m| ==> t[i][j] == m[j][i]
  {
    seq(n, i requires 0 <= i < n => seq(|m|, j requires 0 <= j < |m| => m[j][i]))
  }

  /** Transposing twice gives back the matrix. */
  lemma {:induction false} TransposeTwice(m: seq<Row>, n: nat)
    requires RowsShaped(m, n)
    ensures Transpose(Transpose(m, n), |m|) == m
  {
    var t := Transpose(Transpose(m, n), |m|);
    forall j | 0 <= j < |m|
      ensures t[j] == m[j]
    {
      assert |t[j]| == n == |m[j]|;
    }
  }

  /** `np.vstack([njets, nbjets]).T`: one `[njets, nbjets]` row per event. */
  function MiscRows(ev: seq<RawEvent>): (r: seq<Row>)
    ensures |r| == |ev|
    ensures forall e :: 0 <= e < |ev| ==> r[e] == [ev[e].njets, ev[e].nbjets]
  {
    Transpose(MiscColumns(ev), |ev|)
  }

  /** Building the misc rows file by file and stacking them gives the rows of the
      stacked events. */
  lemma {:induction false} MiscRowsConcat(a: seq<RawEvent>, b: seq<RawEvent>)
    ensures MiscRows(a + b) == MiscRows(a) + MiscRows(b)
  {
    var l := MiscRows(a + b);
    var r := MiscRows(a) + MiscRows(b);
    forall e | 0 <= e < |a + b|
      ensures l[e] == r[e]
    {
      if e < |a| {
        assert (a + b)[e] == a[e];
      } else {
        assert (a + b)[e] == b[e - |a|];
      }
    }
  }

  const MiscVars: seq<string> := ["njets", "nbjets"]

  // ---------------------------------------------------------------- jets

  /** A padding jet: every feature is zero. */
  predicate IsPadding(jet: Row)
  {
    forall f :: 0 <= f < |jet| ==> jet[f] == 0.0
  }

  /** `~np.all(jet == 0, axis=-1)` for one jet. */
  function AnyNonZero(jet: Row): (present: bool)
    ensures present <==> exists f :: 0 <= f < |jet| && jet[f] != 0.0
  {
    if |jet| == 0 then false
    else jet[0] != 0.0 || (assert forall f :: 0 <= f < |jet| - 1 ==> jet[1..][f] == jet[f + 1];
                           AnyNonZero(jet[1..]))
  }

  /** The jet mask: same events x jets shape as the jets, true exactly for the
      jets that are not all-zero padding. */
  function JetMask(jets: seq<seq<Row>>): (mask: seq<seq<bool>>)
    ensures |mask| == |jets|
    ensures forall e :: 0 <= e < |jets| ==> |mask[e]| == |jets[e]|
    ensures forall e, j :: 0 <= e < |jets| && 0 <= j < |jets[e]| ==>
      (mask[e][j] <==> !IsPadding(jets[e][j]))
  {
    seq(|jets|, e requires 0 <= e < |jets| =>
      seq(|jets[e]|, j requires 0 <= j < |jets[e]| => AnyNonZero(jets[e][j])))
  }

  // ----------------------------------------------------------- neutrinos

  /** The kept neutrino features: column 0 (the pdgid) is dropped. */
  const NeutrinoColumns: seq<nat> := [1, 2, 3]

  /** `nu[..., [1, 2, 3]]`: every neutrino row keeps its columns 1, 2 and 3, in that order. */
  function ProjectNeutrinos(nu: seq<seq<Row>>): (r: seq<seq<Row>>)
    requires forall e, p :: 0 <= e < |nu| && 0 <= p < |nu[e]| ==> |nu[e][p]| >= 4
    ensures |r| == |nu|
    ensures forall e :: 0 <= e < |nu| ==> |r[e]| == |nu[e]|
    ensures forall e, p :: 0 <= e < |nu| && 0 <= p < |nu[e]| ==>
      r[e][p] == [nu[e][p][1], nu[e][p][2], nu[e][p][3]]
  {
    seq(|nu|, e requires 0 <= e < |nu| =>
      seq(|nu[e]|, p requires 0 <= p < |nu[e]| => Gather(nu[e][p], NeutrinoColumns)))
  }

  /** Projection keeps the number of neutrinos per event and leaves three
      features on each. */
  lemma {:induction false} ProjectionShape(nu: seq<seq<Row>>, count: nat, width: nat)
    requires width >= 4
    requires EventsShaped(nu, count, width)
    ensures EventsShaped(ProjectNeutrinos(nu), count, 3)
  {
    var r := ProjectNeutrinos(nu);
    forall e | 0 <= e < |nu|
      ensures IsMatrix(r[e], count, 3)
    {
      assert IsMatrix(nu[e], count, width);
    }
  }

  /** Feature names paired with the values they label. */
  function Labelled(names: seq<string>, row: Row): (r: seq<(string, real)>)
    requires |names| == |row|
    ensures |r| == |row|
    ensures forall k :: 0 <= k < |r| ==> r[k] == (names[k], row[k])
  {
    seq(|row|, k requires 0 <= k < |row| => (names[k], row[k]))
  }

  /** Projecting names and values by the same columns keeps every value under
      its own name. */
  lemma {:induction false} ProjectionKeepsLabels(names: seq<string>, row: Row, cols: seq<nat>)
    requires |names| == |row|
    requires IndicesIn(cols, |row|)
    ensures Labelled(Gather(names, cols), Gather(row, cols)) == Gather(Labelled(names, row), cols)
  {
  }

  // ------------------------------------------------------------- leptons

  /** Column of the lepton charge: `-2`, the second-to-last feature. */
  function ChargeColumn(width: nat): nat
    requires width >= 2
  {
    width - 2
  }

  /** The leptons of one event, read at feature `col`, never decrease. */
  predicate ChargeOrdered(event: seq<Row>, col: nat)
  {
    forall a, b :: 0 <= a < b < |event| ==>
      col < |event[a]| && col < |event[b]| && event[a][col] <= event[b][col]
  }

  /** The charge of every lepton of one event. */
  function Charges(event: seq<Row>, col: nat): (keys: seq<real>)
    requires forall j :: 0 <= j < |event| ==> col < |event[j]|
    ensures |keys| == |event|
    ensures forall j :: 0 <= j < |event| ==> keys[j] == event[j][col]
  {
    seq(|event|, j requires 0 <= j < |event| => event[j][col])
  }

  /** `take_along_axis(event, argsort(charges))` for one event. */
  function ReorderEvent(event: seq<Row>, col: nat): (r: seq<Row>)
    requires forall j :: 0 <= j < |event| ==> col < |event[j]|
    ensures |r| == |event|
    ensures multiset(r) == multiset(event)
    ensures ChargeOrdered(r, col)
  {
    var keys := Charges(event, col);
    var order := ArgSort(keys);
    GatherPermutation(event, order);
    var r := Gather(event, order);
    assert forall j :: 0 <= j < |r| ==> r[j] in multiset(event);
    r
  }

  /** Leptons of every event ordered by charge, so the particle (negative charge)
      comes before the antiparticle. */
  function ReorderLeptons(lep: seq<seq<Row>>, width: nat): (r: seq<seq<Row>>)
    requires width >= 2
    requires forall e, j :: 0 <= e < |lep| && 0 <= j < |lep[e]| ==> |lep[e][j]| == width
    ensures |r| == |lep|
    ensures forall e :: 0 <= e < |lep| ==> |r[e]| == |lep[e]| && multiset(r[e]) == multiset(lep[e])
    ensures forall e, j :: 0 <= e < |lep| && 0 <= j < |r[e]| ==> |r[e][j]| == width
    ensures forall e :: 0 <= e < |lep| ==> ChargeOrdered(r[e], ChargeColumn(width))
  {
    seq(|lep|, e requires 0 <= e < |lep| => ReorderEvent(lep[e], ChargeColumn(width)))
  }

  /** Reordering keeps the number of leptons per event and their width. */
  lemma {:induction false} ReorderKeepsShape(lep: seq<seq<Row>>, count: nat, width: nat)
    requires width >= 2
    requires EventsShaped(lep, count, width)
    ensures EventsShaped(ReorderLeptons(lep, width), count, width)
  {
    var r := ReorderLeptons(lep, width);
    forall e | 0 <= e < |lep|
      ensures IsMatrix(r[e], count, width)
    {
      assert IsMatrix(lep[e], count, width);
    }
  }

  /** A dilepton event with one negative and one positive lepton always ends up as
      [negative, positive], whichever order it was stored in. */
  lemma {:induction false} ParticleBeforeAntiparticle(lep: seq<seq<Row>>, width: nat, e: nat)
    requires width >= 2
    requires forall e, j :: 0 <= e < |lep| && 0 <= j < |lep[e]| ==> |lep[e][j]| == width
    requires e < |lep| && |lep[e]| == 2
    requires lep[e][0][ChargeColumn(width)] * lep[e][1][ChargeColumn(width)] < 0.0
    ensures ReorderLeptons(lep, width)[e][0][ChargeColumn(width)] < 0.0
    ensures ReorderLeptons(lep, width)[e][1][ChargeColumn(width)] > 0.0
    ensures multiset(ReorderLeptons(lep, width)[e]) == multiset{lep[e][0], lep[e][1]}
  {
    var r := ReorderLeptons(lep, width)[e];
    assert lep[e] == [lep[e][0], lep[e][1]];
    assert r == [r[0], r[1]];
    assert r[0] in multiset(lep[e]) && r[1] in multiset(lep[e]);
  }
}
