/** The per-file event tables of a dilepton HDF5 file, once read: each row is one
    event with its jet counts, MET, leptons, jets and neutrino targets, each
    particle a row of feature values. */
module Events {

  /** A row of particle features (`structured_to_unstructured` of one record). */
  type Row = seq<real>

  /** The trailing (per-event) shape of every component of a table. */
  datatype Shape = Shape(
    metWidth: nat,
    nLeptons: nat, lepWidth: nat,
    nJets: nat, jetWidth: nat,
    nNeutrinos: nat, nuWidth: nat)

  /** One row of the table: the `njets`, `nbjets`, `MET`, `leptons`, `jets`
      and `neutrinos` fields of one event. */
  datatype RawEvent = RawEvent(
    njets: real, nbjets: real,
    met: Row,
    leptons: seq<Row>,
    jets: seq<Row>,
    neutrinos: seq<Row>)

  /** One file's table: its shape, the field names of each compound column
      (`dtype.names`) and its rows. */
  datatype FileTable = FileTable(
    shape: Shape,
    metVars: seq<string>, lepVars: seq<string>, jetVars: seq<string>, nuVars: seq<string>,
    rows: seq<RawEvent>)

  /** m has `rows` rows of `cols` features each. */
  predicate IsMatrix(m: seq<Row>, rows: nat, cols: nat)
  {
    |m| == rows && forall i :: 0 <= i < |m| ==> |m[i]| == cols
  }

  /** Every event of `a` holds `rows` particles of `cols` features. */
  predicate EventsShaped(a: seq<seq<Row>>, rows: nat, cols: nat)
  {
    forall e :: 0 <= e < |a| ==> IsMatrix(a[e], rows, cols)
  }

  /** Every row of `a` has `cols` features. */
  predicate RowsShaped(a: seq<Row>, cols: nat)
  {
    forall e :: 0 <= e < |a| ==> |a[e]| == cols
  }

  predicate EventFits(e: RawEvent, s: Shape)
  {
    && |e.met| == s.metWidth
    && IsMatrix(e.leptons, s.nLeptons, s.lepWidth)
    && IsMatrix(e.jets, s.nJets, s.jetWidth)
    && IsMatrix(e.neutrinos, s.nNeutrinos, s.nuWidth)
  }

  /** What an HDF5 table guarantees: every row has the table's shape. The field
      names are not tied to the feature counts, since a subarray field spans
      several features under one name. */
  predicate WellFormedTable(t: FileTable)
  {
    forall i :: 0 <= i < |t.rows| ==> EventFits(t.rows[i], t.shape)
  }
}
