/** The neutrino-regression dataset: built from already-read per-file tables,
    indexed event by event, and reporting the feature widths of its samples. */
module H5Dataset {
  import opened Outcomes
  import opened Events
  import opened Kinematics
  import opened Sorting
  import opened Loading
  import opened Reshape

  /** The constructor arguments that shape the data (paths and the table name
      only locate the files and are not modelled). */
  datatype Config = Config(
    nPerFile: Option<int>,
    metKins: KinSpec, lepKins: KinSpec, jetKins: KinSpec, nuKins: KinSpec)

  const DefaultConfig: Config :=
    Config(None, DefaultMetKins, DefaultLepKins, DefaultJetKins, DefaultNuKins)

  /** With the default arguments every row of every file is loaded and the
      kinematics are the documented defaults. */
  lemma {:induction false} DefaultConfigLoadsAll(files: seq<FileTable>)
    ensures LoadedCount(files, DefaultConfig.nPerFile) == SumRows(files)
    ensures ParseKins(DefaultConfig.metKins) == ["px", "py"]
    ensures ParseKins(DefaultConfig.lepKins) == ["px", "py", "pz", "log_energy"]
    ensures ParseKins(DefaultConfig.jetKins) == ["px", "py", "pz", "log_energy"]
    ensures ParseKins(DefaultConfig.nuKins) == ["px", "py", "pz"]
  {
    LoadedCountAll(files);
    DefaultMetKinsParsed();
    DefaultNuKinsParsed();
    DefaultLepKinsParsed();
  }

  /** The dataset's attributes once the arrays are stacked and reshaped, before the
      change of coordinates. `shape` is the per-event shape of the stored arrays. */
  datatype Dataset = Dataset(
    shape: Shape,
    metKins: seq<string>, lepKins: seq<string>, jetKins: seq<string>, nuKins: seq<string>,
    miscVars: seq<string>, metVars: seq<string>, lepVars: seq<string>,
    jetVars: seq<string>, nuVars: seq<string>,
    misc: seq<Row>,
    met: seq<Row>,
    lep: seq<seq<Row>>,
    jet: seq<seq<Row>>,
    jetMask: seq<seq<bool>>,
    nu: seq<seq<Row>>)

  /** Every array holds one entry per event, each of the dataset's shape, and each
      name list has one name per feature. */
  predicate Valid(ds: Dataset)
  {
    var n := |ds.met|;
    var s := ds.shape;
    && |ds.misc| == n && |ds.lep| == n && |ds.jet| == n && |ds.jetMask| == n && |ds.nu| == n
    && |ds.miscVars| == 2 && |ds.nuVars| == s.nuWidth
    && RowsShaped(ds.misc, 2)
    && RowsShaped(ds.met, s.metWidth)
    && EventsShaped(ds.lep, s.nLeptons, s.lepWidth)
    && EventsShaped(ds.jet, s.nJets, s.jetWidth)
    && (forall e :: 0 <= e < |ds.jetMask| ==> |ds.jetMask[e]| == s.nJets)
    && EventsShaped(ds.nu, s.nNeutrinos, s.nuWidth)
  }

  /** `len(dataset)`: the number of MET rows, which in a consistent dataset is
      the number of entries of every stored array. */
  function Len(ds: Dataset): (n: nat)
    ensures Valid(ds) ==>
      n == |ds.misc| && n == |ds.lep| && n == |ds.jet| && n == |ds.jetMask| && n == |ds.nu|
  {
    |ds.met|
  }

  /** All files share one per-event shape, the condition for `np.vstack` to succeed. */
  predicate SameShape(files: seq<FileTable>)
  {
    forall i, j :: 0 <= i < |files| && 0 <= j < |files| ==> files[i].shape == files[j].shape
  }

  /** The component arrays of the stacked events. */
  function Met(ev: seq<RawEvent>): (r: seq<Row>)
    ensures |r| == |ev| && forall e :: 0 <= e < |ev| ==> r[e] == ev[e].met
  {
    seq(|ev|, e requires 0 <= e < |ev| => ev[e].met)
  }

  function Leptons(ev: seq<RawEvent>): (r: seq<seq<Row>>)
    ensures |r| == |ev| && forall e :: 0 <= e < |ev| ==> r[e] == ev[e].leptons
  {
    seq(|ev|, e requires 0 <= e < |ev| => ev[e].leptons)
  }

  function Jets(ev: seq<RawEvent>): (r: seq<seq<Row>>)
    ensures |r| == |ev| && forall e :: 0 <= e < |ev| ==> r[e] == ev[e].jets
  {
    seq(|ev|, e requires 0 <= e < |ev| => ev[e].jets)
  }

  function Neutrinos(ev: seq<RawEvent>): (r: seq<seq<Row>>)
    ensures |r| == |ev| && forall e :: 0 <= e < |ev| ==> r[e] == ev[e].neutrinos
  {
    seq(|ev|, e requires 0 <= e < |ev| => ev[e].neutrinos)
  }

  /** The conditions under which the constructor gets past every numpy call. */
  predicate Loadable(files: seq<FileTable>)
  {
    && |files| > 0
    && (forall i :: 0 <= i < |files| ==> WellFormedTable(files[i]))
    && SameShape(files)
    && files[0].shape.nuWidth >= 4
    && |files[|files| - 1].nuVars| >= 4
    && files[0].shape.lepWidth >= 2
  }

  /** Event e's misc row is [njets, nbjets], its MET and jets are copied from
      `raw`, and its mask is false exactly on the padding jets. */
  predicate InputsHeld(misc: seq<Row>, met: seq<Row>, jet: seq<seq<Row>>, mask: seq<seq<bool>>, e: nat, raw: RawEvent)
  {
    && e < |misc| && e < |met| && e < |jet| && e < |mask|
    && misc[e] == [raw.njets, raw.nbjets]
    && met[e] == raw.met
    && jet[e] == raw.jets
    && |mask[e]| == |raw.jets|
    && (forall j :: 0 <= j < |raw.jets| ==> (mask[e][j] <==> !IsPadding(raw.jets[j])))
  }

  /** Event e's leptons are those of `raw`, permuted into charge order. */
  predicate LeptonsHeld(lep: seq<seq<Row>>, width: nat, e: nat, raw: RawEvent)
  {
    && e < |lep|
    && multiset(lep[e]) == multiset(raw.leptons)
    && width >= 2
    && ChargeOrdered(lep[e], ChargeColumn(width))
  }

  /** Event e's neutrinos are those of `raw`, each cut to columns 1..3. */
  predicate NeutrinosHeld(nu: seq<seq<Row>>, e: nat, raw: RawEvent)
  {
    && e < |nu|
    && |nu[e]| == |raw.neutrinos|
    && (forall p :: 0 <= p < |raw.neutrinos| ==>
          |raw.neutrinos[p]| >= 4 &&
          nu[e][p] == [raw.neutrinos[p][1], raw.neutrinos[p][2], raw.neutrinos[p][3]])
  }

  /** Event e of the dataset is what the reshaping makes of `raw`. */
  predicate HoldsEvent(ds: Dataset, e: nat, raw: RawEvent)
  {
    && InputsHeld(ds.misc, ds.met, ds.jet, ds.jetMask, e, raw)
    && LeptonsHeld(ds.lep, ds.shape.lepWidth, e, raw)
    && NeutrinosHeld(ds.nu, e, raw)
  }

  /** The dataset made from stacked events `ev` of shape `s`, with the names of
      the last file read. */
  function Assemble(cfg: Config, last: FileTable, s: Shape, ev: seq<RawEvent>): (ds: Dataset)
    requires |last.nuVars| >= 4
    requires s.nuWidth >= 4 && s.lepWidth >= 2
    requires forall k :: 0 <= k < |ev| ==> EventFits(ev[k], s)
    ensures Valid(ds)
    ensures Len(ds) == |ev|
    ensures ds.shape == s.(nuWidth := 3)
    ensures forall e :: 0 <= e < |ev| ==> HoldsEvent(ds, e, ev[e])
  {
    EventWidths(ev, s);
    ArraysShaped(ev, s);
    InputsAllHeld(ev);
    LeptonsAllHeld(ev, s.lepWidth);
    NeutrinosAllHeld(ev);
    ReorderKeepsShape(Leptons(ev), s.nLeptons, s.lepWidth);
    ProjectionShape(Neutrinos(ev), s.nNeutrinos, s.nuWidth);
    var jets := Jets(ev);
    Dataset(
      shape := s.(nuWidth := 3),
      metKins := ParseKins(cfg.metKins),
      lepKins := ParseKins(cfg.lepKins),
      jetKins := ParseKins(cfg.jetKins),
      nuKins := ParseKins(cfg.nuKins),
      miscVars := MiscVars,
      metVars := last.metVars,
      lepVars := last.lepVars,
      jetVars := last.jetVars,
      nuVars := Gather(last.nuVars, NeutrinoColumns),
      misc := MiscRows(ev),
      met := Met(ev),
      lep := ReorderLeptons(Leptons(ev), s.lepWidth),
      jet := jets,
      jetMask := JetMask(jets),
      nu := ProjectNeutrinos(Neutrinos(ev)))
  }

  /** Every lepton and neutrino of events of shape s has the shape's feature width. */
  lemma {:induction false} EventWidths(ev: seq<RawEvent>, s: Shape)
    requires forall k :: 0 <= k < |ev| ==> EventFits(ev[k], s)
    ensures forall k, j :: 0 <= k < |ev| && 0 <= j < |Leptons(ev)[k]| ==> |Leptons(ev)[k][j]| == s.lepWidth
    ensures forall k, p :: 0 <= k < |ev| && 0 <= p < |Neutrinos(ev)[k]| ==> |Neutrinos(ev)[k][p]| == s.nuWidth
  {
    forall k | 0 <= k < |ev|
      ensures forall j :: 0 <= j < |Leptons(ev)[k]| ==> |Leptons(ev)[k][j]| == s.lepWidth
      ensures forall p :: 0 <= p < |Neutrinos(ev)[k]| ==> |Neutrinos(ev)[k][p]| == s.nuWidth
    {
      assert EventFits(ev[k], s);
    }
  }

  /** The arrays the dataset stores for events of shape s have that shape. */
  lemma {:induction false} ArraysShaped(ev: seq<RawEvent>, s: Shape)
    requires forall k :: 0 <= k < |ev| ==> EventFits(ev[k], s)
    ensures RowsShaped(MiscRows(ev), 2)
    ensures RowsShaped(Met(ev), s.metWidth)
    ensures EventsShaped(Leptons(ev), s.nLeptons, s.lepWidth)
    ensures EventsShaped(Jets(ev), s.nJets, s.jetWidth)
    ensures forall e :: 0 <= e < |ev| ==> |JetMask(Jets(ev))[e]| == s.nJets
    ensures EventsShaped(Neutrinos(ev), s.nNeutrinos, s.nuWidth)
  {
    forall e | 0 <= e < |ev|
      ensures |MiscRows(ev)[e]| == 2 && |Met(ev)[e]| == s.metWidth
      ensures IsMatrix(Leptons(ev)[e], s.nLeptons, s.lepWidth)
      ensures IsMatrix(Jets(ev)[e], s.nJets, s.jetWidth)
      ensures IsMatrix(Neutrinos(ev)[e], s.nNeutrinos, s.nuWidth)
    {
      assert EventFits(ev[e], s);
    }
  }

  /** Every event keeps its misc row, MET, jets and jet mask. */
  lemma {:induction false} InputsAllHeld(ev: seq<RawEvent>)
    ensures forall e :: 0 <= e < |ev| ==>
      InputsHeld(MiscRows(ev), Met(ev), Jets(ev), JetMask(Jets(ev)), e, ev[e])
  {
    var jets := Jets(ev);
    var mask := JetMask(jets);
    forall e | 0 <= e < |ev|
      ensures InputsHeld(MiscRows(ev), Met(ev), jets, mask, e, ev[e])
    {
      assert jets[e] == ev[e].jets;
      assert forall j :: 0 <= j < |jets[e]| ==> (mask[e][j] <==> !IsPadding(jets[e][j]));
    }
  }

  /** Every event keeps its leptons, permuted into charge order. */
  lemma {:induction false} LeptonsAllHeld(ev: seq<RawEvent>, width: nat)
    requires width >= 2
    requires forall k, j :: 0 <= k < |ev| && 0 <= j < |Leptons(ev)[k]| ==> |Leptons(ev)[k][j]| == width
    ensures forall e :: 0 <= e < |ev| ==> LeptonsHeld(ReorderLeptons(Leptons(ev), width), width, e, ev[e])
  {
    forall e | 0 <= e < |ev|
      ensures LeptonsHeld(ReorderLeptons(Leptons(ev), width), width, e, ev[e])
    {
      ReorderedEvent(Leptons(ev), width, e);
    }
  }

  /** Every event keeps its neutrinos, cut to columns 1..3. */
  lemma {:induction false} NeutrinosAllHeld(ev: seq<RawEvent>)
    requires forall k, p :: 0 <= k < |ev| && 0 <= p < |Neutrinos(ev)[k]| ==> |Neutrinos(ev)[k][p]| >= 4
    ensures forall e :: 0 <= e < |ev| ==> NeutrinosHeld(ProjectNeutrinos(Neutrinos(ev)), e, ev[e])
  {
    var nu := ProjectNeutrinos(Neutrinos(ev));
    forall e | 0 <= e < |ev|
      ensures NeutrinosHeld(nu, e, ev[e])
    {
      assert Neutrinos(ev)[e] == ev[e].neutrinos;
    }
  }

  /** One event of the reordered leptons is a permutation of the stored one,
      ordered by charge. */
  lemma {:induction false} ReorderedEvent(lep: seq<seq<Row>>, width: nat, e: nat)
    requires width >= 2
    requires forall k, j :: 0 <= k < |lep| && 0 <= j < |lep[k]| ==> |lep[k][j]| == width
    requires e < |lep|
    ensures multiset(ReorderLeptons(lep, width)[e]) == multiset(lep[e])
    ensures ChargeOrdered(ReorderLeptons(lep, width)[e], ChargeColumn(width))
  {
    var r := ReorderLeptons(lep, width)[e];
    assert forall j :: 0 <= j < |r| ==> |r[j]| == width;
  }

  /** The successful path of the constructor: the files' truncated rows stacked
      in file order and reshaped. */
  function Build(cfg: Config, files: seq<FileTable>): (ds: Dataset)
    requires Loadable(files)
    ensures Valid(ds)
    ensures Len(ds) == LoadedCount(files, cfg.nPerFile)
    ensures ds.shape == files[0].shape.(nuWidth := 3)
    ensures forall e :: 0 <= e < Len(ds) ==> HoldsEvent(ds, e, Stack(files, cfg.nPerFile)[e])
  {
    StackFits(files, cfg.nPerFile, files[0].shape);
    Assemble(cfg, files[|files| - 1], files[0].shape, Stack(files, cfg.nPerFile))
  }

  /** `H5Dataset(...)` on already-read tables, up to the change of coordinates.
      Fails exactly when numpy raises: no files, files of different shapes,
      too few neutrino features for columns 1..3, too few neutrino field names
      in the last file for names 1..3, too few lepton features for the charge
      column. */
  function Init(cfg: Config, files: seq<FileTable>): (r: Result<Dataset>)
    requires forall i :: 0 <= i < |files| ==> WellFormedTable(files[i])
    ensures |files| == 0 ==> r == Err(EmptyFileList)
    ensures |files| > 0 && !SameShape(files) ==> r == Err(ShapeMismatch)
    ensures |files| > 0 && SameShape(files) && files[0].shape.nuWidth < 4 ==>
      r == Err(NeutrinoColumnOutOfBounds)
    ensures (|files| > 0 && SameShape(files) && files[0].shape.nuWidth >= 4
             && |files[|files| - 1].nuVars| < 4) ==> r == Err(NeutrinoNameOutOfBounds)
    ensures (|files| > 0 && SameShape(files) && files[0].shape.nuWidth >= 4
             && |files[|files| - 1].nuVars| >= 4 && files[0].shape.lepWidth < 2) ==>
      r == Err(ChargeColumnOutOfBounds)
    ensures r.Ok? <==>
      && |files| > 0 && SameShape(files) && files[0].shape.nuWidth >= 4
      && |files[|files| - 1].nuVars| >= 4 && files[0].shape.lepWidth >= 2
    ensures r.Ok? ==>
      && Valid(r.value)
      && Len(r.value) == LoadedCount(files, cfg.nPerFile)
      && r.value.shape == files[0].shape.(nuWidth := 3)
      && forall e :: 0 <= e < Len(r.value) ==> HoldsEvent(r.value, e, Stack(files, cfg.nPerFile)[e])
  {
    if |files| == 0 then Err(EmptyFileList)
    else if !SameShape(files) then Err(ShapeMismatch)
    else if files[0].shape.nuWidth < 4 then Err(NeutrinoColumnOutOfBounds)
    else if |files[|files| - 1].nuVars| < 4 then Err(NeutrinoNameOutOfBounds)
    else if files[0].shape.lepWidth < 2 then Err(ChargeColumnOutOfBounds)
    else Ok(Build(cfg, files))
  }

  /** idx addresses an element of a Python sequence of length n. */
  predicate InRange(idx: int, n: nat)
  {
    -(n as int) <= idx < n
  }

  /** Python's reading of an index into a sequence of length n: negative indices
      count from the end; anything outside [-n, n) is out of range. */
  function NormalizeIndex(idx: int, n: nat): (r: Option<nat>)
    ensures r.Some? <==> InRange(idx, n)
    ensures r.Some? ==> r.value < n && r.value % n == idx % n
  {
    if 0 <= idx < n then Some(idx)
    else if InRange(idx, n) then Some(idx + n)
    else None
  }

  datatype Inputs = Inputs(misc: Row, met: Row, leptons: seq<Row>, jets: (seq<Row>, seq<bool>))
  datatype Targets = Targets(neutrino: Row, antineutrino: Row)
  datatype Sample = Sample(inputs: Inputs, targets: Targets)

  /** `dataset[idx]`: the inputs of event idx and its two neutrino targets. */
  function GetItem(ds: Dataset, idx: int): (r: Result<Sample>)
    requires Valid(ds)
    ensures r.Ok? <==> InRange(idx, Len(ds)) && ds.shape.nNeutrinos >= 2
    ensures !InRange(idx, Len(ds)) ==> r == Err(EventIndexOutOfBounds)
    ensures InRange(idx, Len(ds)) && ds.shape.nNeutrinos < 2 ==> r == Err(NeutrinoIndexOutOfBounds)
    ensures r.Ok? ==>
      var e := if idx >= 0 then idx else idx + Len(ds);
      && r.value.inputs == Inputs(ds.misc[e], ds.met[e], ds.lep[e], (ds.jet[e], ds.jetMask[e]))
      && r.value.targets == Targets(ds.nu[e][0], ds.nu[e][1])
  {
    match NormalizeIndex(idx, Len(ds))
    case None => Err(EventIndexOutOfBounds)
    case Some(e) =>
      if ds.shape.nNeutrinos < 2 then Err(NeutrinoIndexOutOfBounds)
      else Ok(Sample(
        Inputs(ds.misc[e], ds.met[e], ds.lep[e], (ds.jet[e], ds.jetMask[e])),
        Targets(ds.nu[e][0], ds.nu[e][1])))
  }

  /** `get_input_dims`: the last-axis width of every input of sample 0; for the
      jets pair, the width of the jet features rather than of the mask. */
  function InputDims(ds: Dataset): (r: Result<map<string, nat>>)
    requires Valid(ds)
    ensures r.Ok? <==> Len(ds) > 0 && ds.shape.nNeutrinos >= 2
    ensures r.Ok? ==>
      var x := GetItem(ds, 0).value.inputs;
      && r.value.Keys == {"misc", "met", "leptons", "jets"}
      && r.value["misc"] == |x.misc| == 2
      && r.value["met"] == |x.met| == ds.shape.metWidth
      && r.value["leptons"] == ds.shape.lepWidth
      && (forall j :: 0 <= j < |x.leptons| ==> |x.leptons[j]| == r.value["leptons"])
      && r.value["jets"] == ds.shape.jetWidth
      && (forall j :: 0 <= j < |x.jets.0| ==> |x.jets.0[j]| == r.value["jets"])
      && |x.jets.1| == ds.shape.nJets
  {
    match GetItem(ds, 0)
    case Err(err) => Err(err)
    case Ok(_) =>
      Ok(map["misc" := 2, "met" := ds.shape.metWidth,
             "leptons" := ds.shape.lepWidth, "jets" := ds.shape.jetWidth])
  }

  /** `get_target_dims`: the width of the neutrino and antineutrino targets of sample 0. */
  function TargetDims(ds: Dataset): (r: Result<map<string, nat>>)
    requires Valid(ds)
    ensures r.Ok? <==> Len(ds) > 0 && ds.shape.nNeutrinos >= 2
    ensures r.Ok? ==>
      var t := GetItem(ds, 0).value.targets;
      && r.value.Keys == {"neutrino", "antineutrino"}
      && r.value["neutrino"] == |t.neutrino| == ds.shape.nuWidth
      && r.value["antineutrino"] == |t.antineutrino| == ds.shape.nuWidth
  {
    match GetItem(ds, 0)
    case Err(err) => Err(err)
    case Ok(_) => Ok(map["neutrino" := ds.shape.nuWidth, "antineutrino" := ds.shape.nuWidth])
  }

  /** The loaded event count is the sum over files of min(n_per_file, rows),
      or of all rows when n_per_file is None. */
  lemma {:induction false} LenOfInit(cfg: Config, files: seq<FileTable>)
    requires forall i :: 0 <= i < |files| ==> WellFormedTable(files[i])
    requires Init(cfg, files).Ok?
    ensures cfg.nPerFile.None? ==> Len(Init(cfg, files).value) == SumRows(files)
    ensures cfg.nPerFile.Some? && cfg.nPerFile.value >= 0 ==>
      Len(Init(cfg, files).value) == SumMin(files, cfg.nPerFile.value)
  {
    match cfg.nPerFile
    case None => LoadedCountAll(files);
    case Some(k) => if k >= 0 { LoadedCountBounded(files, k); }
  }

  /** The names the dataset keeps: parsed kinematics, the misc names, the field
      names of the last file (untouched by the lepton reordering), and the
      neutrino names projected like the neutrino columns. */
  lemma {:induction false} InitNames(cfg: Config, files: seq<FileTable>)
    requires forall i :: 0 <= i < |files| ==> WellFormedTable(files[i])
    requires Init(cfg, files).Ok?
    ensures var ds := Init(cfg, files).value;
      var last := files[|files| - 1];
      && ds.metKins == ParseKins(cfg.metKins) && ds.lepKins == ParseKins(cfg.lepKins)
      && ds.jetKins == ParseKins(cfg.jetKins) && ds.nuKins == ParseKins(cfg.nuKins)
      && ds.miscVars == ["njets", "nbjets"]
      && ds.metVars == last.metVars && ds.lepVars == last.lepVars && ds.jetVars == last.jetVars
      && ds.nuVars == [last.nuVars[1], last.nuVars[2], last.nuVars[3]]
  {
  }

  /** Row r of file f becomes event Offset(f) + r of the dataset, reshaped as
      `HoldsEvent` says. */
  lemma {:induction false} InitProvenance(cfg: Config, files: seq<FileTable>, f: nat, r: nat)
    requires forall i :: 0 <= i < |files| ==> WellFormedTable(files[i])
    requires Init(cfg, files).Ok?
    requires f < |files| && r < SliceLen(|files[f].rows|, cfg.nPerFile)
    ensures Offset(files, cfg.nPerFile, f) + r < Len(Init(cfg, files).value)
    ensures HoldsEvent(Init(cfg, files).value, Offset(files, cfg.nPerFile, f) + r, files[f].rows[r])
  {
    StackIndex(files, cfg.nPerFile, f, r);
  }

  /** The neutrino names stay aligned with the projected neutrino values: when the
      names were projected to columns 1..3 as `InitNames` states and a neutrino row
      was projected as `InitProvenance` states, every kept value sits under the
      name its column had in the file. */
  lemma {:induction false} NeutrinoNamesAligned(ds: Dataset, names: seq<string>, e: nat, raw: RawEvent, p: nat)
    requires NeutrinosHeld(ds.nu, e, raw)
    requires p < |raw.neutrinos| && |names| == |raw.neutrinos[p]|
    requires |names| >= 4 && ds.nuVars == [names[1], names[2], names[3]]
    ensures |ds.nuVars| == |ds.nu[e][p]|
    ensures Labelled(ds.nuVars, ds.nu[e][p]) == Gather(Labelled(names, raw.neutrinos[p]), NeutrinoColumns)
  {
    var row := raw.neutrinos[p];
    assert ds.nu[e][p] == Gather(row, NeutrinoColumns);
    assert ds.nuVars == Gather(names, NeutrinoColumns);
    ProjectionKeepsLabels(names, row, NeutrinoColumns);
  }

  /** What `dataset[idx]` returns for an event reshaped from `raw`. */
  predicate SampleOf(s: Sample, raw: RawEvent)
  {
    && s.inputs.misc == [raw.njets, raw.nbjets]
    && s.inputs.met == raw.met
    && s.inputs.jets.0 == raw.jets
    && |s.inputs.jets.1| == |raw.jets|
    && (forall j :: 0 <= j < |raw.jets| ==> (s.inputs.jets.1[j] <==> !IsPadding(raw.jets[j])))
    && multiset(s.inputs.leptons) == multiset(raw.leptons)
    && |raw.neutrinos| >= 2 && |raw.neutrinos[0]| >= 4 && |raw.neutrinos[1]| >= 4
    && s.targets.neutrino == [raw.neutrinos[0][1], raw.neutrinos[0][2], raw.neutrinos[0][3]]
    && s.targets.antineutrino == [raw.neutrinos[1][1], raw.neutrinos[1][2], raw.neutrinos[1][3]]
  }

  /** Indexing the dataset at the event that came from row r of file f yields that
      row's misc row, MET, jets with their mask, its leptons up to order, and
      columns 1..3 of its neutrino rows 0 and 1 as neutrino and antineutrino. */
  lemma {:induction false} GetItemProvenance(cfg: Config, files: seq<FileTable>, f: nat, r: nat)
    requires forall i :: 0 <= i < |files| ==> WellFormedTable(files[i])
    requires Init(cfg, files).Ok?
    requires f < |files| && r < SliceLen(|files[f].rows|, cfg.nPerFile)
    requires files[0].shape.nNeutrinos >= 2
    ensures GetItem(Init(cfg, files).value, Offset(files, cfg.nPerFile, f) + r).Ok?
    ensures SampleOf(GetItem(Init(cfg, files).value, Offset(files, cfg.nPerFile, f) + r).value,
                     files[f].rows[r])
  {
    var ds := Init(cfg, files).value;
    var e := Offset(files, cfg.nPerFile, f) + r;
    var raw := files[f].rows[r];
    InitProvenance(cfg, files, f, r);
    assert files[f].shape == files[0].shape;
    assert EventFits(raw, files[f].shape);
    var s := GetItem(ds, e).value;
    assert s.inputs.leptons == ds.lep[e] && s.inputs.jets == (ds.jet[e], ds.jetMask[e]);
    assert s.targets == Targets(ds.nu[e][0], ds.nu[e][1]);
  }

  /** A dataset built from at least one event with two neutrinos reports the
      stored feature widths: 2 misc values, the MET and lepton widths, the jet
      feature width (not the jet count the mask has), and 3 neutrino features. */
  lemma {:induction false} InitDims(cfg: Config, files: seq<FileTable>)
    requires forall i :: 0 <= i < |files| ==> WellFormedTable(files[i])
    requires Init(cfg, files).Ok?
    requires LoadedCount(files, cfg.nPerFile) > 0 && files[0].shape.nNeutrinos >= 2
    ensures var s := files[0].shape;
      && InputDims(Init(cfg, files).value)
         == Ok(map["misc" := 2, "met" := s.metWidth, "leptons" := s.lepWidth, "jets" := s.jetWidth])
      && TargetDims(Init(cfg, files).value) == Ok(map["neutrino" := 3, "antineutrino" := 3])
  {
  }
}
