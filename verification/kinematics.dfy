/** The kinematic variable lists of the dataset (met_kins, lep_kins, jet_kins,
    nu_kins): either a comma-separated string, split like Python's
    `str.split(",")`, or a list of names kept as given. */
module Kinematics {

  datatype KinSpec =
    | CommaList(text: string)
    | NameList(names: seq<string>)

  /** Python's `s.split(",")`: always at least one piece, empty pieces kept. */
  function Split(s: string): (parts: seq<string>)
    ensures |parts| >= 1
    ensures forall i :: 0 <= i < |parts| ==> ',' !in parts[i]
  {
    if |s| == 0 then [""]
    else
      var rest := Split(s[1..]);
      if s[0] == ',' then [""] + rest
      else [[s[0]] + rest[0]] + rest[1..]
  }

  /** Python's `",".join(parts)`. */
  function Join(parts: seq<string>): string
    requires |parts| >= 1
  {
    if |parts| == 1 then parts[0] else parts[0] + "," + Join(parts[1..])
  }

  function CountChar(s: string, c: char): nat
  {
    if |s| == 0 then 0 else (if s[0] == c then 1 else 0) + CountChar(s[1..], c)
  }

  /** Joining the pieces back with commas restores the string. */
  lemma {:induction false} JoinSplit(s: string)
    ensures Join(Split(s)) == s
  {
    if |s| > 0 {
      var rest := Split(s[1..]);
      JoinSplit(s[1..]);
      if s[0] == ',' {
        assert Split(s) == [""] + rest;
        assert ([""] + rest)[1..] == rest;
        assert s == "," + s[1..];
      } else {
        var parts := [[s[0]] + rest[0]] + rest[1..];
        assert Split(s) == parts;
        if |rest| == 1 {
          assert s == [s[0]] + s[1..];
        } else {
          assert parts[1..] == rest[1..];
          assert Join(rest) == rest[0] + "," + Join(rest[1..]);
          assert s == [s[0]] + s[1..];
        }
      }
    }
  }

  /** Splitting a comma-free word followed by more text attaches the word to the first piece. */
  lemma {:induction false} SplitWordPrefix(w: string, t: string)
    requires ',' !in w
    ensures Split(w + t) == [w + Split(t)[0]] + Split(t)[1..]
    decreases |w|
  {
    if |w| > 0 {
      assert (w + t)[1..] == w[1..] + t;
      SplitWordPrefix(w[1..], t);
      assert w == [w[0]] + w[1..];
      assert [(w + t)[0]] + (w[1..] + Split(t)[0]) == w + Split(t)[0];
    } else {
      assert w + t == t;
      var p := Split(t);
      assert w + p[0] == p[0];
      assert p == [p[0]] + p[1..];
    }
  }

  /** Splitting the comma-join of comma-free pieces gives back the pieces. */
  lemma {:induction false} SplitJoin(parts: seq<string>)
    requires |parts| >= 1
    requires forall i :: 0 <= i < |parts| ==> ',' !in parts[i]
    ensures Split(Join(parts)) == parts
  {
    if |parts| == 1 {
      SplitWordPrefix(parts[0], "");
      assert parts[0] + "" == parts[0];
    } else {
      var t := Join(parts[1..]);
      SplitJoin(parts[1..]);
      assert ("," + t)[1..] == t;
      assert Split("," + t) == [""] + Split(t);
      assert parts[0] + ("," + t) == parts[0] + "," + t;
      SplitWordPrefix(parts[0], "," + t);
      assert parts[0] + "" == parts[0];
    }
  }

  /** One piece more than there are commas, as `str.split` promises. */
  lemma {:induction false} SplitCount(s: string)
    ensures |Split(s)| == CountChar(s, ',') + 1
  {
    if |s| > 0 {
      SplitCount(s[1..]);
    }
  }

  /** The attribute the dataset keeps for one of its `*_kins` arguments. */
  function ParseKins(spec: KinSpec): (names: seq<string>)
    ensures spec.NameList? ==> names == spec.names
    ensures spec.CommaList? ==>
      && |names| == CountChar(spec.text, ',') + 1
      && (forall i :: 0 <= i < |names| ==> ',' !in names[i])
      && Join(names) == spec.text
  {
    match spec
    case NameList(ns) => ns
    case CommaList(text) => JoinSplit(text); SplitCount(text); Split(text)
  }

  const DefaultMetKins: KinSpec := CommaList("px,py")
  const DefaultLepKins: KinSpec := CommaList("px,py,pz,log_energy")
  const DefaultJetKins: KinSpec := CommaList("px,py,pz,log_energy")
  const DefaultNuKins: KinSpec := CommaList("px,py,pz")

  /** The default MET kinematics string names the transverse momentum components. */
  lemma {:induction false} DefaultMetKinsParsed()
    ensures ParseKins(DefaultMetKins) == ["px", "py"]
  {
    var names := ["px", "py"];
    assert names[1..] == ["py"];
    assert Join(names) == "px,py";
    SplitJoin(names);
  }

  /** The default neutrino kinematics string names the three momentum components. */
  lemma {:induction false} DefaultNuKinsParsed()
    ensures ParseKins(DefaultNuKins) == ["px", "py", "pz"]
  {
    var names := ["px", "py", "pz"];
    assert names[1..] == ["py", "pz"] && names[1..][1..] == ["pz"];
    assert Join(names[1..]) == "py,pz";
    assert Join(names) == "px,py,pz";
    SplitJoin(names);
  }

  /** The default lepton and jet kinematics string names the momentum components
      and the log of the energy. */
  lemma {:induction false} DefaultLepKinsParsed()
    ensures ParseKins(DefaultLepKins) == ["px", "py", "pz", "log_energy"]
    ensures DefaultJetKins == DefaultLepKins
  {
    var names := ["px", "py", "pz", "log_energy"];
    JoinLepNames(names);
    assert forall i :: 0 <= i < |names| ==> ',' !in names[i];
    SplitJoin(names);
  }

  /** The comma-join of the default lepton feature names. */
  lemma {:induction false} JoinLepNames(names: seq<string>)
    requires names == ["px", "py", "pz", "log_energy"]
    ensures Join(names) == "px,py,pz,log_energy"
  {
    assert names[1..] == ["py", "pz", "log_energy"];
    JoinEnergyTail(names[1..][1..]);
    assert Join(names[1..]) == "py," + "pz,log_energy";
  }

  /** The comma-join of the last two default lepton feature names. */
  lemma {:induction false} JoinEnergyTail(names: seq<string>)
    requires names == ["pz", "log_energy"]
    ensures Join(names) == "pz,log_energy"
  {
    assert names[1..] == ["log_energy"];
  }

}
