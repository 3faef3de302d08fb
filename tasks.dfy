/**
  Minimum-version resolution of a dependency list: every dependency is folded
  into an insertion-ordered dictionary from package name to pinned requirement.

  Requirement parsing, environment-marker evaluation and version comparison
  are modelled by the `Dependency` datatype instead of the `packaging`
  library: a marker is a predicate on the Python version, and a version is its
  release segment, compared component by component with missing trailing
  components counting as zero.
*/
module MinimumVersions {
  import opened Wrappers

  type Name = string
  type PythonVersion = string
  /** The release segment of a version (`1.21.0` is `[1, 21, 0]`). */
  type Version = seq<nat>

  /** Specifier operators: `~=`, `==`, `!=`, `<=`, `>=`, `<`, `>`, `===`. */
  datatype Op = Compatible | Eq | Ne | Le | Ge | Lt | Gt | ArbitraryEq
  datatype Spec = Spec(op: Op, version: Version)

  /**
    One entry of the dependency list: `name @ url`, or a requirement with an
    optional environment marker and its specifiers, in the order the
    specifier set yields them.
  */
  datatype Dependency =
    | Url(name: Name, url: string)
    | Req(name: Name, marker: Option<PythonVersion -> bool>, specs: seq<Spec>)

  /** A pinned requirement: `name @ url` or `name==version`. */
  datatype Pin = UrlPin(name: Name, url: string) | VersionPin(name: Name, version: Version)

  /** The dictionary being built: its keys in insertion order, and its entries. */
  datatype Pins = Pins(order: seq<Name>, entries: map<Name, Pin>)

  const EMPTY := Pins([], map[])

  /** Keys appear once, in the order exactly when in the dictionary, and each entry pins its own key. */
  ghost predicate WellFormed(s: Pins) {
    && (forall i, j :: 0 <= i < j < |s.order| ==> s.order[i] != s.order[j])
    && (forall n :: n in s.entries <==> n in s.order)
    && (forall n :: n in s.entries ==> s.entries[n].name == n)
  }

  // ---------------------------------------------------------------------------
  // Versions
  // ---------------------------------------------------------------------------

  function Head(v: Version): nat {
    if |v| == 0 then 0 else v[0]
  }

  function Tail(v: Version): Version {
    if |v| == 0 then [] else v[1..]
  }

  /** `a < b` as release segments: the first differing component decides, missing components are 0. */
  predicate VersionLess(a: Version, b: Version)
    decreases |a| + |b|
  {
    if |a| == 0 && |b| == 0 then false
    else Head(a) < Head(b) || (Head(a) == Head(b) && VersionLess(Tail(a), Tail(b)))
  }

  lemma {:induction false} VersionLessIrreflexive(a: Version)
    ensures !VersionLess(a, a)
    decreases |a|
  {
    if |a| > 0 {
      VersionLessIrreflexive(Tail(a));
    }
  }

  lemma {:induction false} VersionLessAsymmetric(a: Version, b: Version)
    ensures VersionLess(a, b) ==> !VersionLess(b, a)
    decreases |a| + |b|
  {
    if |a| > 0 || |b| > 0 {
      VersionLessAsymmetric(Tail(a), Tail(b));
    }
  }

  /** If a < c then any b lies above a or below c; so "not less than" is transitive. */
  lemma {:induction false} VersionLessNegativelyTransitive(a: Version, b: Version, c: Version)
    ensures VersionLess(a, c) ==> VersionLess(a, b) || VersionLess(b, c)
    decreases |a| + |b| + |c|
  {
    if |a| > 0 || |b| > 0 || |c| > 0 {
      VersionLessNegativelyTransitive(Tail(a), Tail(b), Tail(c));
    }
  }

  /** A trailing zero component changes nothing: `1.0` and `1.0.0` are the same version. */
  lemma {:induction false} TrailingZeroIgnored(v: Version)
    ensures !VersionLess(v, v + [0]) && !VersionLess(v + [0], v)
    decreases |v|
  {
    if |v| > 0 {
      assert Tail(v + [0]) == Tail(v) + [0];
      TrailingZeroIgnored(Tail(v));
    }
  }

  // ---------------------------------------------------------------------------
  // The fold
  // ---------------------------------------------------------------------------

  predicate IsMinimumOp(op: Op) {
    op == Ge || op == Eq
  }

  /** The version of the first `>=` or `==` specifier, if there is one. */
  function FirstMinimum(specs: seq<Spec>): (r: Option<Version>)
    ensures r.None? <==> forall k :: 0 <= k < |specs| ==> !IsMinimumOp(specs[k].op)
    ensures r.Some? ==> exists k :: 0 <= k < |specs| && IsMinimumOp(specs[k].op) && specs[k].version == r.value
                                    && forall i :: 0 <= i < k ==> !IsMinimumOp(specs[i].op)
  {
    if |specs| == 0 then None
    else if IsMinimumOp(specs[0].op) then Some(specs[0].version)
    else
      var r := FirstMinimum(specs[1..]);
      assert r.Some? ==> exists k :: 1 <= k < |specs| && IsMinimumOp(specs[k].op) && specs[k].version == r.value
                                     && forall i :: 0 <= i < k ==> !IsMinimumOp(specs[i].op)
      by {
        if r.Some? {
          var k :| 0 <= k < |specs[1..]| && IsMinimumOp(specs[1..][k].op) && specs[1..][k].version == r.value
                   && forall i :: 0 <= i < k ==> !IsMinimumOp(specs[1..][i].op);
          assert forall i :: 1 <= i < k + 1 ==> specs[i] == specs[1..][i - 1];
        }
      }
      r
  }

  /** `min_versions[pin.name] = pin`: a new key goes last, an existing key keeps its place. */
  function Put(s: Pins, pin: Pin): (r: Pins)
    ensures WellFormed(s) ==> WellFormed(r)
  {
    Pins(if pin.name in s.entries then s.order else s.order + [pin.name], s.entries[pin.name := pin])
  }

  /** One turn of the loop over the dependency list. */
  function Step(s: Pins, d: Dependency, pythonVersion: PythonVersion): (r: Pins)
    ensures WellFormed(s) ==> WellFormed(r)
  {
    match d
    case Url(name, url) => Put(s, UrlPin(name, url))
    case Req(name, marker, specs) =>
      if marker.Some? && !marker.value(pythonVersion) then s
      else if name !in s.entries then
        match FirstMinimum(specs)
        case None => s
        case Some(v) => Put(s, VersionPin(name, v))
      else if s.entries[name].UrlPin? then s
      else
        var existing := s.entries[name].version;
        var newVersion := FirstMinimum(specs).GetOr(existing);
        if VersionLess(existing, newVersion) then Put(s, VersionPin(name, newVersion)) else s
  }

  /** The dictionary after the loop has run over all of `deps`. */
  function Fold(deps: seq<Dependency>, pythonVersion: PythonVersion): (r: Pins)
    ensures WellFormed(r)
  {
    if |deps| == 0 then EMPTY
    else Step(Fold(deps[..|deps| - 1], pythonVersion), deps[|deps| - 1], pythonVersion)
  }

  /** `list(min_versions.values())`. */
  function Values(s: Pins): seq<Pin>
    requires WellFormed(s)
  {
    seq(|s.order|, k requires 0 <= k < |s.order| => s.entries[s.order[k]])
  }

  /** The pinned requirements for the dependency list, one per package, in first-insertion order. */
  method GetMinimumVersions(dependencies: seq<Dependency>, pythonVersion: PythonVersion) returns (minimumVersions: seq<Pin>)
    ensures minimumVersions == Values(Fold(dependencies, pythonVersion))
  {
    var order: seq<Name> := [];
    var minVersions: map<Name, Pin> := map[];
    for i := 0 to |dependencies|
      invariant Pins(order, minVersions) == Fold(dependencies[..i], pythonVersion)
    {
      assert dependencies[..i + 1][..i] == dependencies[..i];
      var dependency := dependencies[i];
      if dependency.Url? {
        var name := dependency.name;
        if name !in minVersions {
          order := order + [name];
        }
        minVersions := minVersions[name := UrlPin(name, dependency.url)];
        continue;
      }
      if dependency.marker.Some? && !dependency.marker.value(pythonVersion) {
        continue;
      }
      var name := dependency.name;
      if name !in minVersions {
        var minVersion := FirstMinimum(dependency.specs);
        if minVersion.Some? {
          order := order + [name];
          minVersions := minVersions[name := VersionPin(name, minVersion.value)];
        }
      } else if minVersions[name].VersionPin? {
        var existingVersion := minVersions[name].version;
        var newVersion := FirstMinimum(dependency.specs).GetOr(existingVersion);
        if VersionLess(existingVersion, newVersion) {
          minVersions := minVersions[name := VersionPin(name, newVersion)];
        }
      }
    }
    assert dependencies[..|dependencies|] == dependencies;
    minimumVersions := Values(Pins(order, minVersions));
  }

  // ---------------------------------------------------------------------------
  // Properties of the fold
  // ---------------------------------------------------------------------------

  /** A URL dependency pins its name to the URL, replacing any earlier entry in place and leaving other names alone. */
  lemma UrlReplaces(s: Pins, name: Name, url: string, pythonVersion: PythonVersion)
    ensures var r := Step(s, Url(name, url), pythonVersion);
      && name in r.entries && r.entries[name] == UrlPin(name, url)
      && (name in s.entries ==> r.order == s.order)
      && (name !in s.entries ==> r.order == s.order + [name])
      && forall n :: n in s.entries && n != name ==> n in r.entries && r.entries[n] == s.entries[n]
  {
  }

  /** A requirement whose marker is false for this Python version contributes nothing, wherever it stands in the list. */
  lemma {:induction false} SkippedRequirementIgnored(a: seq<Dependency>, d: Dependency, b: seq<Dependency>, pythonVersion: PythonVersion)
    requires d.Req? && d.marker.Some? && !d.marker.value(pythonVersion)
    ensures Fold(a + [d] + b, pythonVersion) == Fold(a + b, pythonVersion)
    decreases |b|
  {
    if |b| == 0 {
      assert a + [d] + b == a + [d] && (a + [d])[..|a|] == a && a + b == a;
    } else {
      var b' := b[..|b| - 1];
      SkippedRequirementIgnored(a, d, b', pythonVersion);
      assert (a + [d] + b)[..|a + [d] + b| - 1] == a + [d] + b';
      assert (a + b)[..|a + b| - 1] == a + b';
    }
  }

  /** The first requirement that reaches a new name pins the version of its first `>=`/`==` specifier, appended last, or records nothing. */
  lemma FirstRequirementPins(s: Pins, name: Name, marker: Option<PythonVersion -> bool>, specs: seq<Spec>, pythonVersion: PythonVersion)
    requires name !in s.entries && (marker.None? || marker.value(pythonVersion))
    ensures var r := Step(s, Req(name, marker, specs), pythonVersion);
      match FirstMinimum(specs)
      case None => r == s
      case Some(v) => r.order == s.order + [name] && r.entries == s.entries[name := VersionPin(name, v)]
  {
  }

  /**
    A requirement for a version-pinned name keeps the greater version: the pin
    becomes the first `>=`/`==` version exactly when the marker applies and that
    version is strictly greater, and otherwise stays; no other entry and not
    the key order change, and the version never decreases.
  */
  lemma RepinOnlyUpward(s: Pins, name: Name, marker: Option<PythonVersion -> bool>, specs: seq<Spec>, pythonVersion: PythonVersion)
    requires name in s.entries && s.entries[name].VersionPin?
    ensures var r, pinned := Step(s, Req(name, marker, specs), pythonVersion), s.entries[name].version;
      && r.order == s.order && name in r.entries && r.entries[name].VersionPin?
      && r.entries == s.entries[name := r.entries[name]]
      && (if (marker.None? || marker.value(pythonVersion)) && FirstMinimum(specs).Some?
             && VersionLess(pinned, FirstMinimum(specs).value)
          then r.entries[name] == VersionPin(name, FirstMinimum(specs).value)
          else r.entries[name] == s.entries[name])
      && (r.entries[name] != s.entries[name] ==> VersionLess(pinned, r.entries[name].version))
      && !VersionLess(r.entries[name].version, pinned)
  {
    var pinned := s.entries[name].version;
    VersionLessIrreflexive(pinned);
    var newVersion := FirstMinimum(specs).GetOr(pinned);
    VersionLessAsymmetric(pinned, newVersion);
  }

  /** One step keeps every name; a URL pin stays a URL pin, and a version pin never moves to a lower version. */
  lemma StepKeepsPins(s: Pins, d: Dependency, name: Name, pythonVersion: PythonVersion)
    requires name in s.entries
    ensures var r := Step(s, d, pythonVersion);
      && name in r.entries
      && (s.entries[name].UrlPin? ==> r.entries[name].UrlPin?)
      && (s.entries[name].VersionPin? && r.entries[name].VersionPin? ==>
            !VersionLess(r.entries[name].version, s.entries[name].version))
  {
    if d.Req? && d.name == name && s.entries[name].VersionPin? {
      RepinOnlyUpward(s, name, d.marker, d.specs, pythonVersion);
    } else if s.entries[name].VersionPin? {
      VersionLessIrreflexive(s.entries[name].version);
    }
  }

  /** Once a name is pinned to a URL, only a later URL dependency for that name changes its entry. */
  lemma {:induction false} UrlPinPersists(deps: seq<Dependency>, i: nat, name: Name, url: string, pythonVersion: PythonVersion)
    requires i <= |deps|
    requires name in Fold(deps[..i], pythonVersion).entries
    requires Fold(deps[..i], pythonVersion).entries[name] == UrlPin(name, url)
    requires forall k :: i <= k < |deps| ==> !(deps[k].Url? && deps[k].name == name)
    ensures name in Fold(deps, pythonVersion).entries && Fold(deps, pythonVersion).entries[name] == UrlPin(name, url)
    decreases |deps|
  {
    if |deps| == i {
      assert deps[..i] == deps;
    } else {
      var prefix := deps[..|deps| - 1];
      assert prefix[..i] == deps[..i];
      UrlPinPersists(prefix, i, name, url, pythonVersion);
      StepKeepsUrlPin(Fold(prefix, pythonVersion), deps[|deps| - 1], name, url, pythonVersion);
    }
  }

  lemma StepKeepsUrlPin(s: Pins, d: Dependency, name: Name, url: string, pythonVersion: PythonVersion)
    requires name in s.entries && s.entries[name] == UrlPin(name, url)
    requires !(d.Url? && d.name == name)
    ensures name in Step(s, d, pythonVersion).entries && Step(s, d, pythonVersion).entries[name] == UrlPin(name, url)
  {
  }

  /** The last URL dependency for a name decides its entry, whatever versioned requirements follow it. */
  lemma LastUrlWins(deps: seq<Dependency>, i: nat, pythonVersion: PythonVersion)
    requires i < |deps| && deps[i].Url?
    requires forall k :: i < k < |deps| ==> !(deps[k].Url? && deps[k].name == deps[i].name)
    ensures deps[i].name in Fold(deps, pythonVersion).entries
    ensures Fold(deps, pythonVersion).entries[deps[i].name] == UrlPin(deps[i].name, deps[i].url)
  {
    assert deps[..i + 1][..i] == deps[..i];
    UrlPinPersists(deps, i + 1, deps[i].name, deps[i].url, pythonVersion);
  }

  /** Along the list a version pin never decreases: while a name stays version-pinned, its version only rises. */
  lemma {:induction false} PinnedVersionNeverDecreases(deps: seq<Dependency>, i: nat, name: Name, v: Version, pythonVersion: PythonVersion)
    requires i <= |deps|
    requires name in Fold(deps[..i], pythonVersion).entries
    requires Fold(deps[..i], pythonVersion).entries[name] == VersionPin(name, v)
    ensures name in Fold(deps, pythonVersion).entries
    ensures var r := Fold(deps, pythonVersion).entries[name];
      r.VersionPin? ==> !VersionLess(r.version, v)
    decreases |deps|
  {
    if |deps| == i {
      assert deps[..i] == deps;
      VersionLessIrreflexive(v);
    } else {
      var prefix := deps[..|deps| - 1];
      assert prefix[..i] == deps[..i];
      PinnedVersionNeverDecreases(prefix, i, name, v, pythonVersion);
      var s := Fold(prefix, pythonVersion);
      StepKeepsPins(s, deps[|deps| - 1], name, pythonVersion);
      var r := Fold(deps, pythonVersion).entries[name];
      if r.VersionPin? && s.entries[name].VersionPin? {
        VersionLessNegativelyTransitive(r.version, s.entries[name].version, v);
      }
    }
  }

  /** A name that no URL dependency mentions is only ever pinned to a version. */
  lemma {:induction false} NoUrlMeansVersionPin(deps: seq<Dependency>, name: Name, pythonVersion: PythonVersion)
    requires forall k :: 0 <= k < |deps| ==> !(deps[k].Url? && deps[k].name == name)
    ensures name in Fold(deps, pythonVersion).entries ==> Fold(deps, pythonVersion).entries[name].VersionPin?
    decreases |deps|
  {
    if |deps| > 0 {
      var prefix := deps[..|deps| - 1];
      assert forall k :: 0 <= k < |prefix| ==> prefix[k] == deps[k];
      NoUrlMeansVersionPin(prefix, name, pythonVersion);
    }
  }

  /** An applicable requirement with a `>=`/`==` specifier leaves its name version-pinned at or above that specifier's version. */
  lemma StepPinsAtLeastMinimum(s: Pins, d: Dependency, pythonVersion: PythonVersion)
    requires d.Req? && (d.marker.None? || d.marker.value(pythonVersion)) && FirstMinimum(d.specs).Some?
    requires d.name in s.entries ==> s.entries[d.name].VersionPin?
    ensures var r := Step(s, d, pythonVersion);
      && d.name in r.entries && r.entries[d.name].VersionPin?
      && !VersionLess(r.entries[d.name].version, FirstMinimum(d.specs).value)
  {
    VersionLessIrreflexive(FirstMinimum(d.specs).value);
    if d.name in s.entries {
      RepinOnlyUpward(s, d.name, d.marker, d.specs, pythonVersion);
    }
  }

  /**
    The pin keeps the largest minimum seen: for a name no URL dependency
    mentions, every requirement for it whose marker applies and which has a
    `>=`/`==` specifier leaves the name pinned, in the end, to a version no
    lower than that specifier's.
  */
  lemma {:induction false} KeepsLargestMinimum(deps: seq<Dependency>, k: nat, pythonVersion: PythonVersion)
    requires k < |deps| && deps[k].Req?
    requires deps[k].marker.None? || deps[k].marker.value(pythonVersion)
    requires FirstMinimum(deps[k].specs).Some?
    requires forall j :: 0 <= j < |deps| ==> !(deps[j].Url? && deps[j].name == deps[k].name)
    ensures deps[k].name in Fold(deps, pythonVersion).entries
    ensures var pin := Fold(deps, pythonVersion).entries[deps[k].name];
      pin.VersionPin? && !VersionLess(pin.version, FirstMinimum(deps[k].specs).value)
  {
    var d := deps[k];
    var before := deps[..k];
    assert deps[..k + 1][..k] == before;
    assert forall j :: 0 <= j < |before| ==> before[j] == deps[j];
    NoUrlMeansVersionPin(before, d.name, pythonVersion);
    var t := Fold(deps[..k + 1], pythonVersion);
    assert t == Step(Fold(before, pythonVersion), d, pythonVersion);
    StepPinsAtLeastMinimum(Fold(before, pythonVersion), d, pythonVersion);
    var w := t.entries[d.name].version;
    PinnedVersionNeverDecreases(deps, k + 1, d.name, w, pythonVersion);
    NoUrlMeansVersionPin(deps, d.name, pythonVersion);
    VersionLessNegativelyTransitive(Fold(deps, pythonVersion).entries[d.name].version, w, FirstMinimum(d.specs).value);
  }

  /**
    Every version pin comes from a requirement: the version a name is pinned to
    is the first `>=`/`==` version of some requirement for that name whose
    marker applies.
  */
  lemma {:induction false} PinComesFromRequirement(deps: seq<Dependency>, name: Name, pythonVersion: PythonVersion)
    requires name in Fold(deps, pythonVersion).entries && Fold(deps, pythonVersion).entries[name].VersionPin?
    ensures exists k :: 0 <= k < |deps| && deps[k].Req? && deps[k].name == name
                        && (deps[k].marker.None? || deps[k].marker.value(pythonVersion))
                        && FirstMinimum(deps[k].specs) == Some(Fold(deps, pythonVersion).entries[name].version)
    decreases |deps|
  {
    var prefix, d := deps[..|deps| - 1], deps[|deps| - 1];
    var s := Fold(prefix, pythonVersion);
    var v := Fold(deps, pythonVersion).entries[name].version;
    if name in s.entries && s.entries[name] == Fold(deps, pythonVersion).entries[name] {
      PinComesFromRequirement(prefix, name, pythonVersion);
      var k :| 0 <= k < |prefix| && prefix[k].Req? && prefix[k].name == name
               && (prefix[k].marker.None? || prefix[k].marker.value(pythonVersion))
               && FirstMinimum(prefix[k].specs) == Some(v);
      assert deps[k] == prefix[k];
    } else {
      assert d.Req? && d.name == name && FirstMinimum(d.specs) == Some(v);
    }
  }

  /**
    The pin is the largest minimum seen: for a name no URL dependency mentions
    that ends up pinned, its version is the first `>=`/`==` version of some
    applicable requirement for it, and no such version is greater.
  */
  lemma PinIsLargestMinimum(deps: seq<Dependency>, name: Name, pythonVersion: PythonVersion)
    requires forall j :: 0 <= j < |deps| ==> !(deps[j].Url? && deps[j].name == name)
    requires name in Fold(deps, pythonVersion).entries
    ensures Fold(deps, pythonVersion).entries[name].VersionPin?
    ensures var v := Fold(deps, pythonVersion).entries[name].version;
      && (exists k :: 0 <= k < |deps| && deps[k].Req? && deps[k].name == name
                      && (deps[k].marker.None? || deps[k].marker.value(pythonVersion))
                      && FirstMinimum(deps[k].specs) == Some(v))
      && forall k :: 0 <= k < |deps| && deps[k].Req? && deps[k].name == name
                     && (deps[k].marker.None? || deps[k].marker.value(pythonVersion))
                     && FirstMinimum(deps[k].specs).Some?
                     ==> !VersionLess(v, FirstMinimum(deps[k].specs).value)
  {
    NoUrlMeansVersionPin(deps, name, pythonVersion);
    PinComesFromRequirement(deps, name, pythonVersion);
    forall k | 0 <= k < |deps| && deps[k].Req? && deps[k].name == name
               && (deps[k].marker.None? || deps[k].marker.value(pythonVersion))
               && FirstMinimum(deps[k].specs).Some?
      ensures !VersionLess(Fold(deps, pythonVersion).entries[name].version, FirstMinimum(deps[k].specs).value)
    {
      KeepsLargestMinimum(deps, k, pythonVersion);
    }
  }

  /** Keys are only ever added at the end: the order of an earlier dictionary is a prefix of every later one. */
  lemma {:induction false} InsertionOrderKept(deps: seq<Dependency>, i: nat, pythonVersion: PythonVersion)
    requires i <= |deps|
    ensures var before, after := Fold(deps[..i], pythonVersion).order, Fold(deps, pythonVersion).order;
      |before| <= |after| && after[..|before|] == before
    decreases |deps|
  {
    if |deps| == i {
      assert deps[..i] == deps;
    } else {
      var prefix := deps[..|deps| - 1];
      assert prefix[..i] == deps[..i];
      InsertionOrderKept(prefix, i, pythonVersion);
      var before, middle := Fold(deps[..i], pythonVersion).order, Fold(prefix, pythonVersion).order;
      var after := Fold(deps, pythonVersion).order;
      assert after == middle || (|after| == |middle| + 1 && after[..|middle|] == middle);
      assert after[..|before|] == middle[..|before|];
    }
  }

  /** The result holds exactly one pin per package that has an entry, each pin under its own name. */
  lemma OnePinPerName(deps: seq<Dependency>, pythonVersion: PythonVersion)
    ensures var s := Fold(deps, pythonVersion); var pins := Values(s);
      && (forall i, j :: 0 <= i < j < |pins| ==> pins[i].name != pins[j].name)
      && (forall n :: n in s.entries <==> exists k :: 0 <= k < |pins| && pins[k].name == n)
  {
    var s := Fold(deps, pythonVersion);
    var pins := Values(s);
    forall n | n in s.entries
      ensures exists k :: 0 <= k < |pins| && pins[k].name == n
    {
      var k :| 0 <= k < |s.order| && s.order[k] == n;
      assert pins[k].name == n;
    }
  }

  // ---------------------------------------------------------------------------
  // The fold as written, where re-pinning compares a string with a Version
  // ---------------------------------------------------------------------------

  datatype Error = TypeError

  /**
    The turn reaches the comparison `new_version > existing_version` with a
    specifier's version string: an applicable requirement for a version-pinned
    name that has a `>=`/`==` specifier.
  */
  predicate ReachesComparison(s: Pins, d: Dependency, pythonVersion: PythonVersion) {
    && d.Req? && (d.marker.None? || d.marker.value(pythonVersion))
    && d.name in s.entries && s.entries[d.name].VersionPin?
    && FirstMinimum(d.specs).Some?
  }

  /**
    One turn of the loop exactly as written. When a version-pinned name meets a
    requirement with a `>=`/`==` specifier, `new_version` is that specifier's
    version STRING, and comparing it with the pinned `Version` raises TypeError;
    without such a specifier it is the pinned `Version` itself, which is not
    greater than itself.
  */
  function StepAsWritten(s: Pins, d: Dependency, pythonVersion: PythonVersion): (r: Result<Pins, Error>)
    ensures r.Failure? <==> ReachesComparison(s, d, pythonVersion)
    ensures r.Success? ==> r.value == Step(s, d, pythonVersion)
  {
    match d
    case Url(name, url) => Success(Put(s, UrlPin(name, url)))
    case Req(name, marker, specs) =>
      if marker.Some? && !marker.value(pythonVersion) then Success(s)
      else if name !in s.entries then
        match FirstMinimum(specs)
        case None => Success(s)
        case Some(v) => Success(Put(s, VersionPin(name, v)))
      else if s.entries[name].UrlPin? then Success(s)
      else if FirstMinimum(specs).Some? then Failure(TypeError)
      else VersionLessIrreflexive(s.entries[name].version); Success(s)
  }

  /** The loop as written: the first TypeError ends it, else the dictionary it builds. */
  function FoldAsWritten(deps: seq<Dependency>, pythonVersion: PythonVersion): (r: Result<Pins, Error>)
    ensures r.Success? ==> r.value == Fold(deps, pythonVersion)
  {
    if |deps| == 0 then Success(EMPTY)
    else
      match FoldAsWritten(deps[..|deps| - 1], pythonVersion)
      case Failure(e) => Failure(e)
      case Success(s) => StepAsWritten(s, deps[|deps| - 1], pythonVersion)
  }

  /** Some turn, on the dictionary the turns before it built, reaches the version comparison. */
  ghost predicate SomeTurnReachesComparison(deps: seq<Dependency>, pythonVersion: PythonVersion)
    decreases |deps|
  {
    && |deps| > 0
    && (|| SomeTurnReachesComparison(deps[..|deps| - 1], pythonVersion)
        || ReachesComparison(Fold(deps[..|deps| - 1], pythonVersion), deps[|deps| - 1], pythonVersion))
  }

  /**
    The code as written raises exactly when some turn, on the dictionary the
    turns before it built, reaches the version comparison.
  */
  lemma {:induction false} AsWrittenFailsIff(deps: seq<Dependency>, pythonVersion: PythonVersion)
    ensures FoldAsWritten(deps, pythonVersion).Failure? <==> SomeTurnReachesComparison(deps, pythonVersion)
    ensures FoldAsWritten(deps, pythonVersion).Failure? <==>
      exists k :: 0 <= k < |deps| && ReachesComparison(Fold(deps[..k], pythonVersion), deps[k], pythonVersion)
    decreases |deps|
  {
    if |deps| > 0 {
      AsWrittenFailsIff(deps[..|deps| - 1], pythonVersion);
    }
    SomeTurnIsOne(deps, pythonVersion);
  }

  /** `SomeTurnReachesComparison` names the turn: the one at position k. */
  lemma {:induction false} SomeTurnIsOne(deps: seq<Dependency>, pythonVersion: PythonVersion)
    ensures SomeTurnReachesComparison(deps, pythonVersion) <==>
      exists k :: 0 <= k < |deps| && ReachesComparison(Fold(deps[..k], pythonVersion), deps[k], pythonVersion)
  {
    if SomeTurnReachesComparison(deps, pythonVersion) {
      var k := TurnReachingComparison(deps, pythonVersion);
    } else {
      forall k | 0 <= k < |deps|
        ensures !ReachesComparison(Fold(deps[..k], pythonVersion), deps[k], pythonVersion)
      {
        NoTurnReachesComparison(deps, k, pythonVersion);
      }
    }
  }

  lemma {:induction false} TurnReachingComparison(deps: seq<Dependency>, pythonVersion: PythonVersion) returns (k: nat)
    requires SomeTurnReachesComparison(deps, pythonVersion)
    ensures k < |deps| && ReachesComparison(Fold(deps[..k], pythonVersion), deps[k], pythonVersion)
    decreases |deps|
  {
    var prefix := deps[..|deps| - 1];
    if SomeTurnReachesComparison(prefix, pythonVersion) {
      k := TurnReachingComparison(prefix, pythonVersion);
      assert prefix[..k] == deps[..k];
    } else {
      k := |prefix|;
    }
  }

  lemma {:induction false} NoTurnReachesComparison(deps: seq<Dependency>, k: nat, pythonVersion: PythonVersion)
    requires k < |deps| && !SomeTurnReachesComparison(deps, pythonVersion)
    ensures !ReachesComparison(Fold(deps[..k], pythonVersion), deps[k], pythonVersion)
    decreases |deps|
  {
    var prefix := deps[..|deps| - 1];
    if k < |prefix| {
      NoTurnReachesComparison(prefix, k, pythonVersion);
      assert prefix[..k] == deps[..k];
    } else {
      assert deps[..k] == prefix;
    }
  }

  /**
    Two unconditional requirements for one package: the code as written raises
    TypeError at the second, where the intended result pins the greater version.
  */
  lemma AsWrittenFailsOnSecondRequirement()
    ensures var deps := [Req("numpy", None, [Spec(Ge, [1, 21])]), Req("numpy", None, [Spec(Ge, [1, 23])])];
      && FoldAsWritten(deps, "3.9") == Failure(TypeError)
      && Values(Fold(deps, "3.9")) == [VersionPin("numpy", [1, 23])]
  {
    var deps := [Req("numpy", None, [Spec(Ge, [1, 21])]), Req("numpy", None, [Spec(Ge, [1, 23])])];
    assert deps[..1] == [deps[0]];
    assert FirstMinimum([Spec(Ge, [1, 21])]) == Some([1, 21]);
    assert FirstMinimum([Spec(Ge, [1, 23])]) == Some([1, 23]);
    assert Fold(deps[..1][..0], "3.9") == EMPTY;
    var s := Fold(deps[..1], "3.9");
    assert s == Step(EMPTY, deps[0], "3.9");
    assert s == Pins(["numpy"], map["numpy" := VersionPin("numpy", [1, 21])]);
    assert VersionLess([1, 21], [1, 23]);
  }
}
