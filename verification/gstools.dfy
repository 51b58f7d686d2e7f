/** The GSTools interface of skgstat/interfaces/gstools.py: the table
    `MODEL_MAP`, the two rescale helpers and `skgstat_to_gstools`, which turns
    a fitted variogram's describe record into the class name and keyword
    arguments of the equivalent GSTools covariance model.

    The import of GSTools becomes an input: `None` when it is not installed,
    otherwise its `__version__` string. The real power used by the stable
    rescale is an opaque parameter `pow`. The result is the class to
    instantiate together with its keywords; building the object is left out. */
module GsTools {
  import opened Wrappers
  import PyBuiltins
  import Models

  /** A keyword argument value: a float, an int (`dim`), or any other Python
      object a caller may pass as an override, kept by its text. */
  datatype Value = Float(x: real) | Int(n: int) | Other(text: string)

  type Kwargs = map<string, Value>

  type Power = (real, real) -> real

  /** The record `Variogram.describe()` returns, for the keys the adapter
      reads. `shape` and `smoothness` are only present for the stable and the
      Matérn model. */
  datatype Describe = Describe(
    name: string,
    sill: real,
    nugget: real,
    effectiveRange: real,
    shape: Option<real>,
    smoothness: Option<real>)

  /** `describe[key]` for the numeric keys; `None` where Python raises KeyError. */
  function Field(d: Describe, key: string): Option<real> {
    if key == "sill" then Some(d.sill)
    else if key == "nugget" then Some(d.nugget)
    else if key == "effective_range" then Some(d.effectiveRange)
    else if key == "shape" then d.shape
    else if key == "smoothness" then d.smoothness
    else None
  }

  /** The exceptions `skgstat_to_gstools` can raise. */
  datatype Error =
    | MissingDependency              // ImportError: GSTools not installed
    | InvalidVersion(part: string)   // ValueError from int() on a version component
    | UnsupportedVersion             // ValueError: GSTools older than 1.3
    | UnsupportedModel(name: string) // ValueError: no entry in MODEL_MAP
    | MissingKey(key: string)        // KeyError on the describe record
    | ZeroDivision                   // ZeroDivisionError in 1 / shape

  /** The final GSTools call: class name and keyword arguments. */
  datatype GsModel = GsModel(className: string, kwargs: Kwargs)

  // ---------------------------------------------------------------------------
  // Rescale helpers and the model table
  // ---------------------------------------------------------------------------

  /** `stable_rescale`: `3 ** (1 / shape)`, the same factor by which the stable
      kernel divides its effective range. */
  function StableRescale(pow: Power, d: Describe): (r: Result<real, Error>)
    ensures d.shape.None? <==> r == Failure(MissingKey("shape"))
    ensures d.shape == Some(0.0) <==> r == Failure(ZeroDivision)
    ensures r.Success? <==> d.shape.Some? && d.shape.value != 0.0
  {
    match d.shape
    case None => Failure(MissingKey("shape"))
    case Some(s) => if s == 0.0 then Failure(ZeroDivision) else Success(pow(3.0, 1.0 / s))
  }

  /** `matern_rescale`: 4.0 strictly inside (0.5, 10.0), 6.0 everywhere else,
      the two end points included. */
  function MaternRescale(d: Describe): (r: Result<real, Error>)
    ensures d.smoothness.None? <==> r == Failure(MissingKey("smoothness"))
    ensures d.smoothness.Some? ==> r.Success?
    ensures r.Success? ==> (r.value == 4.0 <==> 0.5 < d.smoothness.value < 10.0)
    ensures r.Success? ==> (r.value == 6.0 <==> !(0.5 < d.smoothness.value < 10.0))
  {
    match d.smoothness
    case None => Failure(MissingKey("smoothness"))
    case Some(s) => if 0.5 < s && s < 10.0 then Success(4.0) else Success(6.0)
  }

  /** A rescale rule: a fixed factor, or a function of the whole describe
      record. */
  datatype Rescale = Constant(factor: real) | Derived(rule: Describe -> Result<real, Error>)

  /** A `MODEL_MAP` entry as written: `arg_map` (ordered like the Python
      dict) and `rescale` may be absent. */
  datatype Entry = Entry(gsCls: string, argMap: Option<seq<(string, string)>>, rescale: Option<Rescale>)

  /** The six families the adapter supports. */
  const Families: set<string> :=
    {"spherical", "exponential", "gaussian", "cubic", "stable", "matern"}

  /** `MODEL_MAP`. */
  function ModelMap(pow: Power): map<string, Entry> {
    map[
      "spherical" := Entry("Spherical", None, None),
      "exponential" := Entry("Exponential", None, Some(Constant(3.0))),
      "gaussian" := Entry("Gaussian", None, Some(Constant(2.0))),
      "cubic" := Entry("Cubic", None, None),
      "stable" := Entry("Stable", Some([("alpha", "shape")]), Some(Derived(d => StableRescale(pow, d)))),
      "matern" := Entry("Matern", Some([("nu", "smoothness")]), Some(Derived(MaternRescale)))
    ]
  }

  /** An entry after `setdefault("rescale", 1.0)` and `setdefault("arg_map", {})`. */
  datatype Resolved = Resolved(gsCls: string, argMap: seq<(string, string)>, rescale: Rescale)

  function WithDefaults(e: Entry): Resolved {
    Resolved(e.gsCls, e.argMap.GetOr([]), e.rescale.GetOr(Constant(1.0)))
  }

  /** The entry as the table holds it after one call: `setdefault` writes the
      defaults back into `MODEL_MAP`. */
  function Settled(e: Entry): (s: Entry)
    ensures s.gsCls == e.gsCls && s.argMap.Some? && s.rescale.Some?
  {
    Entry(e.gsCls, Some(e.argMap.GetOr([])), Some(e.rescale.GetOr(Constant(1.0))))
  }

  /** Writing the defaults back changes nothing a later call reads, so the
      table can be modelled as a constant and the defaults applied on lookup. */
  lemma SettledIsTransparent(e: Entry)
    ensures WithDefaults(Settled(e)) == WithDefaults(e)
    ensures Settled(Settled(e)) == Settled(e)
  {}

  /** `rescale(describe) if callable(rescale) else rescale`. */
  function ResolveRescale(rs: Rescale, d: Describe): Result<real, Error> {
    match rs
    case Constant(v) => Success(v)
    case Derived(rule) => rule(d)
  }

  // ---------------------------------------------------------------------------
  // Keyword construction
  // ---------------------------------------------------------------------------

  /** The keys of an `arg_map` are distinct, as in any Python dict. */
  predicate DistinctArgs(argMap: seq<(string, string)>) {
    forall i, j :: 0 <= i < j < |argMap| ==> argMap[i].0 != argMap[j].0
  }

  /** The target keys of an `arg_map`. */
  function Targets(argMap: seq<(string, string)>): (t: set<string>)
    ensures forall k :: k in t <==> exists i :: 0 <= i < |argMap| && argMap[i].0 == k
  {
    if argMap == [] then {}
    else
      assert forall i :: 1 <= i < |argMap| ==> argMap[i] == argMap[1..][i - 1];
      {argMap[0].0} + Targets(argMap[1..])
  }

  /** `for arg in arg_map: gs_kwargs[arg] = float(describe[arg_map[arg]])`:
      the first missing describe key stops the loop with KeyError. */
  function CopyArgs(kw: Kwargs, argMap: seq<(string, string)>, d: Describe): Result<Kwargs, Error>
    decreases |argMap|
  {
    if argMap == [] then Success(kw)
    else
      match Field(d, argMap[0].1)
      case None => Failure(MissingKey(argMap[0].1))
      case Some(v) => CopyArgs(kw[argMap[0].0 := Float(v)], argMap[1..], d)
  }

  /** Copying succeeds exactly when every source key is in the describe
      record; otherwise the error names a missing one. */
  lemma {:induction false} CopyArgsOutcome(kw: Kwargs, argMap: seq<(string, string)>, d: Describe)
    ensures CopyArgs(kw, argMap, d).Success? <==> forall i :: 0 <= i < |argMap| ==> Field(d, argMap[i].1).Some?
    ensures CopyArgs(kw, argMap, d).Failure? ==>
              exists i :: 0 <= i < |argMap| && Field(d, argMap[i].1).None?
                       && CopyArgs(kw, argMap, d).error == MissingKey(argMap[i].1)
    decreases |argMap|
  {
    if argMap != [] {
      var v := Field(d, argMap[0].1);
      if v.Some? {
        CopyArgsOutcome(kw[argMap[0].0 := Float(v.value)], argMap[1..], d);
        assert forall i :: 1 <= i < |argMap| ==> argMap[i] == argMap[1..][i - 1];
        var r := CopyArgs(kw, argMap, d);
        if r.Failure? {
          var j :| 0 <= j < |argMap[1..]| && Field(d, argMap[1..][j].1).None?
                   && r.error == MissingKey(argMap[1..][j].1);
          assert argMap[j + 1] == argMap[1..][j];
        }
      }
    }
  }

  /** A successful copy keeps the old keys and adds exactly the targets. */
  lemma {:induction false} CopyArgsKeys(kw: Kwargs, argMap: seq<(string, string)>, d: Describe)
    requires CopyArgs(kw, argMap, d).Success?
    ensures CopyArgs(kw, argMap, d).value.Keys == kw.Keys + Targets(argMap)
    decreases |argMap|
  {
    if argMap != [] {
      var v := Field(d, argMap[0].1).value;
      CopyArgsKeys(kw[argMap[0].0 := Float(v)], argMap[1..], d);
      assert Targets(argMap) == {argMap[0].0} + Targets(argMap[1..]);
    }
  }

  /** After a successful copy each target holds the value of its source, and
      every key that is no target keeps its old value. */
  lemma {:induction false} CopyArgsValues(kw: Kwargs, argMap: seq<(string, string)>, d: Describe)
    requires DistinctArgs(argMap)
    requires CopyArgs(kw, argMap, d).Success?
    ensures var out := CopyArgs(kw, argMap, d).value;
            forall i :: 0 <= i < |argMap| ==>
              argMap[i].0 in out && Field(d, argMap[i].1).Some? && out[argMap[i].0] == Float(Field(d, argMap[i].1).value)
    ensures var out := CopyArgs(kw, argMap, d).value;
            forall k :: k in kw && k !in Targets(argMap) ==> k in out && out[k] == kw[k]
    decreases |argMap|
  {
    if argMap != [] {
      var v := Field(d, argMap[0].1).value;
      var kw' := kw[argMap[0].0 := Float(v)];
      CopyArgsValues(kw', argMap[1..], d);
      CopyArgsKeys(kw', argMap[1..], d);
      assert forall i :: 1 <= i < |argMap| ==> argMap[i] == argMap[1..][i - 1];
      assert argMap[0].0 !in Targets(argMap[1..]);
      assert Targets(argMap) == {argMap[0].0} + Targets(argMap[1..]);
    }
  }

  /** The three keywords every family gets: `var = sill - nugget`,
      `len_scale = effective_range`, `nugget = nugget`. */
  function BaseKwargs(d: Describe): Kwargs {
    map["var" := Float(d.sill - d.nugget), "len_scale" := Float(d.effectiveRange), "nugget" := Float(d.nugget)]
  }

  /** Everything `skgstat_to_gstools` derives from the describe record, before
      the caller's keywords are merged: lookup, base keywords, rescale, shape
      keywords. */
  function DerivedModel(pow: Power, d: Describe): Result<GsModel, Error> {
    var table := ModelMap(pow);
    if d.name !in table then Failure(UnsupportedModel(d.name))
    else
      var entry := WithDefaults(table[d.name]);
      var rescale :- ResolveRescale(entry.rescale, d);
      var kw :- CopyArgs(BaseKwargs(d)["rescale" := Float(rescale)], entry.argMap, d);
      Success(GsModel(entry.gsCls, kw))
  }

  /** `kwargs.setdefault("dim", variogram.dim)`. */
  function WithDim(kwargs: Kwargs, dim: int): Kwargs {
    if "dim" in kwargs then kwargs else kwargs["dim" := Int(dim)]
  }

  /** The body of `skgstat_to_gstools` after the version gate: `dim` and
      `d` come from the variogram, `kwargs` are the caller's keywords. */
  function Translate(pow: Power, dim: int, d: Describe, kwargs: Kwargs): Result<GsModel, Error> {
    var overrides := WithDim(kwargs, dim);
    var derived :- DerivedModel(pow, d);
    Success(GsModel(derived.className, derived.kwargs + overrides))
  }

  /** `skgstat_to_gstools(variogram, **kwargs)`: `gstools` is the installed
      GSTools version, `None` when the import fails. */
  function ToGsTools(gstools: Option<string>, pow: Power, dim: int, d: Describe, kwargs: Kwargs)
    : Result<GsModel, Error>
  {
    var _ :- CheckVersion(gstools);
    Translate(pow, dim, d, kwargs)
  }

  // ---------------------------------------------------------------------------
  // Version gate
  // ---------------------------------------------------------------------------

  /** `list(map(int, parts))`: the first component `int` rejects raises. */
  function ParseComponents(parts: seq<string>): (r: Result<seq<int>, Error>)
    ensures r.Success? ==> |r.value| == |parts|
    ensures r.Failure? ==> r.error.InvalidVersion?
  {
    if parts == [] then Success([])
    else
      match PyBuiltins.ParseInt(parts[0])
      case None => Failure(InvalidVersion(parts[0]))
      case Some(n) =>
        var rest :- ParseComponents(parts[1..]);
        Success([n] + rest)
  }

  /** One step of a successful parse: the first piece parses to the first
      integer and the rest parse to the rest. */
  lemma ParseComponentsStep(parts: seq<string>)
    requires parts != [] && ParseComponents(parts).Success?
    ensures PyBuiltins.ParseInt(parts[0]) == Some(ParseComponents(parts).value[0])
    ensures ParseComponents(parts[1..]) == Success(ParseComponents(parts).value[1..])
  {
    var tail := ParseComponents(parts[1..]);
    assert ParseComponents(parts).value == [PyBuiltins.ParseInt(parts[0]).value] + tail.value;
  }

  /** A successful parse holds, piece by piece, what `int` returns for it. */
  lemma {:induction false} ParseComponentsValues(parts: seq<string>)
    ensures var r := ParseComponents(parts);
            r.Success? ==> forall i :: 0 <= i < |parts| ==> PyBuiltins.ParseInt(parts[i]) == Some(r.value[i])
  {
    var r := ParseComponents(parts);
    if parts != [] && r.Success? {
      ParseComponentsStep(parts);
      var rest, tail := parts[1..], r.value[1..];
      ParseComponentsValues(rest);
      forall i | 1 <= i < |parts|
        ensures PyBuiltins.ParseInt(parts[i]) == Some(r.value[i])
      {
        assert parts[i] == rest[i - 1] && r.value[i] == tail[i - 1];
      }
    }
  }

  /** A failed parse names a piece `int` rejects. */
  lemma {:induction false} ParseComponentsRejects(parts: seq<string>)
    ensures var r := ParseComponents(parts);
            r.Failure? ==> exists i :: 0 <= i < |parts| && PyBuiltins.ParseInt(parts[i]).None?
                                    && r.error == InvalidVersion(parts[i])
  {
    var r := ParseComponents(parts);
    if parts != [] && PyBuiltins.ParseInt(parts[0]).Some? && r.Failure? {
      var rest := parts[1..];
      ParseComponentsRejects(rest);
      var j :| 0 <= j < |rest| && PyBuiltins.ParseInt(rest[j]).None? && r.error == InvalidVersion(rest[j]);
      assert parts[j + 1] == rest[j];
    }
  }

  /** The oldest supported GSTools release, 1.3, stated independently of the
      list comparison the source uses. */
  predicate AtLeastMinimum(v: seq<int>)
    requires |v| >= 1
  {
    v[0] > 1 || (v[0] == 1 && |v| >= 2 && v[1] >= 3)
  }

  /** `version.split(".")[:2]`: the major and minor pieces, or fewer when
      the version has fewer. */
  function VersionHead(version: string): (head: seq<string>)
    ensures 1 <= |head| <= 2
    ensures |head| <= |PyBuiltins.Split(version, '.')|
    ensures head == PyBuiltins.Split(version, '.')[..|head|]
    ensures |head| == 1 <==> '.' !in version
  {
    var parts := PyBuiltins.Split(version, '.');
    var head := parts[..if |parts| < 2 then |parts| else 2];
    if '.' in version then VersionHeadHasTwo(version); head
    else PyBuiltins.SplitNoSeparator(version, '.'); head
  }

  /** A version with a dot splits into at least two pieces. */
  lemma VersionHeadHasTwo(version: string)
    requires '.' in version
    ensures |PyBuiltins.Split(version, '.')| >= 2
  {
    PyBuiltins.JoinSplit(version, '.');
  }

  /** `list(map(int, version.split(".")[:2])) < [1, 3]` raises ValueError;
      on success the parsed components are returned. */
  function CheckVersion(gstools: Option<string>): (r: Result<seq<int>, Error>)
    ensures gstools.None? <==> r == Failure(MissingDependency)
    ensures r.Success? ==> 1 <= |r.value| <= 2 && AtLeastMinimum(r.value)
    ensures gstools.Some? ==>
              var p := ParseComponents(VersionHead(gstools.value));
              && (p.Failure? ==> r == Failure(p.error))
              && (p.Success? && !AtLeastMinimum(p.value) ==> r == Failure(UnsupportedVersion))
              && (r.Success? <==> p.Success? && AtLeastMinimum(p.value))
              && (r.Success? ==> r.value == p.value)
  {
    match gstools
    case None => Failure(MissingDependency)
    case Some(version) =>
      var v :- ParseComponents(VersionHead(version));
      MinimumVersionOrder(v);
      if PyBuiltins.ListLess(v, [1, 3]) then Failure(UnsupportedVersion) else Success(v)
  }

  /** Python's list comparison against `[1, 3]` agrees with `AtLeastMinimum`
      on lists of one or two components. */
  lemma MinimumVersionOrder(v: seq<int>)
    requires 1 <= |v| <= 2
    ensures !PyBuiltins.ListLess(v, [1, 3]) <==> AtLeastMinimum(v)
  {
    var w: seq<int> := [1, 3];
    assert w[0] == 1 && w[1..] == [3];
    if v[0] == 1 {
      assert PyBuiltins.ListLess(v, w) == PyBuiltins.ListLess(v[1..], [3]);
      if |v| == 2 {
        assert v[1..] == [v[1]];
        if v[1] == 3 {
          assert PyBuiltins.ListLess(v[1..], [3]) == PyBuiltins.ListLess([], []);
        }
      } else {
        assert v[1..] == [];
      }
    }
  }

  /** The pieces of `m + suffix`, where `m` has no dot and the suffix is
      empty or starts with one: `m` first, then the pieces after that dot. */
  lemma SplitMinor(m: string, suffix: string)
    requires '.' !in m
    requires suffix == [] || suffix[0] == '.'
    ensures var parts := PyBuiltins.Split(m + suffix, '.');
            |parts| >= 1 && parts[0] == m
  {
    if suffix == [] {
      assert m + suffix == m;
      PyBuiltins.SplitNoSeparator(m, '.');
    } else {
      var rest := suffix[1..];
      assert m + suffix == m + ['.'] + rest;
      PyBuiltins.SplitAtFirstSeparator(m, rest, '.');
    }
  }

  /** The first two pieces of "M.m" + suffix are M and m. */
  lemma SplitVersionHead(M: string, m: string, suffix: string)
    requires '.' !in M && '.' !in m
    requires suffix == [] || suffix[0] == '.'
    ensures var parts := PyBuiltins.Split(M + "." + m + suffix, '.');
            |parts| >= 2 && parts[..2] == [M, m]
  {
    var tail := m + suffix;
    assert M + "." + m + suffix == M + ['.'] + tail;
    PyBuiltins.SplitAtFirstSeparator(M, tail, '.');
    SplitMinor(m, suffix);
    var parts := PyBuiltins.Split(M + ['.'] + tail, '.');
    assert parts == [M] + PyBuiltins.Split(tail, '.');
    assert parts[0] == M && parts[1] == m;
  }

  lemma ParseComponentsCons(p: string, ps: seq<string>, n: int, ns: seq<int>)
    requires PyBuiltins.ParseInt(p) == Some(n)
    requires ParseComponents(ps) == Success(ns)
    ensures ParseComponents([p] + ps) == Success([n] + ns)
  {
    assert ([p] + ps)[0] == p && ([p] + ps)[1..] == ps;
  }

  /** `list(map(int, [p, q]))` when both pieces parse. */
  lemma ParseComponentsTwo(p: string, q: string, n: int, m: int)
    requires PyBuiltins.ParseInt(p) == Some(n)
    requires PyBuiltins.ParseInt(q) == Some(m)
    ensures ParseComponents([p] + [q]) == Success([n] + [m])
  {
    ParseComponentsCons(q, [], m, []);
    assert [q] + [] == [q] && [m] + [] == [m];
    ParseComponentsCons(p, [q], n, [m]);
  }

  lemma ParseTwoComponents(major: nat, minor: nat)
    ensures ParseComponents([PyBuiltins.DecimalString(major)] + [PyBuiltins.DecimalString(minor)])
         == Success([major as int] + [minor as int])
  {
    PyBuiltins.ParseDecimalString(major);
    PyBuiltins.ParseDecimalString(minor);
    ParseComponentsTwo(PyBuiltins.DecimalString(major), PyBuiltins.DecimalString(minor), major, minor);
  }

  /** The gate on a version whose first two pieces parse to `v`: it compares
      `v` with [1, 3] and nothing else. */
  lemma CheckVersionOfHead(version: string, head: seq<string>, v: seq<int>)
    requires |PyBuiltins.Split(version, '.')| >= 2 && PyBuiltins.Split(version, '.')[..2] == head
    requires ParseComponents(head) == Success(v)
    ensures CheckVersion(Some(version))
         == if PyBuiltins.ListLess(v, [1, 3]) then Failure(UnsupportedVersion) else Success(v)
  {}

  /** Only the major and minor pieces reach the gate: whatever follows
      "M.m" after a further dot (a patch level, "dev0", another dot) leaves
      the verdict as it is for "M.m" alone. */
  lemma VersionSuffixIgnored(M: string, m: string, suffix: string)
    requires '.' !in M && '.' !in m
    requires suffix == [] || suffix[0] == '.'
    ensures CheckVersion(Some(M + "." + m + suffix)) == CheckVersion(Some(M + "." + m))
  {
    SplitVersionHead(M, m, suffix);
    SplitVersionHead(M, m, []);
    assert M + "." + m + [] == M + "." + m;
    assert VersionHead(M + "." + m + suffix) == [M, m];
    assert VersionHead(M + "." + m) == [M, m];
  }

  /** For a version "major.minor" optionally followed by ".anything", the gate
      compares the numbers, not the text: it accepts exactly when
      (major, minor) >= (1, 3). */
  lemma VersionGateIsNumeric(major: nat, minor: nat, suffix: string)
    requires suffix == [] || suffix[0] == '.'
    ensures CheckVersion(Some(PyBuiltins.DecimalString(major) + "." + PyBuiltins.DecimalString(minor) + suffix))
         == if major > 1 || (major == 1 && minor >= 3) then Success([major as int, minor as int])
            else Failure(UnsupportedVersion)
  {
    var M, m := PyBuiltins.DecimalString(major), PyBuiltins.DecimalString(minor);
    assert '.' !in M && '.' !in m;
    SplitVersionHead(M, m, suffix);
    ParseTwoComponents(major, minor);
    assert [M, m] == [M] + [m];
    var v: seq<int> := [major as int] + [minor as int];
    CheckVersionOfHead(M + "." + m + suffix, [M] + [m], v);
    assert v == [major as int, minor as int];
    MinimumVersionOrder(v);
  }

  /** Sample versions: 1.2.0 is refused, while 1.3.0, 1.10.0 and 2.0 pass
      although "1.10" < "1.3" as text. */
  lemma VersionGateRejects120()
    ensures CheckVersion(Some("1.2.0")) == Failure(UnsupportedVersion)
  {
    SmallDecimals();
    assert "1.2.0" == PyBuiltins.DecimalString(1) + "." + PyBuiltins.DecimalString(2) + ".0";
    VersionGateIsNumeric(1, 2, ".0");
  }

  lemma VersionGateAccepts130()
    ensures CheckVersion(Some("1.3.0")) == Success([1, 3])
  {
    SmallDecimals();
    assert "1.3.0" == PyBuiltins.DecimalString(1) + "." + PyBuiltins.DecimalString(3) + ".0";
    VersionGateIsNumeric(1, 3, ".0");
  }

  lemma VersionGateAccepts1100()
    ensures CheckVersion(Some("1.10.0")) == Success([1, 10])
  {
    SmallDecimals();
    assert "1.10.0" == PyBuiltins.DecimalString(1) + "." + PyBuiltins.DecimalString(10) + ".0";
    VersionGateIsNumeric(1, 10, ".0");
  }

  lemma VersionGateAccepts20()
    ensures CheckVersion(Some("2.0")) == Success([2, 0])
  {
    SmallDecimals();
    assert "2.0" == PyBuiltins.DecimalString(2) + "." + PyBuiltins.DecimalString(0) + "";
    VersionGateIsNumeric(2, 0, "");
  }

  /** A version without a dot is a single component, compared on its own:
      `[major] < [1, 3]` is false exactly when major >= 2. */
  lemma VersionGateSingle(major: nat)
    ensures CheckVersion(Some(PyBuiltins.DecimalString(major)))
         == if major >= 2 then Success([major as int]) else Failure(UnsupportedVersion)
  {
    var M := PyBuiltins.DecimalString(major);
    assert forall i :: 0 <= i < |M| ==> M[i] != '.';
    PyBuiltins.SplitNoSeparator(M, '.');
    assert VersionHead(M) == [M];
    PyBuiltins.ParseDecimalString(major);
    ParseComponentsCons(M, [], major, []);
    assert [M] + [] == [M] && [major as int] + [] == [major as int];
  }

  /** "2" passes: a single component of at least 2 needs no minor. */
  lemma VersionGateAccepts2()
    ensures CheckVersion(Some("2")) == Success([2])
  {
    SmallDecimals();
    VersionGateSingle(2);
  }

  /** A first or second piece `int` rejects is a ValueError naming the first
      such piece, raised before any comparison. */
  lemma VersionGateRejectsPiece(M: string, m: string, suffix: string)
    requires '.' !in M && '.' !in m
    requires suffix == [] || suffix[0] == '.'
    requires PyBuiltins.ParseInt(M).None? || PyBuiltins.ParseInt(m).None?
    ensures CheckVersion(Some(M + "." + m + suffix))
         == Failure(InvalidVersion(if PyBuiltins.ParseInt(M).None? then M else m))
  {
    SplitVersionHead(M, m, suffix);
    assert VersionHead(M + "." + m + suffix) == [M, m];
    ParseComponentsPairFails(M, m);
  }

  /** `list(map(int, [p, q]))` raises on the first piece `int` rejects. */
  lemma ParseComponentsPairFails(p: string, q: string)
    requires PyBuiltins.ParseInt(p).None? || PyBuiltins.ParseInt(q).None?
    ensures ParseComponents([p, q]) == Failure(InvalidVersion(if PyBuiltins.ParseInt(p).None? then p else q))
  {
    assert [p, q][0] == p && [p, q][1..] == [q];
    assert [q][0] == q && [q][1..] == [];
  }

  lemma SmallDecimals()
    ensures PyBuiltins.DecimalString(0) == "0"
    ensures PyBuiltins.DecimalString(1) == "1"
    ensures PyBuiltins.DecimalString(2) == "2"
    ensures PyBuiltins.DecimalString(3) == "3"
    ensures PyBuiltins.DecimalString(10) == "10"
  {
    assert PyBuiltins.DecimalString(10) == PyBuiltins.DecimalString(1) + [PyBuiltins.DigitChar(0)];
  }

  // ---------------------------------------------------------------------------
  // What the translation promises
  // ---------------------------------------------------------------------------

  /** The factor each family contributes as `rescale`: 3 for exponential, 2 for
      gaussian, the default 1 for spherical and cubic, and the rescale helper
      applied to the whole record for stable and Matérn. */
  function FamilyRescale(pow: Power, d: Describe): Result<real, Error> {
    if d.name == "exponential" then Success(3.0)
    else if d.name == "gaussian" then Success(2.0)
    else if d.name == "stable" then StableRescale(pow, d)
    else if d.name == "matern" then MaternRescale(d)
    else Success(1.0)
  }

  /** The shape keywords a family adds, under GSTools' names. */
  function ShapeKwargs(d: Describe): Kwargs {
    if d.name == "stable" && d.shape.Some? then map["alpha" := Float(d.shape.value)]
    else if d.name == "matern" && d.smoothness.Some? then map["nu" := Float(d.smoothness.value)]
    else map[]
  }

  /** The first letter of an ASCII name in upper case. */
  function Capitalized(name: string): string {
    if name == [] then []
    else if 'a' <= name[0] <= 'z' then [((name[0] as int) - 32) as char] + name[1..]
    else name
  }

  /** What the translation promises before the caller's keywords are merged,
      stated family by family without the table: the class is the family name
      capitalised, the keywords are the base three, the family's rescale and
      its renamed shape key. */
  function ReferenceModel(pow: Power, d: Describe): Result<GsModel, Error> {
    if d.name !in Families then Failure(UnsupportedModel(d.name))
    else
      match FamilyRescale(pow, d)
      case Failure(e) => Failure(e)
      case Success(rs) =>
        Success(GsModel(Capitalized(d.name), BaseKwargs(d)["rescale" := Float(rs)] + ShapeKwargs(d)))
  }

  lemma DerivedConstant(pow: Power, d: Describe, factor: real)
    requires d.name in ModelMap(pow) && d.name in Families
    requires WithDefaults(ModelMap(pow)[d.name]) == Resolved(Capitalized(d.name), [], Constant(factor))
    requires FamilyRescale(pow, d) == Success(factor) && ShapeKwargs(d) == map[]
    ensures DerivedModel(pow, d) == ReferenceModel(pow, d)
  {
    var kw := BaseKwargs(d)["rescale" := Float(factor)];
    assert CopyArgs(kw, [], d) == Success(kw);
    assert kw + map[] == kw;
  }

  /** Spherical and cubic take both defaults: no `arg_map`, `rescale` 1. */
  lemma DerivedDefaults(pow: Power, d: Describe)
    requires d.name == "spherical" || d.name == "cubic"
    ensures DerivedModel(pow, d) == ReferenceModel(pow, d)
  {
    if d.name == "spherical" {
      assert ModelMap(pow)[d.name] == Entry("Spherical", None, None);
    } else {
      assert ModelMap(pow)[d.name] == Entry("Cubic", None, None);
    }
    DerivedConstant(pow, d, 1.0);
  }

  lemma DerivedExponential(pow: Power, d: Describe)
    requires d.name == "exponential"
    ensures DerivedModel(pow, d) == ReferenceModel(pow, d)
  {
    assert ModelMap(pow)[d.name] == Entry("Exponential", None, Some(Constant(3.0)));
    DerivedConstant(pow, d, 3.0);
  }

  lemma DerivedGaussian(pow: Power, d: Describe)
    requires d.name == "gaussian"
    ensures DerivedModel(pow, d) == ReferenceModel(pow, d)
  {
    assert ModelMap(pow)[d.name] == Entry("Gaussian", None, Some(Constant(2.0)));
    DerivedConstant(pow, d, 2.0);
  }

  lemma DerivedStable(pow: Power, d: Describe)
    requires d.name == "stable"
    ensures DerivedModel(pow, d) == ReferenceModel(pow, d)
  {
    var entry := WithDefaults(ModelMap(pow)[d.name]);
    assert entry.argMap == [("alpha", "shape")];
    assert entry.gsCls == Capitalized(d.name);
    assert ResolveRescale(entry.rescale, d) == StableRescale(pow, d);
    if d.shape.Some? && d.shape.value != 0.0 {
      var kw := BaseKwargs(d)["rescale" := Float(StableRescale(pow, d).value)];
      assert CopyArgs(kw, entry.argMap, d) == Success(kw["alpha" := Float(d.shape.value)]);
      assert kw["alpha" := Float(d.shape.value)] == kw + ShapeKwargs(d);
    }
  }

  lemma DerivedMatern(pow: Power, d: Describe)
    requires d.name == "matern"
    ensures DerivedModel(pow, d) == ReferenceModel(pow, d)
  {
    var entry := WithDefaults(ModelMap(pow)[d.name]);
    assert entry.argMap == [("nu", "smoothness")];
    assert entry.gsCls == Capitalized(d.name);
    assert ResolveRescale(entry.rescale, d) == MaternRescale(d);
    if d.smoothness.Some? {
      var kw := BaseKwargs(d)["rescale" := Float(MaternRescale(d).value)];
      assert CopyArgs(kw, entry.argMap, d) == Success(kw["nu" := Float(d.smoothness.value)]);
      assert kw["nu" := Float(d.smoothness.value)] == kw + ShapeKwargs(d);
    }
  }

  /** The table-driven derivation agrees with the reference for every record. */
  lemma DerivedMatchesReference(pow: Power, d: Describe)
    ensures DerivedModel(pow, d) == ReferenceModel(pow, d)
  {
    if d.name == "stable" {
      DerivedStable(pow, d);
    } else if d.name == "matern" {
      DerivedMatern(pow, d);
    } else if d.name == "spherical" || d.name == "cubic" {
      DerivedDefaults(pow, d);
    } else if d.name == "exponential" {
      DerivedExponential(pow, d);
    } else if d.name == "gaussian" {
      DerivedGaussian(pow, d);
    } else {
      assert d.name !in ModelMap(pow);
    }
  }

  /** `skgstat_to_gstools` is the version gate followed by the reference model
      with the caller's keywords, `dim` defaulted, merged over it. */
  lemma TranslationMatchesReference(gstools: Option<string>, pow: Power, dim: int, d: Describe, kwargs: Kwargs)
    ensures ToGsTools(gstools, pow, dim, d, kwargs)
         == if CheckVersion(gstools).Failure? then Failure(CheckVersion(gstools).error)
            else match ReferenceModel(pow, d)
                 case Failure(e) => Failure(e)
                 case Success(m) => Success(GsModel(m.className, m.kwargs + WithDim(kwargs, dim)))
  {
    DerivedMatchesReference(pow, d);
  }

  /** A family outside the six is refused with UnsupportedModel naming it, and
      no model is produced; a supported family is never refused that way. */
  lemma UnsupportedModelRejected(gstools: Option<string>, pow: Power, dim: int, d: Describe, kwargs: Kwargs)
    requires CheckVersion(gstools).Success?
    ensures d.name !in Families <==> ToGsTools(gstools, pow, dim, d, kwargs) == Failure(UnsupportedModel(d.name))
  {
    TranslationMatchesReference(gstools, pow, dim, d, kwargs);
    if d.name in Families {
      FamilyRescaleErrors(pow, d);
    }
  }

  /** A family's rescale can only fail on its shape parameter. */
  lemma FamilyRescaleErrors(pow: Power, d: Describe)
    ensures FamilyRescale(pow, d).Failure? ==>
              FamilyRescale(pow, d).error in {MissingKey("shape"), MissingKey("smoothness"), ZeroDivision}
  {}

  /** The translation fails exactly when GSTools is missing or too old, the
      family is unknown, or the family's shape parameter is missing (or the
      stable shape is zero), and the first failing check decides the error. */
  lemma TranslationErrors(gstools: Option<string>, pow: Power, dim: int, d: Describe, kwargs: Kwargs)
    ensures var r := ToGsTools(gstools, pow, dim, d, kwargs);
            && (gstools.None? ==> r == Failure(MissingDependency))
            && (CheckVersion(gstools).Failure? ==> r == Failure(CheckVersion(gstools).error))
            && (CheckVersion(gstools).Success? ==>
                  (r.Success? <==> && d.name in Families
                                   && (d.name == "stable" ==> d.shape.Some? && d.shape.value != 0.0)
                                   && (d.name == "matern" ==> d.smoothness.Some?)))
            && (CheckVersion(gstools).Success? && d.name == "stable" && d.shape.None? ==>
                  r == Failure(MissingKey("shape")))
            && (CheckVersion(gstools).Success? && d.name == "matern" && d.smoothness.None? ==>
                  r == Failure(MissingKey("smoothness")))
            && (CheckVersion(gstools).Success? && d.name == "stable" && d.shape == Some(0.0) ==>
                  r == Failure(ZeroDivision))
            && (CheckVersion(gstools).Success? && d.name !in Families ==>
                  r == Failure(UnsupportedModel(d.name)))
  {
    TranslationMatchesReference(gstools, pow, dim, d, kwargs);
    ReferenceErrors(pow, d);
  }

  /** The errors of the family-by-family reference: an unknown name, then
      the family's shape parameter. */
  lemma ReferenceErrors(pow: Power, d: Describe)
    ensures var r := ReferenceModel(pow, d);
            && (r.Success? <==> && d.name in Families
                                && (d.name == "stable" ==> d.shape.Some? && d.shape.value != 0.0)
                                && (d.name == "matern" ==> d.smoothness.Some?))
            && (d.name !in Families ==> r == Failure(UnsupportedModel(d.name)))
            && (d.name == "stable" && d.shape.None? ==> r == Failure(MissingKey("shape")))
            && (d.name == "stable" && d.shape == Some(0.0) ==> r == Failure(ZeroDivision))
            && (d.name == "matern" && d.smoothness.None? ==> r == Failure(MissingKey("smoothness")))
  {
    if d.name in Families {
      assert ReferenceModel(pow, d).Failure? <==> FamilyRescale(pow, d).Failure?;
    }
  }

  /** A successful derivation has the reference keywords: the base three,
      the family's rescale and its shape keywords. */
  lemma DerivedKwargs(pow: Power, d: Describe)
    requires DerivedModel(pow, d).Success?
    ensures d.name in Families && FamilyRescale(pow, d).Success?
    ensures DerivedModel(pow, d).value.kwargs
         == BaseKwargs(d)["rescale" := Float(FamilyRescale(pow, d).value)] + ShapeKwargs(d)
    ensures ShapeKwargs(d).Keys <= {"alpha", "nu"}
  {
    DerivedMatchesReference(pow, d);
  }

  /** Once the derivation is done, the translation is
      the derived model with the caller's keywords and `dim` merged over it. */
  lemma TranslationSucceeds(pow: Power, dim: int, d: Describe, kwargs: Kwargs)
    requires DerivedModel(pow, d).Success?
    ensures Translate(pow, dim, d, kwargs)
         == Success(GsModel(DerivedModel(pow, d).value.className,
                            DerivedModel(pow, d).value.kwargs + WithDim(kwargs, dim)))
  {}

  /** Before the caller's keywords are merged, the base keywords are
      `var = sill - nugget`, `len_scale = effective_range` and
      `nugget = nugget`. */
  lemma BaseKeywords(pow: Power, d: Describe)
    requires DerivedModel(pow, d).Success?
    ensures var kw := DerivedModel(pow, d).value.kwargs;
            && "var" in kw && kw["var"] == Float(d.sill - d.nugget)
            && "len_scale" in kw && kw["len_scale"] == Float(d.effectiveRange)
            && "nugget" in kw && kw["nugget"] == Float(d.nugget)
  {
    DerivedKwargs(pow, d);
  }

  /** The `rescale` each family derives: the constants 3 and 2 for exponential
      and gaussian, the default 1 for spherical and cubic, and for stable and
      Matérn the helper called on the whole describe record. */
  lemma RescaleDispatch(pow: Power, d: Describe)
    requires DerivedModel(pow, d).Success?
    ensures var kw := DerivedModel(pow, d).value.kwargs;
            && "rescale" in kw
            && (d.name == "exponential" ==> kw["rescale"] == Float(3.0))
            && (d.name == "gaussian" ==> kw["rescale"] == Float(2.0))
            && (d.name in {"spherical", "cubic"} ==> kw["rescale"] == Float(1.0))
            && (d.name == "stable" ==> kw["rescale"] == Float(StableRescale(pow, d).value))
            && (d.name == "matern" ==> kw["rescale"] == Float(MaternRescale(d).value))
  {
    DerivedKwargs(pow, d);
  }

  /** Shape parameters are copied under GSTools' names, `alpha` for stable and
      `nu` for Matérn; every other family gets no keyword beyond the base
      three and `rescale`. */
  lemma ShapeKeys(pow: Power, d: Describe)
    requires DerivedModel(pow, d).Success?
    ensures var kw := DerivedModel(pow, d).value.kwargs;
            var common := {"var", "len_scale", "nugget", "rescale"};
            && (d.name == "stable" ==> kw.Keys == common + {"alpha"} && kw["alpha"] == Float(d.shape.value))
            && (d.name == "matern" ==> kw.Keys == common + {"nu"} && kw["nu"] == Float(d.smoothness.value))
            && (d.name !in {"stable", "matern"} ==> kw.Keys == common)
  {
    DerivedKwargs(pow, d);
  }

  /** `gs_kwargs.update(overrides)`: the keys of both, the override winning. */
  lemma MergeWins(derived: Kwargs, overrides: Kwargs)
    ensures (derived + overrides).Keys == derived.Keys + overrides.Keys
    ensures forall k :: k in overrides ==> (derived + overrides)[k] == overrides[k]
    ensures forall k :: k in derived && k !in overrides ==> (derived + overrides)[k] == derived[k]
  {}

  /** `kwargs.setdefault("dim", dim)` adds `dim` only when it is missing. */
  lemma WithDimKeeps(kwargs: Kwargs, dim: int)
    ensures WithDim(kwargs, dim).Keys == kwargs.Keys + {"dim"}
    ensures forall k :: k in kwargs ==> WithDim(kwargs, dim)[k] == kwargs[k]
    ensures "dim" !in kwargs ==> WithDim(kwargs, dim)["dim"] == Int(dim)
  {}

  /** The caller's keywords are merged last and win over every derived value,
      `rescale` and the shape keys included; `dim` is the variogram's only
      when the caller gave none; every other derived keyword is kept. */
  lemma OverridesWin(pow: Power, dim: int, d: Describe, kwargs: Kwargs)
    requires Translate(pow, dim, d, kwargs).Success?
    ensures DerivedModel(pow, d).Success?
    ensures var out := Translate(pow, dim, d, kwargs).value.kwargs;
            var derived := DerivedModel(pow, d).value.kwargs;
            && out.Keys == derived.Keys + kwargs.Keys + {"dim"}
            && (forall k :: k in kwargs ==> out[k] == kwargs[k])
            && ("dim" !in kwargs ==> out["dim"] == Int(dim))
            && (forall k :: k in derived && k !in kwargs && k != "dim" ==> out[k] == derived[k])
  {
    TranslationSucceeds(pow, dim, d, kwargs);
    MergeWins(DerivedModel(pow, d).value.kwargs, WithDim(kwargs, dim));
    WithDimKeeps(kwargs, dim);
  }

  /** The class to instantiate is the `gs_cls` entry of the family, which is
      the family name capitalised ("matern" gives "Matern"). */
  lemma ClassName(pow: Power, dim: int, d: Describe, kwargs: Kwargs)
    requires Translate(pow, dim, d, kwargs).Success?
    ensures d.name in ModelMap(pow)
    ensures Translate(pow, dim, d, kwargs).value.className == ModelMap(pow)[d.name].gsCls
    ensures Translate(pow, dim, d, kwargs).value.className == Capitalized(d.name)
  {
    DerivedMatchesReference(pow, d);
  }

  /** The rescale factor reconciles the two range conventions: for every
      family except Matérn it is exactly the effective range divided by the
      range parameter the kernel uses. */
  lemma RescaleIsRangeRatio(pow: Power, d: Describe)
    requires d.effectiveRange != 0.0
    requires FamilyRescale(pow, d).Success?
    requires d.name == "stable" ==> pow(3.0, 1.0 / d.shape.value) != 0.0
    ensures var rs := FamilyRescale(pow, d).value;
            var r := d.effectiveRange;
            && (d.name == "spherical" ==> rs == r / Models.SphericalRange(r))
            && (d.name == "exponential" ==> rs == r / Models.ExponentialRange(r))
            && (d.name == "gaussian" ==> rs == r / Models.GaussianRange(r))
            && (d.name == "cubic" ==> rs == r / Models.CubicRange(r))
            && (d.name == "stable" ==> rs == r / Models.StableRange(pow, r, d.shape.value))
  {
    var r := d.effectiveRange;
    if d.name == "stable" {
      Models.RangeRatio(r, pow(3.0, 1.0 / d.shape.value));
    } else {
      Models.RangeRatio(r, 1.0);
      Models.RangeRatio(r, 2.0);
      Models.RangeRatio(r, 3.0);
    }
  }

  /** A spherical record with sill 6,
      nugget 1 and effective range 10 derives `var` 5, `len_scale` 10,
      `nugget` 1 and `rescale` 1. */
  lemma SphericalExampleDerived(pow: Power)
    ensures DerivedModel(pow, Describe("spherical", 6.0, 1.0, 10.0, None, None))
         == Success(GsModel("Spherical", map["var" := Float(5.0), "len_scale" := Float(10.0),
                                             "nugget" := Float(1.0), "rescale" := Float(1.0)]))
  {
    var d := Describe("spherical", 6.0, 1.0, 10.0, None, None);
    DerivedMatchesReference(pow, d);
    assert FamilyRescale(pow, d) == Success(1.0);
    assert ShapeKwargs(d) == map[];
    assert Capitalized(d.name) == "Spherical";
  }

  /** The same record translated for a two-dimensional field, once the
      version gate has passed: `dim` 2 joins the derived keywords. */
  lemma SphericalExample(pow: Power)
    ensures Translate(pow, 2, Describe("spherical", 6.0, 1.0, 10.0, None, None), map[])
         == Success(GsModel("Spherical", map["var" := Float(5.0), "len_scale" := Float(10.0),
                                             "nugget" := Float(1.0), "rescale" := Float(1.0), "dim" := Int(2)]))
  {
    SphericalExampleDerived(pow);
    TranslationSucceeds(pow, 2, Describe("spherical", 6.0, 1.0, 10.0, None, None), map[]);
    var kw: Kwargs := map[];
    var derived: Kwargs := map["var" := Float(5.0), "len_scale" := Float(10.0),
                               "nugget" := Float(1.0), "rescale" := Float(1.0)];
    assert WithDim(kw, 2) == map["dim" := Int(2)];
    assert derived + map["dim" := Int(2)] == derived["dim" := Int(2)];
  }

  /** A caller's `rescale` wins over the family's rule, while the other
      derived keywords stay. */
  lemma RescaleOverrideExample(pow: Power)
    ensures var out := Translate(pow, 2, Describe("spherical", 6.0, 1.0, 10.0, None, None),
                                 map["rescale" := Float(9.9)]);
            && out.Success?
            && "rescale" in out.value.kwargs && out.value.kwargs["rescale"] == Float(9.9)
            && "var" in out.value.kwargs && out.value.kwargs["var"] == Float(5.0)
  {
    var d := Describe("spherical", 6.0, 1.0, 10.0, None, None);
    var kw: Kwargs := map["rescale" := Float(9.9)];
    SphericalExampleDerived(pow);
    TranslationSucceeds(pow, 2, d, kw);
    WithDimKeeps(kw, 2);
    MergeWins(DerivedModel(pow, d).value.kwargs, WithDim(kw, 2));
  }

  /** The rescale helpers on sample shapes and smoothness values, the Matérn
      end points included. */
  lemma RescaleExamples(pow: Power)
    ensures MaternRescale(Describe("matern", 6.0, 1.0, 10.0, None, Some(1.5))) == Success(4.0)
    ensures MaternRescale(Describe("matern", 6.0, 1.0, 10.0, None, Some(15.0))) == Success(6.0)
    ensures MaternRescale(Describe("matern", 6.0, 1.0, 10.0, None, Some(0.5))) == Success(6.0)
    ensures MaternRescale(Describe("matern", 6.0, 1.0, 10.0, None, Some(10.0))) == Success(6.0)
    ensures StableRescale(pow, Describe("stable", 6.0, 1.0, 10.0, Some(2.0), None)) == Success(pow(3.0, 0.5))
  {}
}
