# scikit-gstat variogram kernels and the GSTools adapter, in Dafny

This project models two parts of scikit-gstat.

The first part is the semivariance kernels of `skgstat/models.py` and the
`variogram` decorator that vectorises them. A kernel maps a lag `h`, an
effective range `r`, a sill `c0` and a nugget `b` (and, for the stable model,
a shape `s`) to a semivariance. The model covers the spherical, exponential,
Gaussian, cubic and stable kernels. Each one turns the effective range into
its own range parameter `a`: `r`, `r/3`, `r/2`, `r` and `r / 3^(1/s)`.

The second part is the GSTools adapter of `skgstat/interfaces/gstools.py`.
It has three pieces:

- the `MODEL_MAP` table;
- the rescale helpers `stable_rescale` and `matern_rescale`;
- `skgstat_to_gstools`. This checks that GSTools is installed and at least
  version 1.3, and defaults `dim`. It then derives the GSTools keywords
  (`var`, `len_scale`, `nugget`, `rescale` and the renamed shape key) from
  the variogram's describe record. The caller's keywords are merged last.

The project is split into four modules:

- `Wrappers` (`wrappers.dfy`): `Option` and `Result`. A `Result` carries a
  value or a classified Python exception.
- `PyBuiltins` (`pybuiltins.dfy`): the Python built-ins the version gate
  relies on. These are `str.split`, `int()` on a decimal string, and `<`
  between lists of integers.
- `Models` (`models.dfy`): the kernels, their range parameters and the
  `variogram` decorator.
- `GsTools` (`gstools.dfy`): the table, the rescale helpers and the
  translation.

Some parts of the system are inputs to the model rather than parts of it:

- **Real functions.** `exp` and the real power `np.power`/`math.pow` are
  opaque function parameters (`exp`, `pow`). Any property a contract needs
  from them, such as `exp(0) = 1`, `exp` increasing, or
  `(3^(1/s))^s = 3`, appears as a hypothesis of that contract.
- **The GSTools import.** The result of importing GSTools is the input
  `gstools: Option<string>`. It is `None` when the import fails, and
  otherwise it is `gstools.__version__`.
- **The variogram.** The variogram is represented by its `dim` and its
  describe record.
- **The GSTools object.** The output is the class name and the keyword
  arguments that would be passed to it.

## Model

| member | source | states |
|---|---|---|
| `Models.Variogram` | skgstat/models.py:9-18 | a scalar lag gives the kernel's value at that lag; an iterable of lags gives an array of the same length whose i-th value is the kernel at the i-th lag |
| `Models.MapLags` | skgstat/models.py:14-15 | the mapped lags keep their number and order, and each output is the kernel applied to the lag at the same position |
| `Models.VariogramConcat` | skgstat/models.py:12-15 | evaluating a concatenation of lag lists is the concatenation of the evaluations: no element is dropped, added or moved |
| `Models.Spherical` | skgstat/models.py:75-80 | beyond the effective range the value is the sill `b + c0`; at `h = r` the polynomial branch gives the same `b + c0` (the pieces meet); at lag 0 with a positive range the value is the nugget `b` |
| `Models.SphericalBounded` | skgstat/models.py:38-39 | the docstring promises the value never exceeds `c0 + b`; for non-negative lag and sill the lemma proves that and also that it never drops below the nugget `b` |
| `Models.SphericalMonotone` | skgstat/models.py:75-80 | with a positive range and a non-negative sill the spherical semivariance never decreases as the lag grows |
| `Models.Exponential` | skgstat/models.py:136-138 | if `exp(0) = 1`, the value at lag 0 is the nugget; at the effective range the exponent is exactly -3, since `a = r/3` |
| `Models.ExponentialBounded` | skgstat/models.py:103-104 | if `exp` maps non-positive numbers into (0, 1], the exponential value for non-negative lag and sill lies between the nugget and `c0 + b` |
| `Models.ExponentialMonotone` | skgstat/models.py:136-138 | if `exp` is increasing, a non-negative sill makes the exponential model non-decreasing in the lag |
| `Models.Gaussian` | skgstat/models.py:192-194 | if `exp(0) = 1`, the value at lag 0 is the nugget; at the effective range the exponent is exactly -4, since `a = r/2` |
| `Models.GaussianExponent` | skgstat/models.py:192-194 | the exponent `h**2 / a**2` is 0 at lag 0 and 4 at the effective range |
| `Models.GaussianBounded` | skgstat/models.py:161-162 | if `exp` maps non-positive numbers into (0, 1], the Gaussian value lies between the nugget and `c0 + b` for every lag and every non-negative sill |
| `Models.GaussianMonotone` | skgstat/models.py:192-194 | if `exp` is increasing, a non-negative sill makes the Gaussian model non-decreasing on non-negative lags |
| `Models.CubicTerms` | skgstat/models.py:248-251 | the source's term-by-term form with `h ** k / a ** k` equals the cubic polynomial `7t² − 35/4 t³ + 7/2 t⁵ − 3/4 t⁷` at `t = h / a` |
| `Models.Cubic` | skgstat/models.py:245-253 | beyond the effective range the value is `b + c0`; at `h = r` the polynomial also gives `b + c0` (its coefficients sum to 1); at lag 0 with a positive range the value is the nugget |
| `Models.CubicBounded` | skgstat/models.py:214-215 | the docstring promises the value never exceeds `c0 + b`; for non-negative lag and sill the lemma proves that and also that it never drops below the nugget `b` |
| `Models.Stable` | skgstat/models.py:308-312 | if `exp(0) = 1` and `pow(0, s) = 0`, the value at lag 0 is the nugget; if `(3^(1/s))^s = 3`, the value at the effective range is `b + c0(1 − e^-3)` |
| `Models.StableBounded` | skgstat/models.py:277-278 | for a non-negative lag, positive range and non-negative sill, if `exp` maps non-positive numbers into (0, 1], the power keeps non-negative bases non-negative and `3 ** (1/s)` is positive, the stable value lies between the nugget and `c0 + b` |
| `Models.StableMonotone` | skgstat/models.py:308-312 | if `exp` is increasing, the power is increasing in its base on non-negative bases, and `3^(1/s)` is positive, the stable model is non-decreasing in the lag |
| `PyBuiltins.Split` | skgstat/interfaces/gstools.py:65 | `str.split('.')` always returns at least one piece, and no piece contains the separator |
| `PyBuiltins.JoinSplit` | skgstat/interfaces/gstools.py:65 | joining the pieces of a split with the separator gives back the original version string |
| `PyBuiltins.SplitJoin` | skgstat/interfaces/gstools.py:65 | splitting a join of separator-free pieces gives back exactly those pieces |
| `PyBuiltins.ParseDecimalString` | skgstat/interfaces/gstools.py:65 | `int()` applied to the decimal text of a natural number returns that number |
| `PyBuiltins.ParseIntStrips` | skgstat/interfaces/gstools.py:65 | `int()` ignores whitespace around a digit, as in `int(" 7 ")` |
| `PyBuiltins.ParseIntSigned` | skgstat/interfaces/gstools.py:65 | a leading `+` or `-` is accepted, and `-` negates |
| `PyBuiltins.ParseIntUnderscore` | skgstat/interfaces/gstools.py:65 | one underscore between two digits is dropped: `int("1_0")` is 10 |
| `PyBuiltins.ParseIntRejectsDoubleUnderscore` | skgstat/interfaces/gstools.py:65 | two underscores in a row raise ValueError |
| `PyBuiltins.ParseIntRejectsBlank` | skgstat/interfaces/gstools.py:65 | an empty or whitespace-only text raises ValueError |
| `PyBuiltins.ParseIntRejectsNonDigit` | skgstat/interfaces/gstools.py:65 | a character that is not a digit, a sign or whitespace raises ValueError |
| `PyBuiltins.ListLessTrichotomy` | skgstat/interfaces/gstools.py:65 | Python's list `<` on integer lists is a strict total order: equality holds exactly when neither list is less than the other, and the two cannot both be less |
| `PyBuiltins.ListLessTransitive` | skgstat/interfaces/gstools.py:65 | list `<` is transitive |
| `GsTools.StableRescale` | skgstat/interfaces/gstools.py:5-7 | a missing `shape` raises KeyError; shape 0 raises ZeroDivisionError; any other shape succeeds |
| `GsTools.MaternRescale` | skgstat/interfaces/gstools.py:10-14 | a missing `smoothness` raises KeyError; otherwise the result is 4.0 exactly when 0.5 < smoothness < 10.0 and 6.0 exactly otherwise, so both end points give 6.0 |
| `GsTools.RescaleExamples` | skgstat/interfaces/gstools.py:5-14 | Matérn smoothness 1.5 gives 4.0; smoothness 15, 0.5 and 10 give 6.0; stable shape 2 gives `3^(1/2)` |
| `GsTools.Settled` | skgstat/interfaces/gstools.py:72-74 | the entry stored back by `setdefault` keeps its class and has both `arg_map` and `rescale` present |
| `GsTools.SettledIsTransparent` | skgstat/interfaces/gstools.py:72-74 | writing the defaults back into `MODEL_MAP` is idempotent and changes nothing a later call reads |
| `GsTools.CopyArgsOutcome` | skgstat/interfaces/gstools.py:82-84 | copying the `arg_map` succeeds exactly when every source key is in the describe record; otherwise the error is KeyError naming a missing source key |
| `GsTools.CopyArgsKeys` | skgstat/interfaces/gstools.py:82-84 | a successful copy has exactly the old keys plus the `arg_map` targets |
| `GsTools.CopyArgsValues` | skgstat/interfaces/gstools.py:82-84 | after a successful copy each target holds its source's value, and every key that is not a target keeps its old value |
| `GsTools.ParseComponents` | skgstat/interfaces/gstools.py:65 | `list(map(int, parts))` yields one integer per piece or raises ValueError |
| `GsTools.ParseComponentsValues` | skgstat/interfaces/gstools.py:65 | on success each integer is what `int()` returns for its piece |
| `GsTools.ParseComponentsRejects` | skgstat/interfaces/gstools.py:65 | on failure the ValueError names a piece `int()` rejects |
| `GsTools.SplitVersionHead` | skgstat/interfaces/gstools.py:65 | the first two pieces of `"M.m" + suffix` are `M` and `m` when neither has a dot and the suffix is empty or starts with one |
| `GsTools.CheckVersion` | skgstat/interfaces/gstools.py:61-66 | a missing GSTools is an ImportError, and only then; otherwise, with `p` the parse of `version.split('.')[:2]`: a piece `int()` rejects gives that ValueError, and the gate passes, returning `p`, exactly when `p` is at least 1.3 (an independent predicate, not the list comparison), failing with UnsupportedVersion otherwise |
| `GsTools.MinimumVersionOrder` | skgstat/interfaces/gstools.py:65 | for one or two components, Python's `v < [1, 3]` is false exactly when `v` is at least 1.3 (major above 1, or major 1 and minor at least 3) |
| `GsTools.VersionHead` | skgstat/interfaces/gstools.py:65 | `version.split('.')[:2]` is a prefix of the pieces with one or two elements, and has one element exactly when the version has no dot |
| `GsTools.VersionSuffixIgnored` | skgstat/interfaces/gstools.py:65-66 | whatever follows `M.m` after a further dot leaves the verdict as it is for `M.m` alone |
| `GsTools.VersionGateIsNumeric` | skgstat/interfaces/gstools.py:65-66 | for a version `major.minor` plus an optional `.suffix`, the gate passes with `[major, minor]` exactly when `(major, minor) >= (1, 3)`, and otherwise fails with UnsupportedVersion |
| `GsTools.VersionGateRejects120` | skgstat/interfaces/gstools.py:65-66 | "1.2.0" is refused as too old |
| `GsTools.VersionGateAccepts130` | skgstat/interfaces/gstools.py:65-66 | "1.3.0" passes |
| `GsTools.VersionGateAccepts1100` | skgstat/interfaces/gstools.py:65-66 | "1.10.0" passes: the comparison is numeric, not textual |
| `GsTools.VersionGateAccepts20` | skgstat/interfaces/gstools.py:65-66 | "2.0" passes |
| `GsTools.VersionGateSingle` | skgstat/interfaces/gstools.py:65-66 | a dot-free version `major` is compared as `[major]`: it passes with `[major]` exactly when major >= 2 |
| `GsTools.VersionGateAccepts2` | skgstat/interfaces/gstools.py:65-66 | "2" passes with `[2]` |
| `GsTools.VersionGateRejectsPiece` | skgstat/interfaces/gstools.py:65 | when the major or minor piece is not an integer, the gate raises ValueError naming the first such piece, before any comparison |
| `GsTools.DerivedMatchesReference` | skgstat/interfaces/gstools.py:17-28 | for every describe record, the table-driven derivation (lookup, defaults, base keywords, rescale, `arg_map`) equals a reference definition written family by family without the table |
| `GsTools.TranslationMatchesReference` | skgstat/interfaces/gstools.py:61-87 | `skgstat_to_gstools` is the version gate, followed by the reference model with the caller's keywords and the defaulted `dim` merged over it |
| `GsTools.FamilyRescaleErrors` | skgstat/interfaces/gstools.py:5-14 | a family's rescale can only fail on its shape parameter: KeyError for `shape` or `smoothness`, or ZeroDivisionError |
| `GsTools.ReferenceErrors` | skgstat/interfaces/gstools.py:69-82 | the family-by-family reference fails with UnsupportedModel for an unknown name, KeyError for a missing stable `shape` or Matérn `smoothness`, ZeroDivisionError for stable shape 0, and succeeds otherwise |
| `GsTools.UnsupportedModelRejected` | skgstat/interfaces/gstools.py:69-71 | once the version passes, a name outside the six families fails with UnsupportedModel naming it, exactly when the name is not one of the six |
| `GsTools.TranslationErrors` | skgstat/interfaces/gstools.py:61-84 | the first failing check decides the error (ImportError, version, unknown name, missing or zero stable shape, missing Matérn smoothness); once the version passes, translation succeeds exactly when the family is known and its shape parameter is usable |
| `GsTools.DerivedKwargs` | skgstat/interfaces/gstools.py:75-84 | a successful derivation is for one of the six families, and its keywords are the base three, the family's `rescale`, and the renamed shape keys, which are only `alpha` or `nu` |
| `GsTools.MergeWins` | skgstat/interfaces/gstools.py:85 | `update` yields the keys of both maps, the override's value winning on shared keys and the original kept elsewhere |
| `GsTools.WithDimKeeps` | skgstat/interfaces/gstools.py:67 | `setdefault("dim", dim)` adds only `dim`, keeps every caller value, and sets `dim` to the variogram's only when it was missing |
| `GsTools.BaseKeywords` | skgstat/interfaces/gstools.py:75-79 | `var = sill - nugget`, `len_scale = effective_range` and `nugget = nugget` |
| `GsTools.RescaleDispatch` | skgstat/interfaces/gstools.py:80-81 | `rescale` is 3 for exponential, 2 for Gaussian, the default 1 for spherical and cubic, and the helper's value on the whole record for stable and Matérn |
| `GsTools.ShapeKeys` | skgstat/interfaces/gstools.py:82-84 | stable adds `alpha = shape`; Matérn adds `nu = smoothness`; the other four families add no keyword beyond the base three and `rescale` |
| `GsTools.OverridesWin` | skgstat/interfaces/gstools.py:67-85 | the final keys are the derived keys, the caller's keys and `dim`; every caller keyword wins; `dim` is the variogram's only when the caller gave none; every other derived keyword is kept |
| `GsTools.ClassName` | skgstat/interfaces/gstools.py:86-87 | the class instantiated is the family's `gs_cls` entry, which is the family name capitalised |
| `GsTools.RescaleIsRangeRatio` | skgstat/interfaces/gstools.py:17-24 | for spherical, exponential, Gaussian, cubic and stable, `rescale` equals the effective range divided by the range parameter the kernel in skgstat/models.py uses |
| `GsTools.SphericalExampleDerived` | skgstat/interfaces/gstools.py:75-81 | a spherical record with sill 6, nugget 1 and effective range 10 derives `var` 5, `len_scale` 10, `nugget` 1 and `rescale` 1 |
| `GsTools.SphericalExample` | skgstat/interfaces/gstools.py:67-87 | after the version gate, with `dim` 2, the same record translates to `Spherical` with exactly those four keywords plus `dim` 2 |
| `GsTools.RescaleOverrideExample` | skgstat/interfaces/gstools.py:85 | a caller's `rescale = 9.9` replaces the family's value, while the derived `var` of 5 stays |

## Left out

- The Matérn kernel (`matern`, skgstat/models.py:317 onward) is not modelled. It needs the Gamma function and the modified Bessel function of the second kind. Its rescale helper and table entry are modelled.
- The `@jit` compilation, `np.fromiter(..., dtype=float)` and IEEE double rounding are not modelled. Arithmetic is exact real arithmetic, and `float(...)` on a describe value is the identity.
- `exp`, `np.power` and `math.pow` are opaque function parameters. Each property a contract needs from them is a hypothesis of that contract, never an assumption of the model.
- Models.Exponential: states only lag 0 and the effective range. Bounds and monotonicity are separate lemmas that assume the usual facts about `exp`.
- Models.Gaussian: states only lag 0 and the effective range. Bounds and monotonicity are separate lemmas that assume the usual facts about `exp`.
- Models.Stable: states only lag 0 and the effective range, under hypotheses about `pow`. Bounds and monotonicity assume the needed facts about `pow` and `exp`.
- Models.CubicBounded: monotonicity of the cubic kernel is not proved, only its bounds.
- Kernel division by zero (`r == 0` on a branch that divides, and `s == 0` for stable) is a `requires`. Under Python semantics it would raise ZeroDivisionError, which callers are expected never to trigger.
- The ZeroDivision error of `stable_rescale` assumes the shape is a Python float. A NumPy float would give `inf` with a warning instead.
- The `hasattr(args[0], '__iter__')` dispatch is a two-case `Lag` datatype: one lag, or a sequence of lags. Other iterables, such as strings, and keyword-only calls are not modelled.
- The import of GSTools and the `getattr(gs, gs_cls)(**gs_kwargs)` construction are left out. The import is an input, and the output is the class name with its keywords.
- `int()` on version components accepts ASCII whitespace and ASCII digits only. Unicode digits and whitespace, which Python also accepts, are not modelled.
- The in-place `setdefault` on `MODEL_MAP` is modelled as a lookup that applies the defaults. `GsTools.SettledIsTransparent` shows that writing them back changes nothing a later call reads.
- `Variogram.describe()` internals and the variogram object are not modelled. The adapter reads only `dim` and the describe fields named above, and the describe record always carries `name`, `sill`, `nugget` and `effective_range`.
- Behaviour at `h = 0` for Matérn: the code does not special-case `h = 0` for Matérn, and since the Matérn kernel is left out, the model adds no such case.
