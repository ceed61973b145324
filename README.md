# geomorph DMS values in Dafny

A model of the degree/minute/second part of the geomorph coordinate library
(`src/dms.rs`):

- `DMSBasic::new` builds a sexagesimal triple (`dd` degrees, `mm` minutes,
  `ss` seconds). Seconds above 60 carry into minutes, then minutes above 60
  carry into degrees. Both tests are strict, so exactly 60 stays where it is.
- `DMS::new` builds a latitude/longitude pair. It reduces a latitude degree
  outside [-90, 90] to its remainder by 90, and a longitude degree outside
  [-180, 180] to its remainder by 180. The remainder is Rust's: its sign
  follows the dividend.
- The two `Display` impls print each degree as its absolute value. The sign
  becomes a hemisphere letter: N/S for the latitude and E/W for the longitude.
- `From<Coord>` turns decimal degrees into seconds (times 3600) and passes
  them through both constructors.

Files:

- `truncation.dfy`, module `Truncation`: Rust's truncated `/` and `%` on
  signed integers, and how they relate to Dafny's Euclidean operators.
- `dms.dfy`, module `Dms`: the data model, the two constructors, the
  rendering and `From<Coord>`.
- `dms_properties.dfy`, module `DmsProperties`: lemmas that relate several
  calls, the unit-test scenarios, and the finding below.

Representation:

- Seconds are exact `real`s, minutes are `nat`s (`u32`) and degrees are
  `int`s (`i32`).
- The constructors take `mut` parameters and update them under two `if`s,
  with no loop. Nothing outlives the call, so each `if` block is a function
  from triple to triple (`CarrySeconds`, `CarryMinutes`), and `NewBasic` is
  their composition. `NewDMS` follows the two `if` blocks of `DMS::new`.
- Number-to-text conversion comes from Rust's standard library. It is a
  parameter of the rendering (`NumberFormat`). The model fixes only the unit
  marks, the letters, the separator and the use of `|dd|`.

Under the convention of `Display` and of the `to_coord` test, a negative
decimal coordinate would come out with a negative degree field and
non-negative minutes and seconds. The code does something else, and the
model follows the code. A negative value in seconds is never above 60, so
neither carry fires. The result is `dd = 0`, `mm = 0` and `ss = lat * 3600`
(negative). Because `dd >= 0`, it renders with N or E (`FromCoordNegative`).
This is listed under "## Findings" below.

## Model

| member | source | states |
|---|---|---|
| `Truncation.TruncRem` | src/dms.rs:56 | The `%=` on `i32`: with the truncated quotient it splits the dividend exactly, it is below the divisor in magnitude, and it is zero or has the dividend's sign |
| `Truncation.TruncRemUnique` | src/dms.rs:56 | Any split `a == q*b + r` with `|r| < b` and `r` zero or of `a`'s sign is the truncated one, so those facts determine the remainder |
| `Truncation.TruncRemCongruent` | src/dms.rs:60 | The reduced degree differs from the original by a multiple of the modulus |
| `Truncation.TruncRemFromEuclidean` | src/dms.rs:60 | The truncated remainder equals Dafny's Euclidean one for a non-negative dividend; for a negative dividend it is zero or the Euclidean one minus the divisor |
| `Dms.WholeMinutes` | src/dms.rs:21 | `(ss / 60.0).trunc()` of non-negative seconds is the number of whole minutes: q*60 <= ss < q*60 + 60 |
| `Dms.CarrySeconds` | src/dms.rs:20-23 | Seconds above 60 give their whole minutes to `mm` and keep a remainder in [0, 60); the value in seconds and `dd` are kept; seconds <= 60 (60.0 and negative values included) leave the triple unchanged |
| `Dms.CarryMinutes` | src/dms.rs:25-28 | Minutes above 60 give `mm / 60` to `dd` and keep a remainder below 60; the value and the seconds are kept; minutes <= 60 (60 included) leave the triple unchanged |
| `Dms.NewBasic` | src/dms.rs:18-31 | `dd*3600 + mm*60 + ss` is kept; neither the output minutes nor the output seconds are above 60 (degrees are unbounded); seconds above 60 end in [0, 60) and others are returned as given; degrees only grow; an input with nothing to carry comes back field for field |
| `Dms.ReduceDegrees` | src/dms.rs:55-61 | A degree within [-limit, limit] is kept, boundaries included; otherwise the result is below `limit` in magnitude; it is congruent to the input modulo `limit` and zero or of its sign |
| `Dms.NewDMS` | src/dms.rs:54-64 | The result is in range; only the two degree fields change, each reduced on its own (latitude by 90, longitude by 180); a pair in range comes back unchanged |
| `Dms.LatHemisphere` | src/dms.rs:69-73 | The latitude letter is N exactly when `lat.dd >= 0`, otherwise S |
| `Dms.LonHemisphere` | src/dms.rs:74-78 | The longitude letter is E exactly when `lon.dd >= 0`, otherwise W |
| `Dms.BasicText` | src/dms.rs:34-38 | The text is `|dd|`, °, the minutes, ', the seconds and " in that order; the sign of `dd` is not printed (`BasicTextIgnoresSign`) |
| `Dms.Text` | src/dms.rs:67-80 | The text is the latitude's text, its letter (N iff `lat.dd >= 0`), ", ", the longitude's text and its letter (E iff `lon.dd >= 0`), which is the last character |
| `Dms.FromCoord` | src/dms.rs:82-88 | The result is in range; a non-negative coordinate gets a non-negative degree field and seconds in [0, 60]; a negative coordinate becomes (0, 0, value*3600) |
| `DmsProperties.NewBasicIdempotent` | src/dms.rs:18-31 | Carrying the result of a carry changes nothing |
| `DmsProperties.NewBasicShiftsDegrees` | src/dms.rs:26 | The degree field is never range checked: adding k to the input's degrees adds k to the output's and changes nothing else |
| `DmsProperties.CarryBoundaries` | src/dms.rs:20-28 | 60 seconds and 60 minutes are not carried; 3600 seconds become 60 minutes and stop there; 61 minutes become 1 degree 1 minute |
| `DmsProperties.InstanceDmsBasic` | src/dms.rs:108-119 | The `instance_dmsbasic` test: (49, 36, 27.40) and (-1, 31, 57.30) come back field for field |
| `DmsProperties.NewDMSIdempotent` | src/dms.rs:54-64 | Reducing a reduced pair changes nothing |
| `DmsProperties.NewDMSIndependent` | src/dms.rs:54-64 | The latitude's reduction does not depend on the longitude and the other way round; 91 and -91 degrees of latitude become 1 and -1 with minutes kept; -360 degrees of longitude become 0 |
| `DmsProperties.InstanceDms` | src/dms.rs:121-128 | The `instance_dms` test: a pair in range is kept verbatim |
| `DmsProperties.HemisphereRoundTrip` | src/dms.rs:67-80 | The printed absolute degree and the hemisphere letter together give back the signed degree field, for every integer and either axis |
| `DmsProperties.BasicTextIgnoresSign` | src/dms.rs:34-38 | A triple's text is the same for `dd` and `-dd`: the sign is not printed in the triple |
| `DmsProperties.TextNorthWest` | src/dms.rs:67-80 | With `lat.dd >= 0` and `lon.dd < 0` the text contains "N, " and ends in W |
| `DmsProperties.FromCoordKeepsAngle` | src/dms.rs:82-88 | For a latitude in [-90, 90] and a longitude in [-180, 180], each triple's value in seconds is the coordinate times 3600 (no reduction fires) |
| `DmsProperties.FromCoordNegative` | src/dms.rs:82-88 | Negative coordinates come out as (0, 0, value*3600); their text contains "N, " and ends in E |
| `DmsProperties.CanonicalUnique` | src/dms.rs:18-31 | Two triples with minutes below 60, seconds in [0, 60) and the same value in seconds are equal: the textbook split is unique |
| `DmsProperties.NewBasicFromSecondsCanonical` | src/dms.rs:84-85 | Carrying more than 60 seconds from zero gives that textbook split, except that exactly 60 whole minutes stay as 60 minutes |
| `DmsProperties.FromCoordScenario` | src/dms.rs:130-138 | The `from_coord` test: 48.5863964, 36.5291404 give 48°35' and 36°31', with seconds within 0.01 of 11.03 and 44.91 |
| `DmsProperties.NegativeDegreeCarry` | src/dms.rs:25-28 | As written, (-1, 61, 0) becomes (0, 1, 0): sign-magnitude value -7260 s becomes +60 s and the letter S becomes N |
| `DmsProperties.CarryMinutesSigned` | src/dms.rs:25-28 | The corrected minutes carry moves whole degrees away from zero: it keeps the sign-magnitude value, the seconds and the sign of `dd`; minutes above 60 end below 60 with `|dd|` grown by `mm / 60`; minutes <= 60 (60 included) leave the triple unchanged |
| `DmsProperties.NewBasicSigned` | src/dms.rs:18-31 | The corrected constructor keeps the sign-magnitude value and the sign of `dd`, leaves neither the minutes nor the seconds above 60, and equals `NewBasic` whenever `dd >= 0` |
| `DmsProperties.FromCoordSignedCarry` | src/dms.rs:82-88 | `From<Coord>` gives the same result with either carry, because it always passes `dd = 0` |
| `DmsProperties.DecimalToTripleSigned` | src/dms.rs:84-85 | Corrected conversion of one coordinate: a non-negative value gives what `From<Coord>` gives; a negative one keeps its signed value whenever `dd` is not zero, and from -61/60 degrees down `dd` is negative; `|dd|` is at most the magnitude of the value |
| `DmsProperties.FromCoordSigned` | src/dms.rs:82-88 | Corrected `From<Coord>`: in range; equal to `From<Coord>` for non-negative coordinates; within the coordinate ranges, a coordinate that is non-negative or at most -61/60 degrees keeps its signed value and gets the letter of its sign |
| `DmsProperties.FromCoordSignedScenario` | src/dms.rs:140-148 | The `to_coord` point -2.3901266, 18.5498764: as written the latitude is (0, 0, -8604.45576) and prints N; corrected it is (-2, 23, 24.46 within 0.01) and prints S |
| `DmsProperties.DecimalToTripleSixtyMinutes` | src/dms.rs:25 | The strict minutes carry keeps one whole degree as 60 minutes: -1.0 gives (0, 60, 0.0) under the corrected conversion and +1.0 gives (0, 60, 0.0) under `From<Coord>`, while -61/60 gives (-1, 1, 0.0) |

## Left out

- `f64` arithmetic: seconds are exact reals, so there is no rounding in `ss / 60.0`, `trunc`, `%=` or `coord.lat * 3600.0`. The `from_coord` scenario is proved for exact seconds, within that test's 0.01 tolerance.
- Number formatting by `write!` of `i32`, `u32` and `f64`: a parameter (`NumberFormat`), not modelled.
- Error propagation of `fmt::Result` (`?` after a failed write): the rendering is a total string.
- `From<Mgrs>` and `From<Utm>` (src/dms.rs:90-102): they delegate to conversions into `Coord` in the mgrs and utm modules. src/mgrs.rs and src/utm.rs are not part of this model.
- The conversion from `DMS` to `Coord` that the `to_coord` test uses (src/dms.rs:140-148) lives in src/coord.rs, which is not part of this model.
- The derived `Debug`, `Clone`, `Copy` and `PartialEq` impls: the datatypes are values with structural equality.
- NewBasic: does not model machine-integer limits. The `as u32` cast of `trunc(ss / 60)` saturates, `mm +=` can overflow `u32` and `dd +=` can overflow `i32`. The cast saturates silently; the `+=` overflows panic in debug builds.
- DecimalToTripleSigned: a negative coordinate above -61/60 degrees still gets a degree field of 0, so only its magnitude is kept and it prints with N or E. There are two causes. Below 1 degree there is no whole degree that could carry the sign, and a `DMSBasic` cannot mark -0 degrees. From 1 up to 61/60 degrees the magnitude holds exactly 60 whole minutes, which the strict `>` at src/dms.rs:25 does not carry, so `dd` stays 0: -1.0 gives (0, 60, 0.0), where (-1, 0, 0.0) would fit. The as-written `From<Coord>` does the same for positive values: 1.0 gives (0, 60, 0.0) (`DecimalToTripleSixtyMinutes`).
- BasicText: does not model `i32::abs` of `i32::MIN`, which overflows.

## Findings

| source | as written | input that shows it | evidently intended | confidence | as-written member | corrected member |
|---|---|---|---|---|---|---|
| src/dms.rs:25-28 | `dd += mm / 60` adds the carried degrees even when `dd` is negative. This moves a southern or western value toward zero. | `DMSBasic::new(-1, 61, 0.0)` gives `(0, 1, 0.0)`. That reads as 0°1' N instead of 2°1' S. | `Display` and the `to_coord` test (src/dms.rs:140-148) read `dd` as the sign and `mm`, `ss` as magnitude. Under that reading the carry should move away from zero: `(-2, 1, 0.0)`. | medium, not executed | `DmsProperties.NegativeDegreeCarry` | `DmsProperties.NewBasicSigned` |
| src/dms.rs:82-88 | `From<Coord>` puts a negative coordinate into the seconds field of `DMSBasic::new(0, 0, ·)`. Neither carry fires, so `dd` stays 0 and the text has N or E. | `Coord(-2.3901266, 18.5498764)` gives a latitude of `(0, 0, -8604.45576)`, printed with N. | A negative degree field with minutes and seconds as magnitude, `(-2, 23, 24.46)`, printed with S. This is the form that `Display` and the `to_coord` test (src/dms.rs:140-148) use. | medium, not executed | `DmsProperties.FromCoordNegative` | `DmsProperties.FromCoordSigned` |

`From<Coord>` always passes `dd = 0`, so it gives the same pair with either
carry (`DmsProperties.FromCoordSignedCarry`). The rest of the model can
therefore keep the as-written constructor. The difference shows only for
callers of `DMSBasic::new` that pass a negative degree field.

For the second row, `FromCoordSigned` equals the as-written `From<Coord>`
whenever both coordinates are non-negative. The two differ only for a
negative coordinate. `FromCoordSignedScenario` works that case through for
the `to_coord` point.
