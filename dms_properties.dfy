/**
 Properties of the degree/minute/second model that relate several calls:
 idempotence of both constructors, what the rendering keeps of a degree field,
 what From<Coord> keeps of a coordinate, the scenarios of the unit tests in
 src/dms.rs, and the carry into a negative degree field.
 */
module DmsProperties {
  import opened Truncation
  import opened Dms

  // ----- DMSBasic::new -----

  /** Carrying a carried triple changes nothing. */
  lemma NewBasicIdempotent(dd: int, mm: nat, ss: real)
    ensures var r := NewBasic(dd, mm, ss); NewBasic(r.dd, r.mm, r.ss) == r
  {
  }

  /**
   The degree field is never range checked: shifting the input's degrees
   shifts the output's by the same amount and leaves minutes and seconds alone.
   */
  lemma NewBasicShiftsDegrees(dd: int, mm: nat, ss: real, k: int)
    ensures var r := NewBasic(dd, mm, ss);
      NewBasic(dd + k, mm, ss) == DMSBasic(r.dd + k, r.mm, r.ss)
  {
  }

  /**
   The strict comparisons: exactly 60 seconds and exactly 60 minutes are not
   carried, while a whole degree of seconds lands on 60 minutes and stops there.
   */
  lemma CarryBoundaries()
    ensures NewBasic(0, 0, 60.0) == DMSBasic(0, 0, 60.0)
    ensures NewBasic(0, 60, 0.0) == DMSBasic(0, 60, 0.0)
    ensures NewBasic(0, 0, 3600.0) == DMSBasic(0, 60, 0.0)
    ensures NewBasic(0, 61, 0.0) == DMSBasic(1, 1, 0.0)
  {
    assert WholeMinutes(3600.0) == 60;
  }

  /** Unit test `instance_dmsbasic`: triples with nothing to carry are kept field for field. */
  lemma InstanceDmsBasic()
    ensures NewBasic(49, 36, 27.40) == DMSBasic(49, 36, 27.40)
    ensures NewBasic(-1, 31, 57.30) == DMSBasic(-1, 31, 57.30)
  {
  }

  // ----- DMS::new -----

  /** Reducing a reduced pair changes nothing. */
  lemma NewDMSIdempotent(lat: DMSBasic, lon: DMSBasic)
    ensures var r := NewDMS(lat, lon); NewDMS(r.lat, r.lon) == r
  {
  }

  /**
   The latitude is reduced without regard to the longitude and the other way
   round; an out-of-range latitude such as 91 or -91 degrees keeps its minutes
   and seconds and ends on 1 or -1 degree, not across the pole.
   */
  lemma NewDMSIndependent(lat: DMSBasic, lon: DMSBasic, lat2: DMSBasic, lon2: DMSBasic)
    ensures NewDMS(lat, lon).lat == NewDMS(lat, lon2).lat
    ensures NewDMS(lat, lon).lon == NewDMS(lat2, lon).lon
    ensures NewDMS(DMSBasic(91, 30, 0.0), lon).lat == DMSBasic(1, 30, 0.0)
    ensures NewDMS(DMSBasic(-91, 30, 0.0), lon).lat == DMSBasic(-1, 30, 0.0)
    ensures NewDMS(lat, DMSBasic(-360, 0, 0.0)).lon == DMSBasic(0, 0, 0.0)
  {
    assert TruncRem(91, LatLimit) == 1;
    assert TruncRem(-91, LatLimit) == -1;
    assert TruncRem(-360, LonLimit) == 0;
  }

  /** Unit test `instance_dms`: a pair in range is kept verbatim. */
  lemma InstanceDms()
    ensures var lat := NewBasic(49, 36, 27.40);
      var lon := NewBasic(37, 19, 50.14);
      NewDMS(lat, lon) == DMS(lat, lon)
  {
  }

  // ----- Display -----

  /** The degree field read back from a hemisphere letter and an absolute value. */
  function SignedDegrees(magnitude: nat, letter: char): (d: int)
  {
    if letter == 'S' || letter == 'W' then -(magnitude as int) else magnitude
  }

  /**
   Rendering loses no degree information: the printed absolute value and the
   hemisphere letter together give back the signed degree field, for either
   axis and for every integer, zero included.
   */
  lemma HemisphereRoundTrip(dd: int)
    ensures SignedDegrees(Abs(dd), LatHemisphere(dd)) == dd
    ensures SignedDegrees(Abs(dd), LonHemisphere(dd)) == dd
  {
  }

  /** The triple's own text does not depend on the sign of its degree field. */
  lemma BasicTextIgnoresSign(b: DMSBasic, f: NumberFormat)
    ensures BasicText(b.(dd := -b.dd), f) == BasicText(b, f)
  {
    assert Abs(-b.dd) == Abs(b.dd);
  }

  /** `part` occurs in `s` at some position. */
  predicate Contains(s: string, part: string)
  {
    exists i :: 0 <= i <= |s| && part <= s[i..]
  }

  /**
   A northern latitude with a western longitude renders text that contains
   "N, " and ends in W; a degree field of zero counts as north.
   */
  lemma {:induction false} TextNorthWest(p: DMS, f: NumberFormat)
    requires p.lat.dd >= 0 && p.lon.dd < 0
    ensures Contains(Text(p, f), "N, ")
    ensures Text(p, f)[|Text(p, f)| - 1] == 'W'
  {
    var s := Text(p, f);
    var k := |BasicText(p.lat, f)|;
    assert s[k..][..3] == [s[k]] + s[k + 1..k + 3];
  }

  // ----- From<Coord> -----

  /**
   Within the coordinate ranges, From<Coord> keeps the angle: the triples'
   values in seconds are the coordinates times 3600, since the carry keeps
   the value and a degree field obtained from at most 90 (or 180) degrees is
   never reduced.
   */
  lemma {:induction false} FromCoordKeepsAngle(c: Coord)
    requires -90.0 <= c.lat <= 90.0 && -180.0 <= c.lon <= 180.0
    ensures Seconds(FromCoord(c).lat) == c.lat * 3600.0
    ensures Seconds(FromCoord(c).lon) == c.lon * 3600.0
  {
    CarriedDegreesBound(c.lat * 3600.0, LatLimit);
    CarriedDegreesBound(c.lon * 3600.0, LonLimit);
  }

  /** Carrying at most `limit` degrees' worth of seconds from zero gives a degree field within [-limit, limit]. */
  lemma {:induction false} CarriedDegreesBound(s: real, limit: int)
    requires limit > 0
    requires -limit as real * 3600.0 <= s <= limit as real * 3600.0
    ensures -limit <= NewBasic(0, 0, s).dd <= limit
  {
    var r := NewBasic(0, 0, s);
    if s > 60.0 {
      assert r.ss >= 0.0;
      assert r.dd as real * 3600.0 <= s;
    }
  }

  /**
   A negative coordinate is carried nowhere: it comes out as zero degrees,
   zero minutes and a negative number of seconds, and its rendering carries
   the positive hemisphere letters, "N, " after the latitude and E at the end.
   */
  lemma {:induction false} FromCoordNegative(c: Coord, f: NumberFormat)
    requires c.lat < 0.0 && c.lon < 0.0
    ensures FromCoord(c) == DMS(DMSBasic(0, 0, c.lat * 3600.0), DMSBasic(0, 0, c.lon * 3600.0))
    ensures Contains(Text(FromCoord(c), f), "N, ")
    ensures Text(FromCoord(c), f)[|Text(FromCoord(c), f)| - 1] == 'E'
  {
    var p := FromCoord(c);
    var s, k := Text(p, f), |BasicText(p.lat, f)|;
    assert s[k..][..3] == [s[k]] + s[k + 1..k + 3];
  }

  /** Whole minutes below 60 and seconds in [0, 60): the textbook form of a non-negative angle. */
  predicate Canonical(b: DMSBasic)
  {
    b.mm < 60 && 0.0 <= b.ss < 60.0
  }

  /**
   Two canonical triples with the same value in seconds are the same triple,
   so Canonical and Seconds define the sexagesimal split independently of
   how it is computed.
   */
  lemma {:induction false} CanonicalUnique(a: DMSBasic, b: DMSBasic)
    requires Canonical(a) && Canonical(b)
    requires Seconds(a) == Seconds(b)
    ensures a == b
  {
    var x, y := a.dd * 60 + a.mm, b.dd * 60 + b.mm;
    assert Seconds(a) == x as real * 60.0 + a.ss;
    assert Seconds(b) == y as real * 60.0 + b.ss;
    assert (x - y) as real * 60.0 == b.ss - a.ss;
    assert x == y;
    assert a.dd == b.dd;
  }

  /**
   Carrying more than 60 seconds from zero gives the textbook split, unless
   the seconds hold exactly 60 whole minutes, which stay 60 minutes.
   */
  lemma {:induction false} NewBasicFromSecondsCanonical(s: real)
    requires s > 60.0
    ensures WholeMinutes(s) != 60 ==> Canonical(NewBasic(0, 0, s))
    ensures WholeMinutes(s) == 60 ==> NewBasic(0, 0, s).mm == 60
  {
  }

  /**
   Unit test `from_coord`: 48.5863964, 36.5291404 gives 48 degrees 35 minutes
   and 36 degrees 31 minutes, with seconds within 0.01 of 11.03 and 44.91
   (with exact seconds: 11.02704 and 44.90544).
   */
  lemma {:induction false} FromCoordScenario()
    ensures var r := FromCoord(Coord(48.5863964, 36.5291404));
      && r.lat.dd == 48 && r.lat.mm == 35 && -0.01 <= r.lat.ss - 11.03 <= 0.01
      && r.lon.dd == 36 && r.lon.mm == 31 && -0.01 <= r.lon.ss - 44.91 <= 0.01
  {
    var lat, lon := 48.5863964 * 3600.0, 36.5291404 * 3600.0;
    assert lat == 174911.02704 && lon == 131504.90544;
    assert WholeMinutes(lat) == 2915;
    assert WholeMinutes(lon) == 2191;
    assert NewBasic(0, 0, lat) == DMSBasic(48, 35, 11.02704);
    assert NewBasic(0, 0, lon) == DMSBasic(36, 31, 44.90544);
  }

  // ----- Carry into a negative degree field -----

  /**
   The value of a triple under the convention of the rendering and of the
   `to_coord` unit test: the degree field carries the sign and minutes and
   seconds add to its magnitude, so (-2, 23, 24.46) is -2.3901 degrees.
   */
  function SignedSeconds(b: DMSBasic): (v: real)
  {
    var magnitude := Abs(b.dd) as real * 3600.0 + b.mm as real * 60.0 + b.ss;
    if b.dd < 0 then -magnitude else magnitude
  }

  /**
   As written, the minutes carry adds degrees even to a negative degree field:
   (-1, 61, 0), which is 2 degrees 1 minute south, comes out as (0, 1, 0),
   1 minute north.
   */
  lemma NegativeDegreeCarry()
    ensures NewBasic(-1, 61, 0.0) == DMSBasic(0, 1, 0.0)
    ensures SignedSeconds(DMSBasic(-1, 61, 0.0)) == -7260.0
    ensures SignedSeconds(NewBasic(-1, 61, 0.0)) == 60.0
    ensures LatHemisphere(-1) == 'S' && LatHemisphere(NewBasic(-1, 61, 0.0).dd) == 'N'
  {
  }

  /** The minutes carry moving whole degrees away from zero, in the direction of the degree field's sign. */
  function CarryMinutesSigned(b: DMSBasic): (r: DMSBasic)
    ensures SignedSeconds(r) == SignedSeconds(b)
    ensures r.ss == b.ss
    ensures r.dd < 0 <==> b.dd < 0
    ensures b.mm > 60 ==> r.mm < 60 && Abs(r.dd) == Abs(b.dd) + b.mm / 60
    ensures b.mm <= 60 ==> r == b
  {
    if b.mm > 60 then
      assert b.mm == b.mm / 60 * 60 + b.mm % 60;
      b.(dd := if b.dd < 0 then b.dd - b.mm / 60 else b.dd + b.mm / 60, mm := b.mm % 60)
    else
      b
  }

  /**
   DMSBasic::new with the sign-aware minutes carry: the signed value and the
   hemisphere are kept, neither the minutes nor the seconds are left above
   60, and for a non-negative
   degree field (every call From<Coord> makes passes zero) it is the
   as-written NewBasic.
   */
  function NewBasicSigned(dd: int, mm: nat, ss: real): (r: DMSBasic)
    ensures SignedSeconds(r) == SignedSeconds(DMSBasic(dd, mm, ss))
    ensures r.dd < 0 <==> dd < 0
    ensures Carried(r)
    ensures dd >= 0 ==> r == NewBasic(dd, mm, ss)
  {
    var b := CarrySeconds(DMSBasic(dd, mm, ss));
    assert SignedSeconds(b) == SignedSeconds(DMSBasic(dd, mm, ss)) by {
      assert b.mm as real * 60.0 + b.ss == mm as real * 60.0 + ss;
    }
    CarryMinutesSigned(b)
  }

  /** From<Coord> is the same whether built on the as-written carry or on the sign-aware one. */
  lemma FromCoordSignedCarry(c: Coord)
    ensures FromCoord(c) == NewDMS(NewBasicSigned(0, 0, c.lat * 3600.0), NewBasicSigned(0, 0, c.lon * 3600.0))
  {
  }

  // ----- Negative coordinates in From<Coord> -----

  /**
   One decimal degree value as a triple under the sign-magnitude convention:
   its magnitude in seconds is carried as From<Coord> does for a positive
   value and the sign is put back on the degree field. A non-negative value
   gives what From<Coord> gives. A negative one keeps its signed value
   whenever the degree field is not zero, and from -61/60 degrees down the
   degree field is negative, so the hemisphere letter is S or W. Closer to
   zero the degree field is zero and only the magnitude is kept: below one
   degree there is no whole degree to carry the sign, and from one degree to
   61/60 the strict minutes carry leaves 60 minutes and no degree.
   */
  function DecimalToTripleSigned(v: real): (r: DMSBasic)
    ensures v >= 0.0 ==> r == NewBasic(0, 0, v * 3600.0)
    ensures v >= 0.0 || r.dd != 0 ==> SignedSeconds(r) == v * 3600.0
    ensures v < 0.0 && r.dd == 0 ==> SignedSeconds(r) == -v * 3600.0
    ensures v < 0.0 ==> r.dd <= 0 && 0.0 <= r.ss <= 60.0 && Carried(r)
    ensures v <= -61.0 / 60.0 ==> r.dd < 0
    ensures Abs(r.dd) as real <= (if v < 0.0 then -v else v)
  {
    if v >= 0.0 then
      NewBasic(0, 0, v * 3600.0)
    else
      var m := NewBasic(0, 0, -v * 3600.0);
      assert v <= -61.0 / 60.0 ==> WholeMinutes(-v * 3600.0) >= 61;
      assert m.dd as real * 3600.0 <= -v * 3600.0;
      m.(dd := -m.dd)
  }

  /**
   From<Coord> with the sign put back on the degree fields. Within the
   coordinate ranges no reduction fires, and every coordinate that is
   non-negative or at most -61/60 degrees keeps its signed value and gets
   the hemisphere letter of its sign.
   */
  function FromCoordSigned(c: Coord): (r: DMS)
    ensures InRange(r)
    ensures c.lat >= 0.0 && c.lon >= 0.0 ==> r == FromCoord(c)
    ensures -90.0 <= c.lat <= 90.0 && (c.lat >= 0.0 || c.lat <= -61.0 / 60.0) ==>
      SignedSeconds(r.lat) == c.lat * 3600.0 && (LatHemisphere(r.lat.dd) == 'N' <==> c.lat >= 0.0)
    ensures -180.0 <= c.lon <= 180.0 && (c.lon >= 0.0 || c.lon <= -61.0 / 60.0) ==>
      SignedSeconds(r.lon) == c.lon * 3600.0 && (LonHemisphere(r.lon.dd) == 'E' <==> c.lon >= 0.0)
  {
    NewDMS(DecimalToTripleSigned(c.lat), DecimalToTripleSigned(c.lon))
  }

  /**
   The `to_coord` test's point, -2.3901266 and 18.5498764, taken the other
   way: as written the latitude becomes (0, 0, -8604.45576) and prints with
   N; with the sign put back it is (-2, 23, 24.45576), within 0.01 of the
   test's (-2, 23, 24.46), and prints with S.
   */
  lemma {:induction false} FromCoordSignedScenario()
    ensures FromCoord(Coord(-2.3901266, 18.5498764)).lat == DMSBasic(0, 0, -8604.45576)
    ensures LatHemisphere(FromCoord(Coord(-2.3901266, 18.5498764)).lat.dd) == 'N'
    ensures var r := FromCoordSigned(Coord(-2.3901266, 18.5498764));
      && r.lat.dd == -2 && r.lat.mm == 23 && -0.01 <= r.lat.ss - 24.46 <= 0.01
      && LatHemisphere(r.lat.dd) == 'S'
  {
    assert WholeMinutes(8604.45576) == 143;
    assert NewBasic(0, 0, 8604.45576) == DMSBasic(2, 23, 24.45576);
  }

  /**
   The band where the corrected conversion still gives a zero degree field
   reaches past -1 degree because the minutes carry is strict: one degree of
   seconds lands on exactly 60 minutes, which stay, for either sign; the
   as-written From<Coord> keeps 60 minutes for +1.0 as well.
   */
  lemma {:induction false} DecimalToTripleSixtyMinutes()
    ensures DecimalToTripleSigned(-1.0) == DMSBasic(0, 60, 0.0)
    ensures FromCoord(Coord(1.0, 0.0)).lat == DMSBasic(0, 60, 0.0)
    ensures DecimalToTripleSigned(-61.0 / 60.0) == DMSBasic(-1, 1, 0.0)
  {
    assert WholeMinutes(3600.0) == 60;
    assert WholeMinutes(3660.0) == 61;
  }
}
