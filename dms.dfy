/**
 Degree/minute/second coordinates (src/dms.rs): the sexagesimal triple
 DMSBasic with its carry on construction, the latitude/longitude pair DMS with
 its degree range reduction, their textual rendering with hemisphere letters,
 and the conversion from decimal degrees.

 Seconds are exact reals (the source uses `f64`), minutes are `nat` (`u32`)
 and degrees are `int` (`i32`).
 */
module Dms {
  import opened Truncation

  /** A degree/minute/second triple; only construction through NewBasic carries. */
  datatype DMSBasic = DMSBasic(dd: int, mm: nat, ss: real)

  /** A latitude/longitude pair of triples. */
  datatype DMS = DMS(lat: DMSBasic, lon: DMSBasic)

  /** A coordinate pair in decimal degrees. */
  datatype Coord = Coord(lat: real, lon: real)

  /** The bound on a latitude's degree field. */
  const LatLimit: int := 90

  /** The bound on a longitude's degree field. */
  const LonLimit: int := 180

  /** The value of a triple in seconds with every field weighted by its place: the quantity a carry moves between fields. */
  function Seconds(b: DMSBasic): (v: real)
  {
    b.dd as real * 3600.0 + b.mm as real * 60.0 + b.ss
  }

  /** Neither the minutes nor the seconds are above 60: a carry has nothing left to move. */
  predicate Carried(b: DMSBasic)
  {
    b.mm <= 60 && b.ss <= 60.0
  }

  // ----- DMSBasic::new -----

  /** Whole minutes in a non-negative number of seconds, `(ss / 60.0).trunc()`; truncation of a non-negative quotient is its floor. */
  function WholeMinutes(ss: real): (q: nat)
    requires ss >= 0.0
    ensures q as real * 60.0 <= ss < q as real * 60.0 + 60.0
  {
    (ss / 60.0).Floor
  }

  /**
   The first step of DMSBasic::new: seconds above 60 move their whole minutes
   into the minute field and keep the remainder; 60 itself stays.
   */
  function CarrySeconds(b: DMSBasic): (r: DMSBasic)
    ensures Seconds(r) == Seconds(b)
    ensures r.dd == b.dd
    ensures b.ss > 60.0 ==> 0.0 <= r.ss < 60.0 && r.mm == b.mm + WholeMinutes(b.ss)
    ensures b.ss <= 60.0 ==> r == b
  {
    if b.ss > 60.0 then
      var carried := WholeMinutes(b.ss);
      b.(mm := b.mm + carried, ss := b.ss - carried as real * 60.0)
    else
      b
  }

  /**
   The second step of DMSBasic::new: minutes above 60 move their whole degrees
   into the (unbounded) degree field and keep the remainder; 60 itself stays.
   */
  function CarryMinutes(b: DMSBasic): (r: DMSBasic)
    ensures Seconds(r) == Seconds(b)
    ensures r.ss == b.ss
    ensures b.mm > 60 ==> r.mm < 60 && r.dd == b.dd + b.mm / 60
    ensures b.mm <= 60 ==> r == b
  {
    if b.mm > 60 then
      assert b.mm == b.mm / 60 * 60 + b.mm % 60;
      b.(dd := b.dd + b.mm / 60, mm := b.mm % 60)
    else
      b
  }

  /**
   DMSBasic::new: the seconds carry, then the minutes carry. The value in
   seconds is kept, neither the minutes nor the seconds are left above 60
   (the degree field is unbounded), seconds above 60 end in
   [0, 60), degrees only grow, and an input with nothing to carry comes back
   as it is.
   */
  function NewBasic(dd: int, mm: nat, ss: real): (r: DMSBasic)
    ensures Seconds(r) == Seconds(DMSBasic(dd, mm, ss))
    ensures Carried(r)
    ensures ss > 60.0 ==> 0.0 <= r.ss < 60.0
    ensures ss <= 60.0 ==> r.ss == ss
    ensures r.dd >= dd
    ensures Carried(DMSBasic(dd, mm, ss)) ==> r == DMSBasic(dd, mm, ss)
  {
    CarryMinutes(CarrySeconds(DMSBasic(dd, mm, ss)))
  }

  // ----- DMS::new -----

  /**
   The range reduction of DMS::new on one degree field: a value within
   [-limit, limit] is kept, boundaries included; any other becomes its
   truncated remainder by `limit`, which is congruent to it, below `limit` in
   magnitude and zero or of its sign.
   */
  function ReduceDegrees(dd: int, limit: int): (r: int)
    requires limit > 0
    ensures -limit <= dd <= limit ==> r == dd
    ensures !(-limit <= dd <= limit) ==> Abs(r) < limit
    ensures -limit <= r <= limit
    ensures (dd - r) % limit == 0
    ensures dd >= 0 ==> r >= 0
    ensures dd <= 0 ==> r <= 0
  {
    if dd < -limit || dd > limit then
      TruncRemCongruent(dd, limit);
      TruncRem(dd, limit)
    else
      dd
  }

  /** Degree fields within [-90, 90] for the latitude and [-180, 180] for the longitude. */
  predicate InRange(p: DMS)
  {
    -LatLimit <= p.lat.dd <= LatLimit && -LonLimit <= p.lon.dd <= LonLimit
  }

  /**
   DMS::new: each degree field is reduced on its own (the latitude by 90, the
   longitude by 180); minutes and seconds are kept and a pair already in range
   comes back as it is.
   */
  function NewDMS(lat: DMSBasic, lon: DMSBasic): (r: DMS)
    ensures InRange(r)
    ensures r.lat == lat.(dd := ReduceDegrees(lat.dd, LatLimit))
    ensures r.lon == lon.(dd := ReduceDegrees(lon.dd, LonLimit))
    ensures InRange(DMS(lat, lon)) ==> r == DMS(lat, lon)
  {
    var lat' := if lat.dd < -LatLimit || lat.dd > LatLimit then lat.(dd := TruncRem(lat.dd, LatLimit)) else lat;
    var lon' := if lon.dd < -LonLimit || lon.dd > LonLimit then lon.(dd := TruncRem(lon.dd, LonLimit)) else lon;
    DMS(lat', lon')
  }

  // ----- Display -----

  /**
   Number-to-text conversion, which `write!` takes from the standard library:
   `showWhole` for the `i32`/`u32` fields, `showReal` for the `f64` seconds.
   */
  datatype NumberFormat = NumberFormat(showWhole: nat -> string, showReal: real -> string)

  /** The hemisphere letter of a latitude's degree field. */
  function LatHemisphere(dd: int): (c: char)
    ensures c == 'N' || c == 'S'
    ensures c == 'N' <==> dd >= 0
  {
    if dd >= 0 then 'N' else 'S'
  }

  /** The hemisphere letter of a longitude's degree field. */
  function LonHemisphere(dd: int): (c: char)
    ensures c == 'E' || c == 'W'
    ensures c == 'E' <==> dd >= 0
  {
    if dd >= 0 then 'E' else 'W'
  }

  /**
   Display for DMSBasic: the absolute degree, a degree sign, the minutes, an
   apostrophe, the seconds and a double quote, in that order. The sign of the
   degree field is not printed (see BasicTextIgnoresSign).
   */
  function BasicText(b: DMSBasic, f: NumberFormat): (s: string)
    ensures var d, m, x := f.showWhole(Abs(b.dd)), f.showWhole(b.mm), f.showReal(b.ss);
      && |s| == |d| + |m| + |x| + 3
      && s[..|d|] == d
      && s[|d|] == '°'
      && s[|d| + 1..|d| + 1 + |m|] == m
      && s[|d| + 1 + |m|] == '\''
      && s[|d| + 2 + |m|..|s| - 1] == x
      && s[|s| - 1] == '"'
  {
    f.showWhole(Abs(b.dd)) + "°" + f.showWhole(b.mm) + "'" + f.showReal(b.ss) + "\""
  }

  /**
   Display for DMS: the latitude's text and letter, a comma and a space, the
   longitude's text and letter. The latitude letter sits right after the
   latitude's text and is N exactly when its degree field is non-negative;
   the last character is E exactly when the longitude's degree field is.
   */
  function Text(p: DMS, f: NumberFormat): (s: string)
    ensures var k := |BasicText(p.lat, f)|;
      && |s| == k + 3 + |BasicText(p.lon, f)| + 1
      && s[..k] == BasicText(p.lat, f)
      && (s[k] == 'N' <==> p.lat.dd >= 0)
      && (s[k] == 'S' <==> p.lat.dd < 0)
      && s[k + 1..k + 3] == ", "
      && s[k + 3..|s| - 1] == BasicText(p.lon, f)
      && (s[|s| - 1] == 'E' <==> p.lon.dd >= 0)
      && (s[|s| - 1] == 'W' <==> p.lon.dd < 0)
  {
    var lat := BasicText(p.lat, f) + [LatHemisphere(p.lat.dd)] + ", ";
    lat + BasicText(p.lon, f) + [LonHemisphere(p.lon.dd)]
  }

  // ----- From<Coord> -----

  /**
   From<Coord> for DMS: each decimal degree value is turned into seconds and
   carried from a zero degree and minute field, then the pair is range
   reduced. The result is in range; a non-negative coordinate gets a
   non-negative degree field; a negative one is carried nowhere and stays
   entirely in the seconds field.
   */
  function FromCoord(c: Coord): (r: DMS)
    ensures InRange(r)
    ensures c.lat >= 0.0 ==> r.lat.dd >= 0 && 0.0 <= r.lat.ss <= 60.0
    ensures c.lon >= 0.0 ==> r.lon.dd >= 0 && 0.0 <= r.lon.ss <= 60.0
    ensures c.lat < 0.0 ==> r.lat == DMSBasic(0, 0, c.lat * 3600.0)
    ensures c.lon < 0.0 ==> r.lon == DMSBasic(0, 0, c.lon * 3600.0)
  {
    var lat := NewBasic(0, 0, c.lat * 3600.0);
    var lon := NewBasic(0, 0, c.lon * 3600.0);
    NewDMS(lat, lon)
  }
}
