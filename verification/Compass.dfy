/**
 * The compass label shown for a photo's heading: one of eight directions,
 * and for the four cardinal ones the distance in degrees from the exact
 * heading when it is more than 5 degrees.
 */
module Compass {

  const Directions: seq<string> := ["North", "Northeast", "East", "Southeast", "South", "Southwest", "West", "Northwest"]

  /** The text between the deviation and the direction name: "° from ". */
  const DegreesFrom: string := "\U{B0} from "

  function Abs(x: int): nat { if x < 0 then -x else x }

  /** The sector of a heading of `degrees` in 0..360, in integer arithmetic. */
  function SectorIndex(degrees: int): (index: int)
    requires 0 <= degrees <= 360
    ensures 0 <= index < 8
  {
    ((2 * degrees + 45) / 90) % 8
  }

  /** The source computes the sector as `((degrees + 22.5) / 45).toInt() % 8`;
      for a non-negative operand truncation is the floor, and the integer
      form above gives the same index. */
  lemma SectorIndexMatchesRealFormula(degrees: int)
    requires 0 <= degrees <= 360
    ensures SectorIndex(degrees) == ((degrees as real + 22.5) / 45.0).Floor % 8
  {
    var q := (2 * degrees + 45) / 90;
    var x := (degrees as real + 22.5) / 45.0;
    assert 90 * q <= 2 * degrees + 45 < 90 * q + 90;
    assert x == (2 * degrees + 45) as real / 90.0;
    assert q as real <= x < q as real + 1.0;
    assert x.Floor == q;
  }

  /** Decimal digits of `n`, as Kotlin prints an `Int`. */
  function DecimalString(n: nat): (s: string)
    ensures |s| >= 1
    ensures forall i :: 0 <= i < |s| ==> '0' <= s[i] <= '9'
    ensures n > 0 ==> s[0] != '0'
    decreases n
  {
    if n < 10 then [(48 + n) as char]
    else DecimalString(n / 10) + [(48 + n % 10) as char]
  }

  /** The number a string of decimal digits denotes. */
  function DecimalValue(s: string): nat
    requires forall i :: 0 <= i < |s| ==> '0' <= s[i] <= '9'
    decreases |s|
  {
    if s == [] then 0
    else DecimalValue(s[..|s| - 1]) * 10 + (s[|s| - 1] as int - 48)
  }

  /** Reading back the printed deviation gives the deviation. */
  lemma {:induction false} DecimalRoundTrip(n: nat)
    ensures DecimalValue(DecimalString(n)) == n
    decreases n
  {
    if n >= 10 {
      DecimalRoundTrip(n / 10);
      var s := DecimalString(n);
      assert s[..|s| - 1] == DecimalString(n / 10);
    }
  }

  /** The `when (index)` of the source: the signed distance from the
      cardinal direction, measured from 0, 90, 180 or 270. */
  function CardinalDeviation(degrees: int, index: int): int
    requires index % 2 == 0
  {
    match index
    case 0 => degrees
    case 2 => degrees - 90
    case 4 => degrees - 180
    case _ => degrees - 270
  }

  /** The label for sector `index` given the deviation from its direction;
      an intercardinal sector returns its bare name before any deviation. */
  function Label(index: int, deviation: int): (r: string)
    requires 0 <= index < 8
    ensures |r| >= |Directions[index]| && r[|r| - |Directions[index]|..] == Directions[index]
    ensures r == Directions[index] <==> index % 2 == 1 || Abs(deviation) <= 5
  {
    var primaryDirection := Directions[index];
    if index % 2 == 1 then primaryDirection
    else if Abs(deviation) <= 5 then primaryDirection
    else DecimalString(Abs(deviation)) + DegreesFrom + primaryDirection
  }

  /** `formatCompassDirection`, for the headings 0..360 its caller passes. */
  function FormatCompassDirection(degrees: int): (r: string)
    requires 0 <= degrees <= 360
    ensures var name := Directions[SectorIndex(degrees)];
      |r| >= |name| && r[|r| - |name|..] == name
  {
    var index := SectorIndex(degrees);
    Label(index, if index % 2 == 0 then CardinalDeviation(degrees, index) else 0)
  }

  /** An intercardinal sector gives its bare name. */
  lemma IntercardinalIsBareName(degrees: int)
    requires 0 <= degrees <= 360 && SectorIndex(degrees) % 2 == 1
    ensures FormatCompassDirection(degrees) == Directions[SectorIndex(degrees)]
  {
  }

  /** A cardinal sector within 5 degrees gives its bare name; beyond, the
      absolute deviation followed by "° from" and the name. */
  lemma CardinalLabel(degrees: int)
    requires 0 <= degrees <= 360 && SectorIndex(degrees) % 2 == 0
    ensures var index := SectorIndex(degrees);
      var deviation := Abs(degrees - 45 * index);
      FormatCompassDirection(degrees) ==
        if deviation <= 5 then Directions[index] else DecimalString(deviation) + DegreesFrom + Directions[index]
  {
  }

  /** Every label is a direction name, or a number above 5 followed by
      "° from" and a cardinal name. */
  lemma LabelShape(degrees: int)
    requires 0 <= degrees <= 360
    ensures var r := FormatCompassDirection(degrees);
      || r in Directions
      || exists n: nat, k :: 5 < n && k in {0, 2, 4, 6} && r == DecimalString(n) + DegreesFrom + Directions[k]
  {
    var index := SectorIndex(degrees);
    if index % 2 == 0 {
      var n := Abs(CardinalDeviation(degrees, index));
      if n > 5 {
        assert FormatCompassDirection(degrees) == DecimalString(n) + DegreesFrom + Directions[index];
      }
    }
  }

  /** Headings on or near a direction read as its bare name. */
  lemma BareNameExamples()
    ensures FormatCompassDirection(0) == "North"
    ensures FormatCompassDirection(45) == "Northeast"
    ensures FormatCompassDirection(93) == "East"
  {
    assert SectorIndex(0) == 0 && SectorIndex(45) == 1 && SectorIndex(93) == 2;
  }

  /** Ten degrees past East reads as "10° from East". */
  lemma DeviationExample()
    ensures FormatCompassDirection(100) == "10" + DegreesFrom + "East"
  {
    assert SectorIndex(100) == 2;
    assert DecimalString(10) == "10";
  }

  /** As written, North's deviation is the raw heading: 350 degrees, ten
      degrees short of North, is reported as 350 degrees from North. */
  lemma NorthDeviationNotWrapped()
    ensures SectorIndex(350) == 0
    ensures FormatCompassDirection(350) == "350" + DegreesFrom + "North"
  {
    assert DecimalString(350) == "350";
  }

  /** The deviation measured the short way round, so headings just below
      360 are measured back from 360. */
  function WrappedDeviation(degrees: int, index: int): (deviation: int)
    requires 0 <= degrees <= 360 && index == SectorIndex(degrees) && index % 2 == 0
    ensures Abs(deviation) <= 22
  {
    var q := (2 * degrees + 45) / 90;
    assert 90 * q <= 2 * degrees + 45 < 90 * q + 90;
    if index == 0 && degrees > 180 then degrees - 360 else CardinalDeviation(degrees, index)
  }

  /** `formatCompassDirection` with North's deviation wrapped. */
  function FormatCompassDirectionWrapped(degrees: int): string
    requires 0 <= degrees <= 360
  {
    var index := SectorIndex(degrees);
    Label(index, if index % 2 == 0 then WrappedDeviation(degrees, index) else 0)
  }

  /** With wrapping, a cardinal label never reports more than 22 degrees,
      half a sector, and 350 reads as 10 degrees from North. */
  lemma WrappedLabelWithinHalfSector(degrees: int)
    requires 0 <= degrees <= 360
    ensures var r := FormatCompassDirectionWrapped(degrees);
      || r in Directions
      || exists n: nat, k :: 5 < n <= 22 && k in {0, 2, 4, 6} && r == DecimalString(n) + DegreesFrom + Directions[k]
    ensures FormatCompassDirectionWrapped(350) == "10" + DegreesFrom + "North"
  {
    var index := SectorIndex(degrees);
    if index % 2 == 0 {
      var n := Abs(WrappedDeviation(degrees, index));
      if n > 5 {
        assert FormatCompassDirectionWrapped(degrees) == DecimalString(n) + DegreesFrom + Directions[index];
      }
    }
    assert SectorIndex(350) == 0;
    assert DecimalString(10) == "10";
  }
}
