/**
 * The French National Assembly diagram: the constants `hemicyclePoints` and
 * `hemicycleImage` fix (10 rows, 58 columns, reserved seats 0, 10 and 570,
 * eight parties), and the two steps composed.
 */
module Hemicycle {
  import opened Wrappers
  import opened HexColor
  import opened Layout
  import opened Assignment

  /** Angular inset at both ends of the arc, in units of pi (1.5 degrees). */
  const RowRadian: real := 1.5 / 180.0

  /**
   * Spacing between rows, in pixels, for a canvas of the given width: on a
   * canvas of positive width it exceeds the circle diameter, so the circles
   * of neighbouring rows never touch.
   */
  function RowSpacing(width: real): (spacing: real)
    ensures width > 0.0 ==> spacing > CirclesDiameter(width)
  {
    8.57 / 343.0 * width
  }

  /** Seat circle diameter, in pixels, for a canvas of the given width; it grows with the width. */
  function CirclesDiameter(width: real): (diameter: real)
    ensures width > 0.0 ==> diameter > 0.0
  {
    4.7 / 343.0 * width
  }

  /** The loop parameters of `hemicyclePoints` for a canvas of the given width. */
  function FrenchAssembly(width: real): (g: Geometry)
    ensures g.rowCount == 10 && g.rowCircles == 58 && Capacity(g) == 580
    ensures g.skipped == {0, 10, 570}
  {
    var rowCount := 10;
    var rowCircles := 58;
    var radianStart := 1.0 - RowRadian;
    var radianEnd := 0.0 + RowRadian;
    Geometry(
      rowCount, rowCircles, {0, 10, 570},
      (rowCount + 1) as real * RowSpacing(width) - CirclesDiameter(width) / 2.0, RowSpacing(width),
      radianStart, (radianStart - radianEnd) / (rowCircles - 1) as real)
  }

  /**
   * The columns sweep the arc from pi minus the inset down to the inset, in
   * equal steps, so the angle strictly decreases from left to right and the
   * last column lands exactly on the inset.
   */
  lemma ColumnAngles(width: real, c: nat, d: nat)
    requires c < d < 58
    ensures var g := FrenchAssembly(width);
      ColumnAngle(g, 0) == 1.0 - RowRadian && ColumnAngle(g, 57) == RowRadian &&
      RowRadian <= ColumnAngle(g, d) < ColumnAngle(g, c) <= 1.0 - RowRadian
  {
  }

  /**
   * On a canvas of positive width the rows go from inside to outside, and
   * every seat circle lies between the centre and the top edge of the canvas
   * (the canvas is half as high as it is wide).
   */
  lemma RowRadii(width: real, r: nat, s: nat)
    requires width > 0.0
    requires r < s < 10
    ensures var g := FrenchAssembly(width);
      RowRadius(g, r) < RowRadius(g, s) &&
      0.0 < RowRadius(g, 0) - CirclesDiameter(width) / 2.0 &&
      RowRadius(g, 9) + CirclesDiameter(width) / 2.0 < width / 2.0
  {
  }

  /**
   * The seats the loops of `hemicyclePoints` emit: of the 580 indices they
   * visit, the three reserved ones yield none, so 577 seats remain.
   */
  function FrenchSeats(width: real): (seats: seq<Seat>)
    ensures |seats| == 577
  {
    var g := FrenchAssembly(width);
    LayoutLength(g, 580);
    assert SkippedBelow(g, 580) == {0, 10, 570};
    Layout.Layout(g, 580)
  }

  /** `hemicyclePoints`: 580 indices visited, 577 seats in increasing index order. */
  method HemicyclePoints(width: real) returns (seats: seq<Seat>)
    ensures seats == FrenchSeats(width)
    ensures |seats| == 577
    ensures forall k :: 0 <= k < |seats| ==>
      seats[k].index < 580 && seats[k].index !in {0, 10, 570} && seats[k] == SeatAt(FrenchAssembly(width), seats[k].index)
    ensures forall j, k :: 0 <= j < k < |seats| ==> seats[j].index < seats[k].index
  {
    var g := FrenchAssembly(width);
    var visited;
    seats, visited := Enumerate(g);
    LayoutSound(g, 580);
    LayoutLength(g, 580);
    assert SkippedBelow(g, 580) == {0, 10, 570};
  }

  /** The party list of `hemicycleImage`, in drawing order: eight parties asking for 570 seats. */
  function Parties(): (parties: seq<Party>)
    ensures |parties| == 8 && Total(parties) == 570
  {
    var parties := [
      Party(17, "#D93A33"),
      Party(16, "#F5695E"),
      Party(28, "#C4516B"),
      Party(331, "#ECBD50"),
      Party(30, "#DE6C35"),
      Party(24, "#41B1D6"),
      Party(115, "#334EA1"),
      Party(9, "#313184")
    ];
    assert Before(parties, 1) == 17;
    assert Before(parties, 2) == 33;
    assert Before(parties, 3) == 61;
    assert Before(parties, 4) == 392;
    assert Before(parties, 5) == 422;
    assert Before(parties, 6) == 446;
    assert Before(parties, 7) == 561;
    parties
  }

  /** The colours of the party list in `#RRGGBB` order, as channel values. */
  const PartyColours: seq<Color> := [
    Color(0xD9, 0x3A, 0x33, 1.0), Color(0xF5, 0x69, 0x5E, 1.0), Color(0xC4, 0x51, 0x6B, 1.0),
    Color(0xEC, 0xBD, 0x50, 1.0), Color(0xDE, 0x6C, 0x35, 1.0), Color(0x41, 0xB1, 0xD6, 1.0),
    Color(0x33, 0x4E, 0xA1, 1.0), Color(0x31, 0x31, 0x84, 1.0)]

  lemma PartyColoursParse0And1()
    ensures ParseHex("#D93A33") == Some(PartyColours[0]) && ParseHex("#F5695E") == Some(PartyColours[1])
  {
    assert ByteHex(0xD9) == "D9";
    assert ByteHex(0x3A) == "3A";
    assert ByteHex(0x33) == "33";
    ParsesTo("#D93A33", Color(0xD9, 0x3A, 0x33, 1.0));
    assert ByteHex(0xF5) == "F5";
    assert ByteHex(0x69) == "69";
    assert ByteHex(0x5E) == "5E";
    ParsesTo("#F5695E", Color(0xF5, 0x69, 0x5E, 1.0));
  }

  lemma PartyColoursParse2And3()
    ensures ParseHex("#C4516B") == Some(PartyColours[2]) && ParseHex("#ECBD50") == Some(PartyColours[3])
  {
    assert ByteHex(0xC4) == "C4";
    assert ByteHex(0x51) == "51";
    assert ByteHex(0x6B) == "6B";
    ParsesTo("#C4516B", Color(0xC4, 0x51, 0x6B, 1.0));
    assert ByteHex(0xEC) == "EC";
    assert ByteHex(0xBD) == "BD";
    assert ByteHex(0x50) == "50";
    ParsesTo("#ECBD50", Color(0xEC, 0xBD, 0x50, 1.0));
  }

  lemma PartyColoursParse4And5()
    ensures ParseHex("#DE6C35") == Some(PartyColours[4]) && ParseHex("#41B1D6") == Some(PartyColours[5])
  {
    assert ByteHex(0xDE) == "DE";
    assert ByteHex(0x6C) == "6C";
    assert ByteHex(0x35) == "35";
    ParsesTo("#DE6C35", Color(0xDE, 0x6C, 0x35, 1.0));
    assert ByteHex(0x41) == "41";
    assert ByteHex(0xB1) == "B1";
    assert ByteHex(0xD6) == "D6";
    ParsesTo("#41B1D6", Color(0x41, 0xB1, 0xD6, 1.0));
  }

  lemma PartyColoursParse6And7()
    ensures ParseHex("#334EA1") == Some(PartyColours[6]) && ParseHex("#313184") == Some(PartyColours[7])
  {
    assert ByteHex(0x33) == "33";
    assert ByteHex(0x4E) == "4E";
    assert ByteHex(0xA1) == "A1";
    ParsesTo("#334EA1", Color(0x33, 0x4E, 0xA1, 1.0));
    assert ByteHex(0x31) == "31";
    assert ByteHex(0x31) == "31";
    assert ByteHex(0x84) == "84";
    ParsesTo("#313184", Color(0x31, 0x31, 0x84, 1.0));
  }

  lemma PartyColourParses(k: nat)
    requires k < 8
    ensures ParseHex(Parties()[k].hex) == Some(PartyColours[k])
  {
    PartyColoursParse0And1();
    PartyColoursParse2And3();
    PartyColoursParse4And5();
    PartyColoursParse6And7();
  }

  /** Every force-unwrapped colour conversion in `hemicycleImage` succeeds. */
  lemma PartiesParse(n: nat)
    ensures ColoursParseUpTo(Parties(), n)
  {
    forall k | 0 <= k < |Parties()| ensures ParseHex(Parties()[k].hex).Some? {
      PartyColourParses(k);
    }
  }

  /** Party k colours its own range of positions; positions from 570 on are grey. */
  lemma PartyColourAt(j: nat, k: nat)
    requires k < 8
    ensures ColoursParseUpTo(Parties(), j)
    ensures Before(Parties(), k) <= j < Before(Parties(), k) + Parties()[k].count ==> ColourAt(Parties(), j) == PartyColours[k]
    ensures 570 <= j ==> ColourAt(Parties(), j) == UnaffiliatedColour
  {
    PartiesParse(j);
    OwnerRange(Parties(), j, k);
    OwnerNone(Parties(), j);
    PartyColourParses(k);
  }

  /**
   * `hemicycleImage`, without the rendering: the 577 seats are each drawn
   * once and in order, party k in its colour on the positions from the seats
   * earlier parties take, and the 7 seats left after the 570 party seats in
   * the unaffiliated grey.
   */
  method HemicycleImage(width: real) returns (draws: seq<Draw<Seat>>)
    ensures |draws| == 577
    ensures forall j :: 0 <= j < |draws| ==> draws[j].point == FrenchSeats(width)[j]
    ensures forall j :: 0 <= j < |draws| ==>
      draws[j].point.index < 580 && draws[j].point.index !in {0, 10, 570} &&
      draws[j].point == SeatAt(FrenchAssembly(width), draws[j].point.index)
    ensures forall j, k :: 0 <= j < k < |draws| ==> draws[j].point.index < draws[k].point.index
    ensures forall j, k :: 0 <= k < 8 && 0 <= j < |draws| && Before(Parties(), k) <= j < Before(Parties(), k) + Parties()[k].count ==>
      draws[j].colour == PartyColours[k]
    ensures forall j :: 570 <= j < |draws| ==> draws[j].colour == UnaffiliatedColour
  {
    var points := HemicyclePoints(width);
    PartiesParse(|points|);
    draws := Assign(points, Parties());
    forall j, k | 0 <= k < 8 && 0 <= j < |draws| ensures
      Before(Parties(), k) <= j < Before(Parties(), k) + Parties()[k].count ==> draws[j].colour == PartyColours[k]
    {
      PartyColourAt(j, k);
    }
    forall j | 570 <= j < |draws| ensures draws[j].colour == UnaffiliatedColour {
      PartyColourAt(j, 0);
    }
  }
}
