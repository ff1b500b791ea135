/**
 * The colouring loop of `hemicycleImage`: one iterator over the seat list is
 * shared by every party, each `(count, colour)` party takes the next `count`
 * seats, drawing stops as soon as the seats run out, and whatever is left
 * after the last party is drawn in the unaffiliated grey `#D6D6CE`.
 */
module Assignment {
  import opened Wrappers
  import opened HexColor

  /** A party: the number of seats it takes and its colour as `#RRGGBB`. */
  datatype Party = Party(count: nat, hex: string)

  /** A draw command: one seat filled with one colour. */
  datatype Draw<T> = Draw(point: T, colour: Color)

  /** The colour of the seats no party takes, as channel values. */
  const UnaffiliatedColour: Color := Color(0xD6, 0xD6, 0xCE, 1.0)

  /**
   * The `#RRGGBB` text of the colour of the seats no party takes; its force
   * unwrap cannot trap because it parses.
   */
  function Unaffiliated(): (hex: string)
    ensures ParseHex(hex) == Some(UnaffiliatedColour)
  {
    assert ByteHex(0xD6) == "D6";
    assert ByteHex(0xCE) == "CE";
    ParsesTo("#D6D6CE", UnaffiliatedColour);
    "#D6D6CE"
  }

  /** The number of seats the first k parties ask for. */
  function Before(parties: seq<Party>, k: nat): nat
    requires k <= |parties|
  {
    if k == 0 then 0 else Before(parties, k - 1) + parties[k - 1].count
  }

  /** The number of seats all parties ask for. */
  function Total(parties: seq<Party>): nat {
    Before(parties, |parties|)
  }

  lemma {:induction false} BeforeMonotone(parties: seq<Party>, a: nat, b: nat)
    requires a <= b <= |parties|
    ensures Before(parties, a) <= Before(parties, b)
    decreases b
  {
    if a < b {
      BeforeMonotone(parties, a, b - 1);
    }
  }

  /**
   * The first party from the k-th on whose cumulative count exceeds seat
   * position j, or None when all parties together ask for at most j seats.
   */
  function OwnerFrom(parties: seq<Party>, j: nat, k: nat): (r: Option<nat>)
    requires k <= |parties| && Before(parties, k) <= j
    ensures r.Some? ==> k <= r.value < |parties| && Before(parties, r.value) <= j < Before(parties, r.value + 1)
    ensures r.None? ==> Total(parties) <= j
    decreases |parties| - k
  {
    if k == |parties| then None
    else if j < Before(parties, k + 1) then Some(k)
    else OwnerFrom(parties, j, k + 1)
  }

  /** The party that seat position j is drawn for, or None for an unaffiliated seat. */
  function Owner(parties: seq<Party>, j: nat): Option<nat> {
    OwnerFrom(parties, j, 0)
  }

  /**
   * Party k owns exactly the positions from the seats earlier parties ask
   * for up to that plus its own count.
   */
  lemma OwnerRange(parties: seq<Party>, j: nat, k: nat)
    requires k < |parties|
    ensures Owner(parties, j) == Some(k) <==> Before(parties, k) <= j < Before(parties, k) + parties[k].count
  {
    var o := Owner(parties, j);
    if Before(parties, k) <= j < Before(parties, k + 1) {
      if o.None? {
        BeforeMonotone(parties, k + 1, |parties|);
      } else {
        RangesDisjoint(parties, j, o.value, k);
      }
    }
  }

  /** The ranges of two different parties never share a position. */
  lemma RangesDisjoint(parties: seq<Party>, j: nat, m: nat, k: nat)
    requires m < |parties| && k < |parties|
    requires Before(parties, m) <= j < Before(parties, m + 1)
    requires Before(parties, k) <= j < Before(parties, k + 1)
    ensures m == k
  {
    if m < k {
      BeforeMonotone(parties, m + 1, k);
    } else if m > k {
      BeforeMonotone(parties, k + 1, m);
    }
  }

  /** A position is unaffiliated exactly when the parties ask for no more seats than it. */
  lemma OwnerNone(parties: seq<Party>, j: nat)
    ensures Owner(parties, j).None? <==> Total(parties) <= j
  {
    var o := Owner(parties, j);
    if o.Some? {
      BeforeMonotone(parties, o.value + 1, |parties|);
    }
  }

  /**
   * The force-unwrapped colour conversions that run before seat position n is
   * reached succeed: every party whose turn comes while at most n seats are
   * taken has a colour that parses.
   */
  predicate ColoursParseUpTo(parties: seq<Party>, n: nat) {
    forall k :: 0 <= k < |parties| && Before(parties, k) <= n ==> ParseHex(parties[k].hex).Some?
  }

  /** The colour seat position j receives. */
  function ColourAt(parties: seq<Party>, j: nat): (c: Color)
    requires ColoursParseUpTo(parties, j)
    ensures c.red < 256 && c.green < 256 && c.blue < 256 && c.alpha == 1.0
  {
    match Owner(parties, j)
    case Some(k) => ParseHex(parties[k].hex).value
    case None => ParseHex(Unaffiliated()).value
  }

  /** The first |draws| seats are drawn in list order, each in its assigned colour. */
  ghost predicate DrawnAsAssigned<T>(draws: seq<Draw<T>>, points: seq<T>, parties: seq<Party>)
    requires ColoursParseUpTo(parties, |points|)
  {
    |draws| <= |points| &&
    forall j :: 0 <= j < |draws| ==> draws[j] == Draw(points[j], ColourAt(parties, j))
  }

  lemma DrawNext<T>(draws: seq<Draw<T>>, points: seq<T>, parties: seq<Party>, colour: Color)
    requires ColoursParseUpTo(parties, |points|)
    requires DrawnAsAssigned(draws, points, parties) && |draws| < |points|
    requires colour == ColourAt(parties, |draws|)
    ensures DrawnAsAssigned(draws + [Draw(points[|draws|], colour)], points, parties)
  {
  }

  /**
   * The party loop and the trailing `while let` loop of `hemicycleImage`,
   * with `i` the position of the shared iterator. Every seat is drawn once,
   * in list order, in the colour of the party whose range holds its position.
   */
  method Assign<T>(points: seq<T>, parties: seq<Party>) returns (draws: seq<Draw<T>>)
    requires ColoursParseUpTo(parties, |points|)
    ensures |draws| == |points|
    ensures forall j :: 0 <= j < |draws| ==> draws[j] == Draw(points[j], ColourAt(parties, j))
  {
    draws := [];
    var i := 0;
    for k := 0 to |parties|
      invariant i == Before(parties, k) <= |points|
      invariant |draws| == i && DrawnAsAssigned(draws, points, parties)
    {
      var colour := ParseHex(parties[k].hex).value;
      for n := 0 to parties[k].count
        invariant i == Before(parties, k) + n <= |points|
        invariant |draws| == i && DrawnAsAssigned(draws, points, parties)
      {
        if i == |points| {
          return;
        }
        OwnerRange(parties, i, k);
        DrawNext(draws, points, parties, colour);
        draws := draws + [Draw(points[i], colour)];
        i := i + 1;
      }
    }
    var grey := ParseHex(Unaffiliated()).value;
    while i < |points|
      invariant Total(parties) <= i <= |points|
      invariant |draws| == i && DrawnAsAssigned(draws, points, parties)
    {
      OwnerNone(parties, i);
      DrawNext(draws, points, parties, grey);
      draws := draws + [Draw(points[i], grey)];
      i := i + 1;
    }
  }
}
