# Hemicycle seat diagram, modelled in Dafny

The Swift playground draws the seats of the French National Assembly as a
half circle: 58 columns of 10 seats, three reserved seats left out, and the
577 remaining seats coloured party by party. This project models the three
pieces of discrete logic under the drawing code and proves what they promise:

- `HexColor` — the failable initialiser `UIColor.init?(hex:)`: a `#RRGGBB`
  string becomes three 8-bit channels (kept as integers 0..255) and an alpha
  of 1; any other string gives no colour. Proved: the exact acceptance
  condition, channel bounds, that the channels recombine to the scanned
  24-bit value, and both round trips with the `#RRGGBB` writer `ToHex`.
- `Layout` — `hemicyclePoints`: the outer loop over columns and the inner
  loop over rows advance one running seat index and keep every index outside
  the reserved set. `Enumerate` is the imperative loop; the function `Layout`
  is its specification, and lemmas prove that exactly the non-reserved
  indices yield a seat, in strictly increasing index order, each in column
  `i div rowCount` and row `i mod rowCount`, with radius and angle affine in
  row and column.
- `Assignment` — the colouring loop of `hemicycleImage`: one cursor over the
  seat list is shared by all parties, each party takes the next `count`
  seats, drawing stops when the seats run out, and the rest is grey
  `#D6D6CE`. `Assign` is proved against the reference definition `Owner`
  (party k owns the positions from the seats earlier parties ask for up to
  that plus its count).
- `Hemicycle` — the source's constants (10 rows, 58 columns, reserved
  indices 0, 10 and 570, eight parties asking for 570 seats) and the two
  steps composed: 577 draws, each seat once, the last 7 grey.

Seats are kept in polar form: column, row, radius, and angle in units of
pi radians, so the radius and angle arithmetic is exact and no
trigonometry is involved.

Points of the code that shape the model:

- Rows go from inside to outside. The radius starts at
  `(rowCount + 1) * rowSpacing - circlesDiameter / 2` (line 69) and grows by
  `rowSpacing` per row (lines 70 and 82).
- The reserved indices 0, 10 and 570 are dropped while the seats are
  enumerated (line 77). The colouring loop therefore never sees them: it
  walks the 577 remaining seats in order.
- Each party colour is force-unwrapped (`UIColor(hex:)!`, lines 111 and 121),
  which traps on a string that does not parse. `Assign` therefore requires
  that every colour the loop reaches parses, and the source's own colours are
  proved to parse.
- Party counts that add up to more seats than exist are silently truncated
  (lines 113-116): the party that runs out is cut short, later parties and
  the grey are not drawn, and every seat is still drawn exactly once.

## Model

| member | source | states |
|---|---|---|
| HexColor.ParseHex | Playground.swift:5-27 | returns a colour exactly when the string is `#` followed by six hex digits; then each channel is below 256, red·65536 + green·256 + blue equals the scanned value, and alpha is 1 |
| HexColor.HexValue | Playground.swift:13-16 | the value a digit string denotes is below 16 to the power of its length |
| HexColor.Channel | Playground.swift:17-19 | masking with an 8-bit mask and shifting yields a byte (below 256) |
| HexColor.ChannelsRecombine | Playground.swift:17-19 | for a 24-bit value, the three extracted channels recombine to the value |
| HexColor.ChannelsUnique | Playground.swift:17-21 | two byte triples with the same 24-bit value are equal, so the parsed colour is determined by the value |
| HexColor.ParseToHex | Playground.swift:5-27 | writing any colour with byte channels and alpha 1 as `#RRGGBB` and parsing it gives the same colour back |
| HexColor.ToHexOfParse | Playground.swift:5-27 | a parsed string is written back as the same six digits in upper case, so parsing ignores only letter case |
| HexColor.HexValueInjective | Playground.swift:13-16 | upper-case digit strings of equal length with equal value are equal |
| HexColor.HexValueAppend | Playground.swift:13-16 | the value of two digit strings joined is the first value shifted by the second's length plus the second value |
| Layout.SeatAt | Playground.swift:73-83 | index i sits in row i mod rowCount and column i div rowCount, at radius start + row·step and angle start − column·step |
| Layout.Layout | Playground.swift:73-83 | the seats of the first n visited indices, reserved ones left out, are at most n |
| Layout.DivModUnique | Playground.swift:73-83 | index column·rowCount + row (row below rowCount) is in that column and that row |
| Layout.LayoutStep | Playground.swift:76-81 | visiting one more index appends that index's seat unless it is reserved |
| Layout.EnumerateColumn | Playground.swift:75-83 | the inner loop over one column's rows appends exactly the specified seats of that column's indices |
| Layout.Enumerate | Playground.swift:51-87 | the nested loops visit rowCount·rowCircles indices and return exactly the specified seat list |
| Layout.LayoutSound | Playground.swift:77-79 | every emitted seat belongs to a visited, non-reserved index and is that index's seat; indices strictly increase, so no seat appears twice |
| Layout.LayoutComplete | Playground.swift:73-83 | every visited non-reserved index yields a seat |
| Layout.LayoutMembership | Playground.swift:73-83 | an index yields a seat if and only if it was visited and is not reserved |
| Layout.LayoutLength | Playground.swift:58-63 | the number of seats plus the number of reserved visited indices equals the number of visited indices |
| Hemicycle.FrenchAssembly | Playground.swift:52-72 | the loops run 58 columns of 10 rows, 580 indices, with reserved set {0, 10, 570} |
| Hemicycle.RowSpacing | Playground.swift:56 | for a positive width the row spacing exceeds the circle diameter, so circles of neighbouring rows never overlap |
| Hemicycle.CirclesDiameter | Playground.swift:57 | for a positive width the circle diameter is positive |
| Hemicycle.FrenchSeats | Playground.swift:58-63 | the 580 visited indices less the three reserved ones leave 577 seats |
| Hemicycle.ColumnAngles | Playground.swift:55-67 | column angles start at pi minus the inset, strictly decrease and end exactly at the inset |
| Hemicycle.RowRadii | Playground.swift:56-70 | for a positive width radii strictly increase with the row, and every seat circle lies between the centre and the canvas top |
| Hemicycle.HemicyclePoints | Playground.swift:51-87 | returns exactly the specified seat list of the 580 visited indices: 577 seats, none reserved, each the seat of its index, in strictly increasing index order |
| Assignment.BeforeMonotone | Playground.swift:110-118 | the seats the first k parties ask for never decrease as k grows |
| Assignment.OwnerFrom | Playground.swift:110-118 | the party found for a position is the one whose cumulative range holds it; none means all parties together take no more than the position |
| Assignment.OwnerRange | Playground.swift:109-118 | party k owns a position if and only if it lies from the sum of earlier counts up to that sum plus its own count |
| Assignment.RangesDisjoint | Playground.swift:109-118 | two parties' seat ranges never share a position, so no seat is drawn for two parties |
| Assignment.OwnerNone | Playground.swift:121-125 | a position is unaffiliated if and only if the parties ask for no more seats than it |
| Assignment.ColourAt | Playground.swift:111-121 | the colour of a position has byte channels and alpha 1 |
| Assignment.Unaffiliated | Playground.swift:121 | the grey `#D6D6CE` parses to (0xD6, 0xD6, 0xCE) with alpha 1, so its force unwrap cannot trap |
| Assignment.DrawNext | Playground.swift:113-117 | drawing the next seat in its assigned colour keeps the drawn prefix correct |
| Assignment.Assign | Playground.swift:109-125 | draws every seat exactly once, in list order, each in the colour of the party whose range holds its position, grey after the last party, including when the seats run out mid-party |
| HexColor.ParsesTo | Playground.swift:111 | a `#RRGGBB` literal spelling a colour's bytes parses to that colour |
| Hemicycle.PartyColourParses | Playground.swift:90-99 | each of the eight party colours parses to its channel values |
| Hemicycle.PartiesParse | Playground.swift:90-111 | every force-unwrapped party colour conversion succeeds |
| Hemicycle.Parties | Playground.swift:90-99 | the party list has eight parties asking for 570 seats in all |
| Hemicycle.PartyColourAt | Playground.swift:90-125 | with the source's party list, party k colours exactly its own position range and positions from 570 on are grey |
| Hemicycle.HemicycleImage | Playground.swift:89-126 | 577 draws, the j-th on the j-th seat `hemicyclePoints` returns, so each seat once in increasing index order, every index below 580 and none reserved; party k's colour on its range, grey on the last 7 |

## Left out

- Rendering: `UIGraphicsImageRenderer`, `CGContext.addCircle`, `addEllipse`, `setFillColor`, `drawPath` and `PlaygroundPage.liveView` are foreign drawing calls. The model produces the ordered list of (seat, colour) draw commands they consume. The per-colour grouping of fills into one path is not modelled.
- `circlePoint` and pixel coordinates: they need floating-point `cos` and `sin`. Seats stay in polar form (radius and angle).
- Floating point: `CGFloat` constants and the accumulated `radius += radiusStep` and `radian -= radianStep` are modelled as exact reals. Rounding drift is not captured. Angles are measured in units of pi.
- The division of each channel by 255 into a `CGFloat` component is presentation only; channels stay integers 0..255.
- HexColor.ParseHex: success is modelled as "six hex digits". Foundation documents `Scanner.scanHexInt64` as skipping leading whitespace, accepting an optional `0x` or `0X` prefix and scanning the longest prefix of hex digits, succeeding when at least one digit is found. After the length check of line 12, it therefore also accepts six characters such as `0x1234`, ` 12345` or `12345z`, which the model rejects; the model accepts exactly six hex digits.
- HexColor.ParseHex: Swift's `count` counts grapheme clusters; the model counts characters.
- Assignment.Assign: the force unwrap `UIColor(hex:)!` is a precondition (every colour the loop reaches parses) rather than a modelled trap.
- Assignment.Assign: party counts are `nat`. The source's element type is `(Int, String)`, and `for _ in 0..<party.0` (line 112) traps on a negative count; that trap is not modelled.
- Hemicycle.HemicycleImage: the width is a parameter; the source fixes it at 700 (line 100).
