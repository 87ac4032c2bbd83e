/**
 * The table map: each table of a floor plan is drawn as a circle or a rounded
 * rectangle whose colour and opacity come from its status, with its number and
 * capacity written at its centre. Only a table whose status is exactly
 * `'available'` reacts to a tap.
 */
module TableMap {
  import opened Values
  import RestaurantService

  /** A table as the map reads it: the status and the size may be missing. */
  datatype MapTable = MapTable(
    id: string,
    number: int,
    capacity: int,
    status: Option<string>,
    shape: string,
    x: int,
    y: int,
    width: Option<int>,
    height: Option<int>)

  const SelectedColor: string := "#1f7a66"
  const AvailableColor: string := "#22c55e"
  const ReservedColor: string := "#eab308"
  const OccupiedColor: string := "#ef4444"
  const BlockedColor: string := "#94a3b8"
  const OtherColor: string := "#cbd5e1"

  /** The statuses that have a colour of their own. */
  predicate KnownStatus(status: string)
  {
    status == "available" || status == "reserved" || status == "occupied" || status == "blocked"
  }

  /** `getStatusColor`: the selection colour wins; otherwise one colour per known
      status and a light slate for any other. */
  function StatusColor(status: string, isSelected: bool): (c: string)
    ensures isSelected ==> c == SelectedColor
    ensures !isSelected && status == "available" ==> c == AvailableColor
    ensures !isSelected && status == "reserved" ==> c == ReservedColor
    ensures !isSelected && status == "occupied" ==> c == OccupiedColor
    ensures !isSelected && status == "blocked" ==> c == BlockedColor
    ensures !isSelected && !KnownStatus(status) ==> c == OtherColor
  {
    if isSelected then SelectedColor
    else match status
      case "available" => AvailableColor
      case "reserved" => ReservedColor
      case "occupied" => OccupiedColor
      case "blocked" => BlockedColor
      case _ => OtherColor
  }

  /** A selected table never looks like an unselected one, and two known statuses
      never share a colour. */
  lemma ColorsTellApart(s: string, t: string)
    ensures StatusColor(s, true) != StatusColor(t, false)
    ensures KnownStatus(s) && StatusColor(s, false) == StatusColor(t, false) ==> s == t
  {
  }

  /** `getTableOpacity`: full for an available table, 0.6 for any other. */
  function Opacity(status: string): (o: real)
    ensures o == 1.0 <==> status == "available"
    ensures o == 1.0 || o == 0.6
  {
    if status == "available" then 1.0 else 0.6
  }

  /** `table.status || 'available'`: the status the colour and opacity are drawn from. */
  function DrawnStatus(t: MapTable): string
  {
    OrElse(t.status, "available")
  }

  /** The tap guard `table.status === 'available'`. */
  predicate Tappable(t: MapTable)
  {
    t.status == Some("available")
  }

  /** `onPress`: the table handed to `onTableSelect`, if any. */
  function Tap(t: MapTable): (selected: Option<MapTable>)
    ensures selected.Some? <==> t.status == Some("available")
    ensures selected.Some? ==> selected.value == t
  {
    if Tappable(t) then Some(t) else None
  }

  /** A tappable table is drawn as available; a table with no status, or an empty one,
      is drawn as available too but cannot be selected. */
  lemma MissingStatusLooksFree(t: MapTable)
    ensures Tap(t).Some? ==> DrawnStatus(t) == "available" && Opacity(DrawnStatus(t)) == 1.0
    ensures !Truthy(t.status) ==>
      DrawnStatus(t) == "available" && Opacity(DrawnStatus(t)) == 1.0 && Tap(t) == None
  {
  }

  /** The shape drawn for a table. `Circle` is a round table, `Box` any other shape. */
  datatype Figure =
    | Circle(cx: real, cy: real, r: real)
    | Box(left: int, top: int, width: int, height: int)

  /** One drawn table: its figure, colours, opacity and the two labels' positions. */
  datatype Glyph = Glyph(
    figure: Figure,
    fill: string,
    stroke: string,
    strokeWidth: nat,
    opacity: real,
    labelX: real,
    numberY: real,
    numberFill: string,
    capacityY: real,
    capacityFill: string)

  /** The drawn size `width || 60` and `height || 60`. */
  function DrawnWidth(t: MapTable): int { NumOr(t.width, 60) }
  function DrawnHeight(t: MapTable): int { NumOr(t.height, 60) }

  /** The centre of the table's cell: the plan is shifted 40 right and 60 down. */
  function CentreX(t: MapTable): real { (t.x + 40) as real + DrawnWidth(t) as real / 2.0 }
  function CentreY(t: MapTable): real { (t.y + 60) as real + DrawnHeight(t) as real / 2.0 }

  /** The body of `tables.map` for one table. */
  function Draw(t: MapTable, selectedId: Option<string>): (g: Glyph)
    ensures g.figure.Circle? <==> t.shape == "round"
    ensures g.figure.Circle? ==>
      g.figure.r == DrawnWidth(t) as real / 2.0 && g.figure.cx == CentreX(t) && g.figure.cy == CentreY(t)
    ensures g.figure.Box? ==>
      g.figure.left == t.x + 40 && g.figure.top == t.y + 60
      && g.figure.width == NumOr(t.width, 60) && g.figure.height == NumOr(t.height, 60)
    ensures g.stroke == StatusColor(DrawnStatus(t), selectedId == Some(t.id))
    ensures g.fill == (if selectedId == Some(t.id) then g.stroke else "white")
    ensures g.strokeWidth == (if selectedId == Some(t.id) then 4 else 2)
    ensures g.opacity == Opacity(DrawnStatus(t))
    ensures g.labelX == CentreX(t) && g.numberY == CentreY(t) + 5.0 && g.capacityY == CentreY(t) + 20.0
    ensures g.numberFill == (if selectedId == Some(t.id) then "white" else g.stroke)
    ensures g.capacityFill == (if selectedId == Some(t.id) then "white" else BlockedColor)
  {
    var isSelected := selectedId == Some(t.id);
    var color := StatusColor(DrawnStatus(t), isSelected);
    var figure :=
      if t.shape == "round" then Circle(CentreX(t), CentreY(t), DrawnWidth(t) as real / 2.0)
      else Box(t.x + 40, t.y + 60, DrawnWidth(t), DrawnHeight(t));
    Glyph(figure, if isSelected then color else "white", color, if isSelected then 4 else 2,
      Opacity(DrawnStatus(t)), CentreX(t), CentreY(t) + 5.0,
      if isSelected then "white" else color, CentreY(t) + 20.0,
      if isSelected then "white" else BlockedColor)
  }

  /** The labels sit at the middle of the rectangle, and a round table's circle is as
      wide as the rectangle it replaces, centred on the same point. */
  lemma LabelsCentred(t: MapTable, selectedId: Option<string>)
    requires DrawnWidth(t) > 0 && DrawnHeight(t) > 0
    ensures var g := Draw(t, selectedId);
      (g.figure.Box? ==>
        g.figure.left as real < g.labelX < (g.figure.left + g.figure.width) as real
        && g.figure.top as real < CentreY(t) < (g.figure.top + g.figure.height) as real)
      && (g.figure.Circle? ==>
        g.figure.cx - g.figure.r == (t.x + 40) as real
        && g.figure.cx + g.figure.r == (t.x + 40 + DrawnWidth(t)) as real
        && g.labelX == g.figure.cx)
  {
  }

  /** What the map shows: a loading notice, or one glyph per table in order. */
  datatype MapView = Loading | Plan(glyphs: seq<Glyph>)

  function View(tables: seq<MapTable>, selectedId: Option<string>, isLoading: bool): (v: MapView)
    ensures v.Loading? <==> isLoading
    ensures v.Plan? ==>
      |v.glyphs| == |tables|
      && forall k :: 0 <= k < |tables| ==> v.glyphs[k] == Draw(tables[k], selectedId)
  {
    if isLoading then Loading
    else Plan(seq(|tables|, k requires 0 <= k < |tables| => Draw(tables[k], selectedId)))
  }

  /** With distinct ids, at most one table is drawn in the selection colour. */
  lemma OneSelectedGlyph(tables: seq<MapTable>, selectedId: Option<string>, i: nat, j: nat)
    requires forall a, b :: 0 <= a < b < |tables| ==> tables[a].id != tables[b].id
    requires i < |tables| && j < |tables|
    requires View(tables, selectedId, false).glyphs[i].stroke == SelectedColor
    requires View(tables, selectedId, false).glyphs[j].stroke == SelectedColor
    ensures i == j
  {
    var v := View(tables, selectedId, false);
    ColorsTellApart(DrawnStatus(tables[i]), DrawnStatus(tables[i]));
    ColorsTellApart(DrawnStatus(tables[j]), DrawnStatus(tables[j]));
    assert StatusColor(DrawnStatus(tables[i]), false) != SelectedColor;
    assert StatusColor(DrawnStatus(tables[j]), false) != SelectedColor;
  }

  // ---------------------------------------------------------------- from the service

  /** A table from the service as the map receives it. */
  function FromService(t: RestaurantService.Table): MapTable
  {
    MapTable(t.id, t.number, t.capacity, Some(t.status), t.shape, t.x, t.y, Some(t.width), Some(t.height))
  }

  /** For the tables the service delivers the tap guard and the drawing agree: a table
      reacts to a tap exactly when it is drawn as available. */
  lemma ServiceTablesTapIffDrawnAvailable(data: Option<seq<RestaurantService.RawTable>>, k: nat)
    requires k < |RestaurantService.TablesOf(data)|
    ensures var t := FromService(RestaurantService.TablesOf(data)[k]);
      Tap(t).Some? <==> DrawnStatus(t) == "available"
  {
  }
}
