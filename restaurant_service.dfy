/**
 * The table list of the restaurant service: the server's table records are
 * translated into the app's tables, with a default for every field the server may
 * leave empty. The request itself is left to the caller; `data` is its answer.
 */
module RestaurantService {
  import opened Values

  /** A table as the server sends it; every field may be missing. */
  datatype RawTable = RawTable(
    id: string,
    restaurantId: string,
    number: int,
    capacity: int,
    status: Option<string>,
    zone: Option<string>,
    positionX: Option<int>,
    x: Option<int>,
    positionY: Option<int>,
    y: Option<int>,
    shape: Option<string>,
    width: Option<int>,
    height: Option<int>)

  /** A table as the app uses it. */
  datatype Table = Table(
    id: string,
    restaurantId: string,
    number: int,
    capacity: int,
    status: string,
    zone: string,
    x: int,
    y: int,
    shape: string,
    width: int,
    height: int)

  /** The defaulted form of one server record: `status || 'available'`,
      `zone || 'main'`, `position_x || x || 0`, `position_y || y || 0`,
      `shape || 'round'`, `width || 60`, `height || 60`. */
  function TableOf(r: RawTable): (t: Table)
    ensures t.id == r.id && t.restaurantId == r.restaurantId && t.number == r.number && t.capacity == r.capacity
    ensures t.status == OrElse(r.status, "available") && t.zone == OrElse(r.zone, "main")
    ensures t.shape == OrElse(r.shape, "round")
    ensures t.x == (if NumTruthy(r.positionX) then r.positionX.value else NumOr(r.x, 0))
    ensures t.y == (if NumTruthy(r.positionY) then r.positionY.value else NumOr(r.y, 0))
    ensures t.width == NumOr(r.width, 60) && t.height == NumOr(r.height, 60)
  {
    Table(r.id, r.restaurantId, r.number, r.capacity,
      OrElse(r.status, "available"), OrElse(r.zone, "main"),
      NumOr(r.positionX, NumOr(r.x, 0)), NumOr(r.positionY, NumOr(r.y, 0)),
      OrElse(r.shape, "round"), NumOr(r.width, 60), NumOr(r.height, 60))
  }

  /** A table has every default applied: no empty text and no zero size. */
  predicate Normalized(t: Table)
  {
    t.status != "" && t.zone != "" && t.shape != "" && t.width != 0 && t.height != 0
  }

  /** `(response.data.data || []).map(...)`. */
  function TablesOf(data: Option<seq<RawTable>>): (ts: seq<Table>)
    ensures data.None? ==> ts == []
    ensures data.Some? ==> |ts| == |data.value| && forall k :: 0 <= k < |ts| ==> ts[k] == TableOf(data.value[k])
    ensures forall k :: 0 <= k < |ts| ==> Normalized(ts[k])
  {
    if data.None? then []
    else seq(|data.value|, k requires 0 <= k < |data.value| => TableOf(data.value[k]))
  }

  /** The server record a normalised table would come from. */
  function RawOf(t: Table): RawTable
  {
    RawTable(t.id, t.restaurantId, t.number, t.capacity, Some(t.status), Some(t.zone),
      Some(t.x), None, Some(t.y), None, Some(t.shape), Some(t.width), Some(t.height))
  }

  /** Translating the record of a normalised table gives it back, so applying the
      defaults twice changes nothing. */
  lemma TableRoundTrip(t: Table)
    requires Normalized(t)
    ensures TableOf(RawOf(t)) == t
  {
  }

  /** A position of 0 is falsy: a table placed at `position_x` 0 takes the legacy `x`. */
  lemma ZeroPositionFallsBack(r: RawTable)
    requires r.positionX == Some(0) && r.x.Some?
    ensures TableOf(r).x == r.x.value
  {
  }
}
