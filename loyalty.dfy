/**
 * The rewards screen: ten points per completed reservation, a visit history built
 * from the same reservations, the member level the points reach, and which perks
 * that level unlocks.
 */
module Loyalty {
  import opened Values

  /** The fields of a reservation of `GET /reservations/my` that the screen reads;
      `restaurantName` is `restaurants?.name`. */
  datatype Reservation = Reservation(id: string, status: string, date: string, restaurantName: Option<string>)

  /** One line of the visit history. */
  datatype Visit = Visit(id: string, title: string, points: nat, date: string, restaurant: string)

  const PointsPerVisit: nat := 10

  /** `reservations.filter(r => r.status === 'completed')`. */
  function Completed(rs: seq<Reservation>): (c: seq<Reservation>)
    ensures |c| <= |rs|
    ensures forall k :: 0 <= k < |c| ==> c[k].status == "completed" && c[k] in rs
    ensures forall r :: r in rs && r.status == "completed" ==> r in c
  {
    if rs == [] then []
    else (if rs[0].status == "completed" then [rs[0]] else []) + Completed(rs[1..])
  }

  lemma {:induction false} CompletedConcat(a: seq<Reservation>, b: seq<Reservation>)
    ensures Completed(a + b) == Completed(a) + Completed(b)
  {
    if a == [] {
      assert a + b == b;
    } else {
      assert (a + b)[1..] == a[1..] + b;
      CompletedConcat(a[1..], b);
    }
  }

  /** `completed.length * 10`. */
  function Points(rs: seq<Reservation>): nat
  {
    |Completed(rs)| * PointsPerVisit
  }

  /** Points add up over a list split in two, and a new reservation adds ten points when
      it is completed and none otherwise. */
  lemma PointsGrow(rs: seq<Reservation>, r: Reservation)
    ensures Points(rs + [r]) == Points(rs) + (if r.status == "completed" then PointsPerVisit else 0)
  {
    CompletedConcat(rs, [r]);
    assert Completed([r]) == if r.status == "completed" then [r] else [];
  }

  /** The history: one visit of ten points per completed reservation, in order. */
  function History(rs: seq<Reservation>): (h: seq<Visit>)
    ensures |h| == |Completed(rs)|
    ensures forall k :: 0 <= k < |h| ==>
      var r := Completed(rs)[k];
      h[k] == Visit(r.id, "Visita Completada", PointsPerVisit, r.date, OrElse(r.restaurantName, "Restaurante"))
  {
    var c := Completed(rs);
    seq(|c|, k requires 0 <= k < |c| =>
      Visit(c[k].id, "Visita Completada", PointsPerVisit, c[k].date, OrElse(c[k].restaurantName, "Restaurante")))
  }

  function SumPoints(h: seq<Visit>): nat
  {
    if h == [] then 0 else h[0].points + SumPoints(h[1..])
  }

  lemma {:induction false} SumOfTens(h: seq<Visit>)
    requires forall k :: 0 <= k < |h| ==> h[k].points == PointsPerVisit
    ensures SumPoints(h) == |h| * PointsPerVisit
  {
    if h != [] {
      SumOfTens(h[1..]);
    }
  }

  /** The history's points add up to the points shown. */
  lemma HistoryMatchesPoints(rs: seq<Reservation>)
    ensures SumPoints(History(rs)) == Points(rs)
  {
    SumOfTens(History(rs));
  }

  // ---------------------------------------------------------------- levels

  datatype Level = FoodieActivo | GourmetPro | PlatinumVip

  function LevelName(l: Level): string
  {
    match l
    case FoodieActivo => "Foodie Activo"
    case GourmetPro => "Gourmet Pro"
    case PlatinumVip => "Platinum VIP"
  }

  function Rank(l: Level): nat
  {
    match l
    case FoodieActivo => 0
    case GourmetPro => 1
    case PlatinumVip => 2
  }

  /** `currentLevel`: 100 points or more is Platinum VIP, 50 or more Gourmet Pro. */
  function CurrentLevel(points: nat): (l: Level)
    ensures l == PlatinumVip <==> points >= 100
    ensures l == GourmetPro <==> 50 <= points < 100
    ensures l == FoodieActivo <==> points < 50
  {
    if points >= 100 then PlatinumVip else if points >= 50 then GourmetPro else FoodieActivo
  }

  /** More points never lower the level. */
  lemma LevelMonotone(p: nat, q: nat)
    requires p <= q
    ensures Rank(CurrentLevel(p)) <= Rank(CurrentLevel(q))
  {
  }

  /** A perk of the rewards list. */
  datatype Perk = Perk(id: string, title: string, level: string)

  const Perks: seq<Perk> := [
    Perk("priority", "Prioridad en Reservas", "Gourmet Pro"),
    Perk("drinks", "Bebida de Bienvenida", "Platinum VIP"),
    Perk("points_x2", "Multiplicador x2", "Foodie Activo")
  ]

  /** The points a perk's level needs: its level name decides, and any other name needs
      none. */
  function Threshold(levelName: string): (t: nat)
    ensures t == 100 <==> levelName == "Platinum VIP"
    ensures t == 50 <==> levelName == "Gourmet Pro"
    ensures t == 0 <==> levelName != "Platinum VIP" && levelName != "Gourmet Pro"
  {
    if levelName == "Platinum VIP" then 100 else if levelName == "Gourmet Pro" then 50 else 0
  }

  predicate IsUnlocked(points: nat, p: Perk)
  {
    points >= Threshold(p.level)
  }

  /** A perk of a level is unlocked exactly when the current level is at least that
      level: the badge and the perk list agree. */
  lemma UnlockedIffLevelReached(points: nat, l: Level, p: Perk)
    requires p.level == LevelName(l)
    ensures IsUnlocked(points, p) <==> Rank(CurrentLevel(points)) >= Rank(l)
  {
  }

  /** More points never lock a perk that fewer points unlocked. */
  lemma UnlockMonotone(p: nat, q: nat, perk: Perk)
    requires p <= q && IsUnlocked(p, perk)
    ensures IsUnlocked(q, perk)
  {
  }

  /** The perk of the lowest level is always unlocked, and all three are unlocked from
      100 points on. */
  lemma PerkExtremes(points: nat)
    ensures IsUnlocked(points, Perks[2])
    ensures points >= 100 ==> forall k :: 0 <= k < |Perks| ==> IsUnlocked(points, Perks[k])
  {
  }

  /** The screen's state. */
  class LoyaltyScreen {
    var points: nat
    var loading: bool
    var history: seq<Visit>

    constructor ()
      ensures points == 0 && loading && history == []
    {
      points := 0;
      loading := true;
      history := [];
    }

    /** `loadLoyaltyData`: a successful answer sets points and history; a failed one, or
        an error, leaves them; loading ends either way. */
    method Load(success: bool, reservations: seq<Reservation>)
      modifies this
      ensures !loading
      ensures success ==> points == Points(reservations) && history == History(reservations)
      ensures !success ==> points == old(points) && history == old(history)
    {
      loading := true;
      if success {
        points := Points(reservations);
        history := History(reservations);
      }
      loading := false;
    }
  }
}
