/**
 * The review screen: an overall rating and four optional category ratings of one to
 * five stars, a comment, the submit guard, the request it builds, and how a failed
 * submission is reported.
 */
module RateReview {
  import opened Values
  import opened Text

  datatype Category = Overall | Food | Service | Ambiance | Value

  /** The body of `createReview`: a category left at zero stars is omitted. */
  datatype ReviewRequest = ReviewRequest(
    restaurantId: string,
    reservationId: string,
    rating: nat,
    foodRating: Option<nat>,
    serviceRating: Option<nat>,
    ambianceRating: Option<nat>,
    valueRating: Option<nat>,
    comment: string)

  /** What `handleSubmit` does: an alert for missing ids, an alert for no overall
      rating, or a request. */
  datatype Submission = MissingIds | MissingRating | Send(request: ReviewRequest)

  /** `v > 0 ? v : undefined`. */
  function Given(v: nat): (r: Option<nat>)
    ensures r.None? <==> v == 0
    ensures r.Some? ==> r.value == v
  {
    if v > 0 then Some(v) else None
  }

  /** A star of a row is drawn filled when its number is at most the row's value. */
  predicate StarFilled(star: nat, value: nat)
  {
    star <= value
  }

  /** How many of the stars `1..n` are filled. */
  function FilledStars(n: nat, value: nat): nat
  {
    if n == 0 then 0 else FilledStars(n - 1, value) + (if StarFilled(n, value) then 1 else 0)
  }

  /** A row of five stars shows exactly its value, filled from the left. */
  lemma {:induction false} FilledStarsCount(n: nat, value: nat)
    ensures FilledStars(n, value) == if value < n then value else n
  {
    if n > 0 {
      FilledStarsCount(n - 1, value);
    }
  }

  /** The screen's state. */
  class ReviewForm {
    var rating: nat
    var foodRating: nat
    var serviceRating: nat
    var ambianceRating: nat
    var valueRating: nat
    var comment: string

    /** Every rating is between zero (nothing chosen) and five stars. */
    predicate Valid()
      reads this
    {
      rating <= 5 && foodRating <= 5 && serviceRating <= 5 && ambianceRating <= 5 && valueRating <= 5
    }

    constructor ()
      ensures Valid()
      ensures rating == 0 && foodRating == 0 && serviceRating == 0 && ambianceRating == 0 && valueRating == 0
      ensures comment == ""
    {
      rating, foodRating, serviceRating, ambianceRating, valueRating := 0, 0, 0, 0, 0;
      comment := "";
    }

    function RatingOf(c: Category): (v: nat)
      reads this
      ensures Valid() ==> v <= 5
    {
      match c
      case Overall => rating
      case Food => foodRating
      case Service => serviceRating
      case Ambiance => ambianceRating
      case Value => valueRating
    }

    /** Pressing star `star` of a row sets that row to `star` and leaves the others. */
    method PressStar(c: Category, star: nat)
      requires Valid() && 1 <= star <= 5
      modifies this
      ensures Valid()
      ensures RatingOf(c) == star
      ensures forall d :: d != c ==> RatingOf(d) == old(RatingOf(d))
      ensures comment == old(comment)
    {
      match c {
        case Overall => rating := star;
        case Food => foodRating := star;
        case Service => serviceRating := star;
        case Ambiance => ambianceRating := star;
        case Value => valueRating := star;
      }
    }

    /** `onChangeText` of the comment field. */
    method SetComment(text: string)
      modifies this
      ensures comment == text
      ensures forall d :: RatingOf(d) == old(RatingOf(d))
    {
      comment := text;
    }

    /** `disabled={isPending || rating === 0}`. */
    predicate SubmitDisabled(isPending: bool)
      reads this
    {
      isPending || rating == 0
    }

    /** `handleSubmit`: the route parameters are checked first, then the overall rating. */
    function Submit(restaurantId: Option<string>, reservationId: Option<string>): (s: Submission)
      reads this
      ensures s == MissingIds <==> !Truthy(restaurantId) || !Truthy(reservationId)
      ensures s == MissingRating <==> Truthy(restaurantId) && Truthy(reservationId) && rating == 0
      ensures s.Send? ==> s.request.restaurantId == restaurantId.value && s.request.reservationId == reservationId.value
      ensures s.Send? ==> s.request.rating == rating && rating > 0 && s.request.comment == comment
      ensures s.Send? ==>
        Given(foodRating) == s.request.foodRating && Given(serviceRating) == s.request.serviceRating
        && Given(ambianceRating) == s.request.ambianceRating && Given(valueRating) == s.request.valueRating
    {
      if !Truthy(restaurantId) || !Truthy(reservationId) then MissingIds
      else if rating == 0 then MissingRating
      else Send(ReviewRequest(restaurantId.value, reservationId.value, rating,
        Given(foodRating), Given(serviceRating), Given(ambianceRating), Given(valueRating), comment))
    }

    /** An enabled button with the route parameters present always sends, and what it
        sends is an overall rating of one to five stars. */
    lemma EnabledSubmitSends(restaurantId: Option<string>, reservationId: Option<string>)
      requires Valid() && !SubmitDisabled(false) && Truthy(restaurantId) && Truthy(reservationId)
      ensures Submit(restaurantId, reservationId).Send?
      ensures 1 <= Submit(restaurantId, reservationId).request.rating <= 5
    {
    }
  }

  /** How the screen answers a failed submission. */
  datatype ErrorAlert = AlreadyRated | ShowError(text: string)

  /** `onError`: the message, or a default, decides between "already rated" and an
      error alert that shows it. */
  function OnError(message: Option<string>): (a: ErrorAlert)
    ensures var text := OrElse(message, "Error al enviar la reseña");
      (a == AlreadyRated <==> Contains(text, "Ya has calificado") || Contains(text, "duplicate"))
      && (a.ShowError? ==> a.text == text)
  {
    var text := OrElse(message, "Error al enviar la reseña");
    if Contains(text, "Ya has calificado") || Contains(text, "duplicate") then AlreadyRated
    else ShowError(text)
  }

  /** A server message that repeats the duplicate marker anywhere is taken as "already
      rated", whatever surrounds it. */
  lemma DuplicateAnywhere(prefix: string, suffix: string)
    ensures OnError(Some(prefix + "duplicate" + suffix)) == AlreadyRated
  {
    var m := prefix + "duplicate" + suffix;
    assert OccursAt(m, "duplicate", |prefix|) by {
      assert m[|prefix|..|prefix| + 9] == "duplicate";
    }
    ContainsIff(m, "duplicate");
  }

  /** Without a message the default text is shown as an error. */
  lemma NoMessageDefault()
    ensures OnError(None) == ShowError("Error al enviar la reseña")
  {
    var t := "Error al enviar la reseña";
    assert "duplicate"[0] == 'd' && 'd' !in t;
    assert "Ya has calificado"[0] == 'Y' && 'Y' !in t;
    MissingCharNotContained(t, "duplicate", 0);
    MissingCharNotContained(t, "Ya has calificado", 0);
  }
}
