/**
 * The password-reset screen: the e-mail check, the request it sends, and how the
 * server's answer moves the screen between its three steps. An address the server
 * does not know is shown exactly like a sent link, so the screen does not reveal
 * which addresses have accounts.
 *
 * The server's answer is a parameter (`Reply`): either a response body, or a
 * rejected request with its HTTP status and message.
 */
module ForgotPassword {
  import opened Values
  import opened Text

  // ---------------------------------------------------------------- e-mail check

  /** A character of the class `[^\s@]`. */
  predicate Plain(c: char) { !IsSpace(c) && c != '@' }

  predicate AllPlain(s: string) { forall k :: 0 <= k < |s| ==> Plain(s[k]) }

  /** `e` matches `^[^\s@]+@[^\s@]+\.[^\s@]+$` with its '@' at `i` and the '.' that
      the pattern's `\.` matches at `j`. */
  predicate ShapeAt(e: string, i: int, j: int)
  {
    0 < i && i + 1 < j && j + 1 < |e| && e[i] == '@' && e[j] == '.'
    && AllPlain(e[..i]) && AllPlain(e[i + 1..])
  }

  /** `isValidEmail`: one '@' with plain text before it, and after it plain text with a
      '.' that is neither its first nor its last character. */
  function IsValidEmail(e: string): (b: bool)
    ensures b <==> exists i, j :: ShapeAt(e, i, j)
  {
    match IndexOfChar(e, '@')
    case None =>
      NoShapeWithoutAt(e);
      false
    case Some(i) =>
      var d := e[i + 1..];
      if i == 0 || !AllPlain(e[..i]) || !AllPlain(d) || |d| < 2 then
        NoShapeOtherAt(e, i);
        false
      else
        match IndexOfChar(d[1..], '.')
        case None =>
          NoShapeOtherAt(e, i);
          NoInnerDot(e, i, None);
          false
        case Some(p) =>
          NoShapeOtherAt(e, i);
          if p + 2 < |d| then
            assert e[i + 2 + p] == d[1..][p];
            assert ShapeAt(e, i, i + 2 + p);
            true
          else
            NoInnerDot(e, i, Some(p));
            false
  }

  lemma NoShapeWithoutAt(e: string)
    requires '@' !in e
    ensures forall i, j :: !ShapeAt(e, i, j)
  {
  }

  /** Every match has its '@' at the first '@' of the string. */
  lemma NoShapeOtherAt(e: string, i: nat)
    requires i < |e| && e[i] == '@' && '@' !in e[..i]
    ensures forall i', j :: ShapeAt(e, i', j) ==> i' == i
  {

  }

  /** Without a '.' strictly inside the domain there is no match at that '@'. */
  lemma NoInnerDot(e: string, i: nat, first: Option<nat>)
    requires i + 2 <= |e|
    requires first == IndexOfChar(e[i + 2..], '.')
    requires first.None? || i + 2 + first.value + 1 >= |e|
    ensures forall j :: !ShapeAt(e, i, j)
  {

  }

  /** A valid address has no whitespace and exactly one '@', neither first nor last. */
  lemma ValidEmailShape(e: string)
    requires IsValidEmail(e)
    ensures NoSpace(e)
    ensures exists i :: 0 < i < |e| - 1 && e[i] == '@' && forall k :: 0 <= k < |e| && e[k] == '@' ==> k == i
  {
    var i, j :| ShapeAt(e, i, j);
    forall k | 0 <= k < |e| ensures !IsSpace(e[k]) && (e[k] == '@' ==> k == i) {
      if k < i {
        assert e[k] == e[..i][k];
      } else if k > i {
        assert e[k] == e[i + 1..][k - i - 1];
      }
    }
  }

  lemma LowerPlain(s: string)
    requires AllPlain(s)
    ensures AllPlain(Lower(s))
  {
  }

  lemma LowerShape(e: string, i: int, j: int)
    requires ShapeAt(e, i, j)
    ensures ShapeAt(Lower(e), i, j)
  {
    var l := Lower(e);
    assert l[..i] == Lower(e[..i]);
    assert l[i + 1..] == Lower(e[i + 1..]);
    LowerPlain(e[..i]);
    LowerPlain(e[i + 1..]);
  }

  /** The address that is sent, trimmed and lower-cased, is the typed one with its
      ASCII letters lower-cased, and is itself valid. */
  lemma SentEmailValid(e: string)
    requires IsValidEmail(e)
    ensures Trim(e) == e
    ensures IsValidEmail(Lower(Trim(e)))
  {
    var i, j :| ShapeAt(e, i, j);
    ValidEmailShape(e);
    NoSpaceTrim(e);
    LowerShape(e, i, j);
    assert IsValidEmail(Lower(e));
  }

  lemma ValidExample()
    ensures IsValidEmail("ana@sittara.mx")
  {
    var e := "ana@sittara.mx";
    assert e[..3] == "ana" && e[4..] == "sittara.mx";
    assert ShapeAt(e, 3, 11);
  }

  /** An address without a '.' is refused, whatever else it holds. */
  lemma NoDotRefused(e: string)
    requires '.' !in e
    ensures !IsValidEmail(e)
  {
  }

  lemma MissingDotExample()
    ensures !IsValidEmail("ana@sittara")
  {
    var e := "ana@sittara";
    assert '.' !in e;
    NoDotRefused(e);
  }

  // ---------------------------------------------------------------- the flow

  /** The screen's `step`: `'email'`, `'sent'` or `'error'`. */
  datatype Step = EnterEmail | LinkSent | ShowingError

  /** The server's answer to the request. */
  datatype Reply =
    | Answered(success: bool, error: Option<string>)
    | Rejected(status: Option<int>, message: Option<string>)

  /** What the screen does with an answer. */
  datatype Outcome = ShowSent | ShowError(message: string)

  /** The `catch` block: a 404 is shown as sent, anything else as an error with the
      error's message or a generic one. */
  function Caught(status: Option<int>, message: Option<string>): (o: Outcome)
    ensures o.ShowError? ==> o.message != ""
  {
    if status == Some(404) then ShowSent
    else ShowError(OrElse(message, "No pudimos procesar tu solicitud"))
  }

  /** The `try` block and its `catch`: an unsuccessful body is thrown as an error whose
      message is the body's error or "Error al enviar", with no status. */
  function Resolve(r: Reply): (o: Outcome)
    ensures o.ShowError? ==> o.message != ""
    ensures o == ShowSent <==> (r.Answered? && r.success) || (r.Rejected? && r.status == Some(404))
  {
    match r
    case Answered(ok, err) => if ok then ShowSent else Caught(None, Some(OrElse(err, "Error al enviar")))
    case Rejected(status, msg) => Caught(status, msg)
  }

  /** An unknown address looks exactly like a sent link. */
  lemma NotFoundLooksSent(message: Option<string>, error: Option<string>)
    ensures Resolve(Rejected(Some(404), message)) == Resolve(Answered(true, error))
  {
  }

  /** An unsuccessful body is never shown with the generic message, and its own error
      text is shown when it has one. */
  lemma RefusedBodyMessage(error: Option<string>)
    ensures Resolve(Answered(false, error)) == ShowError(if Truthy(error) then error.value else "Error al enviar")
  {
  }

  /** The screen's state. */
  class ResetFlow {
    var step: Step
    var errorMessage: string
    var isLoading: bool

    constructor ()
      ensures step == EnterEmail && errorMessage == "" && !isLoading
    {
      step := EnterEmail;
      errorMessage := "";
      isLoading := false;
    }

    /** `handleSendResetLink`. It returns the address put in the request body, or `None`
        when no request is made; an invalid address leaves the screen as it was. */
    method SendResetLink(email: string, reply: Reply) returns (request: Option<string>)
      modifies this
      ensures !IsValidEmail(email) ==>
        request == None && step == old(step) && errorMessage == old(errorMessage) && isLoading == old(isLoading)
      ensures IsValidEmail(email) ==> request == Some(Lower(Trim(email))) && !isLoading
      ensures IsValidEmail(email) && Resolve(reply) == ShowSent ==>
        step == LinkSent && errorMessage == old(errorMessage)
      ensures IsValidEmail(email) && Resolve(reply).ShowError? ==>
        step == ShowingError && errorMessage == Resolve(reply).message && errorMessage != ""
    {
      var valid := IsValidEmail(email);
      if !valid {
        return None;
      }
      isLoading := true;
      request := Some(Lower(Trim(email)));
      var outcome := Resolve(reply);
      match outcome {
        case ShowSent =>
          step := LinkSent;
        case ShowError(m) =>
          errorMessage := m;
          step := ShowingError;
      }
      isLoading := false;
    }

    /** `handleTryAgain`. */
    method TryAgain()
      modifies this
      ensures step == EnterEmail && errorMessage == "" && isLoading == old(isLoading)
    {
      step := EnterEmail;
      errorMessage := "";
    }
  }
}
