/**
 * The saved-cards screen: input shaping for the card number and expiry fields,
 * the brand guess from the first digit, the add-card checks and the record it
 * stores, and delete / set-default over the same keyed list as addresses.
 */
module PaymentMethods {
  import opened Values
  import opened Text
  import KeyedList

  datatype Brand = Visa | Mastercard | Amex

  /** What the add-card form holds. */
  datatype CardForm = CardForm(number: string, expiry: string, cvv: string, name: string)

  /** Every field of a stored card except `id` and `isDefault`. `expiryYear` is absent
      when the expiry text has no '/'. */
  datatype CardFields = CardFields(
    brand: Brand,
    lastFour: string,
    expiryMonth: string,
    expiryYear: Option<string>,
    cardholderName: string)

  type Card = KeyedList.Entry<CardFields>

  datatype CardError = InvalidNumber | InvalidExpiry | InvalidCvv | MissingHolder

  // ---------------------------------------------------------------- brand

  /** The first character of `s` that is not whitespace. */
  function FirstNonSpace(s: string): Option<char>
  {
    if s == [] then None
    else if IsSpace(s[0]) then FirstNonSpace(s[1..])
    else Some(s[0])
  }

  lemma {:induction false} FirstOfRemoveSpaces(s: string)
    ensures RemoveSpaces(s) == [] <==> FirstNonSpace(s).None?
    ensures RemoveSpaces(s) != [] ==> FirstNonSpace(s) == Some(RemoveSpaces(s)[0])
  {
    if s != [] {
      FirstOfRemoveSpaces(s[1..]);
    }
  }

  /** The issuer rule on a leading character: 4 is Visa, 5 or 2 Mastercard, 3 Amex,
      and anything else, or nothing at all, Visa. */
  function BrandOfLead(c: Option<char>): Brand
  {
    match c
    case Some('5') => Mastercard
    case Some('2') => Mastercard
    case Some('3') => Amex
    case _ => Visa
  }

  /** `detectCardType`: the whitespace is dropped and the first character decides. */
  function DetectBrand(number: string): (b: Brand)
    ensures b == BrandOfLead(FirstNonSpace(number))
  {
    FirstOfRemoveSpaces(number);
    var cleaned := RemoveSpaces(number);
    if |cleaned| > 0 && cleaned[0] == '4' then Visa
    else if |cleaned| > 0 && (cleaned[0] == '5' || cleaned[0] == '2') then Mastercard
    else if |cleaned| > 0 && cleaned[0] == '3' then Amex
    else Visa
  }

  // ---------------------------------------------------------------- number field

  /** `match(/.{1,4}/g).join(' ')` on a string of digits. */
  function Group4(d: string): string
    decreases |d|
  {
    if |d| <= 4 then d else d[..4] + " " + Group4(d[4..])
  }

  /** `formatCardNumber`: an empty digit string matches nothing and is returned as is. */
  function FormatCardNumber(text: string): string
  {
    Group4(OnlyDigits(text))
  }

  /** The grouping of a string of digits: a space exactly at every fifth position, never
      at the end, so every group has four digits except the last, which has one to four;
      and dropping the spaces gives the digits back. */
  lemma Group4Shape(d: string)
    requires AllDigits(d)
    ensures var r := Group4(d);
      (forall i :: 0 <= i < |r| ==> (r[i] == ' ' <==> i % 5 == 4))
      && (forall i :: 0 <= i < |r| && r[i] != ' ' ==> IsDigit(r[i]))
      && (r != [] ==> r[|r| - 1] != ' ')
      && (d != [] ==> |r| == |d| + (|d| - 1) / 4)
      && OnlyDigits(r) == d
  {
    Group4Layout(d);
    Group4Digits(d);
  }

  lemma {:induction false} Group4Layout(d: string)
    requires AllDigits(d)
    ensures var r := Group4(d);
      (forall i :: 0 <= i < |r| ==> (r[i] == ' ' <==> i % 5 == 4))
      && (forall i :: 0 <= i < |r| && r[i] != ' ' ==> IsDigit(r[i]))
      && (r != [] ==> r[|r| - 1] != ' ')
      && (d != [] ==> |r| == |d| + (|d| - 1) / 4)
    decreases |d|
  {
    var r := Group4(d);
    if |d| > 4 {
      var rest := Group4(d[4..]);
      Group4Layout(d[4..]);
      assert r == d[..4] + " " + rest;
      forall i | 0 <= i < |r| ensures (r[i] == ' ' <==> i % 5 == 4) {
        if i >= 5 {
          assert r[i] == rest[i - 5];
          assert (i - 5) % 5 == i % 5;
        }
      }
    }
  }

  lemma {:induction false} Group4Digits(d: string)
    requires AllDigits(d)
    ensures OnlyDigits(Group4(d)) == d
    decreases |d|
  {
    if |d| > 4 {
      var rest := Group4(d[4..]);
      Group4Digits(d[4..]);
      assert Group4(d) == d[..4] + " " + rest;
      OnlyDigitsConcat(d[..4] + " ", rest);
      OnlyDigitsConcat(d[..4], " ");
      assert AllDigits(d[..4]);
      assert OnlyDigits(" ") == "";
      assert d == d[..4] + d[4..];
    }
  }

  lemma FormatCardNumberShape(text: string)
    ensures var r := FormatCardNumber(text);
      (forall i :: 0 <= i < |r| ==> (r[i] == ' ' <==> i % 5 == 4))
      && (forall i :: 0 <= i < |r| && r[i] != ' ' ==> IsDigit(r[i]))
      && (r != [] ==> r[|r| - 1] != ' ')
      && OnlyDigits(r) == OnlyDigits(text)
  {
    Group4Shape(OnlyDigits(text));
  }

  /** Typing into a field that already shows a formatted number changes nothing. */
  lemma FormatCardNumberIdempotent(text: string)
    ensures FormatCardNumber(FormatCardNumber(text)) == FormatCardNumber(text)
  {
    Group4Shape(OnlyDigits(text));
  }

  /** The card number that the add check reads back from the field is the digits typed. */
  lemma FormattedNumberCleans(text: string)
    ensures RemoveSpaces(FormatCardNumber(text)) == OnlyDigits(text)
  {
    var r := FormatCardNumber(text);
    FormatCardNumberShape(text);
    SpacesAndDigits(r);
  }

  lemma {:induction false} SpacesAndDigits(r: string)
    requires forall i :: 0 <= i < |r| && r[i] != ' ' ==> IsDigit(r[i])
    ensures RemoveSpaces(r) == OnlyDigits(r)
  {
    if r != [] {
      SpacesAndDigits(r[1..]);
    }
  }

  // ---------------------------------------------------------------- expiry field

  /** `formatExpiry`: fewer than two digits stay as they are; otherwise two digits, '/',
      and up to two more. */
  function FormatExpiry(text: string): (r: string)
    ensures |r| <= 5
  {
    var c := OnlyDigits(text);
    if |c| >= 2 then c[..2] + "/" + c[2..if |c| < 4 then |c| else 4] else c
  }

  lemma FormatExpiryShape(text: string)
    ensures var c := OnlyDigits(text); var r := FormatExpiry(text);
      (|c| < 2 ==> r == c)
      && (|c| >= 2 ==> |r| >= 3 && r[..2] == c[..2] && r[2] == '/' && r[3..] == Prefix(c[2..], 2))
  {
  }

  /** The digits of a formatted expiry are the first four digits typed. */
  lemma ExpiryDigits(text: string)
    ensures OnlyDigits(FormatExpiry(text)) == Prefix(OnlyDigits(text), 4)
  {
    var c := OnlyDigits(text);
    if |c| >= 2 {
      var d := c[..2];
      var tail := c[2..if |c| < 4 then |c| else 4];
      assert OnlyDigits(d) == d && OnlyDigits(tail) == tail;
      assert OnlyDigits("/") == [];
      assert FormatExpiry(text) == (d + "/") + tail;
      OnlyDigitsConcat(d + "/", tail);
      OnlyDigitsConcat(d, "/");
      assert d + tail == Prefix(c, 4);
    }
  }

  lemma FormatExpiryIdempotent(text: string)
    ensures FormatExpiry(FormatExpiry(text)) == FormatExpiry(text)
  {
    ExpiryDigits(text);
    var c := OnlyDigits(text);
    var c2 := OnlyDigits(FormatExpiry(text));
    if |c| >= 2 {
      assert c2[..2] == c[..2];
      assert c2[2..if |c2| < 4 then |c2| else 4] == c[2..if |c| < 4 then |c| else 4];
    }
  }

  // ---------------------------------------------------------------- add card

  /** `handleAddCard`'s checks in their order; the first that fails names the error. */
  function ValidateCard(form: CardForm): (e: Option<CardError>)
    ensures e == Some(InvalidNumber) <==> |RemoveSpaces(form.number)| < 15
    ensures e == Some(InvalidExpiry) <==> |RemoveSpaces(form.number)| >= 15 && |form.expiry| < 5
    ensures e == Some(InvalidCvv) <==>
      |RemoveSpaces(form.number)| >= 15 && |form.expiry| >= 5 && |form.cvv| < 3
    ensures e == Some(MissingHolder) <==>
      |RemoveSpaces(form.number)| >= 15 && |form.expiry| >= 5 && |form.cvv| >= 3 && IsBlank(form.name)
    ensures e == None <==>
      |RemoveSpaces(form.number)| >= 15 && |form.expiry| >= 5 && |form.cvv| >= 3 && !IsBlank(form.name)
  {
    var cleaned := RemoveSpaces(form.number);
    if |cleaned| < 15 then Some(InvalidNumber)
    else if |form.expiry| < 5 then Some(InvalidExpiry)
    else if |form.cvv| < 3 then Some(InvalidCvv)
    else if IsBlank(form.name) then Some(MissingHolder)
    else None
  }

  /** `s.slice(-4)`. */
  function LastFour(s: string): (r: string)
    ensures |r| == if |s| < 4 then |s| else 4
    ensures r == s[|s| - |r|..]
  {
    if |s| < 4 then s else s[|s| - 4..]
  }

  /** The record `handleAddCard` builds from the form. */
  function CardFieldsOf(form: CardForm): CardFields
  {
    var cleaned := RemoveSpaces(form.number);
    var parts := Split(form.expiry, '/');
    CardFields(
      DetectBrand(cleaned),
      LastFour(cleaned),
      parts[0],
      if |parts| > 1 then Some(parts[1]) else None,
      Trim(form.name))
  }

  /** A card that passes the checks is stored with only the last four digits of its
      number, the trimmed holder name, and the brand of its number. */
  lemma NewCardFields(form: CardForm)
    requires ValidateCard(form).None?
    ensures var f := CardFieldsOf(form); var cleaned := RemoveSpaces(form.number);
      |f.lastFour| == 4 && f.lastFour == cleaned[|cleaned| - 4..]
      && f.cardholderName == Trim(form.name) && f.cardholderName != ""
      && f.brand == DetectBrand(form.number)
  {
    var cleaned := RemoveSpaces(form.number);
    var f := CardFieldsOf(form);
    assert f.brand == DetectBrand(cleaned) && f.lastFour == LastFour(cleaned) && f.cardholderName == Trim(form.name);
    BrandOfCleaned(form.number);
  }

  /** The brand of a number does not change when its whitespace is removed first. */
  lemma BrandOfCleaned(number: string)
    ensures DetectBrand(RemoveSpaces(number)) == DetectBrand(number)
  {
    var cleaned := RemoveSpaces(number);
    assert RemoveSpaces(cleaned) == cleaned;
    FirstOfRemoveSpaces(number);
    FirstOfRemoveSpaces(cleaned);
  }

  /** A form filled through the formatters (expiry "MM/YY") splits into month and year. */
  lemma FormattedExpirySplits(text: string)
    requires |FormatExpiry(text)| == 5
    ensures var parts := Split(FormatExpiry(text), '/');
      |parts| == 2 && parts[0] == OnlyDigits(text)[..2] && parts[1] == OnlyDigits(text)[2..4]
  {
    var c := OnlyDigits(text);
    var r := FormatExpiry(text);
    assert r == c[..2] + "/" + c[2..4];
    assert IndexOfChar(r, '/') == Some(2) by {
      assert r[0] != '/' && r[1] != '/';
      assert r[..2] == c[..2];
    }
    var rest := r[3..];
    assert rest == c[2..4];
    assert IndexOfChar(rest, '/') == None;
  }

  /** The list `handleAddCard` stores: unchanged on a failed check, otherwise the new
      card appended, default iff the list was empty. */
  function AddedCards(s: seq<Card>, form: CardForm, newId: string): (r: seq<Card>)
    ensures ValidateCard(form).Some? ==> r == s
    ensures ValidateCard(form).None? ==> r == KeyedList.Appended(s, newId, CardFieldsOf(form))
  {
    if ValidateCard(form).Some? then s else KeyedList.Appended(s, newId, CardFieldsOf(form))
  }

  /** `handleAddCard`; `newId` stands for `Date.now().toString()`. */
  method HandleAddCard(wallet: KeyedList.DefaultList<CardFields>, form: CardForm, newId: string)
    returns (error: Option<CardError>)
    modifies wallet
    ensures error == ValidateCard(form)
    ensures wallet.Contents() == AddedCards(old(wallet.Contents()), form, newId)
  {
    error := ValidateCard(form);
    if error.None? {
      wallet.Add(newId, CardFieldsOf(form));
    }
  }

  /** `handleDeleteCard` once confirmed. */
  method HandleDeleteCard(wallet: KeyedList.DefaultList<CardFields>, id: string)
    modifies wallet
    ensures wallet.Contents() == KeyedList.AfterDelete(old(wallet.Contents()), id)
  {
    wallet.Delete(id);
  }

  /** `handleSetDefault`. */
  method HandleSetDefault(wallet: KeyedList.DefaultList<CardFields>, id: string)
    modifies wallet
    ensures wallet.Contents() == KeyedList.WithDefault(old(wallet.Contents()), id)
  {
    wallet.SetDefault(id);
  }

  /** `cvv` field: `t.replace(/\D/g, '')`. */
  function CvvInput(t: string): (r: string)
    ensures AllDigits(r) && (AllDigits(t) ==> r == t)
    ensures forall c :: IsDigit(c) ==> multiset(r)[c] == multiset(t)[c]
  {
    OnlyDigitsKeepsDigits(t);
    OnlyDigits(t)
  }
}
