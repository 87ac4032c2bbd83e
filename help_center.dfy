/**
 * The help centre: a fixed list of questions and answers, filtered by a category
 * chip and a case-insensitive search, with at most one answer expanded.
 */
module HelpCenter {
  import opened Values
  import opened Text

  datatype FaqItem = FaqItem(category: string, question: string, answer: string)

  const FaqData: seq<FaqItem> := [
    FaqItem("Reservaciones", "¿Cómo hago una reservación?",
      "Para hacer una reservación, busca el restaurante de tu preferencia, selecciona la fecha, hora y número de personas, elige tu mesa y confirma. ¡Es muy fácil!"),
    FaqItem("Reservaciones", "¿Puedo cancelar mi reservación?",
      "Sí, puedes cancelar tu reservación desde la sección \"Mis Reservas\". Te recomendamos hacerlo con al menos 2 horas de anticipación para evitar cargos."),
    FaqItem("Reservaciones", "¿Qué pasa si llego tarde?",
      "Los restaurantes mantienen tu mesa por 15 minutos después de la hora reservada. Si vas a retrasarte, te recomendamos contactar al restaurante."),
    FaqItem("Pagos", "¿Cómo funciona el depósito?",
      "Algunos restaurantes solicitan un depósito al reservar, que se descuenta de tu cuenta final. Si cancelas a tiempo, el depósito se reembolsa automáticamente."),
    FaqItem("Pagos", "¿Qué métodos de pago aceptan?",
      "Aceptamos Visa, Mastercard y American Express. Puedes agregar y gestionar tus tarjetas desde tu perfil."),
    FaqItem("Cuenta", "¿Cómo cambio mi contraseña?",
      "Ve a Perfil > Privacidad y Seguridad > Recuperar Contraseña. Te enviaremos un enlace a tu correo para crear una nueva contraseña."),
    FaqItem("Cuenta", "¿Cómo elimino mi cuenta?",
      "Para eliminar tu cuenta, contacta a nuestro equipo de soporte. Ten en cuenta que esta acción es irreversible.")
  ]

  /** The category chips, by id; "all" shows every category. */
  const CategoryIds: seq<string> := ["all", "Reservaciones", "Pagos", "Cuenta"]

  /** Every question sits under one of the chips other than "all", so choosing the
      chips one by one reaches every question. */
  lemma EveryQuestionHasAChip(k: nat)
    requires k < |FaqData|
    ensures FaqData[k].category in CategoryIds[1..]
  {
  }

  predicate MatchesCategory(item: FaqItem, selected: string)
  {
    selected == "all" || item.category == selected
  }

  /** The lower-cased question or answer contains the lower-cased query. */
  predicate MatchesSearch(item: FaqItem, query: string)
  {
    Contains(Lower(item.question), Lower(query)) || Contains(Lower(item.answer), Lower(query))
  }

  /** The filter's test. */
  predicate Shown(item: FaqItem, selected: string, query: string)
  {
    MatchesCategory(item, selected) && (query == "" || MatchesSearch(item, query))
  }

  /** `FAQ_DATA.filter(...)`. */
  function Filtered(items: seq<FaqItem>, selected: string, query: string): (r: seq<FaqItem>)
    ensures |r| <= |items|
    ensures forall k :: 0 <= k < |r| ==> r[k] in items && Shown(r[k], selected, query)
    ensures forall it :: it in items && Shown(it, selected, query) ==> it in r
  {
    if items == [] then []
    else (if Shown(items[0], selected, query) then [items[0]] else []) + Filtered(items[1..], selected, query)
  }

  /** The filter keeps the list's order. */
  lemma {:induction false} FilteredConcat(a: seq<FaqItem>, b: seq<FaqItem>, selected: string, query: string)
    ensures Filtered(a + b, selected, query) == Filtered(a, selected, query) + Filtered(b, selected, query)
  {
    if a == [] {
      assert a + b == b;
    } else {
      assert (a + b)[1..] == a[1..] + b;
      FilteredConcat(a[1..], b, selected, query);
    }
  }

  /** The empty query matches every item anyway, so the screen's `searchQuery === ''`
      test changes nothing. */
  lemma EmptyQueryMatches(item: FaqItem)
    ensures MatchesSearch(item, "")
  {
    assert OccursAt(Lower(item.question), "", 0);
    ContainsIff(Lower(item.question), "");
  }

  /** The search ignores the case of the query's ASCII letters. */
  lemma SearchIgnoresQueryCase(item: FaqItem, query: string)
    ensures MatchesSearch(item, Lower(query)) == MatchesSearch(item, query)
  {
    LowerIdempotent(query);
  }

  /** The opening screen, "all" and no query, lists everything. */
  lemma {:induction false} AllAndEmptyShowsAll(items: seq<FaqItem>)
    ensures Filtered(items, "all", "") == items
  {
    if items != [] {
      AllAndEmptyShowsAll(items[1..]);
    }
  }

  /** A category chip never shows more items than "all" does with the same query. */
  lemma {:induction false} CategoryNarrows(items: seq<FaqItem>, selected: string, query: string)
    ensures |Filtered(items, selected, query)| <= |Filtered(items, "all", query)|
  {
    if items != [] {
      CategoryNarrows(items[1..], selected, query);
    }
  }

  /** With no query, a category chip shows exactly the items of that category. */
  lemma CategoryExact(items: seq<FaqItem>, selected: string, it: FaqItem)
    requires selected != "all"
    ensures it in Filtered(items, selected, "") <==> it in items && it.category == selected
  {
  }

  /** `setExpandedIndex(expandedIndex === index ? null : index)`. */
  function ToggleExpanded(expanded: Option<nat>, index: nat): (r: Option<nat>)
    ensures r == Some(index) <==> expanded != Some(index)
    ensures r.Some? ==> r.value == index
  {
    if expanded == Some(index) then None else Some(index)
  }

  /** A second press on the same question folds it again. */
  lemma ToggleTwice(expanded: Option<nat>, index: nat)
    requires expanded != Some(index)
    ensures ToggleExpanded(ToggleExpanded(expanded, index), index) == None
  {
  }
}
