/**
 * The saved-addresses screen: a form whose save either adds a new address or edits
 * the one being edited, delete with default promotion, and "make principal".
 */
module Addresses {
  import opened Values
  import opened Text
  import KeyedList

  datatype Label = Home | Work | OtherPlace

  /** Every field of an address except `id` and `isDefault`: exactly what the form holds
      (`kind` is the source's `label`, a reserved word in Dafny). */
  datatype AddressFields = AddressFields(
    kind: Label,
    name: string,
    street: string,
    neighborhood: string,
    city: string,
    postalCode: string,
    reference: string)

  type Address = KeyedList.Entry<AddressFields>

  /** The key a label is stored under. */
  function LabelKey(l: Label): string
  {
    match l
    case Home => "home"
    case Work => "work"
    case OtherPlace => "other"
  }

  /** The form after `resetForm`: a home address in the default city, all else empty. */
  function EmptyForm(): (f: AddressFields)
    ensures f.kind == Home && f.city == "Mérida, Yucatán"
    ensures f.name == f.street == f.neighborhood == f.postalCode == f.reference == ""
  {
    AddressFields(Home, "", "", "", "Mérida, Yucatán", "", "")
  }

  /** The save guard: name, street and neighbourhood must not be blank (the name is
      checked although the form labels it optional). */
  predicate FormComplete(f: AddressFields)
  {
    !IsBlank(f.name) && !IsBlank(f.street) && !IsBlank(f.neighborhood)
  }

  datatype SaveOutcome = Rejected | Added | Updated

  /** Which branch `handleSave` takes: an `editingId` that is null or empty adds. */
  function SaveBranch(form: AddressFields, editingId: Option<string>): (o: SaveOutcome)
    ensures o == Rejected <==> !FormComplete(form)
    ensures o == Updated <==> FormComplete(form) && Truthy(editingId)
    ensures o == Added <==> FormComplete(form) && !Truthy(editingId)
  {
    if !FormComplete(form) then Rejected
    else if Truthy(editingId) then Updated
    else Added
  }

  /** The list `handleSave` stores. */
  function Saved(s: seq<Address>, form: AddressFields, editingId: Option<string>, newId: string): (r: seq<Address>)
    ensures SaveBranch(form, editingId) == Rejected ==> r == s
    ensures SaveBranch(form, editingId) == Updated ==> r == KeyedList.Replaced(s, editingId.value, form)
    ensures SaveBranch(form, editingId) == Added ==> r == KeyedList.Appended(s, newId, form)
  {
    match SaveBranch(form, editingId)
    case Rejected => s
    case Updated => KeyedList.Replaced(s, editingId.value, form)
    case Added => KeyedList.Appended(s, newId, form)
  }

  /** A save keeps the "exactly one default once non-empty" invariant. */
  lemma SaveKeepsOneDefault(s: seq<Address>, form: AddressFields, editingId: Option<string>, newId: string)
    requires KeyedList.OneDefault(s)
    ensures KeyedList.OneDefault(Saved(s, form, editingId, newId))
  {
    match SaveBranch(form, editingId)
    case Rejected =>
    case Updated => KeyedList.ReplacedKeepsOneDefault(s, editingId.value, form);
    case Added => KeyedList.AppendedKeepsOneDefault(s, newId, form);
  }

  /** `handleSave`; `newId` stands for `Date.now().toString()`. */
  method HandleSave(book: KeyedList.DefaultList<AddressFields>, form: AddressFields,
                    editingId: Option<string>, newId: string) returns (outcome: SaveOutcome)
    modifies book
    ensures outcome == SaveBranch(form, editingId)
    ensures book.Contents() == Saved(old(book.Contents()), form, editingId, newId)
  {
    outcome := SaveBranch(form, editingId);
    match outcome
    case Rejected =>
    case Updated => book.Edit(editingId.value, form);
    case Added => book.Add(newId, form);
  }

  /** `handleDelete` once confirmed. */
  method HandleDelete(book: KeyedList.DefaultList<AddressFields>, id: string)
    modifies book
    ensures book.Contents() == KeyedList.AfterDelete(old(book.Contents()), id)
  {
    book.Delete(id);
  }

  /** `handleSetDefault`. */
  method HandleSetDefault(book: KeyedList.DefaultList<AddressFields>, id: string)
    modifies book
    ensures book.Contents() == KeyedList.WithDefault(old(book.Contents()), id)
  {
    book.SetDefault(id);
  }

  /** `handleEdit`: the form is filled with the address's own fields. */
  function FormOf(a: Address): AddressFields
  {
    a.data
  }

  /** Saving the form of an address without changing it leaves the list as it was. */
  lemma SaveUnchangedForm(s: seq<Address>, k: nat, newId: string)
    requires k < |s| && KeyedList.UniqueIds(s) && FormComplete(FormOf(s[k])) && s[k].id != ""
    ensures Saved(s, FormOf(s[k]), Some(s[k].id), newId) == s
  {
    var r := Saved(s, FormOf(s[k]), Some(s[k].id), newId);
    forall j | 0 <= j < |s| ensures r[j] == s[j] {
      if s[j].id == s[k].id {
        assert j == k;
      }
    }
  }

  /** `getLabelText`. */
  function LabelText(key: string): (t: string)
    ensures t == "Casa" <==> key == "home"
    ensures t == "Trabajo" <==> key == "work"
    ensures t == "Otro" <==> key != "home" && key != "work"
  {
    if key == "home" then "Casa"
    else if key == "work" then "Trabajo"
    else "Otro"
  }

  /** The three labels get three different texts. */
  lemma LabelTextsDistinct(a: Label, b: Label)
    requires a != b
    ensures LabelText(LabelKey(a)) != LabelText(LabelKey(b))
  {
  }

  /** The title of a card in the list: the address's name, or its label text, so a card
      is never left without a title. */
  function Title(a: Address): (t: string)
    ensures t != ""
    ensures t == a.data.name || t in {"Casa", "Trabajo", "Otro"}
    ensures a.data.name != "" ==> t == a.data.name
    ensures a.data.name == "" ==> t == LabelText(LabelKey(a.data.kind))
  {
    if a.data.name != "" then a.data.name else LabelText(LabelKey(a.data.kind))
  }
}
