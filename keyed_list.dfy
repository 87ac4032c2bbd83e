/**
 * The saved-addresses and saved-cards screens keep the same kind of list: records
 * with a string `id` and an `isDefault` flag, of which at most one (and, once the
 * list is not empty, exactly one) is the default. This module holds the rules both
 * screens apply to that list, and the list itself as an object whose array field
 * each operation replaces.
 */
module KeyedList {

  /** A saved record: its key, its default flag and the rest of its fields. */
  datatype Entry<T> = Entry(id: string, isDefault: bool, data: T)

  predicate HasId<T>(s: seq<Entry<T>>, id: string)
  {
    exists k :: 0 <= k < |s| && s[k].id == id
  }

  predicate HasDefault<T>(s: seq<Entry<T>>)
  {
    exists k :: 0 <= k < |s| && s[k].isDefault
  }

  predicate UniqueIds<T>(s: seq<Entry<T>>)
  {
    forall j, k :: 0 <= j < k < |s| ==> s[j].id != s[k].id
  }

  /** The number of entries marked default. */
  function DefaultCount<T>(s: seq<Entry<T>>): (n: nat)
    ensures n <= |s|
    ensures n == 0 <==> !HasDefault(s)
  {
    if s == [] then 0
    else (if s[0].isDefault then 1 else 0) + DefaultCount(s[1..])
  }

  /** The invariant the screens keep: a non-empty list has exactly one default,
      and the empty list has none. */
  predicate OneDefault<T>(s: seq<Entry<T>>)
  {
    DefaultCount(s) == if s == [] then 0 else 1
  }

  lemma {:induction false} DefaultCountConcat<T>(a: seq<Entry<T>>, b: seq<Entry<T>>)
    ensures DefaultCount(a + b) == DefaultCount(a) + DefaultCount(b)
  {
    if a == [] {
      assert a + b == b;
    } else {
      assert (a + b)[1..] == a[1..] + b;
      DefaultCountConcat(a[1..], b);
    }
  }

  // ---------------------------------------------------------------- add

  /** `[...list, { id, ...fields, isDefault: list.length === 0 }]`. */
  function Appended<T>(s: seq<Entry<T>>, id: string, data: T): (r: seq<Entry<T>>)
    ensures |r| == |s| + 1 && r[..|s|] == s
    ensures r[|s|].id == id && r[|s|].data == data
    ensures r[|s|].isDefault <==> s == []
  {
    s + [Entry(id, |s| == 0, data)]
  }

  lemma AppendedKeepsOneDefault<T>(s: seq<Entry<T>>, id: string, data: T)
    requires OneDefault(s)
    ensures OneDefault(Appended(s, id, data))
  {
    DefaultCountConcat(s, [Entry(id, |s| == 0, data)]);
  }

  lemma AppendedKeepsUniqueIds<T>(s: seq<Entry<T>>, id: string, data: T)
    requires UniqueIds(s) && !HasId(s, id)
    ensures UniqueIds(Appended(s, id, data))
  {
    var r := Appended(s, id, data);
    forall j, k | 0 <= j < k < |r| ensures r[j].id != r[k].id {
      if k == |s| {
        assert s[j].id != id;
      }
    }
  }

  // ---------------------------------------------------------------- edit

  /** `list.map(a => a.id === id ? { ...a, ...fields } : a)`. */
  function Replaced<T>(s: seq<Entry<T>>, id: string, data: T): (r: seq<Entry<T>>)
    ensures |r| == |s|
    ensures forall k :: 0 <= k < |s| ==> r[k].id == s[k].id && r[k].isDefault == s[k].isDefault
    ensures forall k :: 0 <= k < |s| && s[k].id == id ==> r[k].data == data
    ensures forall k :: 0 <= k < |s| && s[k].id != id ==> r[k] == s[k]
  {
    seq(|s|, k requires 0 <= k < |s| => if s[k].id == id then s[k].(data := data) else s[k])
  }

  lemma {:induction false} SameFlagsSameCount<T>(s: seq<Entry<T>>, r: seq<Entry<T>>)
    requires |r| == |s|
    requires forall k :: 0 <= k < |s| ==> r[k].isDefault == s[k].isDefault
    ensures DefaultCount(r) == DefaultCount(s)
  {
    if s != [] {
      SameFlagsSameCount(s[1..], r[1..]);
    }
  }

  lemma ReplacedKeepsOneDefault<T>(s: seq<Entry<T>>, id: string, data: T)
    requires OneDefault(s)
    ensures OneDefault(Replaced(s, id, data))
  {
    SameFlagsSameCount(s, Replaced(s, id, data));
  }

  // ---------------------------------------------------------------- delete

  /** `list.filter(a => a.id !== id)`. */
  function Without<T>(s: seq<Entry<T>>, id: string): (r: seq<Entry<T>>)
    ensures |r| <= |s|
    ensures forall k :: 0 <= k < |r| ==> r[k] in s && r[k].id != id
    ensures forall k :: 0 <= k < |s| && s[k].id != id ==> s[k] in r
    ensures !HasId(r, id)
  {
    if s == [] then []
    else (if s[0].id == id then [] else [s[0]]) + Without(s[1..], id)
  }

  /** Filtering distributes over concatenation: the survivors keep their relative order. */
  lemma {:induction false} WithoutConcat<T>(a: seq<Entry<T>>, b: seq<Entry<T>>, id: string)
    ensures Without(a + b, id) == Without(a, id) + Without(b, id)
  {
    if a == [] {
      assert a + b == b;
    } else {
      assert (a + b)[1..] == a[1..] + b;
      WithoutConcat(a[1..], b, id);
    }
  }

  lemma {:induction false} WithoutAbsent<T>(s: seq<Entry<T>>, id: string)
    requires !HasId(s, id)
    ensures Without(s, id) == s
  {
    if s != [] {
      assert !HasId(s[1..], id) by {
        forall k | 0 <= k < |s| - 1 ensures s[1..][k].id != id {
          assert s[1..][k] == s[k + 1];
        }
      }
      WithoutAbsent(s[1..], id);
    }
  }

  lemma {:induction false} WithoutDefaultCount<T>(s: seq<Entry<T>>, id: string)
    ensures DefaultCount(Without(s, id)) <= DefaultCount(s)
  {
    if s != [] {
      WithoutDefaultCount(s[1..], id);
      var head := if s[0].id == id then [] else [s[0]];
      DefaultCountConcat(head, Without(s[1..], id));
    }
  }

  /** The promotion step: when the filtered list is not empty and has lost its
      default, its first entry becomes the default. */
  function Promoted<T>(kept: seq<Entry<T>>): (r: seq<Entry<T>>)
    ensures |r| == |kept|
  {
    if |kept| > 0 && !HasDefault(kept) then kept[0 := kept[0].(isDefault := true)] else kept
  }

  /** The list after deleting `id`. */
  function AfterDelete<T>(s: seq<Entry<T>>, id: string): (r: seq<Entry<T>>)
    ensures |r| <= |s|
  {
    Promoted(Without(s, id))
  }

  /** Delete removes every entry with the id, keeps the others in order, and at most
      sets the first survivor's flag: a survivor differs from its filtered self only
      when it is the first one and the filtered list had no default. */
  lemma AfterDeleteShape<T>(s: seq<Entry<T>>, id: string)
    ensures var kept := Without(s, id); var r := AfterDelete(s, id);
      |r| == |kept| && !HasId(r, id)
      && (forall k :: 0 <= k < |r| ==> r[k].id == kept[k].id && r[k].data == kept[k].data)
      && (forall k :: 0 < k < |r| ==> r[k] == kept[k])
      && (HasDefault(kept) ==> r == kept)
      && (kept != [] && !HasDefault(kept) ==> r[0] == kept[0].(isDefault := true))
      && (kept != [] ==> HasDefault(r))
  {
    var kept := Without(s, id);
    var r := AfterDelete(s, id);
    if kept != [] && !HasDefault(kept) {
      assert r[0].isDefault;
      assert forall k :: 0 <= k < |r| ==> r[k].id == kept[k].id;
    }
  }

  lemma AfterDeleteKeepsOneDefault<T>(s: seq<Entry<T>>, id: string)
    requires OneDefault(s)
    ensures OneDefault(AfterDelete(s, id))
  {
    var kept := Without(s, id);
    WithoutDefaultCount(s, id);
    if kept != [] && !HasDefault(kept) {
      var r := AfterDelete(s, id);
      assert r == [r[0]] + kept[1..];
      assert kept == [kept[0]] + kept[1..];
      DefaultCountConcat([r[0]], kept[1..]);
      DefaultCountConcat([kept[0]], kept[1..]);
    }
  }

  // ---------------------------------------------------------------- set default

  /** `list.map(a => ({ ...a, isDefault: a.id === id }))`. */
  function WithDefault<T>(s: seq<Entry<T>>, id: string): (r: seq<Entry<T>>)
    ensures |r| == |s|
    ensures forall k :: 0 <= k < |s| ==>
      r[k].id == s[k].id && r[k].data == s[k].data && (r[k].isDefault <==> s[k].id == id)
  {
    seq(|s|, k requires 0 <= k < |s| => s[k].(isDefault := s[k].id == id))
  }

  /** The number of entries with the given id. */
  function IdCount<T>(s: seq<Entry<T>>, id: string): (n: nat)
    ensures n == 0 <==> !HasId(s, id)
  {
    if s == [] then 0
    else (if s[0].id == id then 1 else 0) + IdCount(s[1..], id)
  }

  lemma {:induction false} WithDefaultCount<T>(s: seq<Entry<T>>, id: string)
    ensures DefaultCount(WithDefault(s, id)) == IdCount(s, id)
  {
    if s != [] {
      WithDefaultCount(s[1..], id);
      assert WithDefault(s, id)[1..] == WithDefault(s[1..], id);
    }
  }

  lemma {:induction false} UniqueIdCount<T>(s: seq<Entry<T>>, id: string)
    requires UniqueIds(s)
    ensures IdCount(s, id) <= 1
  {
    if s != [] {
      UniqueIdCount(s[1..], id);
      if s[0].id == id {
        assert !HasId(s[1..], id) by {
          forall k | 0 <= k < |s| - 1 ensures s[1..][k].id != id {
            assert s[1..][k] == s[k + 1];
          }
        }
      }
    }
  }

  /** With unique ids, choosing a present id leaves exactly one default; choosing an
      absent id leaves none. */
  lemma WithDefaultExactlyOne<T>(s: seq<Entry<T>>, id: string)
    requires UniqueIds(s)
    ensures HasId(s, id) ==> DefaultCount(WithDefault(s, id)) == 1 && OneDefault(WithDefault(s, id))
    ensures !HasId(s, id) ==> DefaultCount(WithDefault(s, id)) == 0
  {
    WithDefaultCount(s, id);
    UniqueIdCount(s, id);
  }

  // ---------------------------------------------------------------- state

  /** The screen state: the list, held in an array that every operation replaces
      with a new one (as `setAddresses`/`setPaymentMethods` do). */
  class DefaultList<T> {
    var items: array<Entry<T>>

    function Contents(): seq<Entry<T>>
      reads this, items
    {
      items[..]
    }

    constructor ()
      ensures Contents() == []
    {
      items := new Entry<T>[0];
    }

    /** Replace the array by one holding `s`. */
    method Store(s: seq<Entry<T>>)
      modifies this
      ensures fresh(items) && Contents() == s
    {
      items := new Entry<T>[|s|](k requires 0 <= k < |s| => s[k]);
    }

    method Add(id: string, data: T)
      modifies this
      ensures Contents() == Appended(old(Contents()), id, data)
    {
      Store(Appended(items[..], id, data));
    }

    method Edit(id: string, data: T)
      modifies this
      ensures Contents() == Replaced(old(Contents()), id, data)
    {
      Store(Replaced(items[..], id, data));
    }

    /** Filter into a new array, then promote its first entry in place. */
    method Delete(id: string)
      modifies this
      ensures Contents() == AfterDelete(old(Contents()), id)
    {
      var kept := Without(items[..], id);
      var updated := new Entry<T>[|kept|](k requires 0 <= k < |kept| => kept[k]);
      assert updated[..] == kept;
      if updated.Length > 0 && !HasDefault(updated[..]) {
        updated[0] := updated[0].(isDefault := true);
      }
      items := updated;
    }

    method SetDefault(id: string)
      modifies this
      ensures Contents() == WithDefault(old(Contents()), id)
    {
      Store(WithDefault(items[..], id));
    }
  }
}
