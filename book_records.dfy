/** Book records as the backend sends them, and two list operations on them:
    remove by `_id` (the hook's `removeBook` and the view's delete keep every
    record whose `_id` differs, with `filter`) and replace by `_id` (the view's
    update swaps in a new value for every record with that `_id`, with `map`). */
module BookRecords {
  import opened JsValues

  /** The server-assigned `_id`; the client never makes one up. */
  type Id = string

  /** `Number.MAX_SAFE_INTEGER`, 2^53 - 1: up to this magnitude a JSON
      integer is parsed exactly and prints back as plain decimal digits. */
  const MAX_SAFE_INTEGER: int := 0x1F_FFFF_FFFF_FFFF

  type SafeInteger = n: int | -MAX_SAFE_INTEGER <= n <= MAX_SAFE_INTEGER

  /** `barcode` is optional and arrives either as text or as a number. */
  datatype Barcode = NoBarcode | TextCode(text: string) | NumericCode(number: SafeInteger)

  /** One book record. A text field that is missing is modelled as "" (both
      are falsy); `stock` is `None` when the record has no numeric stock. */
  datatype Book = Book(
    id: Id,
    name: string,
    author: string,
    stock: Option<int>,
    category: string,
    barcode: Barcode)

  /** One element of a list received as JSON; `None` is a `null` element. */
  type Entry = Option<Book>

  /** Reading `_id` off each element of the list does not throw. */
  predicate NoNulls(s: seq<Entry>)
  {
    forall i :: 0 <= i < |s| ==> s[i].Some?
  }

  /** `sub` is `s` with some elements left out and the rest in their order.
      Matching the first element greedily decides this exactly. */
  predicate IsSubsequence<T(==)>(sub: seq<T>, s: seq<T>)
    decreases |s|
  {
    if sub == [] then true
    else if s == [] then false
    else if sub[0] == s[0] then IsSubsequence(sub[1..], s[1..])
    else IsSubsequence(sub, s[1..])
  }

  /** `prev.filter((book) => book._id !== id)`. */
  function RemoveById(s: seq<Entry>, id: Id): (r: seq<Entry>)
    requires NoNulls(s)
    ensures NoNulls(r)
    ensures forall i :: 0 <= i < |r| ==> r[i].value.id != id
    ensures |r| <= |s|
  {
    if s == [] then []
    else if s[0].value.id != id then [s[0]] + RemoveById(s[1..], id)
    else RemoveById(s[1..], id)
  }

  /** The records that survive a removal keep their relative order. */
  lemma {:induction false} RemoveByIdKeepsOrder(s: seq<Entry>, id: Id)
    requires NoNulls(s)
    ensures IsSubsequence(RemoveById(s, id), s)
  {
    if s != [] {
      var rest := RemoveById(s[1..], id);
      RemoveByIdKeepsOrder(s[1..], id);
      if s[0].value.id != id {
        assert RemoveById(s, id)[1..] == rest;
      } else {
        assert rest == [] || rest[0] != s[0];
      }
    }
  }

  /** A removal drops exactly the records with the id: every other record
      stays, as often as it occurred, and nothing new appears. */
  lemma {:induction false} RemoveByIdCounts(s: seq<Entry>, id: Id)
    requires NoNulls(s)
    ensures forall e :: multiset(RemoveById(s, id))[e] ==
                          if e.Some? && e.value.id != id then multiset(s)[e] else 0
    ensures forall e :: e in RemoveById(s, id) <==> e in s && e.value.id != id
  {
    if s != [] {
      RemoveByIdCounts(s[1..], id);
      assert s == [s[0]] + s[1..];
      assert multiset(s) == multiset([s[0]]) + multiset(s[1..]);
      if s[0].value.id != id {
        assert multiset(RemoveById(s, id)) == multiset([s[0]]) + multiset(RemoveById(s[1..], id));
      }
    }
  }

  /** Removing by the same id a second time changes nothing. */
  lemma {:induction false} RemoveByIdIdempotent(s: seq<Entry>, id: Id)
    requires NoNulls(s)
    ensures RemoveById(RemoveById(s, id), id) == RemoveById(s, id)
  {
    if s != [] {
      RemoveByIdIdempotent(s[1..], id);
    }
  }

  /** Removing an id that no record carries leaves the list as it was. */
  lemma {:induction false} RemoveAbsentId(s: seq<Entry>, id: Id)
    requires NoNulls(s)
    requires forall i :: 0 <= i < |s| ==> s[i].value.id != id
    ensures RemoveById(s, id) == s
  {
    if s != [] {
      RemoveAbsentId(s[1..], id);
    }
  }

  /** `s.map((p) => (p._id === id ? v : p))`. */
  function ReplaceById(s: seq<Entry>, id: Id, v: Entry): (r: seq<Entry>)
    requires NoNulls(s)
    ensures |r| == |s|
    ensures forall i :: 0 <= i < |s| && s[i].value.id == id ==> r[i] == v
    ensures forall i :: 0 <= i < |s| && s[i].value.id != id ==> r[i] == s[i]
  {
    if s == [] then []
    else [if s[0].value.id == id then v else s[0]] + ReplaceById(s[1..], id, v)
  }

  /** When the replacement still carries the id, replacing again with it is a
      no-op: saving the same server result twice leaves one copy per slot. */
  lemma {:induction false} ReplaceByIdIdempotent(s: seq<Entry>, id: Id, v: Entry)
    requires NoNulls(s) && v.Some? && v.value.id == id
    ensures NoNulls(ReplaceById(s, id, v))
    ensures ReplaceById(ReplaceById(s, id, v), id, v) == ReplaceById(s, id, v)
  {
    if s != [] {
      ReplaceByIdIdempotent(s[1..], id, v);
    }
  }
}
