/**
 * Collections of records keyed by a string `id`, as the application keeps them in
 * arrays: `findIndex` by id, "replace the first match or push" (upsert) and
 * `filter(x => x.id !== id)` (remove).  `idOf` reads the record's id.
 */
module Keyed {
  import opened Wrappers

  /** `s.findIndex(x => x.id === id)`, with `None` for JavaScript's -1. */
  function FindIndex<T>(s: seq<T>, idOf: T -> string, id: string): (r: Option<nat>)
    ensures r.Some? ==> r.value < |s| && idOf(s[r.value]) == id
    ensures r.Some? ==> forall k :: 0 <= k < r.value ==> idOf(s[k]) != id
    ensures r.None? <==> forall k :: 0 <= k < |s| ==> idOf(s[k]) != id
  {
    if s == [] then None
    else if idOf(s[0]) == id then Some(0)
    else match FindIndex(s[1..], idOf, id)
      case Some(i) => Some(i + 1)
      case None => None
  }

  /** Overwrite the first record with `x`'s id, or append `x` when there is none. */
  function Upsert<T>(s: seq<T>, x: T, idOf: T -> string): seq<T> {
    match FindIndex(s, idOf, idOf(x))
    case Some(i) => s[i := x]
    case None => s + [x]
  }

  /** `s.filter(x => x.id !== id)`. */
  function RemoveById<T>(s: seq<T>, idOf: T -> string, id: string): (r: seq<T>)
    ensures |r| <= |s|
    ensures forall k :: 0 <= k < |r| ==> idOf(r[k]) != id
    ensures forall k :: 0 <= k < |r| ==> r[k] in s
  {
    if s == [] then []
    else (if idOf(s[0]) == id then [] else [s[0]]) + RemoveById(s[1..], idOf, id)
  }

  predicate HasId<T>(s: seq<T>, idOf: T -> string, id: string) {
    exists k :: 0 <= k < |s| && idOf(s[k]) == id
  }

  /** Saving a record whose id is present replaces the first match in place and nothing else. */
  lemma UpsertExisting<T>(s: seq<T>, x: T, idOf: T -> string, i: nat)
    requires i < |s| && idOf(s[i]) == idOf(x)
    requires forall k :: 0 <= k < i ==> idOf(s[k]) != idOf(x)
    ensures |Upsert(s, x, idOf)| == |s|
    ensures Upsert(s, x, idOf)[i] == x
    ensures forall k :: 0 <= k < |s| && k != i ==> Upsert(s, x, idOf)[k] == s[k]
  {
    var r := FindIndex(s, idOf, idOf(x));
    assert idOf(s[i]) == idOf(x);
    assert r.Some?;
    assert r.value == i;
  }

  /** Saving a record whose id is absent appends it: the length grows by one. */
  lemma UpsertNew<T>(s: seq<T>, x: T, idOf: T -> string)
    requires !HasId(s, idOf, idOf(x))
    ensures Upsert(s, x, idOf) == s + [x]
    ensures |Upsert(s, x, idOf)| == |s| + 1
  {
    assert FindIndex(s, idOf, idOf(x)).None?;
  }

  /** After a save, the record is stored: the first record with its id is `x`. */
  lemma UpsertStores<T>(s: seq<T>, x: T, idOf: T -> string)
    ensures var u := Upsert(s, x, idOf);
            var j := FindIndex(u, idOf, idOf(x));
            j.Some? && u[j.value] == x
  {
    var u := Upsert(s, x, idOf);
    match FindIndex(s, idOf, idOf(x))
    case Some(i) =>
      UpsertExisting(s, x, idOf, i);
      var j := FindIndex(u, idOf, idOf(x));
      assert idOf(u[i]) == idOf(x);
      assert forall k :: 0 <= k < i ==> idOf(u[k]) == idOf(s[k]);
      assert j.Some?;
      assert j.value == i;
    case None =>
      var j := FindIndex(u, idOf, idOf(x));
      assert idOf(u[|s|]) == idOf(x);
      assert forall k :: 0 <= k < |s| ==> u[k] == s[k];
      assert j.Some?;
      assert j.value == |s|;
  }

  /** Saving the same record twice gives the same collection as saving it once. */
  lemma UpsertIdempotent<T>(s: seq<T>, x: T, idOf: T -> string)
    ensures Upsert(Upsert(s, x, idOf), x, idOf) == Upsert(s, x, idOf)
  {
    var u := Upsert(s, x, idOf);
    UpsertStores(s, x, idOf);
    var j := FindIndex(u, idOf, idOf(x));
    assert u[j.value := x] == u;
  }

  /** Removing an absent id changes nothing. */
  lemma {:induction false} RemoveAbsent<T>(s: seq<T>, idOf: T -> string, id: string)
    requires !HasId(s, idOf, id)
    ensures RemoveById(s, idOf, id) == s
  {
    if s != [] {
      assert idOf(s[0]) != id;
      assert forall k :: 0 <= k < |s[1..]| ==> s[1..][k] == s[k + 1];
      RemoveAbsent(s[1..], idOf, id);
      assert [s[0]] + s[1..] == s;
    }
  }

  /** Removal works piecewise, so the records kept are kept in their original order. */
  lemma {:induction false} RemoveConcat<T>(a: seq<T>, b: seq<T>, idOf: T -> string, id: string)
    ensures RemoveById(a + b, idOf, id) == RemoveById(a, idOf, id) + RemoveById(b, idOf, id)
  {
    if a == [] {
      assert a + b == b;
    } else {
      var head := if idOf(a[0]) == id then [] else [a[0]];
      assert (a + b)[0] == a[0];
      assert (a + b)[1..] == a[1..] + b;
      assert RemoveById(a + b, idOf, id) == head + RemoveById(a[1..] + b, idOf, id);
      assert RemoveById(a, idOf, id) == head + RemoveById(a[1..], idOf, id);
      RemoveConcat(a[1..], b, idOf, id);
      assert head + (RemoveById(a[1..], idOf, id) + RemoveById(b, idOf, id))
             == (head + RemoveById(a[1..], idOf, id)) + RemoveById(b, idOf, id);
    }
  }

  /** Exactly the records with that id disappear; every other record keeps its multiplicity. */
  lemma {:induction false} RemoveCounts<T>(s: seq<T>, idOf: T -> string, id: string, x: T)
    ensures multiset(RemoveById(s, idOf, id))[x] == if idOf(x) == id then 0 else multiset(s)[x]
  {
    if s != [] {
      RemoveCounts(s[1..], idOf, id, x);
      assert s == [s[0]] + s[1..];
      assert multiset(s) == multiset([s[0]]) + multiset(s[1..]);
      var head := if idOf(s[0]) == id then [] else [s[0]];
      assert multiset(head + RemoveById(s[1..], idOf, id)) == multiset(head) + multiset(RemoveById(s[1..], idOf, id));
    }
  }

  /** Deleting what was just saved is the same as deleting from the collection before the save. */
  lemma RemoveAfterUpsert<T>(s: seq<T>, x: T, idOf: T -> string)
    ensures RemoveById(Upsert(s, x, idOf), idOf, idOf(x)) == RemoveById(s, idOf, idOf(x))
  {
    var id := idOf(x);
    match FindIndex(s, idOf, id)
    case Some(i) =>
      var u := s[i := x];
      assert s == s[..i] + [s[i]] + s[i + 1..];
      assert u == s[..i] + [x] + s[i + 1..];
      RemoveConcat(s[..i] + [s[i]], s[i + 1..], idOf, id);
      RemoveConcat(s[..i], [s[i]], idOf, id);
      RemoveConcat(s[..i] + [x], s[i + 1..], idOf, id);
      RemoveConcat(s[..i], [x], idOf, id);
      assert RemoveById([x], idOf, id) == [] == RemoveById([s[i]], idOf, id);
    case None =>
      RemoveConcat(s, [x], idOf, id);
      assert RemoveById([x], idOf, id) == [];
  }
}
