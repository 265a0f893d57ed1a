/** A collection of the document database, modelled as the sequence of its
    documents in natural (insertion) order, each identified by its `_id`. */
module Store {

  import opened Outcomes

  /** A document id (the hex string of a database ObjectId). */
  type Id = string

  /** The position of the first document whose id is `id`, if any
      (`findById`). */
  function Find<T>(s: seq<T>, key: T -> Id, id: Id): (r: Option<nat>)
    ensures r.Some? ==> r.value < |s| && key(s[r.value]) == id
    ensures r.Some? ==> forall j :: 0 <= j < r.value ==> key(s[j]) != id
    ensures r.None? <==> forall j :: 0 <= j < |s| ==> key(s[j]) != id
  {
    if |s| == 0 then None
    else if key(s[0]) == id then Some(0)
    else match Find(s[1..], key, id)
      case None => None
      case Some(i) => Some(i + 1)
  }

  /** No two documents share an id (the database enforces this for `_id`). */
  ghost predicate UniqueKeys<T>(s: seq<T>, key: T -> Id)
  {
    forall i, j :: 0 <= i < j < |s| ==> key(s[i]) != key(s[j])
  }

  /** The collection without the document at position `i`
      (`findByIdAndDelete`); the others keep their order. */
  function RemoveAt<T>(s: seq<T>, i: nat): (r: seq<T>)
    requires i < |s|
    ensures |r| == |s| - 1
    ensures forall j :: 0 <= j < i ==> r[j] == s[j]
    ensures forall j :: i <= j < |r| ==> r[j] == s[j + 1]
  {
    s[..i] + s[i + 1..]
  }

  /** Removing a document keeps the remaining ids unique, and with unique ids
      the removed id no longer occurs. */
  lemma RemoveAtUnique<T>(s: seq<T>, key: T -> Id, i: nat)
    requires i < |s|
    ensures UniqueKeys(s, key) ==> UniqueKeys(RemoveAt(s, i), key)
    ensures UniqueKeys(s, key) ==> forall j :: 0 <= j < |s| - 1 ==> key(RemoveAt(s, i)[j]) != key(s[i])
  {
    if !UniqueKeys(s, key) {
      return;
    }
    var r := RemoveAt(s, i);
    forall a, b | 0 <= a < b < |r|
      ensures key(r[a]) != key(r[b])
    {
      var a' := if a < i then a else a + 1;
      var b' := if b < i then b else b + 1;
      assert r[a] == s[a'] && r[b] == s[b'];
    }
    forall j | 0 <= j < |s| - 1
      ensures key(r[j]) != key(s[i])
    {
      var j' := if j < i then j else j + 1;
      assert r[j] == s[j'];
    }
  }

  /** Appending a document with a fresh id keeps the ids unique. */
  lemma AppendFreshUnique<T>(s: seq<T>, key: T -> Id, x: T)
    requires UniqueKeys(s, key)
    requires Find(s, key, key(x)).None?
    ensures UniqueKeys(s + [x], key)
  {
  }
}
