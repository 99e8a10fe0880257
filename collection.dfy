/**
 The semantics of the single-document MongoDB operations the helpers use.
 A collection is the sequence of its documents in natural order; a filter is
 a predicate on documents. `findOne`, `updateOne` and `deleteOne` each act on
 the first document that matches the filter and on no other.
 */
module Collection {
  import opened Common

  /** Index of the first document matching the filter, if any. */
  function FirstMatch<T>(docs: seq<T>, matches: T -> bool): (r: Option<nat>)
    ensures r.Some? ==> r.value < |docs| && matches(docs[r.value])
    ensures r.Some? ==> forall j :: 0 <= j < r.value ==> !matches(docs[j])
    ensures r.None? <==> forall j :: 0 <= j < |docs| ==> !matches(docs[j])
  {
    if docs == [] then None
    else if matches(docs[0]) then Some(0)
    else match FirstMatch(docs[1..], matches)
      case None => None
      case Some(k) => Some(k + 1)
  }

  /** `findOne(filter)`: some document matching the filter, or none exactly
      when no document matches. */
  function FindOne<T>(docs: seq<T>, matches: T -> bool): (r: Option<T>)
    ensures r.Some? ==> r.value in docs && matches(r.value)
    ensures r.None? <==> forall d :: d in docs ==> !matches(d)
  {
    if docs == [] then None
    else if matches(docs[0]) then Some(docs[0])
    else FindOne(docs[1..], matches)
  }

  /** `updateOne(filter, update)`: the first matching document is replaced
      by its updated form; with no match the collection is unchanged. */
  function UpdateOne<T>(docs: seq<T>, matches: T -> bool, update: T -> T): (r: seq<T>)
    ensures |r| == |docs|
    ensures FirstMatch(docs, matches).None? ==> r == docs
    ensures FirstMatch(docs, matches).Some? ==>
      var k := FirstMatch(docs, matches).value;
      r == docs[k := update(docs[k])]
  {
    if docs == [] then []
    else if matches(docs[0]) then [update(docs[0])] + docs[1..]
    else [docs[0]] + UpdateOne(docs[1..], matches, update)
  }

  /** `deleteOne(filter)`: the first matching document is removed; with no
      match the collection is unchanged. */
  function DeleteOne<T>(docs: seq<T>, matches: T -> bool): (r: seq<T>)
    ensures FirstMatch(docs, matches).None? ==> r == docs
    ensures FirstMatch(docs, matches).Some? ==>
      var k := FirstMatch(docs, matches).value;
      r == docs[..k] + docs[k + 1..]
  {
    if docs == [] then []
    else if matches(docs[0]) then docs[1..]
    else [docs[0]] + DeleteOne(docs[1..], matches)
  }

  /** Every document's key differs from every other's: the unique `_id`
      index MongoDB keeps on each collection. */
  ghost predicate UniqueKeys<T>(docs: seq<T>, key: T -> Id)
  {
    forall i, j :: 0 <= i < j < |docs| ==> key(docs[i]) != key(docs[j])
  }

  /** The filter `{ _id: id }`. */
  function HasKey<T>(key: T -> Id, id: Id): T -> bool
  {
    d => key(d) == id
  }

  /** With unique keys, `updateOne({ _id: id }, ...)` updates exactly the
      document with that key and leaves every other document as it was. */
  lemma UpdateOneByKey<T>(docs: seq<T>, key: T -> Id, id: Id, update: T -> T)
    requires UniqueKeys(docs, key)
    ensures |UpdateOne(docs, HasKey(key, id), update)| == |docs|
    ensures forall i :: 0 <= i < |docs| ==>
      UpdateOne(docs, HasKey(key, id), update)[i] ==
        if key(docs[i]) == id then update(docs[i]) else docs[i]
  {
    var m := FirstMatch(docs, HasKey(key, id));
    if m.Some? {
      assert key(docs[m.value]) == id;
    }
  }

  /** An update that keeps every key keeps the keys unique. */
  lemma UpdateOneKeepsKeys<T>(docs: seq<T>, key: T -> Id, matches: T -> bool, update: T -> T)
    requires UniqueKeys(docs, key)
    requires forall d :: key(update(d)) == key(d)
    ensures UniqueKeys(UpdateOne(docs, matches, update), key)
  {
    var r := UpdateOne(docs, matches, update);
    assert forall i :: 0 <= i < |docs| ==> key(r[i]) == key(docs[i]);
  }

  /** Removing a document keeps the remaining keys unique. */
  lemma DeleteOneKeepsKeys<T>(docs: seq<T>, key: T -> Id, matches: T -> bool)
    requires UniqueKeys(docs, key)
    ensures UniqueKeys(DeleteOne(docs, matches), key)
    ensures forall d :: d in DeleteOne(docs, matches) ==> d in docs
  {
    var m := FirstMatch(docs, matches);
    if m.Some? {
      RemoveAtKeepsKeys(docs, key, m.value);
    }
  }

  /** Dropping the document at index `k` keeps the keys unique and keeps
      only documents that were there. */
  lemma RemoveAtKeepsKeys<T>(docs: seq<T>, key: T -> Id, k: nat)
    requires k < |docs|
    requires UniqueKeys(docs, key)
    ensures UniqueKeys(docs[..k] + docs[k + 1..], key)
    ensures forall d :: d in docs[..k] + docs[k + 1..] ==> d in docs
  {
    var r := docs[..k] + docs[k + 1..];
    assert forall i :: 0 <= i < |r| ==> r[i] == docs[if i < k then i else i + 1];
  }

  /** Appending a document whose key is new keeps the keys unique. */
  lemma AppendKeepsKeys<T>(docs: seq<T>, key: T -> Id, d: T)
    requires UniqueKeys(docs, key)
    requires forall e :: e in docs ==> key(e) != key(d)
    ensures UniqueKeys(docs + [d], key)
  {
    var r := docs + [d];
    forall i, j | 0 <= i < j < |r| ensures key(r[i]) != key(r[j]) {
      if j == |docs| {
        assert r[i] in docs;
      }
    }
  }

  /** With unique keys, `deleteOne({ _id: id })` removes exactly the
      document with that key. */
  lemma DeleteOneByKey<T>(docs: seq<T>, key: T -> Id, id: Id)
    requires UniqueKeys(docs, key)
    ensures forall d :: d in DeleteOne(docs, HasKey(key, id)) <==> d in docs && key(d) != id
  {
    var m := FirstMatch(docs, HasKey(key, id));
    var r := DeleteOne(docs, HasKey(key, id));
    if m.Some? {
      var k := m.value;
      assert r == docs[..k] + docs[k + 1..];
      assert |r| == |docs| - 1;
      assert forall i :: 0 <= i < |r| ==> r[i] == docs[if i < k then i else i + 1];
      forall d | d in docs && key(d) != id ensures d in r {
        var i :| 0 <= i < |docs| && docs[i] == d;
        assert r[if i < k then i else i - 1] == d;
      }
      forall d | d in r ensures d in docs && key(d) != id {
        var i :| 0 <= i < |r| && r[i] == d;
        var j := if i < k then i else i + 1;
        assert docs[j] == d && j != k;
      }
    }
  }
}
