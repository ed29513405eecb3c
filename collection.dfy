/** The effect of the document store's filter-based operations on one
    collection, modelled as a sequence in natural (insertion) order. A filter
    is a predicate on documents; `findOne`, `updateOne` and `deleteOne` act on
    the FIRST document the filter matches, `find` keeps every match in order. */
module Collection {
  import opened Wrappers

  /** Some document of `s` matches `p`. */
  ghost predicate Any<T>(s: seq<T>, p: T -> bool)
  {
    exists k :: 0 <= k < |s| && p(s[k])
  }

  /** The position of the first document matching `p`. */
  function FindIndex<T>(s: seq<T>, p: T -> bool): (r: Option<nat>)
    ensures r.Some? ==> r.value < |s| && p(s[r.value])
    ensures r.Some? ==> forall j :: 0 <= j < r.value ==> !p(s[j])
    ensures r.None? ==> forall j :: 0 <= j < |s| ==> !p(s[j])
    decreases |s|
  {
    if s == [] then None
    else if p(s[0]) then Some(0)
    else match FindIndex(s[1..], p)
      case None => None
      case Some(i) => Some(i + 1)
  }

  /** `findOne(filter)`: the first matching document, or nothing. */
  function FindOne<T>(s: seq<T>, p: T -> bool): (r: Option<T>)
    ensures r.Some? <==> Any(s, p)
    ensures r.Some? ==> r.value in s && p(r.value)
    ensures r.Some? ==> exists i :: 0 <= i < |s| && r.value == s[i] && p(s[i])
                                    && forall j :: 0 <= j < i ==> !p(s[j])
  {
    match FindIndex(s, p)
    case None => None
    case Some(i) => Some(s[i])
  }

  /** `find(filter).toArray()`: every matching document, in order. */
  function Find<T>(s: seq<T>, p: T -> bool): (r: seq<T>)
    ensures forall j :: 0 <= j < |r| ==> r[j] in s && p(r[j])
    ensures forall k :: 0 <= k < |s| && p(s[k]) ==> s[k] in r
    ensures |r| == Count(s, p) <= |s|
    decreases |s|
  {
    if s == [] then []
    else
      var rest := Find(s[1..], p);
      assert forall k :: 1 <= k < |s| ==> s[k] == s[1..][k - 1];
      (if p(s[0]) then [s[0]] else []) + rest
  }

  /** `deleteOne(filter)`: the first matching document is removed. */
  function DeleteOne<T>(s: seq<T>, p: T -> bool): (r: seq<T>)
    ensures !Any(s, p) ==> r == s
    ensures Any(s, p) ==> |r| == |s| - 1
    ensures forall j :: 0 <= j < |r| ==> r[j] in s
    ensures forall k :: 0 <= k < |s| && !p(s[k]) ==> s[k] in r
    ensures Any(s, p) ==> exists i :: 0 <= i < |s| && p(s[i])
                                     && (forall j :: 0 <= j < i ==> !p(s[j]))
                                     && r == s[..i] + s[i+1..]
  {
    match FindIndex(s, p)
    case None => s
    case Some(i) =>
      var r := s[..i] + s[i+1..];
      assert forall k :: 0 <= k < i ==> r[k] == s[k];
      assert forall k :: i < k < |s| ==> r[k - 1] == s[k];
      r
  }

  /** The `deletedCount` that `deleteOne(filter)` reports. */
  function DeletedCount<T>(s: seq<T>, p: T -> bool): (n: nat)
    ensures n == 1 <==> Any(s, p)
    ensures n <= 1
  {
    if FindIndex(s, p).Some? then 1 else 0
  }

  /** `updateOne(filter, update)`: the first matching document is replaced by
      its updated form; every other position keeps its document. */
  function UpdateOne<T>(s: seq<T>, p: T -> bool, f: T -> T): (r: seq<T>)
    ensures |r| == |s|
    ensures !Any(s, p) ==> r == s
    ensures forall j :: 0 <= j < |s| && !p(s[j]) ==> r[j] == s[j]
    ensures forall j :: 0 <= j < |s| && r[j] != s[j] ==> r[j] == f(s[j])
    ensures Any(s, p) ==> exists i :: 0 <= i < |s| && p(s[i]) && r[i] == f(s[i])
                                     && (forall j :: 0 <= j < i ==> !p(s[j]))
                                     && (forall j :: 0 <= j < |s| && j != i ==> r[j] == s[j])
  {
    match FindIndex(s, p)
    case None => s
    case Some(i) => s[i := f(s[i])]
  }

  /** The `matchedCount` and `modifiedCount` that `updateOne` reports: a match
      whose update leaves it as it was is matched but not modified. */
  function UpdateCounts<T(==)>(s: seq<T>, p: T -> bool, f: T -> T): (counts: (nat, nat))
    ensures counts.0 == 1 <==> Any(s, p)
    ensures counts.1 <= counts.0 <= 1
    ensures counts.1 == 1 <==> UpdateOne(s, p, f) != s
  {
    match FindIndex(s, p)
    case None => (0, 0)
    case Some(i) =>
      assert UpdateOne(s, p, f)[i] == f(s[i]);
      (1, if f(s[i]) == s[i] then 0 else 1)
  }

  /** How many documents match `p`. */
  function Count<T>(s: seq<T>, p: T -> bool): nat
    decreases |s|
  {
    if s == [] then 0 else (if p(s[0]) then 1 else 0) + Count(s[1..], p)
  }

  lemma {:induction false} CountZero<T>(s: seq<T>, p: T -> bool)
    ensures Count(s, p) == 0 <==> !Any(s, p)
    decreases |s|
  {
    if s != [] {
      CountZero(s[1..], p);
      if Any(s[1..], p) {
        var k :| 0 <= k < |s[1..]| && p(s[1..][k]);
        assert p(s[k + 1]);
      }
      if Any(s, p) && !p(s[0]) {
        var k :| 0 <= k < |s| && p(s[k]);
        assert p(s[1..][k - 1]);
      }
    }
  }

  lemma {:induction false} CountAppend<T>(s: seq<T>, x: T, p: T -> bool)
    ensures Count(s + [x], p) == Count(s, p) + (if p(x) then 1 else 0)
    decreases |s|
  {
    if s == [] {
      assert [x][1..] == [];
    } else {
      assert (s + [x])[1..] == s[1..] + [x];
      CountAppend(s[1..], x, p);
    }
  }

  /** No two documents of `s` share a `key`. */
  ghost predicate Distinct<T, K>(s: seq<T>, key: T -> K)
  {
    forall i, j :: 0 <= i < j < |s| ==> key(s[i]) != key(s[j])
  }

  /** In a collection with distinct keys at most one document matches a
      filter that fixes the key. */
  lemma {:induction false} DistinctCount<T, K>(s: seq<T>, key: T -> K, k: K, p: T -> bool)
    requires Distinct(s, key)
    requires forall x :: p(x) ==> key(x) == k
    ensures Count(s, p) <= 1
    decreases |s|
  {
    if s != [] {
      assert Distinct(s[1..], key);
      DistinctCount(s[1..], key, k, p);
      if p(s[0]) {
        forall j | 0 <= j < |s[1..]| ensures !p(s[1..][j]) {
          assert key(s[0]) != key(s[j + 1]);
        }
        CountZero(s[1..], p);
      }
    }
  }

  /** `find` keeps the collection's order: a document appended to the
      collection comes last among the matches, and only if it matches. */
  lemma {:induction false} FindAppend<T>(s: seq<T>, x: T, p: T -> bool)
    ensures Find(s + [x], p) == Find(s, p) + (if p(x) then [x] else [])
    decreases |s|
  {
    if s == [] {
      assert [x][1..] == [];
    } else {
      assert (s + [x])[1..] == s[1..] + [x];
      FindAppend(s[1..], x, p);
    }
  }

  /** A filter nothing matches finds nothing. */
  lemma {:induction false} FindNothing<T>(s: seq<T>, p: T -> bool)
    requires forall k :: 0 <= k < |s| ==> !p(s[k])
    ensures Find(s, p) == []
    decreases |s|
  {
    if s != [] {
      FindNothing(s[1..], p);
    }
  }

  lemma DistinctAppend<T, K>(s: seq<T>, key: T -> K, x: T)
    requires Distinct(s, key)
    requires forall j :: 0 <= j < |s| ==> key(s[j]) != key(x)
    ensures Distinct(s + [x], key)
  {
  }

  lemma DistinctDelete<T, K>(s: seq<T>, key: T -> K, p: T -> bool)
    requires Distinct(s, key)
    ensures Distinct(DeleteOne(s, p), key)
  {
    match FindIndex(s, p)
    case None =>
    case Some(i) =>
      var r := DeleteOne(s, p);
      assert r == s[..i] + s[i+1..];
      forall a, b | 0 <= a < b < |r| ensures key(r[a]) != key(r[b]) {
        var a' := if a < i then a else a + 1;
        var b' := if b < i then b else b + 1;
        assert r[a] == s[a'] && r[b] == s[b'];
      }
  }

  lemma DistinctUpdate<T, K>(s: seq<T>, key: T -> K, p: T -> bool, f: T -> T)
    requires Distinct(s, key)
    requires forall x :: key(f(x)) == key(x)
    ensures Distinct(UpdateOne(s, p, f), key)
  {
    var r := UpdateOne(s, p, f);
    assert forall j :: 0 <= j < |s| ==> key(r[j]) == key(s[j]);
  }
}
