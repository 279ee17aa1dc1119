/**
 * The array operations the board builds its new state from — `find`,
 * `some`, `filter`, `map` and the spread-append — as functions on
 * sequences, together with the insert-or-replace-by-id step the board
 * uses for notes and for categories. Records are compared through a key
 * function (their `id`).
 */
module Lists {
  import opened Options

  /** The predicate `y => key(y) === k` that the board passes to `find`, `some` and `map`. */
  function KeyIs<T(==)>(key: T -> string, k: string): T -> bool {
    y => key(y) == k
  }

  /** The predicate `y => key(y) !== k` that the board passes to `filter`. */
  function KeyIsNot<T(==)>(key: T -> string, k: string): T -> bool {
    y => key(y) != k
  }

  /** `xs.some(p)` */
  predicate Any<T(==)>(xs: seq<T>, p: T -> bool) {
    exists i :: 0 <= i < |xs| && p(xs[i])
  }

  /** The keys present in `xs`. */
  function Keys<T(==)>(xs: seq<T>, key: T -> string): set<string> {
    set y | y in xs :: key(y)
  }

  /** No two elements of `xs` share a key. */
  predicate UniqueKeys<T(==)>(xs: seq<T>, key: T -> string) {
    forall i, j :: 0 <= i < j < |xs| ==> key(xs[i]) != key(xs[j])
  }

  /** The position of the first element satisfying `p`, or `|xs|` when there is none. */
  function FirstIndex<T(==)>(xs: seq<T>, p: T -> bool): (k: nat)
    ensures k <= |xs|
    ensures k < |xs| ==> p(xs[k])
    ensures forall j :: 0 <= j < k ==> !p(xs[j])
  {
    if xs == [] then 0
    else if p(xs[0]) then 0
    else 1 + FirstIndex(xs[1..], p)
  }

  /** `xs.find(p)`: the element at the first index satisfying `p` (none before it does), if any. */
  function Find<T(==)>(xs: seq<T>, p: T -> bool): (r: Option<T>)
    ensures r.None? <==> !Any(xs, p)
    ensures r.Some? ==> r.value in xs && p(r.value)
    ensures r.Some? <==> FirstIndex(xs, p) < |xs|
    ensures r.Some? ==> r.value == xs[FirstIndex(xs, p)]
  {
    var k := FirstIndex(xs, p);
    if k < |xs| then Some(xs[k]) else None
  }

  /** `xs.filter(p)`: the elements satisfying `p`, in their order. */
  function Filter<T(==)>(xs: seq<T>, p: T -> bool): (r: seq<T>)
    ensures |r| <= |xs|
    ensures forall i :: 0 <= i < |r| ==> r[i] in xs && p(r[i])
    ensures forall i :: 0 <= i < |xs| && p(xs[i]) ==> xs[i] in r
  {
    if xs == [] then []
    else
      assert xs == [xs[0]] + xs[1..];
      (if p(xs[0]) then [xs[0]] else []) + Filter(xs[1..], p)
  }

  /** `xs.map(y => p(y) ? f(y) : y)`: each element satisfying `p` is rewritten by `f`, in place. */
  function MapWhere<T(==)>(xs: seq<T>, p: T -> bool, f: T -> T): (r: seq<T>)
    ensures |r| == |xs|
    ensures forall i :: 0 <= i < |xs| ==> r[i] == if p(xs[i]) then f(xs[i]) else xs[i]
  {
    seq(|xs|, i requires 0 <= i < |xs| => if p(xs[i]) then f(xs[i]) else xs[i])
  }

  /**
   * `xs.find(y => key(y) === key(x)) ? xs.map(y => key(y) === key(x) ? x : y) : [...xs, x]`:
   * every element with `x`'s key is replaced by `x` where it stands, and
   * when there is none `x` is appended.
   */
  function Upsert<T(==)>(xs: seq<T>, x: T, key: T -> string): (r: seq<T>)
    ensures Any(xs, KeyIs(key, key(x))) ==> |r| == |xs|
    ensures !Any(xs, KeyIs(key, key(x))) ==> |r| == |xs| + 1 && r[..|xs|] == xs && r[|xs|] == x
    ensures forall i :: 0 <= i < |xs| ==> r[i] == if key(xs[i]) == key(x) then x else xs[i]
    ensures x in r
  {
    var present := KeyIs(key, key(x));
    if Find(xs, present).Some? then
      var r := MapWhere(xs, present, _ => x);
      var i :| 0 <= i < |xs| && present(xs[i]);
      assert r[i] == x;
      r
    else
      xs + [x]
  }

  /** `xs.filter(y => key(y) !== k)`: every element with key `k` removed. */
  function RemoveKey<T(==)>(xs: seq<T>, k: string, key: T -> string): (r: seq<T>)
    ensures forall i :: 0 <= i < |r| ==> r[i] in xs && key(r[i]) != k
    ensures forall i :: 0 <= i < |xs| && key(xs[i]) != k ==> xs[i] in r
  {
    Filter(xs, KeyIsNot(key, k))
  }

  /** Filtering a concatenation filters each part: `filter` keeps the relative order of what it keeps. */
  lemma {:induction false} FilterAppend<T>(a: seq<T>, b: seq<T>, p: T -> bool)
    ensures Filter(a + b, p) == Filter(a, p) + Filter(b, p)
    decreases |a|
  {
    if a == [] {
      assert a + b == b;
    } else {
      assert (a + b)[0] == a[0];
      assert (a + b)[1..] == a[1..] + b;
      FilterAppend(a[1..], b, p);
    }
  }

  /** Filtering keeps a sequence whose every element passes. */
  lemma {:induction false} FilterAllPass<T>(xs: seq<T>, p: T -> bool)
    requires forall i :: 0 <= i < |xs| ==> p(xs[i])
    ensures Filter(xs, p) == xs
    decreases |xs|
  {
    if xs != [] {
      FilterAllPass(xs[1..], p);
      assert xs == [xs[0]] + xs[1..];
    }
  }

  /** Filtering keeps keys apart. */
  lemma {:induction false} FilterKeepsUnique<T>(xs: seq<T>, p: T -> bool, key: T -> string)
    requires UniqueKeys(xs, key)
    ensures UniqueKeys(Filter(xs, p), key)
    decreases |xs|
  {
    if xs != [] {
      var tail := xs[1..];
      FilterKeepsUnique(tail, p, key);
      var rest := Filter(tail, p);
      if p(xs[0]) {
        var r := [xs[0]] + rest;
        assert Filter(xs, p) == r;
        forall i, j | 0 <= i < j < |r| ensures key(r[i]) != key(r[j]) {
          assert r[j] == rest[j - 1];
          if i == 0 {
            assert rest[j - 1] in tail;
            var m :| 0 <= m < |tail| && tail[m] == rest[j - 1];
            assert xs[m + 1] == r[j];
          } else {
            assert r[i] == rest[i - 1];
          }
        }
      } else {
        assert Filter(xs, p) == rest;
      }
    }
  }

  /** The keys left after removing key `k` are the old keys without `k`. */
  lemma RemoveKeyKeys<T>(xs: seq<T>, k: string, key: T -> string)
    ensures Keys(RemoveKey(xs, k, key), key) == Keys(xs, key) - {k}
  {
  }

  /** Removing a key that no element has changes nothing. */
  lemma RemoveAbsentKey<T>(xs: seq<T>, k: string, key: T -> string)
    requires !Any(xs, KeyIs(key, k))
    ensures RemoveKey(xs, k, key) == xs
  {
    forall i | 0 <= i < |xs| ensures KeyIsNot(key, k)(xs[i]) {
      assert !KeyIs(key, k)(xs[i]);
    }
    FilterAllPass(xs, KeyIsNot(key, k));
  }

  /** Removing a key keeps the keys unique. */
  lemma RemoveKeyKeepsUnique<T>(xs: seq<T>, k: string, key: T -> string)
    requires UniqueKeys(xs, key)
    ensures UniqueKeys(RemoveKey(xs, k, key), key)
  {
    FilterKeepsUnique(xs, KeyIsNot(key, k), key);
  }

  /** After an upsert the keys are the old keys plus `x`'s. */
  lemma UpsertKeys<T>(xs: seq<T>, x: T, key: T -> string)
    ensures Keys(Upsert(xs, x, key), key) == Keys(xs, key) + {key(x)}
  {
    var r := Upsert(xs, x, key);
    forall k | k in Keys(xs, key) + {key(x)} ensures k in Keys(r, key) {
      if k != key(x) {
        var y :| y in xs && key(y) == k;
        var i :| 0 <= i < |xs| && xs[i] == y;
        assert r[i] == y;
      }
    }
    forall k | k in Keys(r, key) ensures k in Keys(xs, key) + {key(x)} {
      var y :| y in r && key(y) == k;
      var i :| 0 <= i < |r| && r[i] == y;
      if i < |xs| && y != x { assert xs[i] == y; }
    }
  }

  /** An upsert keeps the keys unique: it never adds a second element with a key already present. */
  lemma UpsertKeepsUnique<T>(xs: seq<T>, x: T, key: T -> string)
    requires UniqueKeys(xs, key)
    ensures UniqueKeys(Upsert(xs, x, key), key)
  {
    var r := Upsert(xs, x, key);
    forall i, j | 0 <= i < j < |r| ensures key(r[i]) != key(r[j]) {
      if j == |xs| {
        assert !KeyIs(key, key(x))(xs[i]);
      }
    }
  }

  /** With unique keys, upserting an element whose key sits at position `k` replaces exactly position `k`. */
  lemma UpsertReplacesOne<T>(xs: seq<T>, x: T, key: T -> string, k: nat)
    requires UniqueKeys(xs, key)
    requires k < |xs| && key(xs[k]) == key(x)
    ensures Upsert(xs, x, key) == xs[k := x]
  {
    assert KeyIs(key, key(x))(xs[k]);
    var r := Upsert(xs, x, key);
    forall i | 0 <= i < |xs| ensures r[i] == xs[k := x][i] {
      if i != k {
        assert key(xs[i]) != key(xs[k]);
      }
    }
  }

  /** Upserting the same element again changes nothing. */
  lemma UpsertIdempotent<T>(xs: seq<T>, x: T, key: T -> string)
    ensures Upsert(Upsert(xs, x, key), x, key) == Upsert(xs, x, key)
  {
    var r := Upsert(xs, x, key);
    var i :| 0 <= i < |r| && r[i] == x;
    assert KeyIs(key, key(x))(r[i]);
    var rr := Upsert(r, x, key);
    forall j | 0 <= j < |r| ensures rr[j] == r[j] {
      if j < |xs| && key(xs[j]) != key(x) {
        assert r[j] == xs[j];
      }
    }
  }

  /** After an upsert, looking `x`'s key up with `find` gives the element itself. */
  lemma UpsertThenFind<T>(xs: seq<T>, x: T, key: T -> string)
    ensures Find(Upsert(xs, x, key), KeyIs(key, key(x))) == Some(x)
  {
    var r := Upsert(xs, x, key);
    var p := KeyIs(key, key(x));
    var k := FirstIndex(r, p);
    assert x in r;
    var i :| 0 <= i < |r| && r[i] == x;
    assert p(r[i]);
    assert k < |r|;
  }

  /** With unique keys, `find` by an element's key gives back that element. */
  lemma FindByUniqueKey<T>(xs: seq<T>, x: T, key: T -> string)
    requires UniqueKeys(xs, key) && x in xs
    ensures Find(xs, KeyIs(key, key(x))) == Some(x)
  {
    var p := KeyIs(key, key(x));
    var i :| 0 <= i < |xs| && xs[i] == x;
    assert p(xs[i]);
    var k := FirstIndex(xs, p);
    assert k <= i;
  }

  /** Rewriting elements with a key-preserving `f` keeps the keys where they were. */
  lemma MapWhereKeepsKeys<T>(xs: seq<T>, p: T -> bool, f: T -> T, key: T -> string)
    requires forall y :: key(f(y)) == key(y)
    ensures forall i :: 0 <= i < |xs| ==> key(MapWhere(xs, p, f)[i]) == key(xs[i])
    ensures Keys(MapWhere(xs, p, f), key) == Keys(xs, key)
    ensures UniqueKeys(xs, key) ==> UniqueKeys(MapWhere(xs, p, f), key)
  {
    var r := MapWhere(xs, p, f);
    forall k | k in Keys(xs, key) ensures k in Keys(r, key) {
      var y :| y in xs && key(y) == k;
      var i :| 0 <= i < |xs| && xs[i] == y;
      assert key(r[i]) == k;
    }
    forall k | k in Keys(r, key) ensures k in Keys(xs, key) {
      var y :| y in r && key(y) == k;
      var i :| 0 <= i < |r| && r[i] == y;
      assert key(xs[i]) == k;
    }
  }
}
