/**
 * JavaScript's `Set<number>` and `Map<number, V>` with their insertion
 * order: a set is a duplicate-free sequence of its elements in the order
 * they were added, a map a sequence of entries with distinct keys. Adding an
 * element already present, or setting a key already present, keeps its
 * place; deleting removes it.
 */
module JsCollections {
  import opened Wrappers

  /** No element occurs twice. */
  predicate Distinct(s: seq<int>)
  {
    forall i, j :: 0 <= i < j < |s| ==> s[i] != s[j]
  }

  /** `set.add(x)`. */
  function SetAdd(s: seq<int>, x: int): (r: seq<int>)
    ensures forall y :: y in r <==> y in s || y == x
    ensures Distinct(s) ==> Distinct(r)
    ensures x in s ==> r == s
    ensures x !in s ==> r == s + [x]
  {
    if x in s then s else s + [x]
  }

  /** `set.delete(x)`: the other elements keep their order. */
  function SetDelete(s: seq<int>, x: int): (r: seq<int>)
    ensures forall y :: y in r <==> y in s && y != x
    ensures |r| <= |s|
    ensures Distinct(s) ==> Distinct(r)
    ensures x !in s ==> r == s
    ensures Distinct(s) && x in s ==> exists i | 0 <= i < |s| && s[i] == x :: r == s[..i] + s[i + 1..]
    decreases |s|
  {
    if |s| == 0 then []
    else
      var rest := SetDelete(s[1..], x);
      if s[0] == x then
        DeleteAtHead(s, x, rest);
        rest
      else
        DeleteInTail(s, x, rest);
        [s[0]] + rest
  }

  /** Deleting the first element: what is left of the tail is the result. */
  lemma DeleteAtHead(s: seq<int>, x: int, rest: seq<int>)
    requires |s| > 0 && s[0] == x
    requires forall y :: y in rest <==> y in s[1..] && y != x
    requires Distinct(s[1..]) ==> Distinct(rest)
    requires x !in s[1..] ==> rest == s[1..]
    ensures forall y :: y in rest <==> y in s && y != x
    ensures Distinct(s) ==> Distinct(rest)
    ensures Distinct(s) ==> rest == s[..0] + s[0 + 1..]
  {
    assert s == [s[0]] + s[1..];
    if Distinct(s) {
      DistinctTail(s);
      assert x !in s[1..];
    }
  }

  /** Deleting from the tail and putting the head back. */
  lemma DeleteInTail(s: seq<int>, x: int, rest: seq<int>)
    requires |s| > 0 && s[0] != x
    requires forall y :: y in rest <==> y in s[1..] && y != x
    requires |rest| <= |s| - 1
    requires Distinct(s[1..]) ==> Distinct(rest)
    requires x !in s[1..] ==> rest == s[1..]
    requires Distinct(s[1..]) && x in s[1..] ==>
               exists j | 0 <= j < |s[1..]| && s[1..][j] == x :: rest == s[1..][..j] + s[1..][j + 1..]
    ensures forall y :: y in [s[0]] + rest <==> y in s && y != x
    ensures Distinct(s) ==> Distinct([s[0]] + rest)
    ensures x !in s ==> [s[0]] + rest == s
    ensures Distinct(s) && x in s ==> exists i | 0 <= i < |s| && s[i] == x :: [s[0]] + rest == s[..i] + s[i + 1..]
  {
    assert s == [s[0]] + s[1..];
    if Distinct(s) {
      DistinctTail(s);
      DistinctCons(s[0], rest);
      if x in s {
        ShiftDeletion(s, x, rest);
      }
    }
  }

  /** A deletion position in the tail is one further on in the whole. */
  lemma ShiftDeletion(s: seq<int>, x: int, rest: seq<int>)
    requires |s| > 0
    requires exists j | 0 <= j < |s[1..]| && s[1..][j] == x :: rest == s[1..][..j] + s[1..][j + 1..]
    ensures exists i | 0 <= i < |s| && s[i] == x :: [s[0]] + rest == s[..i] + s[i + 1..]
  {
    var j :| 0 <= j < |s[1..]| && s[1..][j] == x && rest == s[1..][..j] + s[1..][j + 1..];
    assert s[1..][..j] == s[1..j + 1];
    assert s[1..][j + 1..] == s[j + 2..];
    assert [s[0]] + rest == s[..j + 1] + s[j + 2..];
  }

  lemma DistinctCons(a: int, t: seq<int>)
    requires Distinct(t) && a !in t
    ensures Distinct([a] + t)
  {
    assert forall i :: 0 < i < |[a] + t| ==> ([a] + t)[i] == t[i - 1];
  }

  lemma DistinctTail(s: seq<int>)
    requires |s| > 0 && Distinct(s)
    ensures Distinct(s[1..])
  {
    assert forall i :: 0 <= i < |s| - 1 ==> s[1..][i] == s[i + 1];
  }

  /** Adding an element that is absent and then deleting it restores the set. */
  lemma {:induction false} SetAddThenDelete(s: seq<int>, x: int)
    requires x !in s
    ensures SetDelete(SetAdd(s, x), x) == s
    decreases |s|
  {
    if |s| > 0 {
      SetAddThenDelete(s[1..], x);
      TailOfAppend(s, x);
    }
  }

  lemma TailOfAppend(s: seq<int>, x: int)
    requires |s| > 0
    ensures (s + [x])[0] == s[0] && (s + [x])[1..] == s[1..] + [x]
  {
  }

  datatype Entry<V> = Entry(key: int, value: V)

  /** The keys of a map, in insertion order. */
  function Keys<V>(m: seq<Entry<V>>): (r: seq<int>)
    ensures |r| == |m|
    ensures forall i :: 0 <= i < |m| ==> r[i] == m[i].key
  {
    seq(|m|, i requires 0 <= i < |m| => m[i].key)
  }

  /** A well-formed map: no key twice. */
  predicate ValidMap<V>(m: seq<Entry<V>>)
  {
    forall i, j :: 0 <= i < j < |m| ==> m[i].key != m[j].key
  }

  /** `k` is a key of `m`. */
  predicate HasKey<V>(m: seq<Entry<V>>, k: int)
  {
    exists i | 0 <= i < |m| :: m[i].key == k
  }

  /** `map.get(k)`. */
  function Get<V>(m: seq<Entry<V>>, k: int): (r: Option<V>)
    ensures r.None? <==> !HasKey(m, k)
    ensures r.Some? ==> exists i | 0 <= i < |m| :: m[i] == Entry(k, r.value)
    ensures ValidMap(m) ==> forall i :: 0 <= i < |m| && m[i].key == k ==> r == Some(m[i].value)
    decreases |m|
  {
    if |m| == 0 then None
    else if m[0].key == k then Some(m[0].value)
    else
      var r := Get(m[1..], k);
      assert forall i :: 1 <= i < |m| ==> m[i] == m[1..][i - 1];
      r
  }

  /** Where key `k` sits in `m`, if anywhere. */
  function IndexOfKey<V>(m: seq<Entry<V>>, k: int): (r: Option<nat>)
    ensures r.Some? ==> r.value < |m| && m[r.value].key == k
    ensures r.None? ==> !HasKey(m, k)
    decreases |m|
  {
    if |m| == 0 then None
    else if m[0].key == k then Some(0)
    else
      match IndexOfKey(m[1..], k)
      case None => None
      case Some(i) => Some(i + 1)
  }

  /** `map.set(k, v)`: an existing entry is updated where it stands, a new
      one goes last. */
  function Put<V>(m: seq<Entry<V>>, k: int, v: V): (r: seq<Entry<V>>)
    requires ValidMap(m)
    ensures ValidMap(r)
    ensures Get(r, k) == Some(v)
    ensures forall j :: j != k ==> Get(r, j) == Get(m, j)
    ensures HasKey(m, k) ==> Keys(r) == Keys(m)
    ensures !HasKey(m, k) ==> Keys(r) == Keys(m) + [k]
  {
    match IndexOfKey(m, k)
    case Some(i) =>
      PutReplaces(m, k, v, i);
      m[i := Entry(k, v)]
    case None =>
      PutAppends(m, k, v);
      m + [Entry(k, v)]
  }

  /** The facts `Remove` promises, of `r` against `m`. */
  ghost predicate Removed<V>(m: seq<Entry<V>>, k: int, r: seq<Entry<V>>)
  {
    && ValidMap(r)
    && Get(r, k) == None
    && (forall j :: j != k ==> Get(r, j) == Get(m, j))
    && |r| <= |m|
    && (forall i :: 0 <= i < |r| ==> r[i] in m)
    && Keys(r) == SetDelete(Keys(m), k)
  }

  /** Overwriting the entry of a present key. */
  lemma PutReplaces<V>(m: seq<Entry<V>>, k: int, v: V, i: nat)
    requires ValidMap(m) && i < |m| && m[i].key == k
    ensures ValidMap(m[i := Entry(k, v)])
    ensures Get(m[i := Entry(k, v)], k) == Some(v)
    ensures forall j :: j != k ==> Get(m[i := Entry(k, v)], j) == Get(m, j)
    ensures Keys(m[i := Entry(k, v)]) == Keys(m)
  {
    var r := m[i := Entry(k, v)];
    assert Keys(r) == Keys(m);
    assert forall j :: j != k ==> (HasKey(r, j) <==> HasKey(m, j));
  }

  /** Appending the entry of an absent key. */
  lemma PutAppends<V>(m: seq<Entry<V>>, k: int, v: V)
    requires ValidMap(m) && !HasKey(m, k)
    ensures ValidMap(m + [Entry(k, v)])
    ensures Get(m + [Entry(k, v)], k) == Some(v)
    ensures forall j :: j != k ==> Get(m + [Entry(k, v)], j) == Get(m, j)
    ensures Keys(m + [Entry(k, v)]) == Keys(m) + [k]
  {
    var r := m + [Entry(k, v)];
    assert Keys(r) == Keys(m) + [k];
    assert r[|m|] == Entry(k, v);
    forall j | j != k && HasKey(r, j)
      ensures HasKey(m, j)
    {
      var i :| 0 <= i < |r| && r[i].key == j;
      assert r[i] == m[i];
    }
    forall j | j != k && HasKey(m, j)
      ensures Get(r, j) == Get(m, j)
    {
      var i :| 0 <= i < |m| && m[i].key == j;
      assert r[i] == m[i];
    }
  }

  /** `map.delete(k)`: the other entries keep their order. */
  function Remove<V>(m: seq<Entry<V>>, k: int): (r: seq<Entry<V>>)
    requires ValidMap(m)
    ensures ValidMap(r)
    ensures Get(r, k) == None
    ensures forall j :: j != k ==> Get(r, j) == Get(m, j)
    ensures |r| <= |m|
    ensures forall i :: 0 <= i < |r| ==> r[i] in m
    ensures Keys(r) == SetDelete(Keys(m), k)
    decreases |m|
  {
    if |m| == 0 then []
    else
      var rest := Remove(m[1..], k);
      if m[0].key == k then
        RemoveDropsHead(m, k, rest);
        rest
      else
        RemoveKeepsHead(m, k, rest);
        [m[0]] + rest
  }

  /** Removing the key of the first entry: what is removed from the rest is
      removed from the whole. */
  lemma RemoveDropsHead<V>(m: seq<Entry<V>>, k: int, rest: seq<Entry<V>>)
    requires ValidMap(m) && |m| > 0 && m[0].key == k
    requires Removed(m[1..], k, rest)
    ensures Removed(m, k, rest)
  {
    KeysCons(m[0], m[1..]);
    assert m == [m[0]] + m[1..];
    forall j | j != k
      ensures Get(m, j) == Get(m[1..], j)
    {
    }
  }

  /** Removing another key: the first entry stays in front of the rest. */
  lemma RemoveKeepsHead<V>(m: seq<Entry<V>>, k: int, rest: seq<Entry<V>>)
    requires ValidMap(m) && |m| > 0 && m[0].key != k
    requires Removed(m[1..], k, rest)
    ensures Removed(m, k, [m[0]] + rest)
  {
    KeepsHeadFrom(m, rest);
    KeepsHeadValid(m, rest);
    KeepsHeadKeys(m, k, rest);
    KeepsHeadGet(m, rest);
  }

  /** Every entry kept after the first one comes from the map. */
  lemma KeepsHeadFrom<V>(m: seq<Entry<V>>, rest: seq<Entry<V>>)
    requires |m| > 0
    requires forall i :: 0 <= i < |rest| ==> rest[i] in m[1..]
    ensures forall i :: 0 <= i < |[m[0]] + rest| ==> ([m[0]] + rest)[i] in m
  {
    var r := [m[0]] + rest;
    assert m == [m[0]] + m[1..];
    forall i | 0 <= i < |r|
      ensures r[i] in m
    {
      if i > 0 {
        assert r[i] == rest[i - 1];
        assert rest[i - 1] in m[1..];
      }
    }
  }

  /** Keeping the first entry keeps its key first. */
  lemma KeepsHeadKeys<V>(m: seq<Entry<V>>, k: int, rest: seq<Entry<V>>)
    requires |m| > 0 && m[0].key != k
    requires Keys(rest) == SetDelete(Keys(m[1..]), k)
    ensures Keys([m[0]] + rest) == SetDelete(Keys(m), k)
  {
    KeysCons(m[0], m[1..]);
    KeysCons(m[0], rest);
    assert m == [m[0]] + m[1..];
    assert Keys(m)[1..] == Keys(m[1..]);
  }

  /** Lookups of other keys pass the first entry by. */
  lemma KeepsHeadGet<V>(m: seq<Entry<V>>, rest: seq<Entry<V>>)
    requires |m| > 0
    ensures forall j :: j != m[0].key ==> Get([m[0]] + rest, j) == Get(rest, j) && Get(m, j) == Get(m[1..], j)
  {
    var r := [m[0]] + rest;
    forall j | j != m[0].key
      ensures Get(r, j) == Get(rest, j) && Get(m, j) == Get(m[1..], j)
    {
      assert r[1..] == rest;
    }
  }

  /** The first entry's key occurs nowhere in a map drawn from the rest. */
  lemma KeepsHeadValid<V>(m: seq<Entry<V>>, rest: seq<Entry<V>>)
    requires ValidMap(m) && |m| > 0 && ValidMap(rest)
    requires forall i :: 0 <= i < |rest| ==> rest[i] in m[1..]
    ensures ValidMap([m[0]] + rest)
  {
    var r := [m[0]] + rest;
    forall i, j | 0 <= i < j < |r|
      ensures r[i].key != r[j].key
    {
      if i == 0 {
        assert r[j] == rest[j - 1];
        var t :| 0 <= t < |m[1..]| && m[1..][t] == rest[j - 1];
        assert m[t + 1] == rest[j - 1];
      } else {
        assert r[i] == rest[i - 1] && r[j] == rest[j - 1];
      }
    }
  }

  /** The keys of a map with one more entry in front. */
  lemma KeysCons<V>(e: Entry<V>, m: seq<Entry<V>>)
    ensures Keys([e] + m) == [e.key] + Keys(m)
  {
  }
}
