/**
 The `std::map<std::string, long long>` that holds a test case's timings.
 A `std::map` keeps its keys unique and visits them in ascending order of
 `std::string::operator<`, which compares character by character and puts
 a proper prefix first. The model is an association list whose keys are
 strictly ascending in that order, so iterating it is iterating the list.
 */
module OrderedMap {

  datatype Option<T> = None | Some(value: T)

  /** Lexicographic order on strings, character by character, a proper prefix first. */
  predicate StrLess(a: string, b: string)
  {
    if |a| == 0 then |b| > 0
    else if |b| == 0 then false
    else if a[0] != b[0] then a[0] < b[0]
    else StrLess(a[1..], b[1..])
  }

  lemma {:induction false} StrLessIrreflexive(a: string)
    ensures !StrLess(a, a)
  {
    if |a| > 0 {
      StrLessIrreflexive(a[1..]);
    }
  }

  lemma {:induction false} StrLessTransitive(a: string, b: string, c: string)
    requires StrLess(a, b) && StrLess(b, c)
    ensures StrLess(a, c)
  {
    if |a| > 0 && a[0] == b[0] && b[0] == c[0] {
      StrLessTransitive(a[1..], b[1..], c[1..]);
    }
  }

  /** Any two distinct strings are ordered one way or the other. */
  lemma {:induction false} StrLessTotal(a: string, b: string)
    requires a != b
    ensures StrLess(a, b) || StrLess(b, a)
  {
    if |a| > 0 && |b| > 0 && a[0] == b[0] {
      assert a == [a[0]] + a[1..] && b == [b[0]] + b[1..];
      StrLessTotal(a[1..], b[1..]);
    }
  }

  lemma {:induction false} StrLessAsymmetric(a: string, b: string)
    requires StrLess(a, b)
    ensures !StrLess(b, a)
  {
    if StrLess(b, a) {
      StrLessTransitive(a, b, a);
      StrLessIrreflexive(a);
    }
  }

  predicate StrictlyAscending(m: seq<(string, int)>)
  {
    forall i, j :: 0 <= i < j < |m| ==> StrLess(m[i].0, m[j].0)
  }

  /** A map from string keys to integers, in ascending key order. */
  type OrderedMap = m: seq<(string, int)> | StrictlyAscending(m) witness []

  function KeySet(m: OrderedMap): set<string>
  {
    set i | 0 <= i < |m| :: m[i].0
  }

  /** The keys in iteration order. */
  function Keys(m: OrderedMap): (ks: seq<string>)
    ensures |ks| == |m|
    ensures forall i :: 0 <= i < |m| ==> ks[i] == m[i].0
    ensures forall i, j :: 0 <= i < j < |ks| ==> StrLess(ks[i], ks[j])
    ensures forall k :: k in ks <==> k in KeySet(m)
  {
    seq(|m|, i requires 0 <= i < |m| => m[i].0)
  }

  lemma TailAscending(m: OrderedMap)
    requires |m| > 0
    ensures StrictlyAscending(m[1..])
    ensures forall k :: k in KeySet(m[1..]) ==> StrLess(m[0].0, k)
    ensures KeySet(m) == {m[0].0} + KeySet(m[1..])
  {
    forall k | k in KeySet(m) ensures k == m[0].0 || k in KeySet(m[1..]) {
      var i :| 0 <= i < |m| && m[i].0 == k;
      if i > 0 {
        assert m[1..][i - 1].0 == k;
      }
    }
  }

  /** `m.find(k)`: the value stored under k, or nothing. */
  function Find(m: OrderedMap, k: string): (r: Option<int>)
    ensures r.Some? <==> k in KeySet(m)
    ensures r.Some? ==> (k, r.value) in m
    ensures r.None? ==> forall i :: 0 <= i < |m| ==> m[i].0 != k
    decreases |m|
  {
    if |m| == 0 then None
    else if m[0].0 == k then Some(m[0].1)
    else
      TailAscending(m);
      Find(m[1..], k)
  }

  /** `m[k] = v`: overwrite the value under k, or insert k at its place in the order. */
  function Put(m: OrderedMap, k: string, v: int): (r: OrderedMap)
    ensures KeySet(r) == KeySet(m) + {k}
    ensures Find(r, k) == Some(v)
    ensures forall k' :: k' != k ==> Find(r, k') == Find(m, k')
    decreases |m|
  {
    if |m| == 0 then
      var r: seq<(string, int)> := [(k, v)];
      assert r[0].0 in KeySet(r);
      r
    else if m[0].0 == k then
      TailAscending(m);
      var r: seq<(string, int)> := [(k, v)] + m[1..];
      assert r[1..] == m[1..];
      TailAscending(r);
      r
    else if StrLess(k, m[0].0) then
      forall j | 0 <= j < |m| ensures StrLess(k, m[j].0) {
        if j > 0 {
          StrLessTransitive(k, m[0].0, m[j].0);
        }
      }
      var r: seq<(string, int)> := [(k, v)] + m;
      assert r[1..] == m;
      TailAscending(r);
      r
    else
      TailAscending(m);
      StrLessTotal(k, m[0].0);
      var rest := Put(m[1..], k, v);
      var r: seq<(string, int)> := [m[0]] + rest;
      assert r[1..] == rest;
      forall j | 0 <= j < |rest| ensures StrLess(m[0].0, rest[j].0) {
        assert rest[j].0 in KeySet(rest);
      }
      TailAscending(r);
      r
  }

  /** Storing under a then under a greater b in an empty map leaves the two entries in that order. */
  lemma PutTwo(a: string, x: int, b: string, y: int)
    requires StrLess(a, b)
    ensures Put(Put([], a, x), b, y) == [(a, x), (b, y)]
  {
    var first := Put([], a, x);
    assert first == [(a, x)];
    StrLessAsymmetric(a, b);
    assert b != a by {
      StrLessIrreflexive(a);
    }
    assert Put(first, b, y) == [first[0]] + Put(first[1..], b, y);
    assert first[1..] == [];
  }
}
