/** Python's `sorted(xs, key=k, reverse=True)` and `xs.sort(key=k, reverse=True)`:
    a stable sort into non-increasing key order. */
module Ranking {

  /** `t` is in non-increasing key order. */
  predicate SortedDesc<T>(key: T -> real, t: seq<T>)
  {
    forall i, j :: 0 <= i < j < |t| ==> key(t[i]) >= key(t[j])
  }

  /** Places `x` in front of the first element of `t` whose key is not larger. */
  function Insert<T>(key: T -> real, x: T, t: seq<T>): (r: seq<T>)
    ensures |r| == |t| + 1
    ensures multiset(r) == multiset(t) + multiset{x}
  {
    if t == [] || key(t[0]) <= key(x) then [x] + t
    else
      assert t == [t[0]] + t[1..];
      [t[0]] + Insert(key, x, t[1..])
  }

  /** The stable sort in non-increasing key order. */
  function SortDesc<T>(key: T -> real, s: seq<T>): (r: seq<T>)
    ensures |r| == |s|
  {
    if s == [] then [] else Insert(key, s[0], SortDesc(key, s[1..]))
  }

  /** The elements of `s` whose key is `v`, in their order in `s`. */
  function WithKey<T>(key: T -> real, s: seq<T>, v: real): seq<T>
  {
    if s == [] then []
    else (if key(s[0]) == v then [s[0]] else []) + WithKey(key, s[1..], v)
  }

  lemma {:induction false} InsertSorted<T>(key: T -> real, x: T, t: seq<T>)
    requires SortedDesc(key, t)
    ensures SortedDesc(key, Insert(key, x, t))
    ensures Insert(key, x, t) != [] && (Insert(key, x, t)[0] == x || (t != [] && Insert(key, x, t)[0] == t[0]))
  {
    if t != [] && key(t[0]) > key(x) {
      InsertSorted(key, x, t[1..]);
      var r := Insert(key, x, t[1..]);
      assert key(t[0]) >= key(r[0]) by {
        if r[0] != x {
          assert t[1..][0] == t[1];
        }
      }
      assert forall i, j :: 0 <= i < j < |[t[0]] + r| ==> key(([t[0]] + r)[i]) >= key(([t[0]] + r)[j]) by {
        forall i, j | 0 <= i < j < |[t[0]] + r| ensures key(([t[0]] + r)[i]) >= key(([t[0]] + r)[j]) {
          if i > 0 {
            assert ([t[0]] + r)[i] == r[i - 1];
          }
          assert ([t[0]] + r)[j] == r[j - 1];
        }
      }
    } else if t != [] {
      assert forall j :: 0 <= j < |t| ==> key(t[0]) >= key(t[j]);
    }
  }

  /** The result is in non-increasing key order. */
  lemma {:induction false} SortDescSorted<T>(key: T -> real, s: seq<T>)
    ensures SortedDesc(key, SortDesc(key, s))
  {
    if s != [] {
      SortDescSorted(key, s[1..]);
      InsertSorted(key, s[0], SortDesc(key, s[1..]));
    }
  }

  /** The result is a permutation of the input. */
  lemma {:induction false} SortDescPermutes<T>(key: T -> real, s: seq<T>)
    ensures multiset(SortDesc(key, s)) == multiset(s)
  {
    if s != [] {
      SortDescPermutes(key, s[1..]);
      assert s == [s[0]] + s[1..];
    }
  }

  /** Every element `Insert` passes over has a larger key than `x`, so none of them
      shares its key. */
  lemma {:induction false} InsertWithKey<T>(key: T -> real, x: T, t: seq<T>, v: real)
    ensures WithKey(key, Insert(key, x, t), v) == (if key(x) == v then [x] else []) + WithKey(key, t, v)
  {
    if t != [] && key(t[0]) > key(x) {
      InsertWithKey(key, x, t[1..], v);
      var r := Insert(key, x, t);
      assert r[1..] == Insert(key, x, t[1..]);
    }
  }

  /** The sort is stable: the elements with any one key keep their input order. */
  lemma {:induction false} SortDescStable<T>(key: T -> real, s: seq<T>, v: real)
    ensures WithKey(key, SortDesc(key, s), v) == WithKey(key, s, v)
  {
    if s != [] {
      SortDescStable(key, s[1..], v);
      InsertWithKey(key, s[0], SortDesc(key, s[1..]), v);
    }
  }

  /** `sorted(...)[:n]`: the first `n` elements of the stable sort. */
  function Top<T>(key: T -> real, s: seq<T>, n: nat): (r: seq<T>)
    ensures |r| == if n <= |s| then n else |s|
  {
    var t := SortDesc(key, s);
    if n <= |t| then t[..n] else t
  }

  /** What is kept is in non-increasing key order, is taken from the input, and no
      element left out has a larger key than any element kept. */
  lemma TopIsTop<T>(key: T -> real, s: seq<T>, n: nat)
    ensures SortedDesc(key, Top(key, s, n))
    ensures multiset(Top(key, s, n)) <= multiset(s)
    ensures forall c, i :: c in s && c !in Top(key, s, n) && 0 <= i < |Top(key, s, n)| ==>
      key(c) <= key(Top(key, s, n)[i])
  {
    var t := SortDesc(key, s);
    var r := Top(key, s, n);
    SortDescSorted(key, s);
    SortDescPermutes(key, s);
    assert t == r + t[|r|..];
    assert forall c :: c in s ==> c in t by {
      forall c | c in s ensures c in t {
        assert c in multiset(s);
      }
    }
    KeptDominate(key, t, |r|);
  }

  lemma KeptDominate<T>(key: T -> real, t: seq<T>, m: nat)
    requires SortedDesc(key, t) && m <= |t|
    ensures forall c, i :: c in t && c !in t[..m] && 0 <= i < m ==> key(c) <= key(t[..m][i])
  {
    forall c, i | c in t && c !in t[..m] && 0 <= i < m ensures key(c) <= key(t[..m][i]) {
      var j :| 0 <= j < |t| && t[j] == c;
      assert j >= m;
      assert t[..m][i] == t[i];
    }
  }

  lemma {:induction false} WithKeyAppend<T>(key: T -> real, a: seq<T>, b: seq<T>, v: real)
    ensures WithKey(key, a + b, v) == WithKey(key, a, v) + WithKey(key, b, v)
  {
    if a == [] {
      assert a + b == b;
    } else {
      WithKeyAppend(key, a[1..], b, v);
      assert (a + b)[0] == a[0];
      assert (a + b)[1..] == a[1..] + b;
    }
  }

  /** Elements with equal keys are kept in their input order: those kept are the
      first ones of the input. */
  lemma TopStable<T>(key: T -> real, s: seq<T>, n: nat, v: real)
    ensures var w := WithKey(key, Top(key, s, n), v);
      |w| <= |WithKey(key, s, v)| && w == WithKey(key, s, v)[..|w|]
  {
    var t := SortDesc(key, s);
    var r := Top(key, s, n);
    assert t == r + t[|r|..];
    WithKeyAppend(key, r, t[|r|..], v);
    SortDescStable(key, s, v);
  }
}
