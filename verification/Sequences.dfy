/** Small facts about sequences and their bags of elements. */
module Sequences {

  lemma Assoc<T>(a: seq<T>, b: seq<T>, c: seq<T>)
    ensures a + (b + c) == a + b + c
  {
  }

  /** Equal bags: the first element of one occurs in the other, and the rests are equal bags. */
  lemma RemoveFirst<T>(s: seq<T>, t: seq<T>) returns (j: nat)
    requires s != [] && multiset(s) == multiset(t)
    ensures j < |t| && t[j] == s[0] && t == t[..j] + [s[0]] + t[j + 1..]
    ensures multiset(s[1..]) == multiset(t[..j] + t[j + 1..])
  {
    assert s[0] in multiset(t);
    j :| 0 <= j < |t| && t[j] == s[0];
    assert s == [s[0]] + s[1..];
    assert t == t[..j] + [s[0]] + t[j + 1..];
    assert multiset(t) == multiset(t[..j]) + multiset{s[0]} + multiset(t[j + 1..]);
    assert multiset(s) == multiset{s[0]} + multiset(s[1..]);
    assert multiset(s[1..]) == multiset(s) - multiset{s[0]};
    assert multiset(t[..j] + t[j + 1..]) == multiset(t) - multiset{s[0]};
  }

  function Map<T, U>(f: T -> U, s: seq<T>): (r: seq<U>)
    ensures |r| == |s| && forall i :: 0 <= i < |s| ==> r[i] == f(s[i])
  {
    seq(|s|, i requires 0 <= i < |s| => f(s[i]))
  }

  lemma MapMiddle<T, U>(f: T -> U, a: seq<T>, x: T, b: seq<T>)
    ensures multiset(Map(f, a + [x] + b)) == multiset(Map(f, a + b)) + multiset{f(x)}
  {
    var u, v := Map(f, a), Map(f, b);
    assert Map(f, a + [x] + b) == u + [f(x)] + v;
    assert Map(f, a + b) == u + v;
  }

  /** Mapping respects bags. */
  lemma {:induction false} MapBag<T, U>(f: T -> U, s: seq<T>, t: seq<T>)
    requires multiset(s) == multiset(t)
    ensures multiset(Map(f, s)) == multiset(Map(f, t))
  {
    if s == [] {
      assert |multiset(t)| == 0;
    } else {
      var j := RemoveFirst(s, t);
      MapBag(f, s[1..], t[..j] + t[j + 1..]);
      hide Map;
      MapMiddle(f, [], s[0], s[1..]);
      MapMiddle(f, t[..j], s[0], t[j + 1..]);
      assert [] + [s[0]] + s[1..] == s && [] + s[1..] == s[1..];
    }
  }

  predicate DistinctBy<T, K(==)>(key: T -> K, s: seq<T>) {
    forall i, j :: 0 <= i < j < |s| ==> key(s[i]) != key(s[j])
  }

  /** Distinctness is a property of the bag. */
  lemma {:induction false} DistinctBag<T, K>(key: T -> K, u: seq<T>, v: seq<T>)
    requires multiset(u) == multiset(v) && DistinctBy(key, u)
    ensures DistinctBy(key, v)
  {
    if u == [] {
      assert |multiset(v)| == 0;
    } else {
      var j := RemoveFirst(u, v);
      var rest := v[..j] + v[j + 1..];
      DistinctBag(key, u[1..], rest);
      forall i | 0 <= i < |rest| ensures key(rest[i]) != key(u[0]) {
        assert rest[i] in multiset(u[1..]);
      }
      InsertDistinct(key, v[..j], u[0], v[j + 1..]);
    }
  }

  lemma InsertDistinct<T, K>(key: T -> K, a: seq<T>, x: T, b: seq<T>)
    requires DistinctBy(key, a + b) && forall i :: 0 <= i < |a + b| ==> key((a + b)[i]) != key(x)
    ensures DistinctBy(key, a + [x] + b)
  {
    var v := a + [x] + b;
    forall i, j | 0 <= i < j < |v| ensures key(v[i]) != key(v[j]) {
      if i != |a| {
        assert v[i] == (a + b)[if i < |a| then i else i - 1];
      }
      if j != |a| {
        assert v[j] == (a + b)[if j < |a| then j else j - 1];
      }
    }
  }

  function KeysOf<T, K(==)>(key: T -> K, s: seq<T>): set<K> {
    set i | 0 <= i < |s| :: key(s[i])
  }

  /** Distinct keys are as many as their elements. */
  lemma {:induction false} DistinctCount<T, K>(key: T -> K, s: seq<T>)
    requires DistinctBy(key, s)
    ensures |KeysOf(key, s)| == |s|
  {
    if s != [] {
      var n := |s| - 1;
      DistinctCount(key, s[..n]);
      assert KeysOf(key, s) == KeysOf(key, s[..n]) + {key(s[n])} by {
        assert forall i :: 0 <= i < n ==> s[..n][i] == s[i];
      }
    }
  }

  lemma {:induction false} SubsetSize<T>(a: set<T>, b: set<T>)
    requires a <= b
    ensures |a| <= |b|
  {
    if a != {} {
      var x :| x in a;
      SubsetSize(a - {x}, b - {x});
    }
  }

  /** Whatever a smaller bag leaves out. */
  lemma {:induction false} Complement<T>(sub: seq<T>, s: seq<T>) returns (rest: seq<T>)
    requires multiset(sub) <= multiset(s)
    ensures multiset(sub + rest) == multiset(s)
  {
    if sub == [] {
      rest := s;
      assert sub + rest == s;
    } else {
      var fewer := Without(s, sub[0], sub[1..], sub);
      rest := Complement(sub[1..], fewer);
      assert sub + rest == [sub[0]] + (sub[1..] + rest);
    }
  }

  lemma Without<T>(s: seq<T>, x: T, tail: seq<T>, sub: seq<T>) returns (fewer: seq<T>)
    requires multiset(sub) <= multiset(s) && sub == [x] + tail
    ensures multiset(s) == multiset(fewer) + multiset{x} && multiset(tail) <= multiset(fewer)
  {
    assert multiset(sub) == multiset{x} + multiset(tail);
    assert x in multiset(s);
    var j :| 0 <= j < |s| && s[j] == x;
    fewer := s[..j] + s[j + 1..];
    assert s == s[..j] + [x] + s[j + 1..];
    assert multiset(s) == multiset(fewer) + multiset{x};
    assert multiset(fewer) == multiset(s) - multiset{x};
    assert multiset(tail) == multiset(sub) - multiset{x};
  }
}
