/** Sequence helpers shared by the component models: the std::list operations of
    the simulator (push_back, front, remove) seen as operations on values. */
module Lists {

  datatype Option<+T> = None | Some(value: T)

  /** The elements of s whose test equals `want`, in list order. */
  function Select<T>(p: T -> bool, want: bool, s: seq<T>): (r: seq<T>)
    ensures forall x {:trigger x in r} :: x in r ==> x in s && p(x) == want
    ensures forall x {:trigger x in s} :: x in s && p(x) == want ==> x in r
    ensures |r| <= |s|
  {
    if s == [] then []
    else
      var rest := Select(p, want, s[..|s| - 1]);
      var last := s[|s| - 1];
      assert s == s[..|s| - 1] + [last];
      if p(last) == want then rest + [last] else rest
  }

  lemma {:induction false} SelectSplits<T>(p: T -> bool, s: seq<T>)
    ensures multiset(s) == multiset(Select(p, true, s)) + multiset(Select(p, false, s))
    ensures |s| == |Select(p, true, s)| + |Select(p, false, s)|
  {
    if s != [] {
      var front, last := s[..|s| - 1], s[|s| - 1];
      SelectSplits(p, front);
      var yes, no := multiset(Select(p, true, front)), multiset(Select(p, false, front));
      assert multiset(s) == multiset(front) + multiset{last} by {
        assert s == front + [last];
      }
      if p(last) {
        assert Select(p, true, s) == Select(p, true, front) + [last];
      } else {
        assert Select(p, false, s) == Select(p, false, front) + [last];
      }
    }
  }

  /** list::remove of every element of `gone`. */
  function Without<T(==)>(s: seq<T>, gone: seq<T>): (r: seq<T>)
    ensures forall x {:trigger x in r} :: x in r ==> x in s && x !in gone
    ensures forall x {:trigger x in s} :: x in s && x !in gone ==> x in r
  {
    if s == [] then []
    else
      var rest := Without(s[..|s| - 1], gone);
      var last := s[|s| - 1];
      assert s == s[..|s| - 1] + [last];
      if last in gone then rest else rest + [last]
  }

  lemma {:induction false} WithoutNone<T>(s: seq<T>)
    ensures Without(s, []) == s
  {
    if s != [] {
      WithoutNone(s[..|s| - 1]);
    }
  }

  lemma {:induction false} WithoutStep<T>(s: seq<T>, gone: seq<T>, x: T)
    ensures Without(Without(s, gone), [x]) == Without(s, gone + [x])
  {
    if s != [] {
      var front, last := s[..|s| - 1], s[|s| - 1];
      WithoutStep(front, gone, x);
      var rest := Without(front, gone);
      if last !in gone {
        assert (rest + [last])[..|rest|] == rest;
      }
    }
  }

  lemma WithoutSelected<T>(p: T -> bool, s: seq<T>)
    ensures Without(s, Select(p, true, s)) == Select(p, false, s)
  {
    WithoutSelectedFrom(p, s, Select(p, true, s));
  }

  lemma {:induction false} WithoutSelectedFrom<T>(p: T -> bool, s: seq<T>, gone: seq<T>)
    requires forall x :: x in s ==> (x in gone <==> p(x))
    ensures Without(s, gone) == Select(p, false, s)
  {
    if s != [] {
      assert s == s[..|s| - 1] + [s[|s| - 1]];
      WithoutSelectedFrom(p, s[..|s| - 1], gone);
    }
  }

  ghost predicate NoDup<T>(s: seq<T>) {
    forall i, j :: 0 <= i < j < |s| ==> s[i] != s[j]
  }

  lemma NoDupAppend<T>(a: seq<T>, b: seq<T>)
    requires NoDup(a) && NoDup(b)
    requires forall x :: x in b ==> x !in a
    ensures NoDup(a + b)
  {
    forall i, j | 0 <= i < j < |a + b|
      ensures (a + b)[i] != (a + b)[j]
    {
      if i < |a| <= j {
        assert (a + b)[i] in a && (a + b)[j] in b;
      }
    }
  }

  /** Removing distinct members of a duplicate-free list keeps everything else. */
  lemma {:induction false} WithoutConserves<T>(s: seq<T>, gone: seq<T>)
    requires NoDup(s) && NoDup(gone)
    requires forall x :: x in gone ==> x in s
    ensures multiset(s) == multiset(Without(s, gone)) + multiset(gone)
    ensures NoDup(Without(s, gone))
  {
    if gone == [] {
      WithoutNone(s);
    } else {
      var g, x := gone[..|gone| - 1], gone[|gone| - 1];
      assert gone == g + [x];
      WithoutConserves(s, g);
      WithoutStep(s, g, x);
      var mid := Without(s, g);
      assert x in s && x !in g;
      WithoutOne(mid, x);
    }
  }

  lemma {:induction false} WithoutOne<T>(s: seq<T>, x: T)
    requires NoDup(s) && x in s
    ensures multiset(s) == multiset(Without(s, [x])) + multiset{x}
    ensures NoDup(Without(s, [x]))
  {
    var front, last := s[..|s| - 1], s[|s| - 1];
    assert s == front + [last];
    if last == x {
      WithoutAbsent(front, [x]);
    } else {
      WithoutOne(front, x);
      var rest := Without(front, [x]);
      assert Without(s, [x]) == rest + [last];
      assert last !in rest;
    }
  }

  lemma {:induction false} WithoutAbsent<T>(s: seq<T>, gone: seq<T>)
    requires forall x :: x in gone ==> x !in s
    ensures Without(s, gone) == s
  {
    if s != [] {
      assert s == s[..|s| - 1] + [s[|s| - 1]];
      WithoutAbsent(s[..|s| - 1], gone);
    }
  }

  /** Removing a prefix of a duplicate-free list leaves its suffix. */
  lemma {:induction false} WithoutPrefix<T>(s: seq<T>, k: nat)
    requires NoDup(s) && k <= |s|
    ensures Without(s, s[..k]) == s[k..]
  {
    if k == |s| {
      WithoutAll(s, s);
      assert s[..k] == s;
    } else {
      var front, last := s[..|s| - 1], s[|s| - 1];
      assert front[..k] == s[..k];
      WithoutPrefix(front, k);
      assert s[k..] == front[k..] + [last];
    }
  }

  lemma {:induction false} WithoutAll<T>(s: seq<T>, gone: seq<T>)
    requires forall x :: x in s ==> x in gone
    ensures Without(s, gone) == []
  {
    if s != [] {
      assert s == s[..|s| - 1] + [s[|s| - 1]];
      WithoutAll(s[..|s| - 1], gone);
    }
  }

  lemma NoDupByCount<T>(s: seq<T>)
    requires forall x :: x in s ==> multiset(s)[x] <= 1
    ensures NoDup(s)
  {
    forall i, j | 0 <= i < j < |s|
      ensures s[i] != s[j]
    {
      assert s == s[..j] + [s[j]] + s[j + 1..];
      assert multiset(s) == multiset(s[..j]) + multiset{s[j]} + multiset(s[j + 1..]);
      assert multiset(s)[s[j]] <= 1;
      assert s[j] !in s[..j];
      assert s[i] == s[..j][i];
    }
  }

  lemma {:induction false} CountByNoDup<T>(s: seq<T>, x: T)
    requires NoDup(s)
    ensures multiset(s)[x] == if x in s then 1 else 0
  {
    if s != [] {
      var front, last := s[..|s| - 1], s[|s| - 1];
      assert s == front + [last];
      CountByNoDup(front, x);
    }
  }

  function Map<T, U>(f: T -> U, s: seq<T>): (r: seq<U>)
    ensures |r| == |s|
    ensures forall i :: 0 <= i < |s| ==> r[i] == f(s[i])
  {
    seq(|s|, i requires 0 <= i < |s| => f(s[i]))
  }

  lemma MapAppend<T, U>(f: T -> U, a: seq<T>, b: seq<T>)
    ensures Map(f, a + b) == Map(f, a) + Map(f, b)
  {
  }

  lemma {:induction false} MapSelectSplits<T, U>(f: T -> U, p: T -> bool, s: seq<T>)
    ensures multiset(Map(f, s)) == multiset(Map(f, Select(p, true, s))) + multiset(Map(f, Select(p, false, s)))
  {
    if s != [] {
      var front, last := s[..|s| - 1], s[|s| - 1];
      MapSelectSplits(f, p, front);
      assert s == front + [last];
      MapAppend(f, front, [last]);
      MapAppend(f, Select(p, p(last), front), [last]);
    }
  }

  function TakeOut<T>(s: seq<T>, k: nat): seq<T>
    requires k < |s|
  {
    s[..k] + s[k + 1..]
  }

  lemma TakeOutSplits<T>(s: seq<T>, k: nat)
    requires k < |s|
    ensures multiset(TakeOut(s, k)) == multiset(s) - multiset{s[k]}
    ensures multiset(s) == multiset(TakeOut(s, k)) + multiset{s[k]}
  {
    assert s == s[..k] + [s[k]] + s[k + 1..];
    assert multiset(s) == multiset(s[..k]) + multiset{s[k]} + multiset(s[k + 1..]);
  }

  lemma TakeOutAbsent<T>(s: seq<T>, k: nat)
    requires NoDup(s) && k < |s|
    ensures s[k] !in TakeOut(s, k) && NoDup(TakeOut(s, k))
    ensures forall x :: x in TakeOut(s, k) <==> x in s && x != s[k]
  {
    var r := TakeOut(s, k);
    assert forall i :: 0 <= i < |r| ==> r[i] == if i < k then s[i] else s[i + 1];
    forall x | x in s && x != s[k]
      ensures x in r
    {
      var i :| 0 <= i < |s| && s[i] == x;
      assert r[if i < k then i else i - 1] == x;
    }
  }

  lemma MapTakeOut<T, U>(f: T -> U, s: seq<T>, k: nat)
    requires k < |s|
    ensures Map(f, TakeOut(s, k)) == TakeOut(Map(f, s), k)
  {
  }

  lemma {:induction false} MapPermutes<T, U>(f: T -> U, a: seq<T>, b: seq<T>)
    requires multiset(a) == multiset(b)
    ensures multiset(Map(f, a)) == multiset(Map(f, b))
  {
    if a == [] {
      assert |multiset(b)| == 0;
    } else {
      var last := |a| - 1;
      assert a[last] in multiset(b);
      var k :| 0 <= k < |b| && b[k] == a[last];
      TakeOutSplits(a, last);
      TakeOutSplits(b, k);
      MapPermutes(f, TakeOut(a, last), TakeOut(b, k));
      MapTakeOut(f, a, last);
      MapTakeOut(f, b, k);
      TakeOutSplits(Map(f, a), last);
      TakeOutSplits(Map(f, b), k);
    }
  }

  lemma {:induction false} SelectAppend<T>(p: T -> bool, want: bool, a: seq<T>, b: seq<T>)
    ensures Select(p, want, a + b) == Select(p, want, a) + Select(p, want, b)
  {
    if b == [] {
      assert a + b == a;
    } else {
      var front, last := b[..|b| - 1], b[|b| - 1];
      SelectAppend(p, want, a, front);
      var all := a + b;
      assert all[..|all| - 1] == a + front && all[|all| - 1] == last;
      var x, y := Select(p, want, a), Select(p, want, front);
      if p(last) == want {
        assert Select(p, want, b) == y + [last];
        assert Select(p, want, all) == (x + y) + [last];
        assert (x + y) + [last] == x + (y + [last]);
      } else {
        assert Select(p, want, b) == y && Select(p, want, all) == x + y;
      }
    }
  }

  lemma SelectHead<T>(p: T -> bool, want: bool, s: seq<T>)
    requires s != []
    ensures Select(p, want, s) == (if p(s[0]) == want then [s[0]] else []) + Select(p, want, s[1..])
  {
    assert s == [s[0]] + s[1..];
    SelectAppend(p, want, [s[0]], s[1..]);
    assert [s[0]][..0] == [];
  }

  lemma {:induction false} SelectSame<T>(p: T -> bool, want: bool, s: seq<T>)
    requires forall x :: x in s ==> p(x) == want
    ensures Select(p, want, s) == s && Select(p, !want, s) == []
  {
    if s != [] {
      assert s == s[..|s| - 1] + [s[|s| - 1]];
      SelectSame(p, want, s[..|s| - 1]);
    }
  }

  lemma {:induction false} SelectNoDup<T>(p: T -> bool, want: bool, s: seq<T>)
    requires NoDup(s)
    ensures NoDup(Select(p, want, s))
  {
    if s != [] {
      var front, last := s[..|s| - 1], s[|s| - 1];
      SelectNoDup(p, want, front);
      assert last !in front;
      NoDupAppend(Select(p, want, front), [last]);
    }
  }

  // ----- finite sums

  ghost function SumTo<T>(ms: seq<multiset<T>>, n: nat): multiset<T>
    requires n <= |ms|
  {
    if n == 0 then multiset{} else SumTo(ms, n - 1) + ms[n - 1]
  }

  lemma {:induction false} SumToUpdate<T>(ms: seq<multiset<T>>, j: nat, m: multiset<T>, n: nat)
    requires j < |ms| && n <= |ms|
    ensures j < n ==> SumTo(ms[j := m], n) + ms[j] == SumTo(ms, n) + m
    ensures n <= j ==> SumTo(ms[j := m], n) == SumTo(ms, n)
  {
    if n > 0 {
      SumToUpdate(ms, j, m, n - 1);
      if j < n - 1 {
        var x, y, h := SumTo(ms[j := m], n - 1), SumTo(ms, n - 1), ms[n - 1];
        assert x + h + ms[j] == (x + ms[j]) + h == (y + m) + h == y + h + m;
      }
    }
  }

  lemma {:induction false} SumToSplits<T>(a: seq<multiset<T>>, b: seq<multiset<T>>, c: seq<multiset<T>>, n: nat)
    requires n <= |a| && n <= |b| && n <= |c|
    requires forall i :: 0 <= i < n ==> a[i] == b[i] + c[i]
    ensures SumTo(a, n) == SumTo(b, n) + SumTo(c, n)
  {
    if n > 0 {
      SumToSplits(a, b, c, n - 1);
      var x, y := SumTo(b, n - 1), SumTo(c, n - 1);
      assert (x + y) + (b[n - 1] + c[n - 1]) == (x + b[n - 1]) + (y + c[n - 1]);
    }
  }

  /** Adding the same to both sides of a balance. */
  lemma Swap<T>(a: multiset<T>, b: multiset<T>, x: multiset<T>, y: multiset<T>, c: multiset<T>)
    requires a + x == b + y
    ensures (a + c) + x == (b + c) + y
  {
    assert (a + c) + x == (a + x) + c;
    assert (b + c) + y == (b + y) + c;
  }

  function SumNat(xs: seq<nat>, n: nat): nat
    requires n <= |xs|
  {
    if n == 0 then 0 else SumNat(xs, n - 1) + xs[n - 1]
  }

  lemma {:induction false} SumNatUpdate(xs: seq<nat>, j: nat, x: nat, n: nat)
    requires j < |xs| && n <= |xs|
    ensures j < n ==> SumNat(xs[j := x], n) + xs[j] == SumNat(xs, n) + x
    ensures n <= j ==> SumNat(xs[j := x], n) == SumNat(xs, n)
  {
    if n > 0 {
      SumNatUpdate(xs, j, x, n - 1);
    }
  }

  lemma {:induction false} SumNatSplits(a: seq<nat>, b: seq<nat>, c: seq<nat>, n: nat)
    requires n <= |a| && n <= |b| && n <= |c|
    requires forall i :: 0 <= i < n ==> a[i] == b[i] + c[i]
    ensures SumNat(a, n) == SumNat(b, n) + SumNat(c, n)
  {
    if n > 0 {
      SumNatSplits(a, b, c, n - 1);
    }
  }

  /** The first n lists, one after the other. */
  function Concat<T>(ss: seq<seq<T>>, n: nat): seq<T>
    requires n <= |ss|
  {
    if n == 0 then [] else Concat(ss, n - 1) + ss[n - 1]
  }

  ghost function Bags<T>(ss: seq<seq<T>>): seq<multiset<T>> {
    seq(|ss|, i requires 0 <= i < |ss| => multiset(ss[i]))
  }

  lemma {:induction false} ConcatIsSum<T>(ss: seq<seq<T>>, n: nat)
    requires n <= |ss|
    ensures multiset(Concat(ss, n)) == SumTo(Bags(ss), n)
  {
    if n > 0 {
      ConcatIsSum(ss, n - 1);
      assert multiset(Concat(ss, n)) == multiset(Concat(ss, n - 1)) + multiset(ss[n - 1]);
    }
  }

  // ----- lists by last use

  /** One plus the position of the last element of s that uses x, 0 if none does. */
  function LastUse<T, K>(uses: (T, K) -> bool, s: seq<T>, x: K): (t: nat)
    ensures t <= |s| && (t > 0 ==> uses(s[t - 1], x))
    ensures forall i :: t <= i < |s| ==> !uses(s[i], x)
  {
    if s == [] then 0
    else
      var n := |s| - 1;
      if uses(s[n], x) then n + 1 else LastUse(uses, s[..n], x)
  }

  /** Listed by decreasing last use, and only what has been used is listed. */
  ghost predicate ByLastUse<T, K>(uses: (T, K) -> bool, s: seq<T>, list: seq<K>) {
    && (forall i :: 0 <= i < |list| ==> LastUse(uses, s, list[i]) > 0)
    && (forall i, k :: 0 <= i < k < |list| ==> LastUse(uses, s, list[i]) > LastUse(uses, s, list[k]))
  }

  lemma ByLastUseNoDup<T, K>(uses: (T, K) -> bool, s: seq<T>, list: seq<K>)
    requires ByLastUse(uses, s, list)
    ensures NoDup(list)
  {
    forall i, k | 0 <= i < k < |list|
      ensures list[i] != list[k]
    {
      assert LastUse(uses, s, list[i]) > LastUse(uses, s, list[k]);
    }
  }

  /** What is left of a list stays ordered. */
  lemma {:induction false} WithoutByLastUse<T, K>(uses: (T, K) -> bool, s: seq<T>, list: seq<K>, x: K)
    requires ByLastUse(uses, s, list)
    ensures ByLastUse(uses, s, Without(list, [x]))
  {
    hide LastUse;
    if list != [] {
      var front, last := list[..|list| - 1], list[|list| - 1];
      WithoutByLastUse(uses, s, front, x);
      var w := Without(front, [x]);
      forall y | y in w
        ensures LastUse(uses, s, y) > LastUse(uses, s, last)
      {
        var i :| 0 <= i < |front| && front[i] == y;
        assert list[i] == y;
      }
    }
  }

  /** A step that uses nothing listed keeps the order. */
  lemma UseNone<T, K>(uses: (T, K) -> bool, s: seq<T>, e: T, list: seq<K>)
    requires ByLastUse(uses, s, list) && forall y :: y in list ==> !uses(e, y)
    ensures ByLastUse(uses, s + [e], list)
  {
    assert (s + [e])[..|s|] == s;
    forall i | 0 <= i < |list|
      ensures LastUse(uses, s + [e], list[i]) == LastUse(uses, s, list[i])
    {
      assert list[i] in list;
    }
  }

  /** What is used goes to the front. */
  lemma UseFront<T, K>(uses: (T, K) -> bool, s: seq<T>, e: T, x: K, rest: seq<K>)
    requires ByLastUse(uses, s, rest) && uses(e, x) && forall y :: y in rest ==> !uses(e, y)
    ensures ByLastUse(uses, s + [e], [x] + rest)
  {
    UseNone(uses, s, e, rest);
    var r := [x] + rest;
    assert (s + [e])[..|s|] == s;
    forall i | 0 <= i < |rest|
      ensures LastUse(uses, s + [e], rest[i]) <= |s|
    {
      assert rest[i] in rest;
    }
    assert forall i :: 0 < i < |r| ==> r[i] == rest[i - 1];
  }
}
