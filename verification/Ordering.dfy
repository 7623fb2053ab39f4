/** The order Python gives integers, strings and tuples of them, and its stable `sorted`. */
module Ordering {
  import opened Collections

  datatype Value = Num(n: int) | Str(s: string) | Tuple(items: seq<Value>)

  function Sign(a: int, b: int): int {
    if a < b then -1 else if a > b then 1 else 0
  }

  /** Negative, zero or positive as `a` comes before, equals or comes after `b`. */
  function Compare(a: Value, b: Value): int
    decreases a, 0
  {
    match (a, b)
    case (Num(x), Num(y)) => Sign(x, y)
    case (Str(x), Str(y)) => CompareText(x, y)
    case (Tuple(x), Tuple(y)) => CompareItems(x, y)
    case (Num(_), _) => -1
    case (_, Num(_)) => 1
    case (Str(_), _) => -1
    case (_, Str(_)) => 1
  }

  function CompareText(x: string, y: string): int {
    if x == [] || y == [] then Sign(|x|, |y|)
    else if x[0] != y[0] then Sign(x[0] as int, y[0] as int)
    else CompareText(x[1..], y[1..])
  }

  function CompareItems(x: seq<Value>, y: seq<Value>): int
    decreases x
  {
    if x == [] || y == [] then Sign(|x|, |y|)
    else
      var c := Compare(x[0], y[0]);
      if c != 0 then c else CompareItems(x[1..], y[1..])
  }

  predicate Leq(a: Value, b: Value) {
    Compare(a, b) <= 0
  }

  // ---------- a total order ----------

  lemma {:induction false} TextOrder(x: string, y: string, z: string)
    ensures CompareText(x, y) == 0 <==> x == y
    ensures CompareText(y, x) == -CompareText(x, y)
    ensures CompareText(x, y) <= 0 && CompareText(y, z) <= 0 ==> CompareText(x, z) <= 0
    decreases |x| + |y| + |z|
  {
    if x != [] && y != [] && x[0] == y[0] {
      assert x == y <==> x[1..] == y[1..] by { assert x == [x[0]] + x[1..] && y == [y[0]] + y[1..]; }
      TextOrder(x[1..], y[1..], if z == [] then [] else z[1..]);
    }
  }

  lemma {:induction false} Antisymmetric(a: Value, b: Value)
    ensures Compare(a, b) == 0 <==> a == b
    ensures Compare(b, a) == -Compare(a, b)
    decreases a, 0
  {
    match (a, b)
    case (Str(x), Str(y)) => TextOrder(x, y, x);
    case (Tuple(x), Tuple(y)) => ItemsAntisymmetric(x, y);
    case _ =>
  }

  lemma {:induction false} ItemsAntisymmetric(x: seq<Value>, y: seq<Value>)
    ensures CompareItems(x, y) == 0 <==> x == y
    ensures CompareItems(y, x) == -CompareItems(x, y)
    decreases x
  {
    if x != [] && y != [] {
      Antisymmetric(x[0], y[0]);
      ItemsAntisymmetric(x[1..], y[1..]);
      assert x == [x[0]] + x[1..] && y == [y[0]] + y[1..];
    }
  }

  lemma {:induction false} Transitive(a: Value, b: Value, c: Value)
    requires Leq(a, b) && Leq(b, c)
    ensures Leq(a, c)
    decreases a, 0
  {
    match (a, b, c)
    case (Str(x), Str(y), Str(z)) => TextOrder(x, y, z);
    case (Tuple(x), Tuple(y), Tuple(z)) => ItemsTransitive(x, y, z);
    case _ =>
  }

  lemma {:induction false} ItemsTransitive(x: seq<Value>, y: seq<Value>, z: seq<Value>)
    requires CompareItems(x, y) <= 0 && CompareItems(y, z) <= 0
    ensures CompareItems(x, z) <= 0
    decreases x
  {
    if x != [] && y != [] && z != [] {
      Transitive(x[0], y[0], z[0]);
      Antisymmetric(x[0], y[0]);
      Antisymmetric(y[0], z[0]);
      Antisymmetric(x[0], z[0]);
      if x[0] == y[0] && y[0] == z[0] { ItemsTransitive(x[1..], y[1..], z[1..]); }
      if Compare(x[0], z[0]) == 0 { Antisymmetric(z[0], y[0]); }
    }
  }

  /** `x` comes before `y` at position `k`: they agree up to there, and there `x` ends or is smaller. */
  predicate TextBefore(x: string, y: string, k: nat) {
    k <= |x| && k < |y| && x[..k] == y[..k] && (k == |x| || x[k] < y[k])
  }

  predicate TupleBefore(x: seq<Value>, y: seq<Value>, k: nat) {
    k <= |x| && k < |y| && x[..k] == y[..k] && (k == |x| || Compare(x[k], y[k]) < 0)
  }

  lemma SameStart<T>(x: seq<T>, y: seq<T>, k: nat)
    requires k <= |x| && k <= |y| && x[..k] == y[..k]
    ensures k > 0 ==> x[0] == y[0]
  {
    if k > 0 { assert x[0] == x[..k][0] && y[0] == y[..k][0]; }
  }

  /** The order of strings is that of their first difference. */
  lemma {:induction false} TextOrderMeaning(x: string, y: string)
    ensures CompareText(x, y) < 0 <==> exists k: nat :: TextBefore(x, y, k)
    decreases |x|
  {
    if x != [] && y != [] && x[0] == y[0] {
      TextOrderMeaning(x[1..], y[1..]);
      if CompareText(x, y) < 0 {
        var k: nat :| TextBefore(x[1..], y[1..], k);
        assert x[..k + 1] == [x[0]] + x[1..][..k] && y[..k + 1] == [y[0]] + y[1..][..k];
        assert TextBefore(x, y, k + 1);
      }
      if k: nat :| TextBefore(x, y, k) {
        assert x[1..][..k - 1] == x[..k][1..] && y[1..][..k - 1] == y[..k][1..];
        assert TextBefore(x[1..], y[1..], k - 1);
      }
    } else if CompareText(x, y) < 0 {
      assert x[..0] == y[..0];
      assert TextBefore(x, y, 0);
    } else if k: nat :| TextBefore(x, y, k) {
      SameStart(x, y, k);
    }
  }

  /** And so is that of tuples; numbers are ordered by size. */
  lemma {:induction false} TupleOrderMeaning(x: seq<Value>, y: seq<Value>)
    ensures CompareItems(x, y) < 0 <==> exists k: nat :: TupleBefore(x, y, k)
    decreases |x|
  {
    hide Compare;
    if x != [] && y != [] && x[0] == y[0] {
      Antisymmetric(x[0], y[0]);
      TupleOrderMeaning(x[1..], y[1..]);
      if CompareItems(x, y) < 0 {
        var k: nat :| TupleBefore(x[1..], y[1..], k);
        assert x[..k + 1] == [x[0]] + x[1..][..k] && y[..k + 1] == [y[0]] + y[1..][..k];
        assert TupleBefore(x, y, k + 1);
      }
      if k: nat :| TupleBefore(x, y, k) {
        Antisymmetric(x[0], x[0]);
        assert x[1..][..k - 1] == x[..k][1..] && y[1..][..k - 1] == y[..k][1..];
        assert TupleBefore(x[1..], y[1..], k - 1);
      }
    } else {
      if x != [] && y != [] { Antisymmetric(x[0], y[0]); }
      if CompareItems(x, y) < 0 {
        assert x[..0] == y[..0];
        assert TupleBefore(x, y, 0);
      }
      if k: nat :| TupleBefore(x, y, k) {
        SameStart(x, y, k);
      }
    }
  }

  lemma NumberOrderMeaning(a: int, b: int)
    ensures Compare(Num(a), Num(b)) < 0 <==> a < b
  {
  }

  // ---------- sorting ----------

  datatype Keyed<T> = Keyed(key: Value, item: T)

  /** Python's `sorted(xs, key=...)`: equal keys keep their order. */
  function Sort<T>(xs: seq<Keyed<T>>): seq<Keyed<T>> {
    if xs == [] then [] else Insert(Sort(xs[..|xs| - 1]), xs[|xs| - 1])
  }

  function Insert<T>(s: seq<Keyed<T>>, x: Keyed<T>): seq<Keyed<T>> {
    if s == [] || Leq(s[|s| - 1].key, x.key) then s + [x]
    else Insert(s[..|s| - 1], x) + [s[|s| - 1]]
  }

  ghost predicate Sorted<T>(s: seq<Keyed<T>>) {
    forall i, j :: 0 <= i < j < |s| ==> Leq(s[i].key, s[j].key)
  }

  /** The elements with one key, in order. */
  function Only<T>(s: seq<Keyed<T>>, k: Value): seq<Keyed<T>> {
    if s == [] then [] else Only(s[..|s| - 1], k) + if s[|s| - 1].key == k then [s[|s| - 1]] else []
  }

  lemma {:induction false} InsertSorted<T>(s: seq<Keyed<T>>, x: Keyed<T>)
    requires Sorted(s)
    ensures Sorted(Insert(s, x)) && multiset(Insert(s, x)) == multiset(s) + multiset{x}
    decreases |s|
  {
    if s == [] {
    } else if Leq(s[|s| - 1].key, x.key) {
      forall i | 0 <= i < |s| ensures Leq(s[i].key, x.key) {
        if i < |s| - 1 { Transitive(s[i].key, s[|s| - 1].key, x.key); }
      }
    } else {
      var n := |s| - 1;
      var front, z := s[..n], s[n];
      InsertSorted(front, x);
      var u := Insert(front, x);
      Antisymmetric(z.key, x.key);
      hide Compare;
      WithoutLast(s);
      forall i | 0 <= i < |u| ensures Leq(u[i].key, z.key) {
        assert u[i] in multiset(u);
        if u[i] != x { assert u[i] in front; }
      }
    }
  }

  lemma {:induction false} InsertStable<T>(s: seq<Keyed<T>>, x: Keyed<T>, k: Value)
    ensures Only(Insert(s, x), k) == Only(s + [x], k)
    decreases |s|
  {
    if s != [] && !Leq(s[|s| - 1].key, x.key) {
      var n := |s| - 1;
      var front, z := s[..n], s[n];
      InsertStable(front, x, k);
      assert s == front + [z];
      Antisymmetric(z.key, x.key);
      InsertOnly(front, x, z, k);
      assert Insert(s, x)[..|Insert(s, x)| - 1] == Insert(front, x);
    }
  }

  lemma InsertOnly<T>(front: seq<Keyed<T>>, x: Keyed<T>, z: Keyed<T>, k: Value)
    requires x.key != z.key
    ensures Only(front + [z] + [x], k) == Only(front + [x], k) + (if z.key == k then [z] else [])
  {
    assert (front + [z] + [x])[..|front| + 1] == front + [z];
    assert (front + [z])[..|front|] == front;
    assert (front + [x])[..|front|] == front;
  }

  /** `sorted` is a stable sort: it returns the same elements, in order of their keys, and elements
      with equal keys in the order they came. */
  lemma {:induction false} SortLaws<T>(xs: seq<Keyed<T>>, k: Value)
    ensures Sorted(Sort(xs)) && multiset(Sort(xs)) == multiset(xs) && Only(Sort(xs), k) == Only(xs, k)
    decreases |xs|
  {
    if xs != [] {
      hide Sorted, Only, Insert;
      var n := |xs| - 1;
      SortLaws(xs[..n], k);
      InsertSorted(Sort(xs[..n]), xs[n]);
      InsertStable(Sort(xs[..n]), xs[n], k);
      WithoutLast(xs);
      OnlyLast(xs[..n], xs[n], k);
      OnlyLast(Sort(xs[..n]), xs[n], k);
    }
  }

  lemma OnlyLast<T>(front: seq<Keyed<T>>, x: Keyed<T>, k: Value)
    ensures Only(front + [x], k) == Only(front, k) + if x.key == k then [x] else []
  {
    assert (front + [x])[..|front|] == front;
  }

  function Keys<T>(xs: seq<Keyed<T>>): seq<Value> {
    Map((x: Keyed<T>) => x.key, xs)
  }

  predicate Ascending(ks: seq<Value>) {
    forall i, j :: 0 <= i < j < |ks| ==> Leq(ks[i], ks[j])
  }

  lemma {:induction false} AscendingUnique(a: seq<Value>, b: seq<Value>)
    requires Ascending(a) && Ascending(b) && multiset(a) == multiset(b)
    ensures a == b
    decreases |a|
  {
    SameLength(a, b);
    if a != [] {
      var n := |a| - 1;
      LastIsGreatest(a, b);
      hide Leq;
      WithoutLast(a);
      WithoutLast(b);
      AscendingUnique(a[..n], b[..n]);
    }
  }

  lemma LastIsGreatest(a: seq<Value>, b: seq<Value>)
    requires Ascending(a) && Ascending(b) && multiset(a) == multiset(b) && a != [] && |a| == |b|
    ensures a[|a| - 1] == b[|b| - 1]
  {
    var n := |a| - 1;
    var x, y := a[n], b[n];
    var i := Position(b, x);
    var j := Position(a, y);
    hide Leq;
    assert i < n ==> Leq(b[i], b[n]);
    assert j < n ==> Leq(a[j], a[n]);
    OneOfBoth(x, y);
  }

  lemma OneOfBoth(x: Value, y: Value)
    ensures Leq(x, y) && Leq(y, x) <==> x == y
  {
    Antisymmetric(x, y);
    hide Compare;
  }

  lemma WithoutLast<T>(s: seq<T>)
    requires s != []
    ensures multiset(s[..|s| - 1]) == multiset(s) - multiset{s[|s| - 1]} && s == s[..|s| - 1] + [s[|s| - 1]]
    ensures s[..|s| - 1] + s[|s|..] == s[..|s| - 1]
  {
    assert s == s[..|s| - 1] + [s[|s| - 1]];
  }

  lemma WithoutAt<T>(s: seq<T>, i: nat)
    requires i < |s|
    ensures multiset(s[..i] + s[i + 1..]) == multiset(s) - multiset{s[i]}
  {
    assert s == s[..i] + [s[i]] + s[i + 1..];
  }

  lemma SameLength<T>(a: seq<T>, b: seq<T>)
    requires multiset(a) == multiset(b)
    ensures |a| == |b|
  {
    assert |multiset(a)| == |a|;
  }

  lemma Position<T>(s: seq<T>, x: T) returns (i: nat)
    requires x in multiset(s)
    ensures i < |s| && s[i] == x
  {
    i :| i < |s| && s[i] == x;
  }

  /** Rearranging a sequence rearranges its image. */
  lemma {:induction false} MapKeepsElements<T, U>(f: T -> U, a: seq<T>, b: seq<T>)
    requires multiset(a) == multiset(b)
    ensures multiset(Map(f, a)) == multiset(Map(f, b))
    decreases |a|
  {
    SameLength(a, b);
    if a != [] {
      var n := |a| - 1;
      var i := Position(b, a[n]);
      var c := b[..i] + b[i + 1..];
      WithoutLast(a);
      WithoutAt(b, i);
      MapWithout(f, a, n);
      MapWithout(f, b, i);
      MapKeepsElements(f, a[..n], c);
    }
  }

  lemma MapWithout<T, U>(f: T -> U, s: seq<T>, i: nat)
    requires i < |s|
    ensures multiset(Map(f, s)) == multiset(Map(f, s[..i] + s[i + 1..])) + multiset{f(s[i])}
  {
    var t := s[..i] + s[i + 1..];
    assert Map(f, t) == Map(f, s)[..i] + Map(f, s)[i + 1..];
    WithoutAt(Map(f, s), i);
  }

  /** Sorting forgets the input order except among equal keys. */
  lemma SortForgetsOrder<T>(a: seq<Keyed<T>>, b: seq<Keyed<T>>)
    requires multiset(a) == multiset(b)
    ensures Keys(Sort(a)) == Keys(Sort(b))
  {
    SortLaws(a, Num(0));
    SortLaws(b, Num(0));
    MapKeepsElements((x: Keyed<T>) => x.key, Sort(a), Sort(b));
    AscendingUnique(Keys(Sort(a)), Keys(Sort(b)));
  }
}
