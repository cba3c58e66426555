/** Two ways of going through a list of loosely typed items: keeping the first item with
    each id, and keeping every item that is well formed. */
module ListPasses {
  import opened Wrappers

  // ---- The first item with each id ---------------------------------------------------

  /** The ids of the items that have one. */
  function Seen<T(==), K(==)>(id: T -> Option<K>, s: seq<T>): set<K> {
    set x | x in s && id(x).Some? :: id(x).value
  }

  function Firsts<T(==), K(==)>(id: T -> Option<K>, norm: T -> T, s: seq<T>): seq<T> {
    if s == [] then []
    else
      var before, x := s[..|s| - 1], s[|s| - 1];
      Firsts(id, norm, before) + if id(x).Some? && id(x).value !in Seen(id, before) then [norm(x)] else []
  }

  ghost predicate IsFirst<T, K>(id: T -> Option<K>, s: seq<T>, i: nat) {
    && i < |s| && id(s[i]).Some?
    && forall j | 0 <= j < i :: id(s[j]) != id(s[i])
  }

  ghost predicate Distinct<T, K>(id: T -> Option<K>, s: seq<T>) {
    && (forall i | 0 <= i < |s| :: id(s[i]).Some?)
    && (forall i, j | 0 <= i < j < |s| :: id(s[i]) != id(s[j]))
  }

  lemma SeenGrows<T, K>(id: T -> Option<K>, s: seq<T>, x: T)
    ensures Seen(id, s + [x]) == Seen(id, s) + if id(x).Some? then {id(x).value} else {}
  {
    var t := s + [x];
    assert forall y :: y in t <==> y in s || y == x;
  }

  /** Nothing else is in the result. */
  lemma {:induction false} FirstsCome<T, K>(id: T -> Option<K>, norm: T -> T, s: seq<T>, y: T) returns (i: nat)
    requires y in Firsts(id, norm, s)
    ensures IsFirst(id, s, i) && y == norm(s[i])
  {
    var before, x := s[..|s| - 1], s[|s| - 1];
    if y in Firsts(id, norm, before) {
      i := FirstsCome(id, norm, before, y);
      assert forall j | 0 <= j <= i :: before[j] == s[j];
    } else {
      i := |s| - 1;
      forall j | 0 <= j < i ensures id(s[j]) != id(x) {
        assert s[j] == before[j] && before[j] in before;
      }
    }
  }

  /** Every first occurrence is. */
  lemma {:induction false} FirstsStay<T, K>(id: T -> Option<K>, norm: T -> T, s: seq<T>, i: nat)
    requires IsFirst(id, s, i)
    ensures norm(s[i]) in Firsts(id, norm, s)
  {
    var before, x := s[..|s| - 1], s[|s| - 1];
    if i < |before| {
      assert forall j | 0 <= j <= i :: before[j] == s[j];
      FirstsStay(id, norm, before, i);
    } else {
      assert forall y | y in before :: id(y) != id(x);
    }
  }

  /** No id is in it twice. */
  lemma {:induction false} FirstsDistinct<T, K>(id: T -> Option<K>, norm: T -> T, s: seq<T>)
    requires forall x: T :: id(norm(x)) == id(x)
    ensures Distinct(id, Firsts(id, norm, s))
  {
    if s != [] {
      var before, x := s[..|s| - 1], s[|s| - 1];
      var out := Firsts(id, norm, before);
      FirstsDistinct(id, norm, before);
      if id(x).Some? && id(x).value !in Seen(id, before) {
        forall k | 0 <= k < |out| ensures id(out[k]) != id(norm(x)) {
          var i := FirstsCome(id, norm, before, out[k]);
          assert before[i] in before;
        }
      }
    }
  }

  /** Every id there is has a first occurrence. */
  lemma {:induction false} FirstExists<T, K>(id: T -> Option<K>, s: seq<T>, i: nat) returns (j: nat)
    requires i < |s| && id(s[i]).Some?
    ensures j <= i && IsFirst(id, s, j) && id(s[j]) == id(s[i])
  {
    if forall k | 0 <= k < i :: id(s[k]) != id(s[i]) {
      j := i;
    } else {
      var k :| 0 <= k < i && id(s[k]) == id(s[i]);
      j := FirstExists(id, s, k);
    }
  }

  lemma DistinctInit<T, K>(id: T -> Option<K>, before: seq<T>, x: T)
    requires Distinct(id, before + [x])
    ensures Distinct(id, before) && id(x).Some? && id(x).value !in Seen(id, before)
  {
    var s := before + [x];
    assert s[|before|] == x;
    assert forall i | 0 <= i < |before| :: before[i] == s[i];
  }

  /** A list without repeats that is in normal form stays as it is. */
  lemma {:induction false} FirstsFixed<T, K>(id: T -> Option<K>, norm: T -> T, s: seq<T>)
    requires Distinct(id, s) && forall i | 0 <= i < |s| :: norm(s[i]) == s[i]
    ensures Firsts(id, norm, s) == s
  {
    if s != [] {
      var before, x := s[..|s| - 1], s[|s| - 1];
      assert s == before + [x];
      DistinctInit(id, before, x);
      FirstsFixed(id, norm, before);
    }
  }

  /** The result depends on each item's id and normal form only. */
  lemma {:induction false} FirstsPointwise<T, K>(id: T -> Option<K>, norm: T -> T, s: seq<T>, t: seq<T>)
    requires |s| == |t| && forall i | 0 <= i < |s| :: id(s[i]) == id(t[i]) && norm(s[i]) == norm(t[i])
    ensures Firsts(id, norm, s) == Firsts(id, norm, t) && Seen(id, s) == Seen(id, t)
  {
    if s != [] {
      var n := |s| - 1;
      FirstsPointwise(id, norm, s[..n], t[..n]);
      SeenGrows(id, s[..n], s[n]);
      SeenGrows(id, t[..n], t[n]);
      assert s == s[..n] + [s[n]] && t == t[..n] + [t[n]];
    }
  }

  // ---- Every well-formed item --------------------------------------------------------

  /** The normal forms of the items `form` accepts. */
  function Accepted<T, U>(form: T -> Option<U>, s: seq<T>): seq<U> {
    if s == [] then []
    else Accepted(form, s[..|s| - 1]) + match form(s[|s| - 1]) case Some(y) => [y] case None => []
  }

  lemma {:induction false} AcceptedConcat<T, U>(form: T -> Option<U>, a: seq<T>, b: seq<T>)
    ensures Accepted(form, a + b) == Accepted(form, a) + Accepted(form, b)
  {
    if b == [] {
      assert a + b == a;
    } else {
      assert (a + b)[..|a + b| - 1] == a + b[..|b| - 1];
      AcceptedConcat(form, a, b[..|b| - 1]);
    }
  }

  lemma {:induction false} AcceptedPointwise<T, U>(form: T -> Option<U>, s: seq<T>, t: seq<T>)
    requires |s| == |t| && forall i | 0 <= i < |s| :: form(s[i]) == form(t[i])
    ensures Accepted(form, s) == Accepted(form, t)
  {
    if s != [] { AcceptedPointwise(form, s[..|s| - 1], t[..|t| - 1]); }
  }

  /** s without the item at j. */
  function Without<T>(s: seq<T>, j: nat): seq<T>
    requires j < |s|
  {
    s[..j] + s[j + 1..]
  }

  lemma WithoutCounts<T>(s: seq<T>, j: nat)
    requires j < |s|
    ensures multiset(s) == multiset{s[j]} + multiset(Without(s, j))
  {
    assert s == s[..j] + ([s[j]] + s[j + 1..]);
  }

  lemma AcceptedMiddle<T, U>(form: T -> Option<U>, s: seq<T>, a: seq<T>, x: T, b: seq<T>)
    requires s == a + ([x] + b)
    ensures multiset(Accepted(form, s)) == multiset(Accepted(form, [x])) + multiset(Accepted(form, a + b))
  {
    AcceptedConcat(form, a, [x] + b);
    AcceptedConcat(form, [x], b);
    AcceptedConcat(form, a, b);
  }

  lemma SplitAt<T>(s: seq<T>, j: nat)
    requires j < |s|
    ensures s == s[..j] + ([s[j]] + s[j + 1..])
  {
  }

  lemma AcceptedWithout<T, U>(form: T -> Option<U>, s: seq<T>, j: nat)
    requires j < |s|
    ensures multiset(Accepted(form, s)) == multiset(Accepted(form, [s[j]])) + multiset(Accepted(form, Without(s, j)))
  {
    SplitAt(s, j);
    AcceptedMiddle(form, s, s[..j], s[j], s[j + 1..]);
  }

  /** Each item contributes its own form, however the items are ordered. */
  lemma {:induction false} AcceptedPermuted<T, U>(form: T -> Option<U>, a: seq<T>, b: seq<T>)
    requires multiset(a) == multiset(b)
    ensures multiset(Accepted(form, a)) == multiset(Accepted(form, b))
    decreases |a|
  {
    if a == [] {
      assert |multiset(b)| == 0;
    } else {
      assert a[0] in multiset(b);
      var j :| 0 <= j < |b| && b[j] == a[0];
      WithoutCounts(a, 0);
      WithoutCounts(b, j);
      assert multiset(Without(a, 0)) == multiset(a) - multiset{a[0]};
      assert multiset(Without(b, j)) == multiset(b) - multiset{a[0]};
      AcceptedPermuted(form, Without(a, 0), Without(b, j));
      AcceptedWithout(form, a, 0);
      AcceptedWithout(form, b, j);
    }
  }

  lemma {:induction false} AcceptedCome<T, U>(form: T -> Option<U>, s: seq<T>, y: U) returns (i: nat)
    requires y in Accepted(form, s)
    ensures i < |s| && form(s[i]) == Some(y)
  {
    if y in Accepted(form, s[..|s| - 1]) {
      i := AcceptedCome(form, s[..|s| - 1], y);
    } else {
      i := |s| - 1;
    }
  }

  lemma {:induction false} AcceptedFixed<T>(form: T -> Option<T>, s: seq<T>)
    requires forall i | 0 <= i < |s| :: form(s[i]) == Some(s[i])
    ensures Accepted(form, s) == s
  {
    if s != [] {
      AcceptedFixed(form, s[..|s| - 1]);
      assert s == s[..|s| - 1] + [s[|s| - 1]];
    }
  }

  /** Two items of a list brought to the front. */
  lemma TwoInFront<T>(s: seq<T>, x: T, y: T) returns (rest: seq<T>)
    requires x in s && y in s && x != y
    ensures multiset([x, y] + rest) == multiset(s) == multiset([y, x] + rest)
  {
    var i :| 0 <= i < |s| && s[i] == x;
    WithoutCounts(s, i);
    assert y in multiset(Without(s, i));
    var j :| 0 <= j < |Without(s, i)| && Without(s, i)[j] == y;
    WithoutCounts(Without(s, i), j);
    rest := Without(Without(s, i), j);
    assert multiset([x, y] + rest) == multiset{x} + multiset{y} + multiset(rest);
    assert multiset([y, x] + rest) == multiset{y} + multiset{x} + multiset(rest);
  }

  /** Items with different ids at the front both stay, in their order, and leave the same
      for the rest. */
  lemma {:induction false} FirstsInFront<T, K>(id: T -> Option<K>, norm: T -> T, x: T, y: T, s: seq<T>) returns (more: seq<T>)
    requires id(x).Some? && id(y).Some? && id(x) != id(y)
    ensures Firsts(id, norm, [x, y] + s) == [norm(x), norm(y)] + more
    ensures Firsts(id, norm, [y, x] + s) == [norm(y), norm(x)] + more
    ensures Seen(id, [x, y] + s) == Seen(id, [y, x] + s)
  {
    assert forall z :: z in [x, y] + s <==> z in [y, x] + s;
    if s == [] {
      more := [];
      FirstsOfTwo(id, norm, x, y);
      FirstsOfTwo(id, norm, y, x);
      assert [x, y] + s == [x, y] && [y, x] + s == [y, x];
    } else {
      var n := |s| - 1;
      var before := FirstsInFront(id, norm, x, y, s[..n]);
      more := before + if id(s[n]).Some? && id(s[n]).value !in Seen(id, [x, y] + s[..n]) then [norm(s[n])] else [];
      assert ([x, y] + s)[..n + 2] == [x, y] + s[..n] && ([y, x] + s)[..n + 2] == [y, x] + s[..n];
    }
  }

  lemma FirstsOfTwo<T, K>(id: T -> Option<K>, norm: T -> T, x: T, y: T)
    requires id(x).Some? && id(y).Some? && id(x) != id(y)
    ensures Firsts(id, norm, [x, y]) == [norm(x), norm(y)]
  {
    var s: seq<T>, one: seq<T> := [x, y], [x];
    assert s[..1] == one && one[..0] == [];
    assert Seen(id, one[..0]) == {};
    assert Firsts(id, norm, one) == [norm(x)];
    assert Seen(id, one) == {id(x).value};
  }

  lemma AcceptedOne<T, U>(form: T -> Option<U>, x: T)
    requires form(x).Some?
    ensures Accepted(form, [x]) == [form(x).value]
  {
    assert [x][..0] == [];
  }

  lemma AcceptedInFront<T, U>(form: T -> Option<U>, x: T, y: T, s: seq<T>)
    requires form(x).Some? && form(y).Some?
    ensures Accepted(form, [x, y] + s) == [form(x).value, form(y).value] + Accepted(form, s)
  {
    AcceptedConcat(form, [x, y], s);
    AcceptedConcat(form, [x], [y]);
    assert [x] + [y] == [x, y];
    AcceptedOne(form, x);
    AcceptedOne(form, y);
  }

  lemma OnePerId<T, K>(id: T -> Option<K>, s: seq<T>, x: T, y: T)
    requires Distinct(id, s) && x in s && y in s && id(x) == id(y)
    ensures x == y
  {
    var i :| 0 <= i < |s| && s[i] == x;
    var j :| 0 <= j < |s| && s[j] == y;
  }
}
