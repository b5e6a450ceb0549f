/** Regrouping, and subsequences: what is left of a list after dropping some of its elements. */
module Sequences {

  lemma Associative<T>(a: seq<T>, b: seq<T>, c: seq<T>)
    ensures (a + b) + c == a + (b + c)
  {
  }

  lemma Whole<T>(s: seq<T>)
    ensures s[..|s|] == s
  {
  }

  lemma LastApart<T>(s: seq<T>)
    requires s != []
    ensures s == s[..|s| - 1] + [s[|s| - 1]]
  {
  }

  predicate Sub<T(==)>(a: seq<T>, b: seq<T>)
    decreases |b|
  {
    if b == [] then a == []
    else Sub(a, b[..|b| - 1]) || (a != [] && a[|a| - 1] == b[|b| - 1] && Sub(a[..|a| - 1], b[..|b| - 1]))
  }

  lemma SubSnoc<T>(a: seq<T>, b: seq<T>, x: T)
    requires Sub(a, b)
    ensures Sub(a + [x], b + [x]) && Sub(a, b + [x])
  {
    assert (b + [x])[..|b|] == b && (a + [x])[..|a|] == a;
  }

  lemma {:induction false} SubEmpty<T>(b: seq<T>)
    ensures Sub([], b)
    decreases |b|
  {
    if b != [] {
      SubEmpty(b[..|b| - 1]);
    }
  }

  lemma {:induction false} SubPrefix<T>(a: seq<T>, b: seq<T>, n: nat)
    requires Sub(a, b) && n <= |a|
    ensures Sub(a[..n], b)
    decreases |b|
  {
    if n == |a| {
      assert a[..n] == a;
    } else {
      var init := b[..|b| - 1];
      if Sub(a, init) {
        SubPrefix(a, init, n);
      } else {
        SubPrefix(a[..|a| - 1], init, n);
        assert a[..|a| - 1][..n] == a[..n];
      }
    }
  }

  lemma {:induction false} SubAppend<T>(a: seq<T>, b: seq<T>, c: seq<T>, d: seq<T>)
    requires Sub(a, b) && Sub(c, d)
    ensures Sub(a + c, b + d)
    decreases |d|
  {
    if d == [] {
      assert a + c == a && b + d == b;
    } else {
      var init, x := d[..|d| - 1], d[|d| - 1];
      assert (b + d)[..|b + d| - 1] == b + init;
      if Sub(c, init) {
        SubAppend(a, b, c, init);
      } else {
        SubAppend(a, b, c[..|c| - 1], init);
        assert (a + c)[..|a + c| - 1] == a + c[..|c| - 1];
      }
    }
  }

  lemma {:induction false} SubMember<T>(a: seq<T>, b: seq<T>, x: T)
    requires Sub(a, b) && x in a
    ensures x in b
    decreases |b|
  {
    if b != [] {
      var init := b[..|b| - 1];
      if Sub(a, init) {
        SubMember(a, init, x);
      } else if x in a[..|a| - 1] {
        SubMember(a[..|a| - 1], init, x);
      }
    }
  }

  lemma {:induction false} SubOfPrefix<T>(b: seq<T>, n: nat)
    requires n <= |b|
    ensures Sub(b[..n], b)
    decreases |b|
  {
    if n == |b| {
      assert b[..n] == b;
      SubItself(b);
    } else {
      var init := b[..|b| - 1];
      SubOfPrefix(init, n);
      assert init[..n] == b[..n];
    }
  }

  lemma {:induction false} SubItself<T>(b: seq<T>)
    ensures Sub(b, b)
    decreases |b|
  {
    if b != [] {
      SubItself(b[..|b| - 1]);
    }
  }

  lemma {:induction false} SubTransitive<T>(a: seq<T>, b: seq<T>, c: seq<T>)
    requires Sub(a, b) && Sub(b, c)
    ensures Sub(a, c)
    decreases |c|
  {
    if c != [] {
      var init := c[..|c| - 1];
      if Sub(b, init) {
        SubTransitive(a, b, init);
      } else if Sub(a, b[..|b| - 1]) {
        SubTransitive(a, b[..|b| - 1], init);
      } else {
        SubTransitive(a[..|a| - 1], b[..|b| - 1], init);
      }
    }
  }
}
