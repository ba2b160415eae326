/** `Array.prototype.filter` on sequences, with the facts the rest of the
    model needs about it. */
module Sequences {

  /** `s.filter(p)`: the elements satisfying `p`, each as often as in `s`, in
      their original order (see KeepConcat). */
  function Keep<T(!new)>(s: seq<T>, p: T -> bool): (r: seq<T>)
    ensures |r| <= |s|
  {
    if s == [] then [] else (if p(s[0]) then [s[0]] else []) + Keep(s[1..], p)
  }

  /** Each element satisfying `p` is kept as often as it occurs, and no other. */
  lemma {:induction false} KeepCounts<T(!new)>(s: seq<T>, p: T -> bool)
    ensures forall x :: multiset(Keep(s, p))[x] == if p(x) then multiset(s)[x] else 0
  {
    if s != [] {
      KeepCounts(s[1..], p);
      assert s == [s[0]] + s[1..];
    }
  }

  /** An element is kept exactly when it occurs and satisfies `p`. */
  lemma KeepMembers<T(!new)>(s: seq<T>, p: T -> bool)
    ensures forall x :: x in Keep(s, p) <==> x in s && p(x)
  {
    KeepCounts(s, p);
    forall x ensures x in Keep(s, p) <==> x in s && p(x) {
      assert x in Keep(s, p) <==> multiset(Keep(s, p))[x] > 0;
      assert x in s <==> multiset(s)[x] > 0;
    }
  }

  /** Filtering a concatenation filters each part in place, so the kept elements
      keep their relative order. */
  lemma {:induction false} KeepConcat<T(!new)>(a: seq<T>, b: seq<T>, p: T -> bool)
    ensures Keep(a + b, p) == Keep(a, p) + Keep(b, p)
  {
    if a == [] {
      assert a + b == b;
    } else {
      var ab := a + b;
      assert ab[0] == a[0] && ab[1..] == a[1..] + b;
      KeepConcat(a[1..], b, p);
      if p(a[0]) {
        calc {
          Keep(ab, p);
          [a[0]] + Keep(a[1..] + b, p);
          [a[0]] + (Keep(a[1..], p) + Keep(b, p));
          ([a[0]] + Keep(a[1..], p)) + Keep(b, p);
        }
      }
    }
  }

  /** Filtering a list with a known head decides the head first. */
  lemma KeepCons<T(!new)>(x: T, s: seq<T>, p: T -> bool)
    ensures Keep([x] + s, p) == (if p(x) then [x] else []) + Keep(s, p)
  {
    assert ([x] + s)[1..] == s;
  }

  /** Moving `x` past a head `y` that is not kept along with it leaves the
      filtered list as it was. */
  lemma KeepPast<T(!new)>(x: T, y: T, s: seq<T>, t: seq<T>, p: T -> bool)
    requires !(p(x) && p(y))
    requires Keep(s, p) == (if p(x) then [x] else []) + Keep(t, p)
    ensures Keep([y] + s, p) == (if p(x) then [x] else []) + Keep([y] + t, p)
  {
    KeepCons(y, s, p);
    KeepCons(y, t, p);
    if p(x) {
      assert Keep([y] + s, p) == [x] + Keep(t, p);
      assert Keep([y] + t, p) == Keep(t, p);
    } else {
      assert Keep(s, p) == Keep(t, p);
    }
  }

  /** Filtering with a predicate every element satisfies changes nothing. */
  lemma {:induction false} KeepAll<T(!new)>(s: seq<T>, p: T -> bool)
    requires forall x :: x in s ==> p(x)
    ensures Keep(s, p) == s
  {
    if s != [] {
      KeepAll(s[1..], p);
    }
  }

  /** Filtering with a predicate no element satisfies keeps nothing. */
  lemma {:induction false} KeepNone<T(!new)>(s: seq<T>, p: T -> bool)
    requires forall x :: x in s ==> !p(x)
    ensures Keep(s, p) == []
  {
    if s != [] {
      KeepNone(s[1..], p);
    }
  }

  /** Replacing an element that is filtered out by another that is filtered out
      changes nothing. */
  lemma KeepUpdate<T(!new)>(s: seq<T>, k: nat, x: T, p: T -> bool)
    requires k < |s| && !p(s[k]) && !p(x)
    ensures Keep(s[k := x], p) == Keep(s, p)
  {
    assert s == s[..k] + ([s[k]] + s[k + 1..]);
    assert s[k := x] == s[..k] + ([x] + s[k + 1..]);
    KeepConcat(s[..k], [s[k]] + s[k + 1..], p);
    KeepConcat([s[k]], s[k + 1..], p);
    KeepConcat(s[..k], [x] + s[k + 1..], p);
    KeepConcat([x], s[k + 1..], p);
    assert Keep([s[k]], p) == [] && Keep([x], p) == [];
  }
}
