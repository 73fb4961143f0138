/** Selecting a subsequence. */
module Selecting {

  /** The elements of s that satisfy p, in order. */
  function Keep<T>(s: seq<T>, p: T -> bool): seq<T> {
    if s == [] then []
    else Keep(s[..|s| - 1], p) + if p(s[|s| - 1]) then [s[|s| - 1]] else []
  }

  ghost predicate Distinct<T>(s: seq<T>) {
    forall i, j :: 0 <= i < j < |s| ==> s[i] != s[j]
  }

  lemma KeepSnoc<T>(s: seq<T>, x: T, p: T -> bool)
    ensures Keep(s + [x], p) == Keep(s, p) + if p(x) then [x] else []
  {
    assert (s + [x])[..|s|] == s;
  }

  lemma KeepNothing<T>(p: T -> bool)
    ensures Keep([], p) == []
  {
  }

  lemma {:induction false} KeepConcat<T>(s: seq<T>, t: seq<T>, p: T -> bool)
    ensures Keep(s + t, p) == Keep(s, p) + Keep(t, p)
  {
    hide Keep;
    if t == [] {
      KeepNothing(p);
      assert s + t == s;
    } else {
      var n := |t| - 1;
      KeepConcat(s, t[..n], p);
      KeepSnoc(s + t[..n], t[n], p);
      KeepSnoc(t[..n], t[n], p);
      assert s + t == (s + t[..n]) + [t[n]] && t == t[..n] + [t[n]];
    }
  }

  lemma {:induction false} KeepMember<T>(s: seq<T>, p: T -> bool, x: T)
    ensures x in Keep(s, p) <==> x in s && p(x)
  {
    if s != [] {
      var n := |s| - 1;
      KeepMember(s[..n], p, x);
      assert x in s <==> x in s[..n] || x == s[n];
    }
  }

  lemma {:induction false} KeepAll<T>(s: seq<T>, p: T -> bool)
    requires forall i :: 0 <= i < |s| ==> p(s[i])
    ensures Keep(s, p) == s
  {
    if s != [] {
      var n := |s| - 1;
      KeepAll(s[..n], p);
      assert s == s[..n] + [s[n]];
    }
  }

  lemma {:induction false} KeepNone<T>(s: seq<T>, p: T -> bool)
    ensures Keep(s, p) == [] <==> forall i :: 0 <= i < |s| ==> !p(s[i])
  {
    if s != [] {
      KeepNone(s[..|s| - 1], p);
    }
  }

  /** Selecting twice is selecting once by the conjunction. */
  lemma {:induction false} KeepTwice<T>(s: seq<T>, p: T -> bool, q: T -> bool, r: T -> bool)
    requires forall i :: 0 <= i < |s| ==> r(s[i]) == (p(s[i]) && q(s[i]))
    ensures Keep(Keep(s, p), q) == Keep(s, r)
  {
    if s != [] {
      var n := |s| - 1;
      KeepTwice(s[..n], p, q, r);
      KeepConcat(Keep(s[..n], p), if p(s[n]) then [s[n]] else [], q);
      assert [s[n]][..0] == [];
    }
  }

  /** The order of two selections does not matter. */
  lemma KeepCommutes<T>(s: seq<T>, p: T -> bool, q: T -> bool)
    ensures Keep(Keep(s, p), q) == Keep(Keep(s, q), p)
  {
    var r := (x: T) => p(x) && q(x);
    KeepTwice(s, p, q, r);
    KeepTwice(s, q, p, r);
  }

  lemma {:induction false} KeepDistinct<T>(s: seq<T>, p: T -> bool)
    requires Distinct(s)
    ensures Distinct(Keep(s, p))
  {
    if s != [] {
      var n := |s| - 1;
      KeepDistinct(s[..n], p);
      var kept := Keep(s[..n], p);
      forall i | 0 <= i < |kept| ensures kept[i] != s[n] {
        KeepMember(s[..n], p, kept[i]);
      }
    }
  }
}
