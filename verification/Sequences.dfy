/** Picking from a sequence: everything that is wanted, or the first that is. */
module Sequences {

  /** The wanted elements, in order. */
  function Keep<T>(s: seq<T>, keep: T -> bool): seq<T> {
    if s == [] then []
    else if keep(s[0]) then [s[0]] + Keep(s[1..], keep)
    else Keep(s[1..], keep)
  }

  /** What is kept is what was there and is wanted. */
  lemma {:induction false} KeepMembers<T>(s: seq<T>, p: T -> bool)
    ensures forall t :: t in Keep(s, p) <==> t in s && p(t)
  {
    if s != [] {
      KeepMembers(s[1..], p);
    }
  }

  lemma {:induction false} KeepNothing<T>(s: seq<T>, p: T -> bool)
    requires forall t <- s :: !p(t)
    ensures Keep(s, p) == []
  {
    if s != [] {
      KeepNothing(s[1..], p);
    }
  }

  lemma {:induction false} KeepEverything<T>(s: seq<T>, p: T -> bool)
    requires forall t <- s :: p(t)
    ensures Keep(s, p) == s
  {
    if s != [] {
      KeepEverything(s[1..], p);
    }
  }

  /** What is wanted decides what is kept, however it is said. */
  lemma {:induction false} KeepSame<T>(s: seq<T>, p: T -> bool, q: T -> bool)
    requires forall t <- s :: p(t) <==> q(t)
    ensures Keep(s, p) == Keep(s, q)
  {
    if s != [] {
      KeepSame(s[1..], p, q);
    }
  }

  lemma KeepOne<T>(t: T, p: T -> bool)
    ensures Keep([t], p) == if p(t) then [t] else []
  {
    assert [t][1..] == [];
  }

  lemma {:induction false} KeepAppend<T>(a: seq<T>, b: seq<T>, p: T -> bool)
    ensures Keep(a + b, p) == Keep(a, p) + Keep(b, p)
  {
    if a == [] {
      assert a + b == b;
    } else {
      assert (a + b)[1..] == a[1..] + b;
      KeepAppend(a[1..], b, p);
    }
  }

  /** Picking twice is picking once what is wanted both times. */
  lemma {:induction false} KeepTwice<T>(s: seq<T>, p: T -> bool, q: T -> bool, both: T -> bool)
    requires forall t <- s :: both(t) <==> p(t) && q(t)
    ensures Keep(Keep(s, p), q) == Keep(s, both)
  {
    if s != [] {
      KeepTwice(s[1..], p, q, both);
      var rest := Keep(s[1..], p);
      assert ([s[0]] + rest)[1..] == rest;
    }
  }

  /** Where the first wanted element stands; the length when there is none. */
  function Find<T>(s: seq<T>, p: T -> bool): (i: nat)
    ensures i <= |s| && (i < |s| ==> p(s[i]))
    ensures forall j :: 0 <= j < i ==> !p(s[j])
  {
    if s == [] || p(s[0]) then 0 else 1 + Find(s[1..], p)
  }
}
