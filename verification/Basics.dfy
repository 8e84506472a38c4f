/** Optional results. */
module Options {
  datatype Option<T> = None | Some(value: T)
}

/** Sequences without repetition. */
module Sequences {
  ghost predicate Distinct<T>(s: seq<T>) { forall i, j :: 0 <= i < j < |s| ==> s[i] != s[j] }
}

/** The few facts about products and remainders that proofs elsewhere call for. */
module Arithmetic {
  lemma TimesAtLeast(q: nat, d: int)
    requires q > 0
    ensures d >= 1 ==> q * d >= q
    ensures d <= 0 ==> q * d <= 0
  {}

  lemma MulMonotone(a: nat, b: nat, c: nat)
    requires a <= b
    ensures a * c <= b * c && c * a <= c * b
  {}

  lemma RemainderIs(x: int, q: nat, a: int, r: nat)
    requires r < q && x == q * a + r
    ensures x % q == r
  {
    TimesAtLeast(q, a - x / q);
    TimesAtLeast(q, x / q - a);
    assert q * (a - x / q) == x % q - r && q * (x / q - a) == r - x % q;
  }

  lemma AddMultiple(t: nat, d: int, q: nat)
    requires q > 0
    ensures (t + q * d) % q == t % q
  {
    assert t + q * d == q * (t / q + d) + t % q;
    RemainderIs(t + q * d, q, t / q + d, t % q);
  }

  /** Two counts less than q apart fall into different slots of a ring of q. */
  lemma ModDiffers(w: nat, i: nat, q: nat)
    requires q > 0 && w < i < w + q
    ensures w % q != i % q
  {
    TimesAtLeast(q, i / q - w / q);
    assert i - w == q * (i / q - w / q) + i % q - w % q;
  }
}

/** Paths of a transition relation. */
module Paths {
  type Relation<!S> = (S, S) -> bool

  ghost predicate Leads<S(!new)>(move: Relation<S>, s: S, t: S, n: nat)
    decreases n
  {
    if n == 0 then s == t else exists u :: move(s, u) && Leads(move, u, t, n - 1)
  }

  ghost predicate Reaches<S(!new)>(move: Relation<S>, s: S, t: S) {
    exists n: nat :: Leads(move, s, t, n)
  }

  lemma Stay<S(!new)>(move: Relation<S>, s: S)
    ensures Reaches(move, s, s)
  {
    assert Leads(move, s, s, 0);
  }

  lemma {:induction false} LeadsOn<S(!new)>(move: Relation<S>, s: S, t: S, u: S, m: nat, n: nat)
    requires Leads(move, s, t, m) && Leads(move, t, u, n)
    ensures Leads(move, s, u, m + n)
    decreases m
  {
    if m > 0 {
      var next :| move(s, next) && Leads(move, next, t, m - 1);
      LeadsOn(move, next, t, u, m - 1, n);
      assert Leads(move, next, u, m + n - 1);
    }
  }

  lemma Onwards<S(!new)>(move: Relation<S>, s: S, t: S, u: S)
    requires Reaches(move, s, t) && Reaches(move, t, u)
    ensures Reaches(move, s, u)
  {
    var m: nat, n: nat :| Leads(move, s, t, m) && Leads(move, t, u, n);
    LeadsOn(move, s, t, u, m, n);
  }

  lemma Then<S(!new)>(move: Relation<S>, s: S, t: S, u: S)
    requires Reaches(move, s, t) && move(t, u)
    ensures Reaches(move, s, u)
  {
    assert Leads(move, u, u, 0);
    assert Leads(move, t, u, 1);
    Onwards(move, s, t, u);
  }

  /** What every move keeps, every path keeps. */
  lemma {:induction false} Kept<S(!new)>(move: Relation<S>, keeps: S -> bool, s: S, t: S, n: nat)
    requires forall a, b :: keeps(a) && move(a, b) ==> keeps(b)
    requires keeps(s) && Leads(move, s, t, n)
    ensures keeps(t)
    decreases n
  {
    if n > 0 {
      var next :| move(s, next) && Leads(move, next, t, n - 1);
      Kept(move, keeps, next, t, n - 1);
    }
  }
}
