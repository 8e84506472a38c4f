/** Byte strings and the string searches the protocol is written with. */
module Text {
  type byte = b: int | 0 <= b < 256

  type bytes = seq<byte>

  function Spaces(n: nat): bytes { seq(n, _ => 0x20) }

  predicate OccursAt(s: bytes, p: bytes, i: nat) {
    i + |p| <= |s| && s[i..i + |p|] == p
  }

  /** string::find from a position: the first occurrence, or -1. */
  function FindFrom(s: bytes, p: bytes, from: nat): (r: int)
    ensures r == -1 || from <= r
    decreases |s| - from
  {
    if OccursAt(s, p, from) then from
    else if from >= |s| then -1
    else FindFrom(s, p, from + 1)
  }

  /** It is the first one indeed. */
  lemma {:induction false} FindFromFirst(s: bytes, p: bytes, from: nat)
    ensures var r := FindFrom(s, p, from);
            && (r != -1 ==> OccursAt(s, p, r))
            && forall i :: from <= i && (r == -1 || i < r) ==> !OccursAt(s, p, i)
    decreases |s| - from
  {
    if !OccursAt(s, p, from) && from < |s| { FindFromFirst(s, p, from + 1); }
  }

  function Find(s: bytes, p: bytes): int { FindFrom(s, p, 0) }

  predicate Contains(s: bytes, p: bytes) { Find(s, p) != -1 }

  lemma FindIs(s: bytes, p: bytes, from: nat, r: nat)
    requires from <= r && OccursAt(s, p, r) && forall i :: from <= i < r ==> !OccursAt(s, p, i)
    ensures FindFrom(s, p, from) == r
  {
    FindFromFirst(s, p, from);
  }

  /** string::substr with a count that may have wrapped around below zero. */
  function Substr(s: bytes, from: nat, count: int): bytes {
    if from > |s| then []
    else if 0 <= count <= |s| - from then s[from..from + count]
    else s[from..]
  }

  lemma Regroup<T>(a: seq<T>, x: T, b: seq<T>)
    ensures a + ([x] + b) == a + [x] + b
  {}
}
