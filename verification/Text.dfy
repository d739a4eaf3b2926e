/** Text with parts blanked in place, shared by the source scanners. */
module Text {

  /** Spaces for everything but line breaks. */
  function Blank(s: string): (b: string)
    ensures |b| == |s| && forall i :: 0 <= i < |s| ==> b[i] == if s[i] == '\n' then '\n' else ' '
  {
    if s == [] then [] else [if s[0] == '\n' then '\n' else ' '] + Blank(s[1..])
  }

  /** Same length, and each character is kept or is a blank that does not replace a line break. */
  predicate Covers(o: string, s: string) {
    |o| == |s| && forall i :: 0 <= i < |s| ==> o[i] == s[i] || (o[i] == ' ' && s[i] != '\n')
  }

  lemma CoverLength(o: string, s: string)
    requires Covers(o, s)
    ensures |o| == |s|
  {
  }

  lemma CoverJoin(o: string, s: string, p: string, t: string)
    requires Covers(o, s) && Covers(p, t)
    ensures Covers(o + p, s + t)
  {
  }

  lemma CoverSlice(o: string, s: string, i: nat, j: nat)
    requires Covers(o, s) && i <= j <= |s|
    ensures Covers(o[i..j], s[i..j])
  {
  }

  lemma Pieces(o: string, i: nat, e: nat, x: string, y: string)
    requires i <= e <= |o| && o[i..] == x + y && |x| == e - i
    ensures o[i..e] == x && o[e..] == y
  {
    assert o[i..e] == o[i..][..e - i];
    assert o[e..] == o[i..][e - i..];
  }

  /** The first separator at or after `k`, or the end. */
  function BreakAt<T(==)>(s: seq<T>, sep: T, k: nat): (e: nat)
    requires k <= |s|
    ensures k <= e <= |s| && (e < |s| ==> s[e] == sep) && forall i :: k <= i < e ==> s[i] != sep
    decreases |s| - k
  {
    if k < |s| && s[k] != sep then BreakAt(s, sep, k + 1) else k
  }
}
