/**
 The Lean source scanner of the coverage and registry gates: comments, and on request strings, are
 overwritten with blanks so that offsets and line numbers in the result are those of the source.
 */
module LeanScan {
  import opened Text

  datatype Kind = Plain | Quoted | Comment

  /** What starts at a position, and where it ends. */
  datatype Token = Token(kind: Kind, end: nat)

  predicate At2(s: string, i: nat, c: char, d: char) {
    i + 1 < |s| && s[i] == c && s[i + 1] == d
  }

  // ---------------------------------------------------------------- where tokens end

  /** The first position from `k` on that is not a hash sign. */
  function HashEnd(s: string, k: nat): (q: nat)
    requires k <= |s|
    ensures k <= q <= |s| && (forall j :: k <= j < q ==> s[j] == '#') && (q < |s| ==> s[q] != '#')
    decreases |s| - k
  {
    if k < |s| && s[k] == '#' then HashEnd(s, k + 1) else k
  }

  /** A quote followed by `h` hash signs. */
  predicate ClosesRaw(s: string, k: nat, h: nat) {
    k + h < |s| && s[k] == '"' && forall j :: k < j <= k + h ==> s[j] == '#'
  }

  function RawEnd(s: string, k: nat, h: nat): (e: nat)
    requires k <= |s|
    ensures k <= e <= |s|
    decreases |s| - k
  {
    if k + h >= |s| then |s| else if ClosesRaw(s, k, h) then k + h + 1 else RawEnd(s, k + 1, h)
  }

  function QuoteEnd(s: string, k: nat): (e: nat)
    ensures e <= |s| && (k <= |s| ==> k <= e)
    decreases |s| - k
  {
    if k >= |s| then |s| else if s[k] == '"' then k + 1 else QuoteEnd(s, k + if s[k] == '\\' then 2 else 1)
  }

  function LineEnd(s: string, k: nat): (e: nat)
    requires k <= |s|
    ensures k <= e <= |s| && (forall j :: k <= j < e ==> s[j] != '\n') && (e < |s| ==> s[e] == '\n')
    decreases |s| - k
  {
    if k < |s| && s[k] != '\n' then LineEnd(s, k + 1) else k
  }

  function BlockEnd(s: string, k: nat, depth: nat): (e: nat)
    requires k <= |s|
    ensures k <= e <= |s|
    decreases |s| - k
  {
    if k == |s| || depth == 0 then k
    else if At2(s, k, '/', '-') then BlockEnd(s, k + 2, depth + 1)
    else if At2(s, k, '-', '/') then BlockEnd(s, k + 2, depth - 1)
    else BlockEnd(s, k + 1, depth)
  }

  predicate OpensRaw(s: string, i: nat)
    requires i < |s|
  {
    s[i] == 'r' && HashEnd(s, i + 1) < |s| && s[HashEnd(s, i + 1)] == '"'
  }

  function TokenAt(s: string, i: nat): (t: Token)
    requires i < |s|
    ensures i < t.end <= |s|
  {
    if OpensRaw(s, i) then
      var q := HashEnd(s, i + 1);
      Token(Quoted, RawEnd(s, q + 1, q - i - 1))
    else if s[i] == '"' then Token(Quoted, QuoteEnd(s, i + 1))
    else if At2(s, i, '-', '-') then Token(Comment, LineEnd(s, i + 2))
    else if At2(s, i, '/', '-') then Token(Comment, BlockEnd(s, i + 2, 1))
    else Token(Plain, i + 1)
  }

  // ---------------------------------------------------------------- scanning

  predicate Kept(kind: Kind, blankStrings: bool) {
    kind == Plain || (kind == Quoted && !blankStrings)
  }

  function ScanFrom(s: string, i: nat, blankStrings: bool): (out: string)
    requires i <= |s|
    ensures |out| == |s| - i
    decreases |s| - i
  {
    if i == |s| then []
    else
      var t := TokenAt(s, i);
      (if Kept(t.kind, blankStrings) then s[i..t.end] else Blank(s[i..t.end])) + ScanFrom(s, t.end, blankStrings)
  }

  function Scan(s: string, blankStrings: bool): (out: string)
  {
    ScanFrom(s, 0, blankStrings)
  }

  function StripComments(s: string): (out: string)
  {
    Scan(s, false)
  }

  function BlankCommentsAndStrings(s: string): (out: string)
  {
    Scan(s, true)
  }

  lemma {:induction false} ScanCovers(s: string, i: nat, blankStrings: bool)
    requires i <= |s|
    ensures Covers(ScanFrom(s, i, blankStrings), s[i..])
    decreases |s| - i
  {
    hide TokenAt;
    if i < |s| {
      var t := TokenAt(s, i);
      ScanCovers(s, t.end, blankStrings);
      assert s[i..] == s[i..t.end] + s[t.end..];
    }
  }

  /** The scan keeps the length and every line break, and changes nothing but to blanks. */
  lemma PositionsPreserved(s: string, blankStrings: bool)
    ensures |Scan(s, blankStrings)| == |s|
    ensures forall i :: 0 <= i < |s| ==> Scan(s, blankStrings)[i] == s[i] || Scan(s, blankStrings)[i] == ' '
    ensures forall i :: 0 <= i < |s| ==> (Scan(s, blankStrings)[i] == '\n' <==> s[i] == '\n')
  {
    hide ScanFrom;
    ScanCovers(s, 0, blankStrings);
    assert s[0..] == s;
  }

  // ---------------------------------------------------------------- scanning a scanned text

  lemma {:induction false} HashEndOfCover(o: string, s: string, k: nat)
    requires k <= |s| && Covers(o, s)
    requires HashEnd(s, k) < |s| ==> s[HashEnd(s, k)] != '"'
    ensures HashEnd(o, k) < |o| ==> o[HashEnd(o, k)] != '"'
    decreases |s| - k
  {
    if k < |s| && o[k] == '#' {
      HashEndOfCover(o, s, k + 1);
    }
  }

  /** A character that stands for itself still does when blanks are put over what follows. */
  lemma PlainStaysPlain(o: string, s: string, i: nat)
    requires i < |s| && Covers(o, s) && o[i] == s[i] && TokenAt(s, i).kind == Plain
    ensures TokenAt(o, i) == Token(Plain, i + 1)
  {
    if s[i] == 'r' {
      HashEndOfCover(o, s, i + 1);
    }
  }

  lemma {:induction false} HashEndAgrees(o: string, s: string, k: nat, e: nat)
    requires |o| == |s| && k <= e <= |s| && o[k..e] == s[k..e] && HashEnd(s, k) < e
    ensures HashEnd(o, k) == HashEnd(s, k)
    decreases |s| - k
  {
    assert o[k] == o[k..e][0] == s[k..e][0] == s[k];
    if s[k] == '#' {
      assert o[k + 1..e] == o[k..e][1..] == s[k..e][1..] == s[k + 1..e];
      HashEndAgrees(o, s, k + 1, e);
    }
  }

  lemma {:induction false} RawEndAgrees(o: string, s: string, k: nat, h: nat)
    requires |o| == |s| && k <= |s| && RawEnd(s, k, h) < |s|
    requires forall j :: k <= j < RawEnd(s, k, h) ==> o[j] == s[j]
    ensures RawEnd(o, k, h) == RawEnd(s, k, h)
    decreases |s| - k
  {
    if k + h < |s| && !ClosesRaw(s, k, h) {
      RawEndLeavesRoom(s, k + 1, h);
      RawEndAgrees(o, s, k + 1, h);
    }
  }

  lemma {:induction false} RawEndLeavesRoom(s: string, k: nat, h: nat)
    requires k <= |s| && RawEnd(s, k, h) < |s|
    ensures k + h + 1 <= RawEnd(s, k, h)
    decreases |s| - k
  {
    if k + h < |s| && !ClosesRaw(s, k, h) {
      RawEndLeavesRoom(s, k + 1, h);
    }
  }

  lemma {:induction false} QuoteEndAgrees(o: string, s: string, k: nat)
    requires |o| == |s| && QuoteEnd(s, k) < |s|
    requires forall j :: k <= j < QuoteEnd(s, k) ==> o[j] == s[j]
    ensures QuoteEnd(o, k) == QuoteEnd(s, k)
    decreases |s| - k
  {
    if k < |s| && s[k] != '"' {
      var next := k + if s[k] == '\\' then 2 else 1;
      assert k < QuoteEnd(s, k) && next <= QuoteEnd(s, next) + 1;
      QuoteEndAgrees(o, s, next);
    }
  }

  /** A string that is kept is read the same way again. */
  lemma QuotedStaysQuoted(o: string, s: string, i: nat)
    requires i < |s| == |o| && TokenAt(s, i).kind == Quoted
    requires forall j :: i <= j < TokenAt(s, i).end ==> o[j] == s[j]
    ensures TokenAt(o, i) == TokenAt(s, i)
  {
    var e := TokenAt(s, i).end;
    if e == |s| {
      SameSuffix(o, s, i);
    } else if OpensRaw(s, i) {
      var q := HashEnd(s, i + 1);
      assert q + 1 <= e;
      assert o[i + 1..e] == s[i + 1..e];
      HashEndAgrees(o, s, i + 1, e);
      RawEndAgrees(o, s, q + 1, q - i - 1);
    } else {
      QuoteEndAgrees(o, s, i + 1);
    }
  }

  lemma SameSuffix(o: string, s: string, i: nat)
    requires i < |s| == |o| && forall j :: i <= j < |s| ==> o[j] == s[j]
    requires TokenAt(s, i).kind == Quoted
    ensures TokenAt(o, i) == TokenAt(s, i)
  {
    HashEndSame(o, s, i + 1);
    if OpensRaw(s, i) {
      var q := HashEnd(s, i + 1);
      RawEndSame(o, s, q + 1, q - i - 1);
    } else {
      QuoteEndSame(o, s, i + 1);
    }
  }

  lemma {:induction false} HashEndSame(o: string, s: string, k: nat)
    requires k <= |s| == |o| && forall j :: k <= j < |s| ==> o[j] == s[j]
    ensures HashEnd(o, k) == HashEnd(s, k)
    decreases |s| - k
  {
    if k < |s| {
      HashEndSame(o, s, k + 1);
    }
  }

  lemma {:induction false} RawEndSame(o: string, s: string, k: nat, h: nat)
    requires k <= |s| == |o| && forall j :: k <= j < |s| ==> o[j] == s[j]
    ensures RawEnd(o, k, h) == RawEnd(s, k, h)
    decreases |s| - k
  {
    if k < |s| {
      RawEndSame(o, s, k + 1, h);
    }
  }

  lemma {:induction false} QuoteEndSame(o: string, s: string, k: nat)
    requires |s| == |o| && forall j :: k <= j < |s| ==> o[j] == s[j]
    ensures QuoteEnd(o, k) == QuoteEnd(s, k)
    decreases |s| - k
  {
    if k < |s| {
      QuoteEndSame(o, s, k + if s[k] == '\\' then 2 else 1);
    }
  }

  lemma BlankIsPlain(o: string, i: nat)
    requires i < |o| && (o[i] == ' ' || o[i] == '\n')
    ensures TokenAt(o, i) == Token(Plain, i + 1)
  {
  }

  /** Blanks are read one by one and stay. */
  lemma {:induction false} BlanksScanToThemselves(o: string, i: nat, e: nat, blankStrings: bool)
    requires i <= e <= |o| && forall j :: i <= j < e ==> o[j] == ' ' || o[j] == '\n'
    ensures ScanFrom(o, i, blankStrings) == o[i..e] + ScanFrom(o, e, blankStrings)
    decreases e - i
  {
    hide ScanFrom, TokenAt;
    if i < e {
      BlankIsPlain(o, i);
      ScanOne(o, i, blankStrings);
      BlanksScanToThemselves(o, i + 1, e, blankStrings);
      assert o[i..e] == o[i..i + 1] + o[i + 1..e];
    } else {
      assert o[i..e] == [];
    }
  }

  lemma {:induction false} ScanOfScan(s: string, o: string, i: nat, a: bool, b: bool)
    requires i <= |s| && Covers(o, s) && o[i..] == ScanFrom(s, i, a)
    ensures ScanFrom(o, i, b) == ScanFrom(s, i, a || b)
    decreases |s| - i
  {
    if i < |s| {
      hide TokenAt, Covers;
      var t := TokenAt(s, i);
      var x := if Kept(t.kind, a) then s[i..t.end] else Blank(s[i..t.end]);
      CoverLength(o, s);
      Pieces(o, i, t.end, x, ScanFrom(s, t.end, a));
      ScanOfScan(s, o, t.end, a, b);
      TokenAgain(s, o, i, t, a, b);
    }
  }

  /** One token of the scanned text, rendered again. */
  lemma TokenAgain(s: string, o: string, i: nat, t: Token, a: bool, b: bool)
    requires i < |s| && Covers(o, s) && t == TokenAt(s, i)
    requires o[i..t.end] == if Kept(t.kind, a) then s[i..t.end] else Blank(s[i..t.end])
    ensures ScanFrom(o, i, b)
         == (if Kept(t.kind, a || b) then s[i..t.end] else Blank(s[i..t.end])) + ScanFrom(o, t.end, b)
  {
    hide TokenAt, Covers, ScanFrom;
    CoverLength(o, s);
    if Kept(t.kind, a) {
      forall j | i <= j < t.end
        ensures o[j] == s[j]
      {
        assert o[j] == o[i..t.end][j - i] == s[i..t.end][j - i] == s[j];
      }
      if t.kind == Plain {
        PlainStaysPlain(o, s, i);
        PlainEnd(s, i);
      } else {
        QuotedStaysQuoted(o, s, i);
      }
      ScanOne(o, i, b);
    } else {
      forall j | i <= j < t.end
        ensures o[j] == ' ' || o[j] == '\n'
      {
        assert o[j] == o[i..t.end][j - i];
      }
      BlanksScanToThemselves(o, i, t.end, b);
    }
  }

  lemma PlainEnd(s: string, i: nat)
    requires i < |s| && TokenAt(s, i).kind == Plain
    ensures TokenAt(s, i).end == i + 1
  {
  }

  lemma ScanOne(o: string, i: nat, b: bool)
    requires i < |o|
    ensures var t := TokenAt(o, i);
      ScanFrom(o, i, b) == (if Kept(t.kind, b) then o[i..t.end] else Blank(o[i..t.end])) + ScanFrom(o, t.end, b)
  {
    hide TokenAt;
  }

  /**
   Scanning twice is scanning once with both requests. So either scan is idempotent, and blanking
   strings after stripping comments is blanking both at once.
   */
  lemma ScansCompose(s: string, a: bool, b: bool)
    ensures Scan(Scan(s, a), b) == Scan(s, a || b)
  {
    hide ScanFrom;
    ScanCovers(s, 0, a);
    assert s[0..] == s;
    var o := Scan(s, a);
    assert o[0..] == o;
    ScanOfScan(s, o, 0, a, b);
  }

  lemma StripThenBlank(s: string)
    ensures StripComments(StripComments(s)) == StripComments(s)
    ensures BlankCommentsAndStrings(BlankCommentsAndStrings(s)) == BlankCommentsAndStrings(s)
    ensures BlankCommentsAndStrings(StripComments(s)) == BlankCommentsAndStrings(s)
  {
    hide Scan;
    ScansCompose(s, false, false);
    ScansCompose(s, true, true);
    ScansCompose(s, false, true);
  }

  // ---------------------------------------------------------------- nothing to scan is left

  ghost predicate NoOpenerFrom(o: string, i: nat) {
    forall j :: i <= j < |o| ==> o[j] != '"' && !At2(o, j, '-', '-') && !At2(o, j, '/', '-')
  }

  lemma {:induction false} NoOpenerLeft(s: string, o: string, i: nat)
    requires i <= |s| && Covers(o, s) && o[i..] == ScanFrom(s, i, true)
    ensures NoOpenerFrom(o, i)
    decreases |s| - i
  {
    hide TokenAt, Covers, ScanFrom;
    CoverLength(o, s);
    if i < |s| {
      ScanOne(s, i, true);
      var t := TokenAt(s, i);
      var x := if Kept(t.kind, true) then s[i..t.end] else Blank(s[i..t.end]);
      Pieces(o, i, t.end, x, ScanFrom(s, t.end, true));
      NoOpenerLeft(s, o, t.end);
      if t.kind == Plain {
        PlainEnd(s, i);
        assert o[i] == o[i..t.end][0] == s[i..t.end][0] == s[i];
        PlainIsNoOpener(o, s, i);
      } else {
        forall j | i <= j < t.end
          ensures o[j] == ' ' || o[j] == '\n'
        {
          assert o[j] == o[i..t.end][j - i];
        }
      }
    }
  }

  lemma PlainIsNoOpener(o: string, s: string, i: nat)
    requires i < |s| && Covers(o, s) && o[i] == s[i] && TokenAt(s, i).kind == Plain
    ensures o[i] != '"' && !At2(o, i, '-', '-') && !At2(o, i, '/', '-')
  {
  }

  /** After blanking, no quote and no comment opener is left. */
  lemma BlankedHasNoOpener(s: string)
    ensures NoOpenerFrom(BlankCommentsAndStrings(s), 0)
  {
    hide ScanFrom, NoOpenerFrom;
    ScanCovers(s, 0, true);
    var o := BlankCommentsAndStrings(s);
    assert s[0..] == s && o[0..] == o;
    NoOpenerLeft(s, o, 0);
  }

  // ---------------------------------------------------------------- the loops of the source

  function Min(a: nat, b: nat): (m: nat)
  {
    if a < b then a else b
  }

  /** End of an ordinary string; an escape at the very end of the text steps one past it. */
  method SkipQuoted(s: string, start: nat) returns (i: nat)
    requires start < |s|
    ensures Min(i, |s|) == QuoteEnd(s, start + 1) && i > start
  {
    i := start + 1;
    while i < |s| && s[i] != '"'
      invariant i > start
      invariant QuoteEnd(s, i) == QuoteEnd(s, start + 1)
      decreases |s| - i
    {
      i := i + if s[i] == '\\' then 2 else 1;
    }
    if i < |s| {
      i := i + 1;
    }
  }

  method SkipBlock(s: string, start: nat) returns (i: nat)
    requires At2(s, start, '/', '-')
    ensures i == BlockEnd(s, start + 2, 1)
  {
    var depth := 1;
    i := start + 2;
    while i < |s| && depth > 0
      invariant start + 2 <= i <= |s| && depth >= 0
      invariant BlockEnd(s, i, depth) == BlockEnd(s, start + 2, 1)
      decreases |s| - i
    {
      if At2(s, i, '/', '-') {
        depth, i := depth + 1, i + 2;
      } else if At2(s, i, '-', '/') {
        depth, i := depth - 1, i + 2;
      } else {
        i := i + 1;
      }
    }
  }

  /** The token that starts at `start`: whether it is kept, if it is not a single character, and its end. */
  method NextToken(s: string, start: nat, blankStrings: bool) returns (keep: bool, i: nat)
    requires start < |s|
    ensures Min(i, |s|) == TokenAt(s, start).end && i > start
    ensures keep == Kept(TokenAt(s, start).kind, blankStrings)
  {
    if s[start] == 'r' {
      var quote := start + 1;
      while quote < |s| && s[quote] == '#'
        invariant start < quote <= |s|
        invariant HashEnd(s, quote) == HashEnd(s, start + 1)
      {
        quote := quote + 1;
      }
      if quote < |s| && s[quote] == '"' {
        i := RawEnd(s, quote + 1, quote - start - 1);
        return !blankStrings, i;
      }
    }
    if s[start] == '"' {
      i := SkipQuoted(s, start);
      return !blankStrings, i;
    }
    if At2(s, start, '-', '-') {
      i := LineEnd(s, start + 2);
      return false, i;
    }
    if At2(s, start, '/', '-') {
      i := SkipBlock(s, start);
      return false, i;
    }
    return true, start + 1;
  }

  method ScanLean(s: string, blankStrings: bool) returns (out: string)
    ensures out == Scan(s, blankStrings)
  {
    hide TokenAt, ScanFrom;
    out := [];
    var i := 0;
    while i < |s|
      invariant Scan(s, blankStrings) == out + ScanFrom(s, Min(i, |s|), blankStrings)
      decreases |s| - i
    {
      var start := i;
      var keep;
      ScanOne(s, start, blankStrings);
      keep, i := NextToken(s, start, blankStrings);
      var end := Min(i, |s|);
      if keep {
        out := out + s[start..end];
      } else {
        out := out + Blank(s[start..end]);
      }
    }
    assert |ScanFrom(s, |s|, blankStrings)| == 0;
  }
}
