/**
 The Go source sanitiser of the crypto-backend policy gate: a character state machine that blanks
 comments, and on request string, raw-string and rune literals, in place. The gate finds a pattern in
 the sanitised case body and looks at the same offsets of the raw one.
 */
module GoSanitize {
  import opened Text

  datatype State = Normal | LineComment | BlockComment | InString | InRaw | InRune

  datatype Kind = Plain | Quoted | Comment

  /** What one turn of the loop consumes at a position, and the state after it. */
  datatype Piece = Piece(kind: Kind, end: nat, next: State)

  function OneOrTwo(s: string, i: nat): (e: nat)
    requires i < |s|
    ensures i < e <= |s|
  {
    if i + 1 < |s| then i + 2 else i + 1
  }

  predicate NextIs(s: string, i: nat, c: char) {
    i + 1 < |s| && s[i + 1] == c
  }

  function PieceAt(s: string, i: nat, st: State): (p: Piece)
    requires i < |s|
    ensures i < p.end <= |s|
  {
    var c := s[i];
    match st
    case Normal =>
      if c == '/' && NextIs(s, i, '/') then Piece(Comment, i + 2, LineComment)
      else if c == '/' && NextIs(s, i, '*') then Piece(Comment, i + 2, BlockComment)
      else if c == '"' then Piece(Quoted, i + 1, InString)
      else if c == '`' then Piece(Quoted, i + 1, InRaw)
      else if c == '\'' then Piece(Quoted, i + 1, InRune)
      else Piece(Plain, i + 1, Normal)
    case LineComment => Piece(Comment, i + 1, if c == '\n' then Normal else LineComment)
    case BlockComment =>
      if c == '*' && NextIs(s, i, '/') then Piece(Comment, i + 2, Normal) else Piece(Comment, i + 1, BlockComment)
    case InString =>
      if c == '\\' then Piece(Quoted, OneOrTwo(s, i), InString)
      else Piece(Quoted, i + 1, if c == '"' then Normal else InString)
    case InRaw => Piece(Quoted, i + 1, if c == '`' then Normal else InRaw)
    case InRune =>
      if c == '\\' then Piece(Quoted, OneOrTwo(s, i), InRune)
      else Piece(Quoted, i + 1, if c == '\'' then Normal else InRune)
  }

  predicate Kept(kind: Kind, strip: bool) {
    kind == Plain || (kind == Quoted && !strip)
  }

  function Render(s: string, kind: Kind, strip: bool): (x: string)
    ensures |x| == |s|
  {
    if Kept(kind, strip) then s else Blank(s)
  }

  function SanitizeFrom(s: string, i: nat, st: State, strip: bool): (out: string)
    requires i <= |s|
    ensures |out| == |s| - i
    decreases |s| - i
  {
    if i == |s| then []
    else
      var p := PieceAt(s, i, st);
      Render(s[i..p.end], p.kind, strip) + SanitizeFrom(s, p.end, p.next, strip)
  }

  function Sanitize(s: string, strip: bool): (out: string)
  {
    SanitizeFrom(s, 0, Normal, strip)
  }

  /** A character of a literal, as the loop appends it. */
  function Shown(c: char, strip: bool): (d: char)
  {
    if strip then if c == '\n' then '\n' else ' ' else c
  }

  /** One character appended, or a two-character comment mark as two spaces. */
  lemma Appended(s: string, i: nat, strip: bool)
    requires i < |s|
    ensures Render(s[i..i + 1], Plain, strip) == [s[i]]
    ensures Render(s[i..i + 1], Quoted, strip) == [Shown(s[i], strip)]
    ensures Render(s[i..i + 1], Comment, strip) == [if s[i] == '\n' then '\n' else ' ']
    ensures i + 1 < |s| ==> Render(s[i..i + 2], Quoted, strip) == [Shown(s[i], strip), Shown(s[i + 1], strip)]
    ensures i + 1 < |s| && s[i] != '\n' && s[i + 1] != '\n' ==> Render(s[i..i + 2], Comment, strip) == "  "
  {
  }

  /** One turn of the loop: what is appended, and where and in which state it goes on. */
  method Turn(s: string, i: nat, state: State, strip: bool) returns (text: string, end: nat, next: State)
    requires i < |s|
    ensures Piece(PieceAt(s, i, state).kind, end, next) == PieceAt(s, i, state)
    ensures text == Render(s[i..end], PieceAt(s, i, state).kind, strip)
  {
    hide Render;
    Appended(s, i, strip);
    var c := s[i];
    match state
    case Normal =>
      if c == '/' && NextIs(s, i, '/') {
        return "  ", i + 2, LineComment;
      }
      if c == '/' && NextIs(s, i, '*') {
        return "  ", i + 2, BlockComment;
      }
      if c == '"' {
        return [Shown(c, strip)], i + 1, InString;
      }
      if c == '`' {
        return [Shown(c, strip)], i + 1, InRaw;
      }
      if c == '\'' {
        return [Shown(c, strip)], i + 1, InRune;
      }
      return [c], i + 1, Normal;
    case LineComment =>
      if c == '\n' {
        return "\n", i + 1, Normal;
      }
      return " ", i + 1, LineComment;
    case BlockComment =>
      if c == '*' && NextIs(s, i, '/') {
        return "  ", i + 2, Normal;
      }
      return [if c == '\n' then '\n' else ' '], i + 1, BlockComment;
    case InRaw =>
      return [Shown(c, strip)], i + 1, if c == '`' then Normal else InRaw;
    case _ =>
      if c == '\\' {
        if i + 1 < |s| {
          return [Shown(c, strip), Shown(s[i + 1], strip)], i + 2, state;
        }
        return [Shown(c, strip)], i + 1, state;
      }
      var quote := if state == InString then '"' else '\'';
      return [Shown(c, strip)], i + 1, if c == quote then Normal else state;
  }

  /** The loop of the source. */
  method SanitizeGoSource(s: string, strip: bool) returns (out: string)
    ensures out == Sanitize(s, strip)
  {
    hide SanitizeFrom, Render, PieceAt;
    out := [];
    var i, state := 0, Normal;
    while i < |s|
      invariant 0 <= i <= |s|
      invariant Sanitize(s, strip) == out + SanitizeFrom(s, i, state, strip)
      decreases |s| - i
    {
      OnePiece(s, i, state, strip);
      var text;
      text, i, state := Turn(s, i, state, strip);
      out := out + text;
    }
    assert |SanitizeFrom(s, i, state, strip)| == 0;
  }

  lemma OnePiece(s: string, i: nat, st: State, strip: bool)
    requires i < |s|
    ensures var p := PieceAt(s, i, st);
      SanitizeFrom(s, i, st, strip) == Render(s[i..p.end], p.kind, strip) + SanitizeFrom(s, p.end, p.next, strip)
  {
    hide PieceAt;
  }

  // ---------------------------------------------------------------- positions

  lemma {:induction false} SanitizeCovers(s: string, i: nat, st: State, strip: bool)
    requires i <= |s|
    ensures Covers(SanitizeFrom(s, i, st, strip), s[i..])
    decreases |s| - i
  {
    hide PieceAt;
    if i < |s| {
      var p := PieceAt(s, i, st);
      SanitizeCovers(s, p.end, p.next, strip);
      assert s[i..] == s[i..p.end] + s[p.end..];
    }
  }

  lemma PositionsPreserved(s: string, strip: bool)
    ensures Covers(Sanitize(s, strip), s)
    ensures forall i :: 0 <= i < |s| ==> (Sanitize(s, strip)[i] == '\n' <==> s[i] == '\n')
  {
    hide SanitizeFrom;
    SanitizeCovers(s, 0, Normal, strip);
    assert s[0..] == s;
  }

  // ---------------------------------------------------------------- sanitising twice

  /** The state in which a second pass sees what the first pass left. */
  function Seen(st: State, strip: bool): (st': State)
  {
    match st
    case Normal => Normal
    case LineComment => Normal
    case BlockComment => Normal
    case InString => if strip then Normal else InString
    case InRaw => if strip then Normal else InRaw
    case InRune => if strip then Normal else InRune
  }

  lemma {:induction false} BlanksStay(o: string, i: nat, e: nat, strip: bool)
    requires i <= e <= |o| && forall j :: i <= j < e ==> o[j] == ' ' || o[j] == '\n'
    ensures SanitizeFrom(o, i, Normal, strip) == o[i..e] + SanitizeFrom(o, e, Normal, strip)
    decreases e - i
  {
    hide SanitizeFrom;
    if i < e {
      assert PieceAt(o, i, Normal) == Piece(Plain, i + 1, Normal);
      OnePiece(o, i, Normal, strip);
      BlanksStay(o, i + 1, e, strip);
      assert o[i..e] == o[i..i + 1] + o[i + 1..e];
    } else {
      assert o[i..e] == [];
    }
  }

  /** A piece the first pass keeps is read the same way by the second. */
  lemma KeptAgain(o: string, s: string, i: nat, st: State, strip: bool)
    requires i < |s| && Covers(o, s) && Kept(PieceAt(s, i, st).kind, strip)
    requires forall j :: i <= j < PieceAt(s, i, st).end ==> o[j] == s[j]
    ensures PieceAt(o, i, Seen(st, strip)) == PieceAt(s, i, st)
    ensures Seen(PieceAt(s, i, st).next, strip) == PieceAt(s, i, st).next
  {
  }

  lemma BlankedAgain(s: string, i: nat, st: State, strip: bool)
    requires i < |s| && !Kept(PieceAt(s, i, st).kind, strip)
    ensures Seen(PieceAt(s, i, st).next, strip) == Normal
    ensures Seen(st, strip) == Normal
  {
  }

  lemma {:induction false} SanitizeAgain(s: string, o: string, i: nat, st: State, a: bool, b: bool)
    requires i <= |s| && Covers(o, s) && o[i..] == SanitizeFrom(s, i, st, a)
    ensures SanitizeFrom(o, i, Seen(st, a), b) == SanitizeFrom(s, i, st, a || b)
    decreases |s| - i
  {
    hide PieceAt, SanitizeFrom, Seen;
    assert |o| == |s|;
    if i == |s| {
      assert |SanitizeFrom(o, i, Seen(st, a), b)| == |SanitizeFrom(s, i, st, a || b)| == 0;
    } else {
      OnePiece(s, i, st, a);
      OnePiece(s, i, st, a || b);
      var p := PieceAt(s, i, st);
      Pieces(o, i, p.end, Render(s[i..p.end], p.kind, a), SanitizeFrom(s, p.end, p.next, a));
      SanitizeAgain(s, o, p.end, p.next, a, b);
      hide Covers;
      PieceAgain(s, o, i, st, a, b);
    }
  }

  lemma PieceAgain(s: string, o: string, i: nat, st: State, a: bool, b: bool)
    requires i < |s| && Covers(o, s)
    requires var p := PieceAt(s, i, st); o[i..p.end] == Render(s[i..p.end], p.kind, a)
    ensures var p := PieceAt(s, i, st);
      SanitizeFrom(o, i, Seen(st, a), b)
      == Render(s[i..p.end], p.kind, a || b) + SanitizeFrom(o, p.end, Seen(p.next, a), b)
  {
    hide PieceAt, SanitizeFrom, Seen;
    var p := PieceAt(s, i, st);
    if Kept(p.kind, a) {
      forall j | i <= j < p.end
        ensures o[j] == s[j]
      {
        assert o[j] == o[i..p.end][j - i] == s[i..p.end][j - i] == s[j];
      }
      KeptAgain(o, s, i, st, a);
      OnePiece(o, i, Seen(st, a), b);
    } else {
      forall j | i <= j < p.end
        ensures o[j] == ' ' || o[j] == '\n'
      {
        assert o[j] == o[i..p.end][j - i];
      }
      BlankedAgain(s, i, st, a);
      BlanksStay(o, i, p.end, b);
    }
  }

  /** Sanitising twice is sanitising once with both requests; either form is idempotent. */
  lemma SanitizeComposes(s: string, a: bool, b: bool)
    ensures Sanitize(Sanitize(s, a), b) == Sanitize(s, a || b)
    ensures Sanitize(Sanitize(s, a), a) == Sanitize(s, a)
  {
    hide SanitizeFrom;
    SanitizeCovers(s, 0, Normal, a);
    assert s[0..] == s;
    var o := Sanitize(s, a);
    assert o[0..] == o;
    SanitizeAgain(s, o, 0, Normal, a, b);
    SanitizeAgain(s, o, 0, Normal, a, a);
  }

  // ---------------------------------------------------------------- nothing to sanitise is left

  ghost predicate CleanFrom(o: string, i: nat) {
    forall j :: i <= j < |o| ==>
      && o[j] != '"' && o[j] != '`' && o[j] != '\''
      && !(o[j] == '/' && (NextIs(o, j, '/') || NextIs(o, j, '*')))
  }

  lemma {:induction false} StrippedIsClean(s: string, o: string, i: nat, st: State)
    requires i <= |s| && Covers(o, s) && o[i..] == SanitizeFrom(s, i, st, true)
    ensures CleanFrom(o, i)
    decreases |s| - i
  {
    hide PieceAt, SanitizeFrom;
    if i < |s| {
      OnePiece(s, i, st, true);
      var p := PieceAt(s, i, st);
      Pieces(o, i, p.end, Render(s[i..p.end], p.kind, true), SanitizeFrom(s, p.end, p.next, true));
      StrippedIsClean(s, o, p.end, p.next);
      forall j | i <= j < p.end
        ensures p.kind != Plain ==> o[j] == ' ' || o[j] == '\n'
      {
        assert o[j] == o[i..p.end][j - i];
      }
      if p.kind == Plain {
        PlainIsClean(s, o, i, st);
      }
    }
  }

  lemma PlainIsClean(s: string, o: string, i: nat, st: State)
    requires i < |s| && Covers(o, s) && PieceAt(s, i, st).kind == Plain
    ensures PieceAt(s, i, st).end == i + 1
    ensures o[i] != '"' && o[i] != '`' && o[i] != '\''
    ensures !(o[i] == '/' && (NextIs(o, i, '/') || NextIs(o, i, '*')))
  {
  }

  /** With literals stripped, the result has no quote of any kind and no comment opener. */
  lemma NoQuoteOrOpenerLeft(s: string)
    ensures CleanFrom(Sanitize(s, true), 0)
  {
    hide SanitizeFrom, CleanFrom;
    SanitizeCovers(s, 0, Normal, true);
    var o := Sanitize(s, true);
    assert s[0..] == s && o[0..] == o;
    StrippedIsClean(s, o, 0, Normal);
  }
}
