/**
 The case body the policy gate cuts out of the sanitised text and out of the raw text. The two are
 aligned exactly when the case marker is first found at the same column of both head lines; a comment
 on that line that quotes the marker breaks the alignment.
 */
module GoCaseBody {
  import opened Text
  import opened GoSanitize

  const MARKER: string := "case SUITE_ID_ML_DSA_87:"

  /** The lines of a text; a final line break does not start another line. */
  function Lines(s: string): (ls: seq<string>)
    decreases |s|
  {
    if s == [] then []
    else
      var e := BreakAt(s, '\n', 0);
      if e == |s| then [s] else [s[..e]] + Lines(s[e + 1..])
  }

  predicate StartsAt(s: string, k: nat) {
    k + |MARKER| <= |s| && s[k..k + |MARKER|] == MARKER
  }

  /** Where the rest of the head line begins: after the first marker, or at the end without one. */
  function CutFrom(head: string, k: nat): (c: nat)
    requires k <= |head|
    ensures c <= |head|
    decreases |head| - k
  {
    if StartsAt(head, k) then k + |MARKER| else if k == |head| then k else CutFrom(head, k + 1)
  }

  function Cut(head: string): (c: nat)
    ensures c <= |head|
  {
    CutFrom(head, 0)
  }

  function Rest(lines: seq<string>): (s: string)
  {
    if lines == [] then [] else "\n" + lines[0] + Rest(lines[1..])
  }

  /** The selected lines joined, with the head cut after the marker. */
  function Body(lines: seq<string>): (s: string)
  {
    if lines == [] then [] else lines[0][Cut(lines[0])..] + Rest(lines[1..])
  }

  function CaseBody(text: string, start: nat, end: nat): (s: string)
    requires start <= end <= |Lines(text)|
  {
    Body(Lines(text)[start..end])
  }

  method SliceCaseBody(text: string, start: nat, end: nat) returns (s: string)
    requires start <= end <= |Lines(text)|
    ensures s == CaseBody(text, start, end)
  {
    var selected := Lines(text)[start..end];
    if |selected| == 0 {
      return [];
    }
    var tail := selected[0][Cut(selected[0])..];
    ghost var before := selected;
    selected := selected[0 := tail];
    s := selected[0];
    for i := 1 to |selected|
      invariant s + Rest(selected[i..]) == tail + Rest(selected[1..])
    {
      assert selected[i..][1..] == selected[i + 1..];
      assert s + Rest(selected[i..]) == s + "\n" + selected[i] + Rest(selected[i + 1..]);
      s := s + "\n" + selected[i];
    }
    assert selected[|selected|..] == [];
    assert selected[1..] == before[1..];
  }

  // ---------------------------------------------------------------- alignment

  ghost predicate LinesCover(os: seq<string>, ss: seq<string>) {
    |os| == |ss| && forall k :: 0 <= k < |ss| ==> Covers(os[k], ss[k])
  }

  lemma {:induction false} SameBreak(o: string, s: string, k: nat)
    requires k <= |s| && Covers(o, s)
    ensures BreakAt(o, '\n', k) == BreakAt(s, '\n', k)
    decreases |s| - k
  {
    if k < |s| && s[k] != '\n' {
      SameBreak(o, s, k + 1);
    }
  }

  /** A covered text has the same lines, each covered. */
  lemma {:induction false} CoveredLines(o: string, s: string)
    requires Covers(o, s)
    ensures LinesCover(Lines(o), Lines(s))
    decreases |s|
  {
    if s != [] {
      SameBreak(o, s, 0);
      var e := BreakAt(s, '\n', 0);
      if e < |s| {
        CoverSlice(o, s, 0, e);
        CoverSlice(o, s, e + 1, |s|);
        assert o[..e] == o[0..e] && s[..e] == s[0..e];
        assert o[e + 1..] == o[e + 1..|s|] && s[e + 1..] == s[e + 1..|s|];
        CoveredLines(o[e + 1..], s[e + 1..]);
      }
    }
  }

  lemma {:induction false} CoveredRest(os: seq<string>, ss: seq<string>)
    requires LinesCover(os, ss)
    ensures Covers(Rest(os), Rest(ss))
    decreases |ss|
  {
    if ss != [] {
      assert LinesCover(os[1..], ss[1..]);
      CoveredRest(os[1..], ss[1..]);
      CoverJoin("\n" + os[0], "\n" + ss[0], Rest(os[1..]), Rest(ss[1..]));
    }
  }

  /** Cut at the same column is exactly what makes the two bodies cover each other. */
  lemma BodiesAlign(os: seq<string>, ss: seq<string>)
    requires LinesCover(os, ss) && ss != []
    ensures Covers(Body(os), Body(ss)) <==> Cut(os[0]) == Cut(ss[0])
  {
    hide CutFrom;
    assert LinesCover(os[1..], ss[1..]);
    CoveredRest(os[1..], ss[1..]);
    var c, d := Cut(os[0]), Cut(ss[0]);
    CoverLength(os[0], ss[0]);
    CoverLength(Rest(os[1..]), Rest(ss[1..]));
    if c == d {
      CoverSlice(os[0], ss[0], c, |ss[0]|);
      assert os[0][c..] == os[0][c..|ss[0]|] && ss[0][c..] == ss[0][c..|ss[0]|];
      CoverJoin(os[0][c..], ss[0][c..], Rest(os[1..]), Rest(ss[1..]));
    }
  }

  /**
   For every text and line range: offsets into the sanitised case body index the same raw characters
   if and only if the marker is first found at the same column of the sanitised and the raw head line.
   */
  lemma CaseBodiesAlign(text: string, start: nat, end: nat)
    requires start < end <= |Lines(text)|
    ensures |Lines(Sanitize(text, true))| == |Lines(text)|
    ensures var o := Sanitize(text, true);
      Covers(CaseBody(o, start, end), CaseBody(text, start, end))
      <==> Cut(Lines(o)[start]) == Cut(Lines(text)[start])
  {
    hide Sanitize, Cut, Lines;
    PositionsPreserved(text, true);
    var o := Sanitize(text, true);
    CoveredLines(o, text);
    var os, ss := Lines(o)[start..end], Lines(text)[start..end];
    assert LinesCover(os, ss);
    BodiesAlign(os, ss);
  }

  // ---------------------------------------------------------------- a line that breaks it

  predicate PlainChar(c: char) {
    c != '/' && c != '"' && c != '`' && c != '\'' && c != '\n' && c != '*'
  }

  predicate PlainText(s: string) {
    forall i :: 0 <= i < |s| ==> PlainChar(s[i])
  }

  lemma MarkerIsPlain()
    ensures PlainText(MARKER) && |MARKER| > 0 && MARKER[0] == 'c'
  {
  }

  lemma {:induction false} PlainRegion(s: string, i: nat, e: nat, strip: bool)
    requires i <= e <= |s| && forall j :: i <= j < e ==> PlainChar(s[j])
    ensures SanitizeFrom(s, i, Normal, strip) == s[i..e] + SanitizeFrom(s, e, Normal, strip)
    decreases e - i
  {
    hide SanitizeFrom;
    if i < e {
      assert PieceAt(s, i, Normal) == Piece(Plain, i + 1, Normal);
      OnePiece(s, i, Normal, strip);
      PlainRegion(s, i + 1, e, strip);
      assert s[i..e] == s[i..i + 1] + s[i + 1..e];
    } else {
      assert s[i..e] == [];
    }
  }

  lemma {:induction false} CommentRegion(s: string, i: nat, e: nat, strip: bool)
    requires i <= e && e + 1 < |s| && s[e] == '*' && s[e + 1] == '/' && forall j :: i <= j < e ==> PlainChar(s[j])
    ensures SanitizeFrom(s, i, BlockComment, strip)
         == Blank(s[i..e + 2]) + SanitizeFrom(s, e + 2, Normal, strip)
    decreases e - i
  {
    hide SanitizeFrom, Blank;
    OnePiece(s, i, BlockComment, strip);
    if i < e {
      CommentPiece(s, i);
      hide PieceAt, PlainChar;
      CommentRegion(s, i + 1, e, strip);
      BlankFrom(s, i, i + 1, e + 2);
      Reassociate(Blank(s[i..i + 1]), Blank(s[i + 1..e + 2]), SanitizeFrom(s, e + 2, Normal, strip));
    } else {
      CommentEnd(s, i);
    }
  }

  lemma CommentPiece(s: string, i: nat)
    requires i < |s| && PlainChar(s[i])
    ensures PieceAt(s, i, BlockComment) == Piece(Comment, i + 1, BlockComment)
  {
  }

  lemma CommentEnd(s: string, i: nat)
    requires i + 1 < |s| && s[i] == '*' && s[i + 1] == '/'
    ensures PieceAt(s, i, BlockComment) == Piece(Comment, i + 2, Normal)
  {
  }

  lemma BlankFrom(s: string, i: nat, k: nat, j: nat)
    requires i <= k <= j <= |s|
    ensures Blank(s[i..j]) == Blank(s[i..k]) + Blank(s[k..j])
  {
    hide Blank;
    BlankJoin(s[i..k], s[k..j]);
    assert s[i..j] == s[i..k] + s[k..j];
  }

  lemma BlankJoin(a: string, b: string)
    ensures Blank(a + b) == Blank(a) + Blank(b)
  {
    var whole, parts := Blank(a + b), Blank(a) + Blank(b);
    assert |whole| == |parts|;
    assert forall i :: 0 <= i < |whole| ==> whole[i] == parts[i];
  }

  lemma Reassociate(a: string, b: string, c: string)
    ensures a + (b + c) == a + b + c
  {
  }

  /** The marker in a comment, the marker, and plain text after it. */
  function QuotedMarkerLine(tail: string): (s: string)
  {
    "/*" + MARKER + "*/" + MARKER + tail
  }

  /** On such a line the raw body starts inside the comment and the sanitised body after it. */
  lemma CommentedMarkerMisaligns(tail: string)
    requires PlainText(tail)
    ensures var text := QuotedMarkerLine(tail);
      && |Lines(text)| == 1
      && !Covers(CaseBody(Sanitize(text, true), 0, 1), CaseBody(text, 0, 1))
  {
    var text, m := QuotedMarkerLine(tail), |MARKER|;
    MarkerIsPlain();
    hide PlainChar, Sanitize, Cut, CaseBody;
    OneLine(text, tail);
    PositionsPreserved(text, true);
    CoveredLines(Sanitize(text, true), text);
    CutOfRaw(tail);
    CutOfSanitised(tail);
    CaseBodiesAlign(text, 0, 1);
    LineIsText(Sanitize(text, true), text);
  }

  lemma OneLine(text: string, tail: string)
    requires PlainText(tail) && text == QuotedMarkerLine(tail)
    ensures Lines(text) == [text]
  {
    MarkerIsPlain();
    hide MARKER;
    forall j | 0 <= j < |text|
      ensures text[j] != '\n'
    {
    }
  }

  lemma LineIsText(o: string, s: string)
    requires Covers(o, s) && s != [] && Lines(s) == [s]
    ensures Lines(o) == [o]
  {
    SameBreak(o, s, 0);
    var e := BreakAt(s, '\n', 0);
    if e < |s| {
      assert |Lines(s)[0]| == e;
    }
  }

  lemma StartsWithC(s: string, k: nat)
    requires StartsAt(s, k)
    ensures s[k] == 'c'
  {
    MarkerIsPlain();
    hide MARKER;
    assert s[k] == s[k..k + |MARKER|][0];
  }

  lemma {:induction false} SkipOthers(o: string, k: nat, e: nat)
    requires k <= e <= |o| && StartsAt(o, e) && forall j :: k <= j < e ==> o[j] != 'c'
    ensures CutFrom(o, k) == e + |MARKER|
    decreases e - k
  {
    hide MARKER, StartsAt;
    if k < e {
      assert !StartsAt(o, k) by {
        if StartsAt(o, k) {
          StartsWithC(o, k);
          assert false;
        }
      }
      SkipOthers(o, k + 1, e);
    }
  }

  lemma CutOfRaw(tail: string)
    ensures Cut(QuotedMarkerLine(tail)) == 2 + |MARKER|
  {
    var text, m := QuotedMarkerLine(tail), |MARKER|;
    hide MARKER;
    assert text[2..2 + m] == MARKER;
    assert text[0] == '/' && text[1] == '*';
    SkipOthers(text, 0, 2);
  }

  lemma CutOfSanitised(tail: string)
    requires PlainText(tail)
    ensures Cut(Sanitize(QuotedMarkerLine(tail), true)) == 4 + 2 * |MARKER|
  {
    var text, m := QuotedMarkerLine(tail), |MARKER|;
    SanitisedLine(tail);
    var o := Sanitize(text, true);
    MarkerIsPlain();
    hide Sanitize, MARKER;
    assert o[4 + m..4 + 2 * m] == MARKER;
    SkipOthers(o, 0, 4 + m);
  }

  lemma SanitisedLine(tail: string)
    requires PlainText(tail)
    ensures Sanitize(QuotedMarkerLine(tail), true) == Blank("/*" + MARKER + "*/") + MARKER + tail
  {
    MarkerIsPlain();
    hide MARKER, PlainChar;
    CommentThenPlain(MARKER, MARKER + tail);
    assert "/*" + MARKER + "*/" + (MARKER + tail) == QuotedMarkerLine(tail);
    assert Blank("/*" + MARKER + "*/") + (MARKER + tail) == Blank("/*" + MARKER + "*/") + MARKER + tail;
  }

  /** A text that opens with a comment closed at `e` and is plain otherwise. */
  ghost predicate OpensWithComment(text: string, e: nat) {
    && 2 <= e && e + 2 <= |text|
    && text[0] == '/' && text[1] == '*' && text[e] == '*' && text[e + 1] == '/'
    && (forall j :: 2 <= j < e ==> PlainChar(text[j]))
    && (forall j :: e + 2 <= j < |text| ==> PlainChar(text[j]))
  }

  lemma OpeningComment(text: string, e: nat)
    requires OpensWithComment(text, e)
    ensures SanitizeFrom(text, 0, Normal, true) == Blank(text[0..2]) + SanitizeFrom(text, 2, BlockComment, true)
  {
    hide SanitizeFrom, PlainChar;
    OnePiece(text, 0, Normal, true);
    assert PieceAt(text, 0, Normal) == Piece(Comment, 2, BlockComment);
  }

  lemma CommentRegions(text: string, e: nat)
    requires OpensWithComment(text, e)
    ensures SanitizeFrom(text, 0, Normal, true) == Blank(text[..e + 2]) + text[e + 2..]
  {
    assert SanitizeFrom(text, |text|, Normal, true) == [];
    hide PlainChar, SanitizeFrom, Blank;
    OpeningComment(text, e);
    CommentRegion(text, 2, e, true);
    PlainRegion(text, e + 2, |text|, true);
    hide OpensWithComment;
    BlankFrom(text, 0, 2, e + 2);
    assert text[..e + 2] == text[0..e + 2];
    JoinThree(Blank(text[0..2]), Blank(text[2..e + 2]), text[e + 2..|text|]);
  }

  lemma JoinThree(a: string, b: string, c: string)
    ensures a + (b + (c + [])) == a + b + c
  {
  }

  lemma CommentThenPlain(quoted: string, after: string)
    requires PlainText(quoted) && PlainText(after)
    ensures Sanitize("/*" + quoted + "*/" + after, true) == Blank("/*" + quoted + "*/") + after
  {
    hide PlainChar, SanitizeFrom;
    var text, m := "/*" + quoted + "*/" + after, |quoted|;
    assert OpensWithComment(text, 2 + m);
    CommentRegions(text, 2 + m);
    assert text[..4 + m] == "/*" + quoted + "*/" && text[4 + m..] == after;
  }
}
