/** Lower-case hex text: it spells bytes one way, sorts as they do, and is read back by the lenient reader. */
module HexText {
  import opened Bytes

  function Digit(n: int): (c: char)
    requires 0 <= n < 16
    ensures c as int == if n < 10 then 48 + n else 87 + n
  {
    if n < 10 then '0' + n as char else 'W' + n as char
  }

  predicate IsDigit(c: char) {
    '0' <= c <= '9' || 'a' <= c <= 'f'
  }

  function DigitValue(c: char): (n: int)
    requires IsDigit(c)
    ensures 0 <= n < 16 && Digit(n) == c
  {
    if c <= '9' then c as int - 48 else c as int - 87
  }

  function Hex(b: seq<Byte>): (s: string)
    ensures |s| == 2 * |b|
  {
    if b == [] then [] else [Digit(b[0] / 16), Digit(b[0] % 16)] + Hex(b[1..])
  }

  /** The bytes that even-length lower-case hex text spells. */
  function Unhex(s: string): (b: seq<Byte>)
    requires |s| % 2 == 0 && forall i :: 0 <= i < |s| ==> IsDigit(s[i])
    ensures 2 * |b| == |s| && Hex(b) == s
  {
    if s == [] then []
    else
      var first: Byte := 16 * DigitValue(s[0]) + DigitValue(s[1]);
      assert s == [s[0], s[1]] + s[2..];
      [first] + Unhex(s[2..])
  }

  /** A hash as the fixtures write it: 64 lower-case hex digits. */
  predicate IsHashText(s: string) {
    |s| == 64 && forall i :: 0 <= i < |s| ==> IsDigit(s[i])
  }

  /** Text order: code points compared from the left. */
  function Codes(s: string): (xs: seq<int>)
    ensures |xs| == |s| && forall i :: 0 <= i < |s| ==> xs[i] == s[i] as int
  {
    if s == [] then [] else [s[0] as int] + Codes(s[1..])
  }

  predicate TextLess(a: string, b: string) {
    LexLess(Codes(a), Codes(b))
  }

  lemma LexLessStep(x: int, y: int, a: seq<int>, b: seq<int>)
    ensures LexLess([x] + a, [y] + b) <==> x < y || (x == y && LexLess(a, b))
  {
    assert ([x] + a)[1..] == a && ([y] + b)[1..] == b;
  }

  lemma CodesOfHex(b: seq<Byte>)
    requires b != []
    ensures Codes(Hex(b)) == [Digit(b[0] / 16) as int] + ([Digit(b[0] % 16) as int] + Codes(Hex(b[1..])))
  {
    var h := Hex(b);
    assert h[2..] == Hex(b[1..]);
    assert h[1..][1..] == h[2..];
    assert Codes(h) == [h[0] as int] + Codes(h[1..]);
    assert Codes(h[1..]) == [h[1] as int] + Codes(h[1..][1..]);
  }

  /** Hex text sorts exactly as the bytes it spells. */
  lemma {:induction false} HexOrder(a: seq<Byte>, b: seq<Byte>)
    ensures TextLess(Hex(a), Hex(b)) <==> LexLess(a, b)
    decreases |a|
  {
    if a != [] && b != [] {
      HexOrder(a[1..], b[1..]);
      CodesOfHex(a);
      CodesOfHex(b);
      var x, y := Codes(Hex(a[1..])), Codes(Hex(b[1..]));
      hide Hex, Codes;
      LexLessStep(Digit(a[0] / 16) as int, Digit(b[0] / 16) as int,
                  [Digit(a[0] % 16) as int] + x, [Digit(b[0] % 16) as int] + y);
      LexLessStep(Digit(a[0] % 16) as int, Digit(b[0] % 16) as int, x, y);
      hide LexLess;
      DigitsOrder(a[0], b[0]);
      assert a == [a[0]] + a[1..] && b == [b[0]] + b[1..];
      LexLessStep(a[0], b[0], a[1..], b[1..]);
    }
  }

  lemma DigitsOrder(x: Byte, y: Byte)
    ensures x < y <==> (Digit(x / 16) as int < Digit(y / 16) as int
      || (Digit(x / 16) == Digit(y / 16) && Digit(x % 16) as int < Digit(y % 16) as int))
    ensures x == y <==> Digit(x / 16) == Digit(y / 16) && Digit(x % 16) == Digit(y % 16)
  {
  }

  // ---------------------------------------------------------------- the lenient reader

  predicate IsSpace(c: char) {
    c == ' ' || ('\t' <= c <= '\r')
  }

  /** The value of a hex digit of either case. */
  function AnyDigit(c: char): (n: Option<int>)
    ensures n.Some? ==> 0 <= n.value < 16
    ensures IsDigit(c) ==> n == Some(DigitValue(c))
  {
    if '0' <= c <= '9' then Some(c as int - 48)
    else if 'a' <= c <= 'f' then Some(c as int - 87)
    else if 'A' <= c <= 'F' then Some(c as int - 55)
    else None
  }

  /** Pairs of hex digits with white space allowed between the pairs. */
  function FromHex(s: string): (b: Option<seq<Byte>>)
    decreases |s|
  {
    if s == [] then Some([])
    else if IsSpace(s[0]) then FromHex(s[1..])
    else if |s| == 1 || AnyDigit(s[0]).None? || AnyDigit(s[1]).None? then None
    else
      var rest := FromHex(s[2..]);
      if rest.None? then None
      else
        var first: Byte := 16 * AnyDigit(s[0]).value + AnyDigit(s[1]).value;
        Some([first] + rest.value)
  }

  /** Whatever bytes are written as hex are read back. */
  lemma {:induction false} FromHexOfHex(b: seq<Byte>)
    ensures FromHex(Hex(b)) == Some(b)
  {
    if b != [] {
      FromHexOfHex(b[1..]);
      var h := Hex(b);
      assert h[2..] == Hex(b[1..]);
      assert h[0] == Digit(b[0] / 16) && h[1] == Digit(b[0] % 16);
      DigitIsDigit(b[0] / 16);
      DigitIsDigit(b[0] % 16);
      hide Hex, Digit, AnyDigit;
      assert b == [b[0]] + b[1..];
    }
  }

  lemma DigitIsDigit(n: int)
    requires 0 <= n < 16
    ensures AnyDigit(Digit(n)) == Some(n) && !IsSpace(Digit(n))
  {
  }
}
