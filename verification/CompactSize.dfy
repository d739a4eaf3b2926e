/**
 The CompactSize integer prefix: the encoder of the clients and of the fixture generators, the
 second encoder and the lenient decoder of the witness round-trip vector, and the strict reader
 of the consensus parser.
 */
module CompactSize {
  import opened Bytes

  /** What a reader returns: the integer and how many bytes it occupied. */
  datatype Sized = Sized(n: nat, len: nat)

  datatype ReadError = UnexpectedEof | NonMinimal

  function Encode(n: nat): (b: seq<Byte>)
    requires n < U64
  {
    if n < 0xFD then [n]
    else if n <= 0xFFFF then [0xFD] + LittleEndian(n, 2)
    else if n <= 0xFFFF_FFFF then [0xFE] + LittleEndian(n, 4)
    else [0xFF] + LittleEndian(n, 8)
  }

  /** Number of bytes in the encoding, as the weight rules compute it without encoding. */
  function EncodedLen(n: nat): (k: nat)
  {
    if n <= 0xFC then 1 else if n <= 0xFFFF then 3 else if n <= 0xFFFF_FFFF then 5 else 9
  }

  lemma EncodedLenMatches(n: nat)
    requires n < U64
    ensures |Encode(n)| == EncodedLen(n)
  {
  }

  /** Number of payload bytes announced by a first byte. */
  function PayloadWidth(tag: Byte): (w: nat)
  {
    if tag < 0xFD then 0 else if tag == 0xFD then 2 else if tag == 0xFE then 4 else 8
  }

  /** The decoder that accepts every width; `None` where indexing past the end raises. */
  function DecodeAny(b: seq<Byte>): (r: Option<Sized>)
  {
    if b == [] then None
    else
      var w := PayloadWidth(b[0]);
      if |b| < 1 + w then None
      else if w == 0 then Some(Sized(b[0], 1))
      else Some(Sized(FromLittleEndian(b[1..1 + w]), 1 + w))
  }

  /** The consensus reader: the same integers, but only from their shortest form. */
  function Read(b: seq<Byte>): (r: Result<Sized, ReadError>)
  {
    if b == [] then Err(UnexpectedEof)
    else
      var w := PayloadWidth(b[0]);
      if |b| < 1 + w then Err(UnexpectedEof)
      else if w == 0 then Ok(Sized(b[0], 1))
      else
        var v := FromLittleEndian(b[1..1 + w]);
        var minimal := if w == 2 then v >= 0xFD else if w == 4 then v > 0xFFFF else v > 0xFFFF_FFFF;
        if minimal then Ok(Sized(v, 1 + w)) else Err(NonMinimal)
  }

  /** Reading back an encoding returns the integer and stops exactly at the end of it. */
  lemma ReadEncode(n: nat, rest: seq<Byte>)
    requires n < U64
    ensures Read(Encode(n) + rest) == Ok(Sized(n, |Encode(n)|))
    ensures DecodeAny(Encode(n) + rest) == Some(Sized(n, |Encode(n)|))
  {
    Capacities();
    var b := Encode(n) + rest;
    if n >= 0xFD {
      var w := PayloadWidth(b[0]);
      assert b[1..1 + w] == LittleEndian(n, w);
      FromToLittleEndian(n, w);
    }
  }

  /** Whatever the strict reader accepts is the encoding of what it returns. */
  lemma ReadIsCanonical(b: seq<Byte>)
    requires Read(b).Ok?
    ensures var Sized(n, k) := Read(b).value; n < U64 && k <= |b| && b[..k] == Encode(n)
  {
    Capacities();
    var w := PayloadWidth(b[0]);
    if w > 0 {
      ToFromLittleEndian(b[1..1 + w]);
      assert b[..1 + w] == [b[0]] + b[1..1 + w];
    }
  }

  /**
   Among all byte strings the lenient decoder maps to `n`, `Encode(n)` is the only one of its
   length and all others are longer; the strict reader accepts exactly that one.
   */
  lemma EncodingIsUniqueShortest(b: seq<Byte>)
    requires DecodeAny(b).Some?
    ensures var Sized(n, k) := DecodeAny(b).value;
      && n < U64 && k <= |b| && |Encode(n)| <= k
      && (k == |Encode(n)| <==> b[..k] == Encode(n))
      && (Read(b) == if k == |Encode(n)| then Ok(Sized(n, k)) else Err(NonMinimal))
  {
    Capacities();
    var Sized(n, k) := DecodeAny(b).value;
    if Read(b).Ok? {
      ReadIsCanonical(b);
    }
  }

  /** No encoding is a proper prefix of another, so a stream of them splits one way only. */
  lemma PrefixFree(m: nat, n: nat, restM: seq<Byte>, restN: seq<Byte>)
    requires m < U64 && n < U64
    requires Encode(m) + restM == Encode(n) + restN
    ensures m == n && restM == restN
  {
    ReadEncode(m, restM);
    ReadEncode(n, restN);
    var s := Encode(m) + restM;
    assert restM == s[|Encode(m)|..] && restN == s[|Encode(n)|..];
  }

  /** `n` shifted right by `8 * i` bits, one byte at a time. */
  function Shifted(n: nat, i: nat): (m: nat)
  {
    if i == 0 then n else Shifted(n / 256, i - 1)
  }

  lemma {:induction false} LittleEndianAt(n: nat, width: nat, i: nat)
    requires i < width
    ensures LittleEndian(n, width)[i] == Shifted(n, i) % 256
  {
    if i > 0 {
      LittleEndianAt(n / 256, width - 1, i - 1);
    }
  }

  /** The shift-and-mask encoder of the witness round-trip vector, for every integer. */
  method EncodeByShifts(n: nat) returns (b: seq<Byte>)
    ensures n < U64 ==> b == Encode(n)
    ensures n >= U64 ==> b == [0xFF] + LittleEndian(n, 8)
  {
    if n < 0xFD {
      return [n];
    }
    if n <= 0xFFFF {
      b := [0xFD, n % 256, (n / 256) % 256];
      assert LittleEndian(n, 2) == [n % 256] + LittleEndian(n / 256, 1);
      return;
    }
    if n <= 0xFFFF_FFFF {
      b := [0xFE, n % 256, Shifted(n, 1) % 256, Shifted(n, 2) % 256, Shifted(n, 3) % 256];
      forall i | 0 <= i < 4
        ensures LittleEndian(n, 4)[i] == b[1 + i]
      {
        LittleEndianAt(n, 4, i);
      }
      assert b == [0xFE] + LittleEndian(n, 4);
      return;
    }
    b := [0xFF];
    for i := 0 to 8
      invariant |b| == 1 + i && b[0] == 0xFF
      invariant b[1..] == LittleEndian(n, 8)[..i]
    {
      LittleEndianAt(n, 8, i);
      b := b + [Shifted(n, i) % 256];
    }
    assert b == [b[0]] + b[1..];
  }
}
