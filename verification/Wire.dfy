/**
 Reading and writing wire fields: fixed-width integers, length-prefixed byte strings and counted
 lists. The cursor of the source is a slice and an offset that only moves forward; here it is the
 part of the slice that is still unread.
 */
module Wire {
  import opened Bytes
  import CS = CompactSize

  type uint8 = Byte
  type uint16 = n: int | 0 <= n < U16
  type uint32 = n: int | 0 <= n < U32
  type uint64 = n: int | 0 <= n < U64

  /** A vector: its length fits the machine word that counts it. */
  type Vec<T> = v: seq<T> | |v| < U64 witness []

  datatype Code = Parse | WitnessOverflow | SigNoncanonical | BlockParse | CoinbaseInvalid

  datatype Parsed<+T> = Parsed(value: T, rest: seq<Byte>)

  type Outcome<T> = Result<Parsed<T>, Code>

  // ---------------------------------------------------------------- fixed and length-prefixed fields

  function Take(b: seq<Byte>, n: nat): (r: Outcome<seq<Byte>>)
  {
    if |b| < n then Err(Parse) else Ok(Parsed(b[..n], b[n..]))
  }

  function TakeUint(b: seq<Byte>, width: nat): (r: Outcome<nat>)
    ensures r.Ok? ==> r.value.value < Capacity(width)
  {
    var p :- Take(b, width);
    Ok(Parsed(FromLittleEndian(p.value), p.rest))
  }

  function TakeU8(b: seq<Byte>): (r: Outcome<uint8>)
  {
    if b == [] then Err(Parse) else Ok(Parsed(b[0], b[1..]))
  }

  function TakeU16(b: seq<Byte>): (r: Outcome<uint16>)
  {
    Capacities();
    var p :- TakeUint(b, 2);
    Ok(Parsed(p.value, p.rest))
  }

  function TakeU32(b: seq<Byte>): (r: Outcome<uint32>)
  {
    Capacities();
    var p :- TakeUint(b, 4);
    Ok(Parsed(p.value, p.rest))
  }

  function TakeU64(b: seq<Byte>): (r: Outcome<uint64>)
  {
    Capacities();
    var p :- TakeUint(b, 8);
    Ok(Parsed(p.value, p.rest))
  }

  function Take32(b: seq<Byte>): (r: Outcome<Hash32>)
  {
    if |b| < 32 then Err(Parse) else Ok(Parsed(b[..32], b[32..]))
  }

  function TakeSize(b: seq<Byte>): (r: Outcome<uint64>)
  {
    match CS.Read(b)
    case Ok(s) =>
      CS.ReadIsCanonical(b);
      Ok(Parsed(s.n, b[s.len..]))
    case Err(_) => Err(Parse)
  }

  /** A length prefix no larger than `max`, then that many bytes. */
  function TakeBlob(b: seq<Byte>, max: uint64): (r: Outcome<Vec<Byte>>)
  {
    var n :- TakeSize(b);
    if n.value > max then Err(Parse)
    else
      var p :- Take(n.rest, n.value);
      Ok(Parsed(p.value, p.rest))
  }

  function Blob(x: Vec<Byte>): (b: seq<Byte>)
  {
    CS.Encode(|x|) + x
  }

  lemma Assoc<T>(a: seq<T>, b: seq<T>, c: seq<T>)
    ensures (a + b) + c == a + (b + c)
  {
  }

  lemma TakeAppend(x: seq<Byte>, rest: seq<Byte>)
    ensures Take(x + rest, |x|) == Ok(Parsed(x, rest))
  {
    assert (x + rest)[..|x|] == x && (x + rest)[|x|..] == rest;
  }

  lemma UintRoundTrip(n: nat, width: nat, rest: seq<Byte>)
    requires n < Capacity(width)
    ensures TakeUint(LittleEndian(n, width) + rest, width) == Ok(Parsed(n, rest))
  {
    TakeAppend(LittleEndian(n, width), rest);
    FromToLittleEndian(n, width);
  }

  lemma UintCanonical(b: seq<Byte>, width: nat)
    requires TakeUint(b, width).Ok?
    ensures var Parsed(n, rest) := TakeUint(b, width).value; b == LittleEndian(n, width) + rest
  {
    ToFromLittleEndian(b[..width]);
    assert b == b[..width] + b[width..];
  }

  lemma Take32Canonical(b: seq<Byte>)
    requires Take32(b).Ok?
    ensures b == Take32(b).value.value + Take32(b).value.rest
  {
    assert b == b[..32] + b[32..];
  }

  lemma SizeRoundTrip(n: uint64, rest: seq<Byte>)
    ensures TakeSize(CS.Encode(n) + rest) == Ok(Parsed(n, rest))
  {
    CS.ReadEncode(n, rest);
  }

  lemma SizeCanonical(b: seq<Byte>)
    requires TakeSize(b).Ok?
    ensures var Parsed(n, rest) := TakeSize(b).value; b == CS.Encode(n) + rest
  {
    CS.ReadIsCanonical(b);
    var k := CS.Read(b).value.len;
    assert b == b[..k] + b[k..];
  }

  lemma BlobRoundTrip(x: Vec<Byte>, max: uint64, rest: seq<Byte>)
    requires |x| <= max
    ensures TakeBlob(Blob(x) + rest, max) == Ok(Parsed(x, rest))
  {
    Assoc(CS.Encode(|x|), x, rest);
    SizeRoundTrip(|x|, x + rest);
    TakeAppend(x, rest);
  }

  lemma BlobCanonical(b: seq<Byte>, max: uint64)
    requires TakeBlob(b, max).Ok?
    ensures var Parsed(x, rest) := TakeBlob(b, max).value; |x| <= max && b == Blob(x) + rest
  {
    SizeCanonical(b);
    var n := TakeSize(b).value;
    var x := n.rest[..n.value];
    assert n.rest == x + n.rest[n.value..];
    Assoc(CS.Encode(|x|), x, n.rest[n.value..]);
  }

  /**
   `parse` accepts exactly the byte strings that start with `enc(x)` for an `x` satisfying `ok`,
   and returns that `x` with what follows it.
   */
  ghost predicate IsCodec<T(!new)>(ok: T -> bool, enc: T -> seq<Byte>, parse: seq<Byte> -> Outcome<T>) {
    && (forall x, rest :: ok(x) ==> parse(enc(x) + rest) == Ok(Parsed(x, rest)))
    && (forall b :: parse(b).Ok? ==> var Parsed(x, rest) := parse(b).value; ok(x) && b == enc(x) + rest)
  }

  // ---------------------------------------------------------------- counted lists

  predicate AllOk<T>(ok: T -> bool, xs: seq<T>) {
    forall i :: 0 <= i < |xs| ==> ok(xs[i])
  }

  function Concat<T>(enc: T -> seq<Byte>, xs: seq<T>): (b: seq<Byte>)
  {
    if xs == [] then [] else enc(xs[0]) + Concat(enc, xs[1..])
  }

  lemma {:induction false} ConcatSnoc<T>(enc: T -> seq<Byte>, xs: seq<T>, x: T)
    ensures Concat(enc, xs + [x]) == Concat(enc, xs) + enc(x)
  {
    if xs == [] {
      assert [] + [x] == [x] && [x][1..] == [];
    } else {
      assert (xs + [x])[1..] == xs[1..] + [x];
      ConcatSnoc(enc, xs[1..], x);
    }
  }

  /** `n` more items after the ones in `done`. */
  function ParseItems<T>(parse: seq<Byte> -> Outcome<T>, n: nat, b: seq<Byte>, done: seq<T>): (r: Outcome<seq<T>>)
    ensures r.Ok? ==> |r.value.value| == |done| + n
    decreases n
  {
    if n == 0 then Ok(Parsed(done, b))
    else
      var p :- parse(b);
      ParseItems(parse, n - 1, p.rest, done + [p.value])
  }

  /** The write loop of a list: items appended to `out` one after the other. */
  method WriteItems<T>(enc: T -> seq<Byte>, xs: seq<T>, out: seq<Byte>) returns (b: seq<Byte>)
    ensures b == out + Concat(enc, xs)
  {
    b := out;
    for i := 0 to |xs|
      invariant b == out + Concat(enc, xs[..i])
    {
      assert xs[..i + 1] == xs[..i] + [xs[i]];
      ConcatSnoc(enc, xs[..i], xs[i]);
      b := b + enc(xs[i]);
    }
    assert xs[..|xs|] == xs;
  }

  /** The read loop of a counted list. */
  method ReadItems<T>(parse: seq<Byte> -> Outcome<T>, n: nat, b: seq<Byte>) returns (r: Outcome<seq<T>>)
    ensures r == ParseItems(parse, n, b, [])
  {
    var items, rest := [], b;
    for i := 0 to n
      invariant ParseItems(parse, n - i, rest, items) == ParseItems(parse, n, b, [])
    {
      var p :- parse(rest);
      items, rest := items + [p.value], p.rest;
    }
    return Ok(Parsed(items, rest));
  }

  function ListBytes<T>(enc: T -> seq<Byte>, xs: Vec<T>): (b: seq<Byte>)
  {
    CS.Encode(|xs|) + Concat(enc, xs)
  }

  function ParseList<T>(parse: seq<Byte> -> Outcome<T>, max: uint64, b: seq<Byte>): (r: Outcome<Vec<T>>)
  {
    var n :- TakeSize(b);
    if n.value > max then Err(Parse)
    else
      var p :- ParseItems(parse, n.value, n.rest, []);
      Ok(Parsed(p.value, p.rest))
  }

  lemma {:induction false} ItemsRoundTrip<T(!new)>(
    ok: T -> bool, enc: T -> seq<Byte>, parse: seq<Byte> -> Outcome<T>, xs: seq<T>, done: seq<T>, rest: seq<Byte>)
    requires IsCodec(ok, enc, parse) && AllOk(ok, xs)
    ensures ParseItems(parse, |xs|, Concat(enc, xs) + rest, done) == Ok(Parsed(done + xs, rest))
    decreases |xs|
  {
    if xs == [] {
      assert done + xs == done && [] + rest == rest;
    } else {
      Assoc(enc(xs[0]), Concat(enc, xs[1..]), rest);
      assert parse(enc(xs[0]) + (Concat(enc, xs[1..]) + rest)) == Ok(Parsed(xs[0], Concat(enc, xs[1..]) + rest));
      ItemsRoundTrip(ok, enc, parse, xs[1..], done + [xs[0]], rest);
      assert done + xs == done + [xs[0]] + xs[1..];
    }
  }

  lemma {:induction false} ItemsCanonical<T(!new)>(
    ok: T -> bool, enc: T -> seq<Byte>, parse: seq<Byte> -> Outcome<T>, n: nat, b: seq<Byte>, done: seq<T>)
    requires IsCodec(ok, enc, parse) && ParseItems(parse, n, b, done).Ok?
    ensures var Parsed(ys, rest) := ParseItems(parse, n, b, done).value;
      && |ys| == |done| + n && ys[..|done|] == done
      && AllOk(ok, ys[|done|..]) && b == Concat(enc, ys[|done|..]) + rest
    decreases n
  {
    var Parsed(ys, rest) := ParseItems(parse, n, b, done).value;
    if n == 0 {
      assert [] + rest == rest;
    } else {
      var p := parse(b).value;
      assert ok(p.value) && b == enc(p.value) + p.rest;
      ItemsCanonical(ok, enc, parse, n - 1, p.rest, done + [p.value]);
      var xs := ys[|done|..];
      assert ys[..|done|] == ys[..|done| + 1][..|done|] == done;
      assert ys[|done|] == ys[..|done| + 1][|done|] == p.value;
      assert xs[1..] == ys[|done| + 1..];
      assert xs == [p.value] + xs[1..];
      Assoc(enc(p.value), Concat(enc, xs[1..]), rest);
    }
  }

  lemma ListRoundTrip<T(!new)>(
    ok: T -> bool, enc: T -> seq<Byte>, parse: seq<Byte> -> Outcome<T>, max: uint64, xs: Vec<T>, rest: seq<Byte>)
    requires IsCodec(ok, enc, parse) && AllOk(ok, xs) && |xs| <= max
    ensures ParseList(parse, max, ListBytes(enc, xs) + rest) == Ok(Parsed(xs, rest))
  {
    Assoc(CS.Encode(|xs|), Concat(enc, xs), rest);
    SizeRoundTrip(|xs|, Concat(enc, xs) + rest);
    ItemsRoundTrip(ok, enc, parse, xs, [], rest);
    assert [] + xs == xs;
  }

  lemma ListCanonical<T(!new)>(
    ok: T -> bool, enc: T -> seq<Byte>, parse: seq<Byte> -> Outcome<T>, max: uint64, b: seq<Byte>)
    requires IsCodec(ok, enc, parse) && ParseList(parse, max, b).Ok?
    ensures var Parsed(xs, rest) := ParseList(parse, max, b).value;
      AllOk(ok, xs) && |xs| <= max && b == ListBytes(enc, xs) + rest
  {
    SizeCanonical(b);
    var n := TakeSize(b).value;
    ItemsCanonical(ok, enc, parse, n.value, n.rest, []);
    var Parsed(xs, rest) := ParseList(parse, max, b).value;
    assert xs[0..] == xs;
    Assoc(CS.Encode(|xs|), Concat(enc, xs), rest);
  }

  // ---------------------------------------------------------------- lists under a byte budget

  /**
   `n` more items after `done`, when `used` bytes of the section have been read; after each item
   `check` sees it together with the bytes used so far and may reject.
   */
  function ParseCapped<T>(
    parse: seq<Byte> -> Outcome<T>, enc: T -> seq<Byte>, check: (T, nat) -> Option<Code>,
    n: nat, b: seq<Byte>, used: nat, done: seq<T>): (r: Outcome<seq<T>>)
    ensures r.Ok? ==> |r.value.value| == |done| + n
    decreases n
  {
    if n == 0 then Ok(Parsed(done, b))
    else
      var p :- parse(b);
      var used' := used + |enc(p.value)|;
      match check(p.value, used')
      case Some(code) => Err(code)
      case None => ParseCapped(parse, enc, check, n - 1, p.rest, used', done + [p.value])
  }

  /** The read loop of a list under a byte budget. */
  method ReadCapped<T>(
    parse: seq<Byte> -> Outcome<T>, enc: T -> seq<Byte>, check: (T, nat) -> Option<Code>,
    n: nat, b: seq<Byte>, alreadyUsed: nat) returns (r: Outcome<seq<T>>)
    ensures r == ParseCapped(parse, enc, check, n, b, alreadyUsed, [])
  {
    var items, rest, used: nat := [], b, alreadyUsed;
    for i := 0 to n
      invariant ParseCapped(parse, enc, check, n - i, rest, used, items)
             == ParseCapped(parse, enc, check, n, b, alreadyUsed, [])
    {
      var p :- parse(rest);
      used := used + |enc(p.value)|;
      var e := check(p.value, used);
      if e.Some? {
        return Err(e.value);
      }
      items, rest := items + [p.value], p.rest;
    }
    return Ok(Parsed(items, rest));
  }

  /** `check` passes exactly the items satisfying `ok` within the first `max` bytes. */
  ghost predicate IsCap<T(!new)>(ok: T -> bool, check: (T, nat) -> Option<Code>, max: nat) {
    forall x, used: nat :: check(x, used).None? <==> ok(x) && used <= max
  }

  /** One round of the read loop. */
  lemma CappedStep<T>(
    parse: seq<Byte> -> Outcome<T>, enc: T -> seq<Byte>, check: (T, nat) -> Option<Code>,
    n: nat, b: seq<Byte>, used: nat, done: seq<T>)
    ensures n == 0 ==> ParseCapped(parse, enc, check, n, b, used, done) == Ok(Parsed(done, b))
    ensures n > 0 && parse(b).Ok? ==>
      var Parsed(x, rest) := parse(b).value;
      check(x, used + |enc(x)|).None? ==>
        ParseCapped(parse, enc, check, n, b, used, done)
        == ParseCapped(parse, enc, check, n - 1, rest, used + |enc(x)|, done + [x])
  {
  }

  lemma {:induction false} CappedRoundTrip<T(!new)>(
    ok: T -> bool, enc: T -> seq<Byte>, parse: seq<Byte> -> Outcome<T>, check: (T, nat) -> Option<Code>, max: nat,
    xs: seq<T>, used: nat, done: seq<T>, rest: seq<Byte>)
    requires IsCodec(x => true, enc, parse) && IsCap(ok, check, max)
    requires AllOk(ok, xs) && (xs != [] ==> used + |Concat(enc, xs)| <= max)
    ensures ParseCapped(parse, enc, check, |xs|, Concat(enc, xs) + rest, used, done) == Ok(Parsed(done + xs, rest))
    decreases |xs|
  {
    hide ParseCapped;
    CappedStep(parse, enc, check, |xs|, Concat(enc, xs) + rest, used, done);
    if xs == [] {
      assert done + xs == done && [] + rest == rest;
    } else {
      var x, tail := xs[0], Concat(enc, xs[1..]);
      Assoc(enc(x), tail, rest);
      assert parse(enc(x) + (tail + rest)) == Ok(Parsed(x, tail + rest));
      assert check(x, used + |enc(x)|).None?;
      CappedRoundTrip(ok, enc, parse, check, max, xs[1..], used + |enc(x)|, done + [x], rest);
      assert done + xs == done + [x] + xs[1..];
    }
  }

  lemma {:induction false} CappedCanonical<T(!new)>(
    ok: T -> bool, enc: T -> seq<Byte>, parse: seq<Byte> -> Outcome<T>, check: (T, nat) -> Option<Code>, max: nat,
    n: nat, b: seq<Byte>, used: nat, done: seq<T>)
    requires IsCodec(x => true, enc, parse) && IsCap(ok, check, max)
    requires ParseCapped(parse, enc, check, n, b, used, done).Ok?
    ensures var Parsed(ys, rest) := ParseCapped(parse, enc, check, n, b, used, done).value;
      && |ys| == |done| + n && ys[..|done|] == done
      && AllOk(ok, ys[|done|..]) && b == Concat(enc, ys[|done|..]) + rest
      && (n > 0 ==> used + |Concat(enc, ys[|done|..])| <= max)
    decreases n
  {
    var Parsed(ys, rest) := ParseCapped(parse, enc, check, n, b, used, done).value;
    if n == 0 {
      assert [] + rest == rest;
    } else {
      var p := parse(b).value;
      assert b == enc(p.value) + p.rest;
      var used' := used + |enc(p.value)|;
      assert check(p.value, used').None?;
      CappedCanonical(ok, enc, parse, check, max, n - 1, p.rest, used', done + [p.value]);
      var xs := ys[|done|..];
      assert ys[..|done|] == ys[..|done| + 1][..|done|] == done;
      assert ys[|done|] == ys[..|done| + 1][|done|] == p.value;
      assert xs[1..] == ys[|done| + 1..] && xs == [p.value] + xs[1..];
      Assoc(enc(p.value), Concat(enc, xs[1..]), rest);
    }
  }
}
