/**
 Whole transactions: the parser accepts exactly the marshalled forms of well-formed transactions,
 each in one way.
 */
module TxCodec {
  import opened Bytes
  import opened Wire
  import opened TxWire
  import opened WitnessWire
  import CS = CompactSize

  /** A parsed transaction and the offsets where its core and the whole transaction end. */
  datatype ParsedTx = ParsedTx(tx: Tx, coreEnd: int, totalEnd: int)

  predicate PayloadOk(kind: uint8, payload: Vec<Byte>) {
    if kind == 0x00 then |payload| == 0
    else if kind == 0x01 then |payload| <= MAX_DA_MANIFEST_BYTES_PER_TX
    else 1 <= |payload| <= CHUNK_BYTES
  }

  predicate TxOk(tx: Tx) {
    CoreOk(tx.core) && TailOk(tx.core.prefix.kind, TailOf(tx))
  }

  function TailOf(tx: Tx): (t: TxTail)
  {
    TxTail(tx.witnesses, tx.daPayload)
  }

  function TxBytes(tx: Tx): (b: seq<Byte>)
  {
    CoreBytes(tx.core) + TailBytes(TailOf(tx))
  }

  function ParsePayload(b: seq<Byte>, kind: uint8): (r: Outcome<Vec<Byte>>)
  {
    var n :- TakeSize(b);
    if kind == 0x00 then
      if n.value != 0 then Err(Parse) else Ok(Parsed([], n.rest))
    else if kind == 0x01 then
      if n.value > MAX_DA_MANIFEST_BYTES_PER_TX then Err(Parse)
      else
        var p :- Take(n.rest, n.value);
        Ok(Parsed(p.value, p.rest))
    else if kind == 0x02 then
      if n.value == 0 || n.value > CHUNK_BYTES then Err(Parse)
      else
        var p :- Take(n.rest, n.value);
        Ok(Parsed(p.value, p.rest))
    else Err(Parse)
  }

  /** What follows the core: the witnesses and the payload. */
  datatype TxTail = TxTail(witnesses: Vec<WitnessItem>, daPayload: Vec<Byte>)

  predicate TailOk(kind: uint8, t: TxTail) {
    WitnessesOk(t.witnesses) && PayloadOk(kind, t.daPayload)
  }

  function TailBytes(t: TxTail): (b: seq<Byte>)
  {
    WitnessBytes(t.witnesses) + Blob(t.daPayload)
  }

  function ParseTail(b: seq<Byte>, kind: uint8): (r: Outcome<TxTail>)
  {
    var witnesses :- ParseWitnesses(b);
    var payload :- ParsePayload(witnesses.rest, kind);
    Ok(Parsed(TxTail(witnesses.value, payload.value), payload.rest))
  }

  function ParseTx(b: seq<Byte>): (r: Result<ParsedTx, Code>)
  {
    var core :- ParseCore(b);
    var tail :- ParseTail(core.rest, core.value.prefix.kind);
    Ok(ParsedTx(Tx(core.value, tail.value.witnesses, tail.value.daPayload), |b| - |core.rest|, |b| - |tail.rest|))
  }

  lemma PayloadRoundTrip(kind: uint8, p: Vec<Byte>, rest: seq<Byte>)
    requires kind <= 0x02 && PayloadOk(kind, p)
    ensures ParsePayload(Blob(p) + rest, kind) == Ok(Parsed(p, rest))
  {
    Assoc(CS.Encode(|p|), p, rest);
    SizeRoundTrip(|p|, p + rest);
    TakeAppend(p, rest);
    assert |p| == 0 ==> p + rest == rest;
  }

  lemma PayloadCanonical(b: seq<Byte>, kind: uint8)
    requires ParsePayload(b, kind).Ok?
    ensures var Parsed(p, rest) := ParsePayload(b, kind).value; PayloadOk(kind, p) && b == Blob(p) + rest
  {
    hide TakeSize, CS.Encode;
    SizeCanonical(b);
    var Parsed(p, rest) := ParsePayload(b, kind).value;
    var tail := TakeSize(b).value.rest;
    assert tail == p + rest;
    Assoc(CS.Encode(|p|), p, rest);
  }

  lemma TailRoundTrip(kind: uint8, t: TxTail, rest: seq<Byte>)
    requires kind <= 0x02 && TailOk(kind, t)
    ensures ParseTail(TailBytes(t) + rest, kind) == Ok(Parsed(t, rest))
  {
    Assoc(WitnessBytes(t.witnesses), Blob(t.daPayload), rest);
    WitnessesRoundTrip(t.witnesses, Blob(t.daPayload) + rest);
    PayloadRoundTrip(kind, t.daPayload, rest);
  }

  lemma TailCanonical(b: seq<Byte>, kind: uint8)
    requires ParseTail(b, kind).Ok?
    ensures var Parsed(t, rest) := ParseTail(b, kind).value; TailOk(kind, t) && b == TailBytes(t) + rest
  {
    WitnessesCanonical(b);
    PayloadCanonical(ParseWitnesses(b).value.rest, kind);
    var Parsed(t, rest) := ParseTail(b, kind).value;
    Assoc(WitnessBytes(t.witnesses), Blob(t.daPayload), rest);
  }

  /** Parsing a marshalled transaction, whatever follows it, returns it and stops at its end. */
  lemma TxRoundTrip(tx: Tx, rest: seq<Byte>)
    requires TxOk(tx)
    ensures ParseTx(TxBytes(tx) + rest) == Ok(ParsedTx(tx, |CoreBytes(tx.core)|, |TxBytes(tx)|))
  {
    hide ParseCore, ParseTail, CoreBytes, TailBytes, TailOk;
    var t := TailOf(tx);
    Assoc(CoreBytes(tx.core), TailBytes(t), rest);
    CoreRoundTrip(tx.core, TailBytes(t) + rest);
    TailRoundTrip(tx.core.prefix.kind, t, rest);
  }

  /** Whatever the parser accepts is well-formed, and the bytes it consumed are its marshalled form. */
  lemma TxCanonical(b: seq<Byte>)
    requires ParseTx(b).Ok?
    ensures var ParsedTx(tx, coreEnd, totalEnd) := ParseTx(b).value;
      && TxOk(tx) && 0 <= coreEnd <= totalEnd <= |b|
      && b[..totalEnd] == TxBytes(tx) && b[..coreEnd] == CoreBytes(tx.core)
  {
    CoreCanonical(b);
    var Parsed(core, t1) := ParseCore(b).value;
    TailCanonical(t1, core.prefix.kind);
    var Parsed(tail, rest) := ParseTail(t1, core.prefix.kind).value;
    Assoc(CoreBytes(core), TailBytes(tail), rest);
    assert b == TxBytes(ParseTx(b).value.tx) + rest;
    assert b == CoreBytes(core) + t1;
  }

  /** A byte string parses exactly when it starts with the marshalled form of a well-formed transaction. */
  lemma ParserAcceptsExactly(b: seq<Byte>)
    ensures ParseTx(b).Ok? <==> exists tx :: TxOk(tx) && TxBytes(tx) <= b
  {
    hide ParseTx, TxBytes, TxOk;
    if ParseTx(b).Ok? {
      TxCanonical(b);
      assert TxBytes(ParseTx(b).value.tx) <= b;
    }
    if tx :| TxOk(tx) && TxBytes(tx) <= b {
      TxRoundTrip(tx, b[|TxBytes(tx)|..]);
      assert b == TxBytes(tx) + b[|TxBytes(tx)|..];
    }
  }

  /** The marshalled forms are a prefix-free code, so a concatenation of transactions splits one way only. */
  lemma TxPrefixFree(x: Tx, y: Tx, restX: seq<Byte>, restY: seq<Byte>)
    requires TxOk(x) && TxOk(y) && TxBytes(x) + restX == TxBytes(y) + restY
    ensures x == y && restX == restY
  {
    TxRoundTrip(x, restX);
    TxRoundTrip(y, restY);
    var s := TxBytes(x) + restX;
    assert restX == s[|TxBytes(x)|..] && restY == s[|TxBytes(y)|..];
  }

  // ---------------------------------------------------------------- the reading loops of the source

  method ReadInputs(b: seq<Byte>) returns (r: Outcome<Vec<TxInput>>)
    ensures r == ParseInputs(b)
  {
    var n :- TakeSize(b);
    if n.value > MAX_TX_INPUTS {
      return Err(Parse);
    }
    var p :- ReadItems(ParseInput, n.value, n.rest);
    return Ok(Parsed(p.value, p.rest));
  }

  method ReadOutputs(b: seq<Byte>) returns (r: Outcome<Vec<TxOutput>>)
    ensures r == ParseOutputs(b)
  {
    var n :- TakeSize(b);
    if n.value > MAX_TX_OUTPUTS {
      return Err(Parse);
    }
    var p :- ReadItems(ParseOutput, n.value, n.rest);
    return Ok(Parsed(p.value, p.rest));
  }

  method ReadWitnesses(b: seq<Byte>) returns (r: Outcome<Vec<WitnessItem>>)
    ensures r == ParseWitnesses(b)
  {
    var n :- TakeSize(b);
    if n.value > MAX_WITNESS_ITEMS {
      return Err(WitnessOverflow);
    }
    var p :- ReadCapped(ReadItem, ItemBytes, ItemError, n.value, n.rest, |CS.Encode(n.value)|);
    return Ok(Parsed(p.value, p.rest));
  }

  method ReadCore(b: seq<Byte>) returns (r: Outcome<TxCore>)
    ensures r == ParseCore(b)
  {
    var prefix :- ParsePrefix(b);
    var inputs :- ReadInputs(prefix.rest);
    var outputs :- ReadOutputs(inputs.rest);
    var locktime :- TakeU32(outputs.rest);
    var da :- ParseDaCore(locktime.rest, prefix.value.kind);
    return Ok(Parsed(
      TxCore(prefix.value, inputs.value, outputs.value, locktime.value, da.value.commit, da.value.chunk), da.rest));
  }

  method ReadTail(b: seq<Byte>, kind: uint8) returns (r: Outcome<TxTail>)
    ensures r == ParseTail(b, kind)
  {
    var witnesses :- ReadWitnesses(b);
    var payload :- ParsePayload(witnesses.rest, kind);
    return Ok(Parsed(TxTail(witnesses.value, payload.value), payload.rest));
  }

  method ReadTx(b: seq<Byte>) returns (r: Result<ParsedTx, Code>)
    ensures r == ParseTx(b)
  {
    hide ParseCore, ParseTail;
    var core :- ReadCore(b);
    var tail :- ReadTail(core.rest, core.value.prefix.kind);
    return Ok(ParsedTx(
      Tx(core.value, tail.value.witnesses, tail.value.daPayload), |b| - |core.rest|, |b| - |tail.rest|));
  }

  // ---------------------------------------------------------------- the writing loops of the source

  /** The kind calls for core fields the transaction does not have. */
  predicate DaFieldsMissing(c: TxCore) {
    (c.prefix.kind == 0x01 && c.daCommit.None?) || (c.prefix.kind == 0x02 && c.daChunk.None?) || c.prefix.kind > 0x02
  }

  method WriteCore(c: TxCore) returns (b: seq<Byte>)
    ensures b == CoreBytes(c)
  {
    hide InputBytes, OutputBytes, DaCoreBytes, Concat;
    b := LittleEndian(c.prefix.version, 4) + [c.prefix.kind] + LittleEndian(c.prefix.nonce, 8);
    assert b == PrefixBytes(c.prefix);
    b := b + CS.Encode(|c.inputs|);
    b := WriteItems(InputBytes, c.inputs, b);
    assert b == PrefixBytes(c.prefix) + ListBytes(InputBytes, c.inputs);
    hide PrefixBytes;
    ghost var head := b;
    b := b + CS.Encode(|c.outputs|);
    b := WriteItems(OutputBytes, c.outputs, b);
    assert b == head + ListBytes(OutputBytes, c.outputs);
    hide ListBytes;
    b := b + LittleEndian(c.locktime, 4) + DaCoreBytes(c);
  }

  method WriteTail(t: TxTail) returns (b: seq<Byte>)
    ensures b == TailBytes(t)
  {
    hide ItemBytes, Concat;
    b := CS.Encode(|t.witnesses|);
    b := WriteItems(ItemBytes, t.witnesses, b);
    Assoc(b, CS.Encode(|t.daPayload|), t.daPayload);
    b := b + CS.Encode(|t.daPayload|) + t.daPayload;
  }

  /** The marshaller fails exactly when the fields its kind calls for are missing. */
  method MarshalTx(tx: Tx) returns (r: Result<seq<Byte>, Code>)
    ensures r == if DaFieldsMissing(tx.core) then Err(Parse) else Ok(TxBytes(tx))
  {
    hide CoreBytes, TailBytes;
    if DaFieldsMissing(tx.core) {
      return Err(Parse);
    }
    var core := WriteCore(tx.core);
    var tail := WriteTail(TailOf(tx));
    return Ok(core + tail);
  }
}
