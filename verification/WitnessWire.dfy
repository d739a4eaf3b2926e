/** The witness section: canonical item shapes, the running byte budget, and the section parser. */
module WitnessWire {
  import opened Bytes
  import opened Wire
  import opened TxWire
  import CS = CompactSize

  predicate CanonicalHtlcClaim(sig: seq<Byte>) {
    && |sig| >= 3 && sig[0] == 0x00
    && var preLen := FromLittleEndian(sig[1..3]);
       MIN_HTLC_PREIMAGE_BYTES <= preLen <= MAX_HTLC_PREIMAGE_BYTES && |sig| == 3 + preLen
  }

  predicate CanonicalSentinel(pubLen: nat, sig: seq<Byte>) {
    || (pubLen == 0 && |sig| == 0)
    || (pubLen == 32 && |sig| == 1 && sig[0] == 0x01)
    || (pubLen == 32 && |sig| >= 3 && CanonicalHtlcClaim(sig))
  }

  /** Version 1, a bounded program and a witness that fill the envelope exactly; the sighash byte follows. */
  predicate CanonicalSimplicity(sig: seq<Byte>) {
    && |sig| >= 2
    && var envelope := sig[..|sig| - 1];
       && |envelope| <= MAX_SIMPLICITY_ENVELOPE_BYTES && envelope[0] == 0x01
       && var program := TakeBlob(envelope[1..], MAX_SIMPLICITY_PROGRAM_BYTES);
          && program.Ok?
          && var data := TakeBlob(program.value.rest, U64 / 2 - 1);
             data.Ok? && data.value.rest == []
  }

  /** The shape rule of the item's suite; suites without a rule pass. */
  function ShapeError(w: WitnessItem): (e: Option<Code>)
  {
    if w.suiteId == SUITE_ID_SENTINEL then
      if CanonicalSentinel(|w.pubkey|, w.signature) then None else Some(Parse)
    else if w.suiteId == SUITE_ID_ML_DSA_87 then
      if |w.pubkey| == ML_DSA_87_PUBKEY_BYTES && |w.signature| == ML_DSA_87_SIG_BYTES + 1 then None
      else Some(SigNoncanonical)
    else if w.suiteId == SUITE_ID_SIMPLICITY_ENVELOPE then
      if |w.pubkey| == 0 && CanonicalSimplicity(w.signature) then None else Some(Parse)
    else None
  }

  /** First failing check of an item when `used` witness bytes have been read, itself included. */
  function ItemError(w: WitnessItem, used: nat): (e: Option<Code>)
  {
    if w.suiteId != SUITE_ID_SENTINEL && |w.signature| == 0 then Some(Parse)
    else if used > MAX_WITNESS_BYTES_PER_TX then Some(WitnessOverflow)
    else ShapeError(w)
  }

  predicate ItemOk(w: WitnessItem) {
    (w.suiteId == SUITE_ID_SENTINEL || |w.signature| > 0) && ShapeError(w).None?
  }

  function ItemBytes(w: WitnessItem): (b: seq<Byte>)
  {
    [w.suiteId] + (Blob(w.pubkey) + Blob(w.signature))
  }

  function ReadItem(b: seq<Byte>): (r: Outcome<WitnessItem>)
  {
    var suite :- TakeU8(b);
    var pubkey :- TakeBlob(suite.rest, U64 - 1);
    var signature :- TakeBlob(pubkey.rest, U64 - 1);
    Ok(Parsed(WitnessItem(suite.value, pubkey.value, signature.value), signature.rest))
  }

  function ParseWitnesses(b: seq<Byte>): (r: Outcome<Vec<WitnessItem>>)
  {
    var n :- TakeSize(b);
    if n.value > MAX_WITNESS_ITEMS then Err(WitnessOverflow)
    else
      var p :- ParseCapped(ReadItem, ItemBytes, ItemError, n.value, n.rest, |CS.Encode(n.value)|, []);
      Ok(Parsed(p.value, p.rest))
  }

  function WitnessBytes(ws: Vec<WitnessItem>): (b: seq<Byte>)
  {
    ListBytes(ItemBytes, ws)
  }

  predicate WitnessesOk(ws: Vec<WitnessItem>) {
    && |ws| <= MAX_WITNESS_ITEMS && AllOk(ItemOk, ws)
    && (ws != [] ==> |WitnessBytes(ws)| <= MAX_WITNESS_BYTES_PER_TX)
  }

  lemma ItemSplit(w: WitnessItem, rest: seq<Byte>)
    ensures ItemBytes(w) + rest == [w.suiteId] + (Blob(w.pubkey) + (Blob(w.signature) + rest))
  {
    Assoc(Blob(w.pubkey), Blob(w.signature), rest);
    Assoc([w.suiteId], Blob(w.pubkey) + Blob(w.signature), rest);
  }

  lemma ItemRoundTrip(w: WitnessItem, rest: seq<Byte>)
    ensures ReadItem(ItemBytes(w) + rest) == Ok(Parsed(w, rest))
  {
    ItemSplit(w, rest);
    var t2 := Blob(w.signature) + rest;
    var t1 := Blob(w.pubkey) + t2;
    assert ([w.suiteId] + t1)[1..] == t1;
    BlobRoundTrip(w.pubkey, U64 - 1, t2);
    BlobRoundTrip(w.signature, U64 - 1, rest);
  }

  lemma ItemCanonical(b: seq<Byte>)
    requires ReadItem(b).Ok?
    ensures b == ItemBytes(ReadItem(b).value.value) + ReadItem(b).value.rest
  {
    assert b == [b[0]] + b[1..];
    BlobCanonical(b[1..], U64 - 1);
    BlobCanonical(TakeBlob(b[1..], U64 - 1).value.rest, U64 - 1);
    ItemSplit(ReadItem(b).value.value, ReadItem(b).value.rest);
  }

  lemma ItemsAreCapped()
    ensures IsCodec(w => true, ItemBytes, ReadItem)
    ensures IsCap(ItemOk, ItemError, MAX_WITNESS_BYTES_PER_TX)
  {
    forall w: WitnessItem, rest
      ensures ReadItem(ItemBytes(w) + rest) == Ok(Parsed(w, rest))
    {
      ItemRoundTrip(w, rest);
    }
    forall b | ReadItem(b).Ok?
      ensures b == ItemBytes(ReadItem(b).value.value) + ReadItem(b).value.rest
    {
      ItemCanonical(b);
    }
  }

  lemma WitnessesRoundTrip(ws: Vec<WitnessItem>, rest: seq<Byte>)
    requires WitnessesOk(ws)
    ensures ParseWitnesses(WitnessBytes(ws) + rest) == Ok(Parsed(ws, rest))
  {
    Assoc(CS.Encode(|ws|), Concat(ItemBytes, ws), rest);
    SizeRoundTrip(|ws|, Concat(ItemBytes, ws) + rest);
    ItemsAreCapped();
    CappedRoundTrip(
      ItemOk, ItemBytes, ReadItem, ItemError, MAX_WITNESS_BYTES_PER_TX, ws, |CS.Encode(|ws|)|, [], rest);
    assert [] + ws == ws;
  }

  lemma WitnessesCanonical(b: seq<Byte>)
    requires ParseWitnesses(b).Ok?
    ensures var Parsed(ws, rest) := ParseWitnesses(b).value; WitnessesOk(ws) && b == WitnessBytes(ws) + rest
  {
    SizeCanonical(b);
    var n := TakeSize(b).value;
    ItemsAreCapped();
    CappedCanonical(
      ItemOk, ItemBytes, ReadItem, ItemError, MAX_WITNESS_BYTES_PER_TX,
      n.value, n.rest, |CS.Encode(n.value)|, []);
    var Parsed(ws, rest) := ParseWitnesses(b).value;
    assert ws[0..] == ws;
    Assoc(CS.Encode(|ws|), Concat(ItemBytes, ws), rest);
  }
}
