/**
 The transactions the fixture runner builds for itself. Their fields need not meet the consensus
 limits, and still every field can be read back from the bytes with nothing left over, except that
 the builder keeps only the low byte of a suite id.
 */
module FixtureTx {
  import opened Bytes
  import opened Wire
  import opened TxWire
  import opened WitnessWire
  import opened TxCodec
  import CS = CompactSize

  /** A witness item as the caller gives it: any integer for the suite. */
  datatype Item = Item(suiteId: int, pubkey: Vec<Byte>, signature: Vec<Byte>)

  /** What the caller of the builder gives. */
  datatype Given = Given(nonce: uint64, outputs: Vec<TxOutput>, items: Vec<Item>)

  /** What varies in a built transaction. */
  datatype Fields = Fields(nonce: uint64, outputs: Vec<TxOutput>, witnesses: Vec<WitnessItem>)

  function MaskItem(i: Item): (w: WitnessItem)
  {
    WitnessItem(i.suiteId % 256, i.pubkey, i.signature)
  }

  function MaskItems(items: seq<Item>): (ws: seq<WitnessItem>)
    ensures |ws| == |items| && forall k :: 0 <= k < |ws| ==> ws[k] == MaskItem(items[k])
  {
    if items == [] then [] else [MaskItem(items[0])] + MaskItems(items[1..])
  }

  function Mask(g: Given): (f: Fields)
  {
    Fields(g.nonce, g.outputs, MaskItems(g.items))
  }

  const DUMMY_INPUT: TxInput := TxInput(ZERO32, 0, [], 0)

  function Built(f: Fields): (tx: Tx)
  {
    Tx(TxCore(TxPrefix(1, 0x00, f.nonce), [DUMMY_INPUT], f.outputs, 0, None, None), f.witnesses, [])
  }

  /** The witness loop of the builder: the suite id is masked as each item is appended. */
  method WriteMasked(items: Vec<Item>) returns (wit: seq<Byte>)
    ensures wit == WitnessBytes(MaskItems(items))
  {
    hide CS.Encode, ItemBytes, Concat;
    wit := CS.Encode(|items|);
    ghost var masked := MaskItems(items);
    NothingWritten(wit);
    for i := 0 to |items|
      invariant wit == CS.Encode(|items|) + Concat(ItemBytes, masked[..i])
    {
      assert masked[..i + 1] == masked[..i] + [masked[i]];
      ConcatSnoc(ItemBytes, masked[..i], masked[i]);
      Assoc(CS.Encode(|items|), Concat(ItemBytes, masked[..i]), ItemBytes(masked[i]));
      wit := wit + ItemBytes(MaskItem(items[i]));
    }
    assert masked[..|items|] == masked;
  }

  lemma NothingWritten(b: seq<Byte>)
    ensures b == b + Concat(ItemBytes, [])
  {
  }

  /** The whole builder. */
  method BuildNonDaTx(g: Given) returns (full: seq<Byte>)
    ensures full == TxBytes(Built(Mask(g)))
  {
    hide CoreBytes, WitnessBytes, Blob;
    var core := WriteCore(Built(Mask(g)).core);
    var wit := WriteMasked(g.items);
    full := core + (wit + Blob([]));
  }

  /** One output of any size. */
  function ReadOutput(b: seq<Byte>): (r: Outcome<TxOutput>)
  {
    var value :- TakeU64(b);
    var covenantType :- TakeU16(value.rest);
    var data :- TakeBlob(covenantType.rest, U64 - 1);
    Ok(Parsed(TxOutput(value.value, covenantType.value, data.value), data.rest))
  }

  function Decode(b: seq<Byte>): (r: Result<Fields, Code>)
  {
    var prefix :- ParsePrefix(b);
    var inputs :- ParseInputs(prefix.rest);
    var outputs :- ParseList(ReadOutput, U64 - 1, inputs.rest);
    var locktime :- TakeU32(outputs.rest);
    var witnesses :- ParseList(ReadItem, U64 - 1, locktime.rest);
    var payload :- TakeBlob(witnesses.rest, U64 - 1);
    if payload.rest != [] then Err(Parse) else Ok(Fields(prefix.value.nonce, outputs.value, witnesses.value))
  }

  lemma ReadOutputCodec()
    ensures IsCodec(o => true, OutputBytes, ReadOutput)
  {
    forall o: TxOutput, rest
      ensures ReadOutput(OutputBytes(o) + rest) == Ok(Parsed(o, rest))
    {
      ReadOutputRoundTrip(o, rest);
    }
    forall b | ReadOutput(b).Ok?
      ensures b == OutputBytes(ReadOutput(b).value.value) + ReadOutput(b).value.rest
    {
      ReadOutputCanonical(b);
    }
  }

  lemma ReadOutputRoundTrip(o: TxOutput, rest: seq<Byte>)
    ensures ReadOutput(OutputBytes(o) + rest) == Ok(Parsed(o, rest))
  {
    Capacities();
    OutputSplit(o, rest);
    var t2 := Blob(o.covenantData) + rest;
    UintRoundTrip(o.value, 8, LittleEndian(o.covenantType, 2) + t2);
    UintRoundTrip(o.covenantType, 2, t2);
    BlobRoundTrip(o.covenantData, U64 - 1, rest);
  }

  lemma ReadOutputCanonical(b: seq<Byte>)
    requires ReadOutput(b).Ok?
    ensures b == OutputBytes(ReadOutput(b).value.value) + ReadOutput(b).value.rest
  {
    UintCanonical(b, 8);
    var t1 := TakeU64(b).value.rest;
    UintCanonical(t1, 2);
    BlobCanonical(TakeU16(t1).value.rest, U64 - 1);
    OutputSplit(ReadOutput(b).value.value, ReadOutput(b).value.rest);
  }

  /** Every built transaction decodes to the fields it was built from, with no bytes left over. */
  lemma BuiltDecodes(f: Fields)
    ensures Decode(TxBytes(Built(f))) == Ok(f)
  {
    Capacities();
    var tx := Built(f);
    var t5 := Blob([]) + [];
    var t4 := WitnessBytes(f.witnesses) + t5;
    var t3 := LittleEndian(0, 4) + t4;
    var t2 := ListBytes(OutputBytes, f.outputs) + t3;
    var t1 := ListBytes(InputBytes, [DUMMY_INPUT]) + t2;
    BuiltSplit(f);
    hide CoreBytes, TailBytes, ListBytes, PrefixBytes, OutputBytes, InputBytes, ItemBytes, Blob, TakeBlob, LittleEndian,
         ParsePrefix, ParseInputs, ReadOutput, ReadItem, TakeUint;
    PrefixRoundTrip(tx.core.prefix, t1);
    InputsRoundTrip([DUMMY_INPUT], t2);
    ReadOutputCodec();
    ListRoundTrip(o => true, OutputBytes, ReadOutput, U64 - 1, f.outputs, t3);
    UintRoundTrip(0, 4, t4);
    ItemsAreCapped();
    ListRoundTrip(w => true, ItemBytes, ReadItem, U64 - 1, f.witnesses, t5);
    BlobRoundTrip([], U64 - 1, []);
  }

  lemma BuiltSplit(f: Fields)
    ensures TxBytes(Built(f))
         == PrefixBytes(TxPrefix(1, 0x00, f.nonce)) + (ListBytes(InputBytes, [DUMMY_INPUT])
            + (ListBytes(OutputBytes, f.outputs)
               + (LittleEndian(0, 4) + (WitnessBytes(f.witnesses) + (Blob([]) + [])))))
  {
    hide CoreBytes, ListBytes, PrefixBytes, Blob, LittleEndian;
    var tx := Built(f);
    var tail := TailBytes(TailOf(tx));
    CoreSplit(tx.core, tail);
    assert DaCoreBytes(tx.core) + tail == tail;
    assert tail == WitnessBytes(f.witnesses) + (Blob([]) + []);
  }

  /** Equal but for multiples of 256 in the suite ids. */
  predicate SameModSuites(f: Given, g: Given) {
    && f.nonce == g.nonce && f.outputs == g.outputs && |f.items| == |g.items|
    && forall k :: 0 <= k < |f.items| ==>
         && f.items[k].suiteId % 256 == g.items[k].suiteId % 256
         && f.items[k].pubkey == g.items[k].pubkey && f.items[k].signature == g.items[k].signature
  }

  predicate ByteSuites(g: Given) {
    forall k :: 0 <= k < |g.items| ==> 0 <= g.items[k].suiteId < 256
  }

  lemma SameMask(f: Given, g: Given)
    ensures Mask(f) == Mask(g) <==> SameModSuites(f, g)
  {
    var a, b := MaskItems(f.items), MaskItems(g.items);
    if SameModSuites(f, g) {
      assert forall k :: 0 <= k < |a| ==> a[k] == b[k];
      assert a == b;
    }
    if a == b {
      forall k | 0 <= k < |f.items|
        ensures MaskItem(f.items[k]) == MaskItem(g.items[k])
      {
        assert a[k] == b[k];
      }
    }
  }

  /** Two builds give the same bytes exactly when they agree up to multiples of 256 in the suite ids. */
  lemma SameBytesIff(f: Given, g: Given)
    ensures TxBytes(Built(Mask(f))) == TxBytes(Built(Mask(g))) <==> SameModSuites(f, g)
  {
    SameMask(f, g);
    hide TxBytes, Decode, Built, Mask, SameModSuites;
    BuiltDecodes(Mask(f));
    BuiltDecodes(Mask(g));
  }

  /** So the builder is injective on suite ids that are bytes. */
  lemma BuilderIsInjective(f: Given, g: Given)
    requires ByteSuites(f) && ByteSuites(g) && TxBytes(Built(Mask(f))) == TxBytes(Built(Mask(g)))
    ensures f == g
  {
    SameBytesIff(f, g);
    hide TxBytes, Built, Mask;
    assert forall k :: 0 <= k < |f.items| ==> f.items[k] == g.items[k];
  }

  /** And it is not beyond: suite ids 1 and 257 build the same bytes, whatever the rest. */
  lemma MaskedSuitesCollide(nonce: uint64, outputs: Vec<TxOutput>, pubkey: Vec<Byte>, signature: Vec<Byte>)
    ensures var f := Given(nonce, outputs, [Item(1, pubkey, signature)]);
      var g := Given(nonce, outputs, [Item(257, pubkey, signature)]);
      f != g && TxBytes(Built(Mask(f))) == TxBytes(Built(Mask(g)))
  {
    var f := Given(nonce, outputs, [Item(1, pubkey, signature)]);
    var g := Given(nonce, outputs, [Item(257, pubkey, signature)]);
    assert f.items[0] != g.items[0];
    SameBytesIff(f, g);
    hide TxBytes, Built, Mask;
  }

  // ---------------------------------------------------------------- the witness round-trip vector

  function Repeat(b: Byte, n: nat): (s: seq<Byte>)
    ensures |s| == n
  {
    if n == 0 then [] else [b] + Repeat(b, n - 1)
  }

  /** A length and that many bytes, read at `off` with the lenient decoder. */
  method ReadSizedAt(wire: seq<Byte>, off: nat, ghost x: Vec<Byte>, ghost rest: seq<Byte>)
    returns (n: nat, bytes: seq<Byte>, end: nat)
    requires off <= |wire| && wire[off..] == CS.Encode(|x|) + (x + rest)
    ensures n == |x| && bytes == x && off <= end <= |wire| && wire[end..] == rest
  {
    hide CS.Encode, CS.DecodeAny;
    CS.ReadEncode(|x|, x + rest);
    var size := CS.DecodeAny(wire[off..]).value;
    var start := off + size.len;
    assert wire[start..] == wire[off..][size.len..] == x + rest;
    n, end := size.n, start + size.n;
    bytes := wire[start..end];
    assert bytes == wire[start..][..n] == x;
    assert wire[end..] == wire[start..][n..] == rest;
  }

  /** One witness item on the wire. */
  function WireOf(suite: Byte, pub: Vec<Byte>, sig: Vec<Byte>): (wire: seq<Byte>)
    ensures |wire| == 1 + CS.EncodedLen(|pub|) + |pub| + CS.EncodedLen(|sig|) + |sig|
  {
    CS.EncodedLenMatches(|pub|);
    CS.EncodedLenMatches(|sig|);
    [suite] + (CS.Encode(|pub|) + (pub + (CS.Encode(|sig|) + (sig + []))))
  }

  method WriteWitness(suiteId: int, pub: Vec<Byte>, sig: Vec<Byte>) returns (wire: seq<Byte>)
    ensures wire == WireOf(suiteId % 256, pub, sig)
  {
    hide CS.Encode, CS.EncodedLen;
    var encPub := CS.EncodeByShifts(|pub|);
    var encSig := CS.EncodeByShifts(|sig|);
    wire := [suiteId % 256] + (encPub + (pub + (encSig + (sig + []))));
  }

  method ReadWitness(wire: seq<Byte>, ghost suite: Byte, ghost pub: Vec<Byte>, ghost sig: Vec<Byte>)
    returns (suite2: Byte, pub2: nat, pubBytes: seq<Byte>, sig2: nat, sigBytes: seq<Byte>, end: nat)
    requires wire == WireOf(suite, pub, sig)
    ensures suite2 == suite && pub2 == |pub| && pubBytes == pub && sig2 == |sig| && sigBytes == sig && end == |wire|
  {
    hide CS.Encode, CS.EncodedLen;
    suite2 := wire[0];
    assert wire[1..] == CS.Encode(|pub|) + (pub + (CS.Encode(|sig|) + (sig + [])));
    var off;
    pub2, pubBytes, off := ReadSizedAt(wire, 1, pub, CS.Encode(|sig|) + (sig + []));
    sig2, sigBytes, end := ReadSizedAt(wire, off, sig, []);
  }

  /**
   One witness item written with the shift encoder and read back with the lenient decoder. The
   round trip holds exactly when the suite id is a byte, because the writer keeps its low bits only.
   */
  method WitnessRoundTrip(suiteId: int, pubLen: uint64, sigLen: uint64) returns (ok: bool, wireBytes: nat)
    ensures ok <==> 0 <= suiteId < 256
    ensures wireBytes == 1 + CS.EncodedLen(pubLen) + pubLen + CS.EncodedLen(sigLen) + sigLen
  {
    hide WireOf, CS.EncodedLen, Repeat;
    var pub, sig := Repeat(0x11, pubLen), Repeat(0x22, sigLen);
    var wire := WriteWitness(suiteId, pub, sig);
    wireBytes := |wire|;
    var suite2, pub2, pubBytes, sig2, sigBytes, end := ReadWitness(wire, suiteId % 256, pub, sig);
    ok := suite2 == suiteId && pub2 == pubLen && sig2 == sigLen
      && |pubBytes| == pubLen && |sigBytes| == sigLen && end == |wire|;
  }
}
