/** The transaction wire format: the marshaller and the strict parser of the consensus crate. */
module TxWire {
  import opened Bytes
  import opened Wire

  const TX_WIRE_VERSION := 1
  const MAX_TX_INPUTS := 1024
  const MAX_TX_OUTPUTS := 1024
  const MAX_WITNESS_ITEMS := 1024
  const MAX_WITNESS_BYTES_PER_TX := 100_000
  const MAX_SCRIPT_SIG_BYTES := 32
  const MAX_COVENANT_DATA_PER_OUTPUT := 65_536
  const MAX_DA_MANIFEST_BYTES_PER_TX := 65_536
  const CHUNK_BYTES := 524_288
  const MAX_DA_CHUNK_COUNT := 32_000_000 / CHUNK_BYTES
  const SUITE_ID_SENTINEL := 0x00
  const SUITE_ID_ML_DSA_87 := 0x01
  const SUITE_ID_SIMPLICITY_ENVELOPE := 0xF0
  const ML_DSA_87_PUBKEY_BYTES := 2592
  const ML_DSA_87_SIG_BYTES := 4627
  const MIN_HTLC_PREIMAGE_BYTES := 16
  const MAX_HTLC_PREIMAGE_BYTES := 256
  const MAX_SIMPLICITY_PROGRAM_BYTES := 16_384
  const MAX_SIMPLICITY_ENVELOPE_BYTES := 32_768

  datatype TxInput = TxInput(prevTxid: Hash32, prevVout: uint32, scriptSig: Vec<Byte>, sequence: uint32)

  datatype TxOutput = TxOutput(value: uint64, covenantType: uint16, covenantData: Vec<Byte>)

  datatype WitnessItem = WitnessItem(suiteId: uint8, pubkey: Vec<Byte>, signature: Vec<Byte>)

  /** The fixed-width fields in the middle of a commit core. */
  datatype CommitFields = CommitFields(
    retlDomainId: Hash32, batchNumber: uint64, txDataRoot: Hash32, stateRoot: Hash32, withdrawalsRoot: Hash32)

  datatype DaCommitCore = DaCommitCore(
    daId: Hash32, chunkCount: uint16, fields: CommitFields, batchSigSuite: uint8, batchSig: Vec<Byte>)

  datatype DaChunkCore = DaChunkCore(daId: Hash32, chunkIndex: uint16, chunkHash: Hash32)

  datatype TxPrefix = TxPrefix(version: uint32, kind: uint8, nonce: uint64)

  /** The fields hashed into the txid. */
  datatype TxCore = TxCore(
    prefix: TxPrefix, inputs: Vec<TxInput>, outputs: Vec<TxOutput>, locktime: uint32,
    daCommit: Option<DaCommitCore>, daChunk: Option<DaChunkCore>)

  datatype Tx = Tx(core: TxCore, witnesses: Vec<WitnessItem>, daPayload: Vec<Byte>)

  // ---------------------------------------------------------------- inputs and outputs

  predicate InputOk(i: TxInput) {
    |i.scriptSig| <= MAX_SCRIPT_SIG_BYTES
  }

  function InputBytes(i: TxInput): (b: seq<Byte>)
  {
    i.prevTxid + (LittleEndian(i.prevVout, 4) + (Blob(i.scriptSig) + LittleEndian(i.sequence, 4)))
  }

  function ParseInput(b: seq<Byte>): (r: Outcome<TxInput>)
  {
    var txid :- Take32(b);
    var vout :- TakeU32(txid.rest);
    var script :- TakeBlob(vout.rest, MAX_SCRIPT_SIG_BYTES);
    var sequence :- TakeU32(script.rest);
    Ok(Parsed(TxInput(txid.value, vout.value, script.value, sequence.value), sequence.rest))
  }

  lemma InputCodec()
    ensures IsCodec(InputOk, InputBytes, ParseInput)
  {
    forall i: TxInput, rest | InputOk(i)
      ensures ParseInput(InputBytes(i) + rest) == Ok(Parsed(i, rest))
    {
      InputRoundTrip(i, rest);
    }
    forall b | ParseInput(b).Ok?
      ensures var Parsed(i, rest) := ParseInput(b).value; InputOk(i) && b == InputBytes(i) + rest
    {
      InputCanonical(b);
    }
  }

  lemma InputSplit(i: TxInput, rest: seq<Byte>)
    ensures InputBytes(i) + rest
         == i.prevTxid + (LittleEndian(i.prevVout, 4) + (Blob(i.scriptSig) + (LittleEndian(i.sequence, 4) + rest)))
  {
    var s2 := Blob(i.scriptSig) + LittleEndian(i.sequence, 4);
    Assoc(Blob(i.scriptSig), LittleEndian(i.sequence, 4), rest);
    Assoc(LittleEndian(i.prevVout, 4), s2, rest);
    Assoc(i.prevTxid, LittleEndian(i.prevVout, 4) + s2, rest);
  }

  lemma InputRoundTrip(i: TxInput, rest: seq<Byte>)
    requires InputOk(i)
    ensures ParseInput(InputBytes(i) + rest) == Ok(Parsed(i, rest))
  {
    Capacities();
    InputSplit(i, rest);
    var t3 := LittleEndian(i.sequence, 4) + rest;
    var t2 := Blob(i.scriptSig) + t3;
    var t1 := LittleEndian(i.prevVout, 4) + t2;
    TakeAppend(i.prevTxid, t1);
    UintRoundTrip(i.prevVout, 4, t2);
    BlobRoundTrip(i.scriptSig, MAX_SCRIPT_SIG_BYTES, t3);
    UintRoundTrip(i.sequence, 4, rest);
  }

  lemma InputCanonical(b: seq<Byte>)
    requires ParseInput(b).Ok?
    ensures var Parsed(i, rest) := ParseInput(b).value; InputOk(i) && b == InputBytes(i) + rest
  {
    var Parsed(i, rest) := ParseInput(b).value;
    var t1 := Take32(b).value.rest;
    var t2 := TakeU32(t1).value.rest;
    var t3 := TakeBlob(t2, MAX_SCRIPT_SIG_BYTES).value.rest;
    hide LittleEndian, Blob, InputBytes, TakeBlob, TakeUint, Take;
    Take32Canonical(b);
    UintCanonical(t1, 4);
    BlobCanonical(t2, MAX_SCRIPT_SIG_BYTES);
    UintCanonical(t3, 4);
    InputSplit(i, rest);
  }

  predicate OutputOk(o: TxOutput) {
    |o.covenantData| <= MAX_COVENANT_DATA_PER_OUTPUT
  }

  function OutputBytes(o: TxOutput): (b: seq<Byte>)
  {
    LittleEndian(o.value, 8) + (LittleEndian(o.covenantType, 2) + Blob(o.covenantData))
  }

  function ParseOutput(b: seq<Byte>): (r: Outcome<TxOutput>)
  {
    var value :- TakeU64(b);
    var covenantType :- TakeU16(value.rest);
    var data :- TakeBlob(covenantType.rest, MAX_COVENANT_DATA_PER_OUTPUT);
    Ok(Parsed(TxOutput(value.value, covenantType.value, data.value), data.rest))
  }

  lemma OutputCodec()
    ensures IsCodec(OutputOk, OutputBytes, ParseOutput)
  {
    forall o: TxOutput, rest | OutputOk(o)
      ensures ParseOutput(OutputBytes(o) + rest) == Ok(Parsed(o, rest))
    {
      Capacities();
      var t2 := Blob(o.covenantData) + rest;
      var t1 := LittleEndian(o.covenantType, 2) + t2;
      OutputSplit(o, rest);
      UintRoundTrip(o.value, 8, t1);
      UintRoundTrip(o.covenantType, 2, t2);
      BlobRoundTrip(o.covenantData, MAX_COVENANT_DATA_PER_OUTPUT, rest);
    }
    forall b | ParseOutput(b).Ok?
      ensures var Parsed(o, rest) := ParseOutput(b).value; OutputOk(o) && b == OutputBytes(o) + rest
    {
      OutputCanonical(b);
    }
  }

  lemma OutputCanonical(b: seq<Byte>)
    requires ParseOutput(b).Ok?
    ensures var Parsed(o, rest) := ParseOutput(b).value; OutputOk(o) && b == OutputBytes(o) + rest
  {
    var Parsed(o, rest) := ParseOutput(b).value;
    var t1 := TakeU64(b).value.rest;
    var t2 := TakeU16(t1).value.rest;
    OutputSplit(o, rest);
    hide LittleEndian, Blob, OutputBytes, TakeBlob, TakeUint;
    UintCanonical(b, 8);
    UintCanonical(t1, 2);
    BlobCanonical(t2, MAX_COVENANT_DATA_PER_OUTPUT);
  }

  lemma OutputSplit(o: TxOutput, rest: seq<Byte>)
    ensures OutputBytes(o) + rest
         == LittleEndian(o.value, 8) + (LittleEndian(o.covenantType, 2) + (Blob(o.covenantData) + rest))
  {
    hide LittleEndian, Blob;
    Assoc(LittleEndian(o.covenantType, 2), Blob(o.covenantData), rest);
    Assoc(LittleEndian(o.value, 8), LittleEndian(o.covenantType, 2) + Blob(o.covenantData), rest);
  }

  // ---------------------------------------------------------------- data-availability core fields

  function FieldsBytes(f: CommitFields): (b: seq<Byte>)
  {
    f.retlDomainId + (LittleEndian(f.batchNumber, 8) + (f.txDataRoot + (f.stateRoot + f.withdrawalsRoot)))
  }

  function ParseFields(b: seq<Byte>): (r: Outcome<CommitFields>)
  {
    var domain :- Take32(b);
    var batch :- TakeU64(domain.rest);
    var dataRoot :- Take32(batch.rest);
    var stateRoot :- Take32(dataRoot.rest);
    var withdrawals :- Take32(stateRoot.rest);
    Ok(Parsed(CommitFields(domain.value, batch.value, dataRoot.value, stateRoot.value, withdrawals.value),
              withdrawals.rest))
  }

  lemma FieldsSplit(f: CommitFields, rest: seq<Byte>)
    ensures FieldsBytes(f) + rest
         == f.retlDomainId
            + (LittleEndian(f.batchNumber, 8) + (f.txDataRoot + (f.stateRoot + (f.withdrawalsRoot + rest))))
  {
    var s3 := f.stateRoot + f.withdrawalsRoot;
    var s2 := f.txDataRoot + s3;
    var s1 := LittleEndian(f.batchNumber, 8) + s2;
    Assoc(f.stateRoot, f.withdrawalsRoot, rest);
    Assoc(f.txDataRoot, s3, rest);
    Assoc(LittleEndian(f.batchNumber, 8), s2, rest);
    Assoc(f.retlDomainId, s1, rest);
  }

  lemma FieldsRoundTrip(f: CommitFields, rest: seq<Byte>)
    ensures ParseFields(FieldsBytes(f) + rest) == Ok(Parsed(f, rest))
  {
    Capacities();
    FieldsSplit(f, rest);
    var t4 := f.withdrawalsRoot + rest;
    var t3 := f.stateRoot + t4;
    var t2 := f.txDataRoot + t3;
    TakeAppend(f.retlDomainId, LittleEndian(f.batchNumber, 8) + t2);
    UintRoundTrip(f.batchNumber, 8, t2);
    TakeAppend(f.txDataRoot, t3);
    TakeAppend(f.stateRoot, t4);
    TakeAppend(f.withdrawalsRoot, rest);
  }

  lemma FieldsCanonical(b: seq<Byte>)
    requires ParseFields(b).Ok?
    ensures b == FieldsBytes(ParseFields(b).value.value) + ParseFields(b).value.rest
  {
    Take32Canonical(b);
    var t1 := Take32(b).value.rest;
    UintCanonical(t1, 8);
    var t2 := TakeU64(t1).value.rest;
    Take32Canonical(t2);
    var t3 := Take32(t2).value.rest;
    Take32Canonical(t3);
    Take32Canonical(Take32(t3).value.rest);
    FieldsSplit(ParseFields(b).value.value, ParseFields(b).value.rest);
  }

  predicate CommitOk(c: DaCommitCore) {
    1 <= c.chunkCount <= MAX_DA_CHUNK_COUNT && |c.batchSig| <= MAX_DA_MANIFEST_BYTES_PER_TX
  }

  function CommitBytes(c: DaCommitCore): (b: seq<Byte>)
  {
    c.daId + (LittleEndian(c.chunkCount, 2) + (FieldsBytes(c.fields) + ([c.batchSigSuite] + Blob(c.batchSig))))
  }

  function ParseCommit(b: seq<Byte>): (r: Outcome<DaCommitCore>)
  {
    var daId :- Take32(b);
    var count :- TakeU16(daId.rest);
    if count.value == 0 || count.value > MAX_DA_CHUNK_COUNT then Err(Parse)
    else
      var fields :- ParseFields(count.rest);
      var suite :- TakeU8(fields.rest);
      var sig :- TakeBlob(suite.rest, MAX_DA_MANIFEST_BYTES_PER_TX);
      Ok(Parsed(DaCommitCore(daId.value, count.value, fields.value, suite.value, sig.value), sig.rest))
  }

  lemma CommitSplit(c: DaCommitCore, rest: seq<Byte>)
    ensures CommitBytes(c) + rest
         == c.daId + (LittleEndian(c.chunkCount, 2)
            + (FieldsBytes(c.fields) + ([c.batchSigSuite] + (Blob(c.batchSig) + rest))))
  {
    var s3 := [c.batchSigSuite] + Blob(c.batchSig);
    var s2 := FieldsBytes(c.fields) + s3;
    var s1 := LittleEndian(c.chunkCount, 2) + s2;
    Assoc([c.batchSigSuite], Blob(c.batchSig), rest);
    Assoc(FieldsBytes(c.fields), s3, rest);
    Assoc(LittleEndian(c.chunkCount, 2), s2, rest);
    Assoc(c.daId, s1, rest);
  }

  lemma CommitRoundTrip(c: DaCommitCore, rest: seq<Byte>)
    requires CommitOk(c)
    ensures ParseCommit(CommitBytes(c) + rest) == Ok(Parsed(c, rest))
  {
    Capacities();
    CommitSplit(c, rest);
    var t4 := Blob(c.batchSig) + rest;
    var t3 := [c.batchSigSuite] + t4;
    var t2 := FieldsBytes(c.fields) + t3;
    TakeAppend(c.daId, LittleEndian(c.chunkCount, 2) + t2);
    UintRoundTrip(c.chunkCount, 2, t2);
    FieldsRoundTrip(c.fields, t3);
    assert t3[0] == c.batchSigSuite && t3[1..] == t4;
    BlobRoundTrip(c.batchSig, MAX_DA_MANIFEST_BYTES_PER_TX, rest);
  }

  lemma CommitCanonical(b: seq<Byte>)
    requires ParseCommit(b).Ok?
    ensures var Parsed(c, rest) := ParseCommit(b).value; CommitOk(c) && b == CommitBytes(c) + rest
  {
    var Parsed(c, rest) := ParseCommit(b).value;
    var t1 := Take32(b).value.rest;
    var t2 := TakeU16(t1).value.rest;
    var t3 := ParseFields(t2).value.rest;
    hide LittleEndian, FieldsBytes, Blob, CommitBytes, ParseFields, TakeBlob, TakeUint, Take;
    Take32Canonical(b);
    UintCanonical(t1, 2);
    FieldsCanonical(t2);
    BlobCanonical(t3[1..], MAX_DA_MANIFEST_BYTES_PER_TX);
    HeadByte(t3);
    CommitSplit(c, rest);
  }

  lemma HeadByte(b: seq<Byte>)
    requires b != []
    ensures b == [b[0]] + b[1..]
  {
  }

  predicate ChunkOk(c: DaChunkCore) {
    c.chunkIndex < MAX_DA_CHUNK_COUNT
  }

  function ChunkBytes(c: DaChunkCore): (b: seq<Byte>)
  {
    c.daId + (LittleEndian(c.chunkIndex, 2) + c.chunkHash)
  }

  function ParseChunk(b: seq<Byte>): (r: Outcome<DaChunkCore>)
  {
    var daId :- Take32(b);
    var index :- TakeU16(daId.rest);
    if index.value >= MAX_DA_CHUNK_COUNT then Err(Parse)
    else
      var hash :- Take32(index.rest);
      Ok(Parsed(DaChunkCore(daId.value, index.value, hash.value), hash.rest))
  }

  lemma ChunkRoundTrip(c: DaChunkCore, rest: seq<Byte>)
    requires ChunkOk(c)
    ensures ParseChunk(ChunkBytes(c) + rest) == Ok(Parsed(c, rest))
  {
    Capacities();
    var t2 := c.chunkHash + rest;
    var t1 := LittleEndian(c.chunkIndex, 2) + t2;
    assert ChunkBytes(c) + rest == c.daId + t1;
    TakeAppend(c.daId, t1);
    UintRoundTrip(c.chunkIndex, 2, t2);
    TakeAppend(c.chunkHash, rest);
  }

  lemma ChunkCanonical(b: seq<Byte>)
    requires ParseChunk(b).Ok?
    ensures var Parsed(c, rest) := ParseChunk(b).value; ChunkOk(c) && b == ChunkBytes(c) + rest
  {
    var Parsed(c, rest) := ParseChunk(b).value;
    Take32Canonical(b);
    var t1 := Take32(b).value.rest;
    UintCanonical(t1, 2);
    Take32Canonical(TakeU16(t1).value.rest);
    assert ChunkBytes(c) + rest == c.daId + (LittleEndian(c.chunkIndex, 2) + (c.chunkHash + rest));
  }

  // ---------------------------------------------------------------- core

  predicate PrefixOk(p: TxPrefix) {
    p.version == TX_WIRE_VERSION && p.kind <= 0x02
  }

  function PrefixBytes(p: TxPrefix): (b: seq<Byte>)
  {
    LittleEndian(p.version, 4) + ([p.kind] + LittleEndian(p.nonce, 8))
  }

  function ParsePrefix(b: seq<Byte>): (r: Outcome<TxPrefix>)
  {
    var version :- TakeU32(b);
    if version.value != TX_WIRE_VERSION then Err(Parse)
    else
      var kind :- TakeU8(version.rest);
      if kind.value != 0x00 && kind.value != 0x01 && kind.value != 0x02 then Err(Parse)
      else
        var nonce :- TakeU64(kind.rest);
        Ok(Parsed(TxPrefix(version.value, kind.value, nonce.value), nonce.rest))
  }

  lemma PrefixSplit(p: TxPrefix, rest: seq<Byte>)
    ensures PrefixBytes(p) + rest == LittleEndian(p.version, 4) + ([p.kind] + (LittleEndian(p.nonce, 8) + rest))
  {
    Assoc([p.kind], LittleEndian(p.nonce, 8), rest);
    Assoc(LittleEndian(p.version, 4), [p.kind] + LittleEndian(p.nonce, 8), rest);
  }

  lemma PrefixRoundTrip(p: TxPrefix, rest: seq<Byte>)
    requires PrefixOk(p)
    ensures ParsePrefix(PrefixBytes(p) + rest) == Ok(Parsed(p, rest))
  {
    Capacities();
    PrefixSplit(p, rest);
    var t2 := LittleEndian(p.nonce, 8) + rest;
    var t1 := [p.kind] + t2;
    UintRoundTrip(p.version, 4, t1);
    assert t1[0] == p.kind && t1[1..] == t2;
    UintRoundTrip(p.nonce, 8, rest);
  }

  lemma PrefixCanonical(b: seq<Byte>)
    requires ParsePrefix(b).Ok?
    ensures var Parsed(p, rest) := ParsePrefix(b).value; PrefixOk(p) && b == PrefixBytes(p) + rest
  {
    var Parsed(p, rest) := ParsePrefix(b).value;
    var t1 := TakeU32(b).value.rest;
    hide LittleEndian, PrefixBytes, TakeUint;
    UintCanonical(b, 4);
    HeadByte(t1);
    UintCanonical(t1[1..], 8);
    PrefixSplit(p, rest);
  }

  predicate DaCoreOk(c: TxCore) {
    && (c.prefix.kind == 0x01 <==> c.daCommit.Some?) && (c.prefix.kind == 0x02 <==> c.daChunk.Some?)
    && (c.daCommit.Some? ==> CommitOk(c.daCommit.value))
    && (c.daChunk.Some? ==> ChunkOk(c.daChunk.value))
  }

  predicate CoreOk(c: TxCore) {
    && PrefixOk(c.prefix)
    && |c.inputs| <= MAX_TX_INPUTS && AllOk(InputOk, c.inputs)
    && |c.outputs| <= MAX_TX_OUTPUTS && AllOk(OutputOk, c.outputs)
    && DaCoreOk(c)
  }

  function DaCoreBytes(c: TxCore): (b: seq<Byte>)
  {
    if c.prefix.kind == 0x01 && c.daCommit.Some? then CommitBytes(c.daCommit.value)
    else if c.prefix.kind == 0x02 && c.daChunk.Some? then ChunkBytes(c.daChunk.value)
    else []
  }

  /** The bytes hashed into the txid. */
  function CoreBytes(c: TxCore): (b: seq<Byte>)
  {
    PrefixBytes(c.prefix) + (ListBytes(InputBytes, c.inputs) + (ListBytes(OutputBytes, c.outputs)
    + (LittleEndian(c.locktime, 4) + DaCoreBytes(c))))
  }

  datatype DaCores = DaCores(commit: Option<DaCommitCore>, chunk: Option<DaChunkCore>)

  function ParseDaCore(b: seq<Byte>, kind: uint8): (r: Outcome<DaCores>)
  {
    if kind == 0x01 then
      var c :- ParseCommit(b);
      Ok(Parsed(DaCores(Some(c.value), None), c.rest))
    else if kind == 0x02 then
      var c :- ParseChunk(b);
      Ok(Parsed(DaCores(None, Some(c.value)), c.rest))
    else Ok(Parsed(DaCores(None, None), b))
  }

  function ParseInputs(b: seq<Byte>): (r: Outcome<Vec<TxInput>>)
  {
    ParseList(ParseInput, MAX_TX_INPUTS, b)
  }

  function ParseOutputs(b: seq<Byte>): (r: Outcome<Vec<TxOutput>>)
  {
    ParseList(ParseOutput, MAX_TX_OUTPUTS, b)
  }

  function ParseCore(b: seq<Byte>): (r: Outcome<TxCore>)
  {
    var prefix :- ParsePrefix(b);
    var inputs :- ParseInputs(prefix.rest);
    var outputs :- ParseOutputs(inputs.rest);
    var locktime :- TakeU32(outputs.rest);
    var da :- ParseDaCore(locktime.rest, prefix.value.kind);
    Ok(Parsed(TxCore(prefix.value, inputs.value, outputs.value, locktime.value, da.value.commit, da.value.chunk),
              da.rest))
  }

  lemma DaCoreRoundTrip(c: TxCore, rest: seq<Byte>)
    requires CoreOk(c)
    ensures ParseDaCore(DaCoreBytes(c) + rest, c.prefix.kind) == Ok(Parsed(DaCores(c.daCommit, c.daChunk), rest))
  {
    if c.prefix.kind == 0x01 {
      CommitRoundTrip(c.daCommit.value, rest);
    } else if c.prefix.kind == 0x02 {
      ChunkRoundTrip(c.daChunk.value, rest);
    } else {
      assert [] + rest == rest;
    }
  }

  lemma DaCoreCanonical(b: seq<Byte>, c: TxCore)
    requires c.prefix.kind <= 0x02 && ParseDaCore(b, c.prefix.kind).Ok?
    requires ParseDaCore(b, c.prefix.kind).value.value == DaCores(c.daCommit, c.daChunk)
    ensures DaCoreOk(c) && b == DaCoreBytes(c) + ParseDaCore(b, c.prefix.kind).value.rest
  {
    if c.prefix.kind == 0x01 {
      CommitCanonical(b);
    } else if c.prefix.kind == 0x02 {
      ChunkCanonical(b);
    } else {
      assert [] + b == b;
    }
  }

  lemma CoreSplit(c: TxCore, rest: seq<Byte>)
    ensures CoreBytes(c) + rest
         == PrefixBytes(c.prefix) + (ListBytes(InputBytes, c.inputs) + (ListBytes(OutputBytes, c.outputs)
            + (LittleEndian(c.locktime, 4) + (DaCoreBytes(c) + rest))))
  {
    var s3 := LittleEndian(c.locktime, 4) + DaCoreBytes(c);
    var s2 := ListBytes(OutputBytes, c.outputs) + s3;
    var s1 := ListBytes(InputBytes, c.inputs) + s2;
    Assoc(LittleEndian(c.locktime, 4), DaCoreBytes(c), rest);
    Assoc(ListBytes(OutputBytes, c.outputs), s3, rest);
    Assoc(ListBytes(InputBytes, c.inputs), s2, rest);
    Assoc(PrefixBytes(c.prefix), s1, rest);
  }

  lemma InputsRoundTrip(xs: Vec<TxInput>, rest: seq<Byte>)
    requires |xs| <= MAX_TX_INPUTS && AllOk(InputOk, xs)
    ensures ParseInputs(ListBytes(InputBytes, xs) + rest) == Ok(Parsed(xs, rest))
  {
    InputCodec();
    ListRoundTrip(InputOk, InputBytes, ParseInput, MAX_TX_INPUTS, xs, rest);
  }

  lemma InputsCanonical(b: seq<Byte>)
    requires ParseInputs(b).Ok?
    ensures var Parsed(xs, rest) := ParseInputs(b).value;
      |xs| <= MAX_TX_INPUTS && AllOk(InputOk, xs) && b == ListBytes(InputBytes, xs) + rest
  {
    InputCodec();
    ListCanonical(InputOk, InputBytes, ParseInput, MAX_TX_INPUTS, b);
  }

  lemma OutputsRoundTrip(xs: Vec<TxOutput>, rest: seq<Byte>)
    requires |xs| <= MAX_TX_OUTPUTS && AllOk(OutputOk, xs)
    ensures ParseOutputs(ListBytes(OutputBytes, xs) + rest) == Ok(Parsed(xs, rest))
  {
    OutputCodec();
    ListRoundTrip(OutputOk, OutputBytes, ParseOutput, MAX_TX_OUTPUTS, xs, rest);
  }

  lemma OutputsCanonical(b: seq<Byte>)
    requires ParseOutputs(b).Ok?
    ensures var Parsed(xs, rest) := ParseOutputs(b).value;
      |xs| <= MAX_TX_OUTPUTS && AllOk(OutputOk, xs) && b == ListBytes(OutputBytes, xs) + rest
  {
    OutputCodec();
    ListCanonical(OutputOk, OutputBytes, ParseOutput, MAX_TX_OUTPUTS, b);
  }

  /** Parsing the core bytes of a well-formed transaction gives that core back. */
  lemma CoreRoundTrip(c: TxCore, rest: seq<Byte>)
    requires CoreOk(c)
    ensures ParseCore(CoreBytes(c) + rest) == Ok(Parsed(c, rest))
  {
    Capacities();
    CoreSplit(c, rest);
    var t4 := DaCoreBytes(c) + rest;
    var t3 := LittleEndian(c.locktime, 4) + t4;
    var t2 := ListBytes(OutputBytes, c.outputs) + t3;
    var t1 := ListBytes(InputBytes, c.inputs) + t2;
    PrefixRoundTrip(c.prefix, t1);
    InputsRoundTrip(c.inputs, t2);
    OutputsRoundTrip(c.outputs, t3);
    UintRoundTrip(c.locktime, 4, t4);
    DaCoreRoundTrip(c, rest);
  }

  /** An accepted core is well-formed and the bytes consumed are its core bytes. */
  lemma CoreCanonical(b: seq<Byte>)
    requires ParseCore(b).Ok?
    ensures var Parsed(c, rest) := ParseCore(b).value; CoreOk(c) && b == CoreBytes(c) + rest
  {
    var Parsed(c, rest) := ParseCore(b).value;
    PrefixCanonical(b);
    var t1 := ParsePrefix(b).value.rest;
    InputsCanonical(t1);
    var t2 := ParseInputs(t1).value.rest;
    OutputsCanonical(t2);
    var t3 := ParseOutputs(t2).value.rest;
    UintCanonical(t3, 4);
    DaCoreCanonical(TakeU32(t3).value.rest, c);
    CoreSplit(c, rest);
  }

  /** Two well-formed cores with the same bytes are the same core, so the txid preimage is unambiguous. */
  lemma CoreBytesInjective(c: TxCore, d: TxCore)
    requires CoreOk(c) && CoreOk(d) && CoreBytes(c) == CoreBytes(d)
    ensures c == d
  {
    CoreRoundTrip(c, []);
    CoreRoundTrip(d, []);
    assert CoreBytes(c) + [] == CoreBytes(d) + [];
  }
}
