/** Blocks on the wire: the parser accepts exactly one byte string per block. */
module BlockWire {
  import opened Bytes
  import opened Wire
  import opened TxWire
  import opened WitnessWire
  import opened TxCodec
  import CS = CompactSize

  const BLOCK_HEADER_BYTES := 116
  const COV_TYPE_ANCHOR := 0x0002
  const COV_TYPE_DA_COMMIT := 0x0103

  datatype BlockHeader = BlockHeader(
    version: uint32, prevBlockHash: Hash32, merkleRoot: Hash32, timestamp: uint64, target: Hash32, nonce: uint64)

  /** A transaction of a block with the two ids the parser derives from its bytes. */
  datatype BlockTx = BlockTx(tx: Tx, txid: Hash32, wtxid: Hash32)

  datatype ParsedBlock = ParsedBlock(header: BlockHeader, txs: Vec<BlockTx>)

  function HeaderBytes(d: BlockHeader): (b: seq<Byte>)
    ensures |b| == BLOCK_HEADER_BYTES
  {
    LittleEndian(d.version, 4) + (d.prevBlockHash + (d.merkleRoot
    + (LittleEndian(d.timestamp, 8) + (d.target + LittleEndian(d.nonce, 8)))))
  }

  function ParseHeader(b: seq<Byte>): (d: BlockHeader)
    requires |b| == BLOCK_HEADER_BYTES
  {
    Capacities();
    BlockHeader(
      FromLittleEndian(b[0..4]), b[4..36], b[36..68], FromLittleEndian(b[68..76]), b[76..108],
      FromLittleEndian(b[108..116]))
  }

  lemma HeaderRoundTrip(d: BlockHeader)
    ensures ParseHeader(HeaderBytes(d)) == d
  {
    Capacities();
    hide LittleEndian, FromLittleEndian;
    var b := HeaderBytes(d);
    assert b[0..4] == LittleEndian(d.version, 4);
    assert b[4..36] == d.prevBlockHash;
    assert b[36..68] == d.merkleRoot;
    assert b[68..76] == LittleEndian(d.timestamp, 8);
    assert b[76..108] == d.target;
    assert b[108..116] == LittleEndian(d.nonce, 8);
    FromToLittleEndian(d.version, 4);
    FromToLittleEndian(d.timestamp, 8);
    FromToLittleEndian(d.nonce, 8);
  }

  lemma HeaderCanonical(b: seq<Byte>)
    requires |b| == BLOCK_HEADER_BYTES
    ensures HeaderBytes(ParseHeader(b)) == b
  {
    hide LittleEndian, FromLittleEndian;
    ToFromLittleEndian(b[0..4]);
    ToFromLittleEndian(b[68..76]);
    ToFromLittleEndian(b[108..116]);
    assert b == b[0..4] + (b[4..36] + (b[36..68] + (b[68..76] + (b[76..108] + b[108..116]))));
  }

  // ---------------------------------------------------------------- the transaction list

  predicate BlockTxOk(h: Hash, t: BlockTx) {
    TxOk(t.tx) && t.txid == h(CoreBytes(t.tx.core)) && t.wtxid == h(TxBytes(t.tx))
  }

  function BlockTxBytes(t: BlockTx): (b: seq<Byte>)
  {
    TxBytes(t.tx)
  }

  /** The block entry of a transaction: its bytes decide both ids. */
  function Entry(h: Hash, tx: Tx): (t: BlockTx)
  {
    BlockTx(tx, h(CoreBytes(tx.core)), h(TxBytes(tx)))
  }

  function ParseBlockTx(h: Hash, b: seq<Byte>): (r: Outcome<BlockTx>)
  {
    if b == [] then Err(BlockParse)
    else
      var p :- ParseTx(b);
      TxCanonical(b);
      Ok(Parsed(BlockTx(p.tx, h(b[..p.coreEnd]), h(b[..p.totalEnd])), b[p.totalEnd..]))
  }

  lemma BlockTxCodec(h: Hash)
    ensures IsCodec(t => BlockTxOk(h, t), BlockTxBytes, b => ParseBlockTx(h, b))
  {
    hide ParseTx, TxBytes, CoreBytes, TxOk;
    forall t: BlockTx, rest | BlockTxOk(h, t)
      ensures ParseBlockTx(h, BlockTxBytes(t) + rest) == Ok(Parsed(t, rest))
    {
      BlockTxRoundTrip(h, t, rest);
    }
    forall b | ParseBlockTx(h, b).Ok?
      ensures var Parsed(t, rest) := ParseBlockTx(h, b).value; BlockTxOk(h, t) && b == BlockTxBytes(t) + rest
    {
      TxCanonical(b);
      var end := ParseTx(b).value.totalEnd;
      assert b == b[..end] + b[end..];
    }
  }

  lemma CoreIsPrefix(tx: Tx)
    ensures |CoreBytes(tx.core)| <= |TxBytes(tx)| && TxBytes(tx)[..|CoreBytes(tx.core)|] == CoreBytes(tx.core)
    ensures TxBytes(tx) != []
  {
    hide CoreBytes, TailBytes;
    TailIsNonEmpty(TailOf(tx));
  }

  lemma TailIsNonEmpty(t: TxTail)
    ensures TailBytes(t) != []
  {
    CS.EncodedLenMatches(|t.daPayload|);
  }

  lemma BlockTxRoundTrip(h: Hash, t: BlockTx, rest: seq<Byte>)
    requires BlockTxOk(h, t)
    ensures ParseBlockTx(h, BlockTxBytes(t) + rest) == Ok(Parsed(t, rest))
  {
    hide ParseTx, TxBytes, CoreBytes, TxOk;
    TxRoundTrip(t.tx, rest);
    CoreIsPrefix(t.tx);
    var b := BlockTxBytes(t) + rest;
    var c := |CoreBytes(t.tx.core)|;
    assert b[..c] == TxBytes(t.tx)[..c];
    assert b[..|TxBytes(t.tx)|] == TxBytes(t.tx) && b[|TxBytes(t.tx)|..] == rest;
  }

  function BlockBytes(block: ParsedBlock): (b: seq<Byte>)
  {
    HeaderBytes(block.header) + ListBytes(BlockTxBytes, block.txs)
  }

  /** What every parsed block satisfies and the chain state relies on. */
  predicate Shaped(block: ParsedBlock) {
    block.txs != [] && forall t :: t in block.txs ==> |t.tx.core.outputs| <= MAX_TX_OUTPUTS
  }

  lemma ParsedIsShaped(h: Hash, block: ParsedBlock)
    requires block.txs != [] && AllOk(t => BlockTxOk(h, t), block.txs)
    ensures Shaped(block)
  {
    hide CoreBytes, TxBytes, TailOk;
    forall t | t in block.txs
      ensures |t.tx.core.outputs| <= MAX_TX_OUTPUTS
    {
      var i :| 0 <= i < |block.txs| && block.txs[i] == t;
      assert BlockTxOk(h, block.txs[i]);
    }
  }

  predicate BlockOk(h: Hash, block: ParsedBlock): (ok: bool)
    ensures ok ==> Shaped(block)
  {
    if block.txs != [] && AllOk(t => BlockTxOk(h, t), block.txs) then
      ParsedIsShaped(h, block);
      true
    else false
  }

  function ParseBlock(h: Hash, b: seq<Byte>): (r: Result<ParsedBlock, Code>)
  {
    if |b| < BLOCK_HEADER_BYTES + 1 then Err(BlockParse)
    else
      var header := ParseHeader(b[..BLOCK_HEADER_BYTES]);
      match TakeSize(b[BLOCK_HEADER_BYTES..])
      case Err(_) => Err(BlockParse)
      case Ok(n) =>
        if n.value == 0 then Err(CoinbaseInvalid)
        else
          var txs :- ParseItems(c => ParseBlockTx(h, c), n.value, n.rest, []);
          if txs.rest != [] then Err(BlockParse) else Ok(ParsedBlock(header, txs.value))
  }

  lemma BlockRoundTrip(h: Hash, block: ParsedBlock)
    requires BlockOk(h, block)
    ensures ParseBlock(h, BlockBytes(block)) == Ok(block)
  {
    hide ParseBlockTx, BlockTxOk, BlockTxBytes, ParseHeader, HeaderBytes;
    var parse := (c: seq<Byte>) => ParseBlockTx(h, c);
    var ok := (t: BlockTx) => BlockTxOk(h, t);
    var b := BlockBytes(block);
    assert b[..BLOCK_HEADER_BYTES] == HeaderBytes(block.header);
    HeaderRoundTrip(block.header);
    BlockTxCodec(h);
    var items := Concat(BlockTxBytes, block.txs);
    assert b[BLOCK_HEADER_BYTES..] == CS.Encode(|block.txs|) + items;
    CS.EncodedLenMatches(|block.txs|);
    SizeRoundTrip(|block.txs|, items);
    assert items + [] == items && [] + block.txs == block.txs;
    ItemsRoundTrip(ok, BlockTxBytes, parse, block.txs, [], []);
  }

  lemma BlockCanonical(h: Hash, b: seq<Byte>)
    requires ParseBlock(h, b).Ok?
    ensures BlockOk(h, ParseBlock(h, b).value) && b == BlockBytes(ParseBlock(h, b).value)
  {
    hide ParseBlockTx, BlockTxOk, BlockTxBytes, ParseHeader, HeaderBytes;
    var parse := (c: seq<Byte>) => ParseBlockTx(h, c);
    var ok := (t: BlockTx) => BlockTxOk(h, t);
    BlockTxCodec(h);
    HeaderCanonical(b[..BLOCK_HEADER_BYTES]);
    var tail := b[BLOCK_HEADER_BYTES..];
    SizeCanonical(tail);
    var n := TakeSize(tail).value;
    ItemsCanonical(ok, BlockTxBytes, parse, n.value, n.rest, []);
    var txs := ParseBlock(h, b).value.txs;
    assert txs[0..] == txs;
    assert Concat(BlockTxBytes, txs) + [] == Concat(BlockTxBytes, txs);
    assert b == b[..BLOCK_HEADER_BYTES] + tail;
  }

  /** A byte string is accepted as a block exactly when it is the serialisation of the block returned. */
  lemma BlockParserAcceptsExactly(h: Hash, b: seq<Byte>, block: ParsedBlock)
    ensures ParseBlock(h, b) == Ok(block) <==> BlockOk(h, block) && b == BlockBytes(block)
  {
    hide ParseBlock, BlockOk, BlockBytes;
    if ParseBlock(h, b) == Ok(block) {
      BlockCanonical(h, b);
    }
    if BlockOk(h, block) && b == BlockBytes(block) {
      BlockRoundTrip(h, block);
    }
  }

  /** The transaction loop of the block parser. */
  method ReadBlock(h: Hash, b: seq<Byte>) returns (r: Result<ParsedBlock, Code>)
    ensures r == ParseBlock(h, b)
  {
    hide ParseBlockTx, ParseHeader;
    if |b| < BLOCK_HEADER_BYTES + 1 {
      return Err(BlockParse);
    }
    var header := ParseHeader(b[..BLOCK_HEADER_BYTES]);
    var n := TakeSize(b[BLOCK_HEADER_BYTES..]);
    if n.Err? {
      return Err(BlockParse);
    }
    if n.value.value == 0 {
      return Err(CoinbaseInvalid);
    }
    var txs :- ReadItems(c => ParseBlockTx(h, c), n.value.value, n.value.rest);
    if txs.rest != [] {
      return Err(BlockParse);
    }
    return Ok(ParsedBlock(header, txs.value));
  }
}
