/**
 What a block header commits to. Stored blocks are accepted when the coinbase has the canonical
 shape, the header's Merkle root matches the txids, and exactly one coinbase anchor carries the
 witness commitment. Two accepted blocks with one Merkle root have the same transactions when at most
 one value is carried by exactly one coinbase anchor; with two such values they need not.
 */
module Commitments {
  import opened Bytes
  import opened Wire
  import opened TxWire
  import opened WitnessWire
  import opened TxCodec
  import opened BlockWire
  import Merkle

  /** The ASCII bytes of `RUBIN-WITNESS/`. */
  const WITNESS_DOMAIN: seq<Byte> :=
    [0x52, 0x55, 0x42, 0x49, 0x4E, 0x2D, 0x57, 0x49, 0x54, 0x4E, 0x45, 0x53, 0x53, 0x2F]

  predicate IsCoinbase(tx: Tx) {
    && tx.core.prefix.kind == 0x00 && tx.core.prefix.nonce == 0
    && |tx.core.inputs| == 1 && tx.witnesses == [] && tx.daPayload == []
    && var i := tx.core.inputs[0];
       i.prevTxid == ZERO32 && i.prevVout == U32 - 1 && i.scriptSig == [] && i.sequence == U32 - 1
  }

  function Txids(txs: seq<BlockTx>): (ids: seq<Hash32>)
    ensures |ids| == |txs| && forall i :: 0 <= i < |txs| ==> ids[i] == txs[i].txid
  {
    if txs == [] then [] else [txs[0].txid] + Txids(txs[1..])
  }

  function Wtxids(txs: seq<BlockTx>): (ids: seq<Hash32>)
    ensures |ids| == |txs| && forall i :: 0 <= i < |txs| ==> ids[i] == txs[i].wtxid
  {
    if txs == [] then [] else [txs[0].wtxid] + Wtxids(txs[1..])
  }

  /** The commitment a coinbase must carry for the witness ids of its block. */
  function WitnessCommitment(h: Hash, wtxids: seq<Hash32>): (c: Hash32)
    requires wtxids != []
  {
    h(CommitmentPreimage(h, wtxids))
  }

  function CommitmentPreimage(h: Hash, wtxids: seq<Hash32>): (x: seq<Byte>)
    requires wtxids != []
  {
    WITNESS_DOMAIN + Merkle.WitnessRoot(h, wtxids).value
  }

  predicate IsAnchor32(o: TxOutput) {
    o.covenantType == COV_TYPE_ANCHOR && |o.covenantData| == 32
  }

  predicate Carries(o: TxOutput, c: Hash32) {
    IsAnchor32(o) && o.covenantData == c
  }

  function CountCarrying(outputs: seq<TxOutput>, c: Hash32): (n: nat)
  {
    if outputs == [] then 0 else (if Carries(outputs[0], c) then 1 else 0) + CountCarrying(outputs[1..], c)
  }

  /** At most one 32-byte value is carried by exactly one anchor. */
  ghost predicate OneSingleAnchor(outputs: seq<TxOutput>) {
    forall c: Hash32, d: Hash32 :: CountCarrying(outputs, c) == 1 && CountCarrying(outputs, d) == 1 ==> c == d
  }

  /** The self-contained checks a stored block must pass before it is used. */
  predicate StoredCommitmentsOk(h: Hash, block: ParsedBlock) {
    && block.txs != [] && IsCoinbase(block.txs[0].tx)
    && Merkle.TxidRoot(h, Txids(block.txs)) == Ok(block.header.merkleRoot)
    && CountCarrying(block.txs[0].tx.core.outputs, WitnessCommitment(h, Wtxids(block.txs))) == 1
  }

  /** Every string hashed while the block's ids and commitments are checked. */
  function Hashed(h: Hash, block: ParsedBlock): (xs: set<seq<Byte>>)
    requires block.txs != []
  {
    (set t | t in block.txs :: CoreBytes(t.tx.core)) + (set t | t in block.txs :: TxBytes(t.tx))
    + Merkle.TxidStrings(h, Txids(block.txs)) + Merkle.WitnessStrings(h, Wtxids(block.txs))
    + {CommitmentPreimage(h, Wtxids(block.txs))}
  }

  ghost predicate Collide(h: Hash, a: ParsedBlock, b: ParsedBlock)
    requires a.txs != [] && b.txs != []
  {
    CollisionIn(h, Hashed(h, a) + Hashed(h, b))
  }

  lemma SubsetCollides(h: Hash, a: ParsedBlock, b: ParsedBlock, xs: set<seq<Byte>>)
    requires a.txs != [] && b.txs != []
    requires xs <= Hashed(h, a) + Hashed(h, b) && CollisionIn(h, xs)
    ensures Collide(h, a, b)
  {
    hide Hashed;
    var x, y :| x in xs && y in xs && x != y && h(x) == h(y);
    assert x in Hashed(h, a) + Hashed(h, b) && y in Hashed(h, a) + Hashed(h, b);
  }

  lemma SameCoreOrCollide(h: Hash, a: ParsedBlock, b: ParsedBlock, x: BlockTx, y: BlockTx)
    requires x in a.txs && y in b.txs && BlockTxOk(h, x) && BlockTxOk(h, y) && x.txid == y.txid
    ensures x.tx.core == y.tx.core || Collide(h, a, b)
  {
    hide CoreBytes, CoreOk, TailOk, TxBytes, Merkle.TxidStrings, Merkle.WitnessStrings, CommitmentPreimage;
    var u, v := CoreBytes(x.tx.core), CoreBytes(y.tx.core);
    if u == v {
      CoreBytesInjective(x.tx.core, y.tx.core);
    } else {
      assert u in Hashed(h, a) && v in Hashed(h, b);
      SubsetCollides(h, a, b, {u, v});
    }
  }

  lemma SameTxOrCollide(h: Hash, a: ParsedBlock, b: ParsedBlock, x: BlockTx, y: BlockTx)
    requires x in a.txs && y in b.txs && BlockTxOk(h, x) && BlockTxOk(h, y) && x.wtxid == y.wtxid
    ensures x == y || Collide(h, a, b)
  {
    hide CoreBytes, TxOk, TxBytes, Merkle.TxidStrings, Merkle.WitnessStrings, CommitmentPreimage;
    var u, v := TxBytes(x.tx), TxBytes(y.tx);
    if u == v {
      assert u + [] == v + [];
      TxPrefixFree(x.tx, y.tx, [], []);
    } else {
      assert u in Hashed(h, a) && v in Hashed(h, b);
      SubsetCollides(h, a, b, {u, v});
    }
  }

  /** One Merkle root means one list of cores. */
  lemma MerkleRootFixesCores(h: Hash, a: ParsedBlock, b: ParsedBlock)
    requires BlockOk(h, a) && BlockOk(h, b) && a.header.merkleRoot == b.header.merkleRoot
    requires StoredCommitmentsOk(h, a) && StoredCommitmentsOk(h, b) && !Collide(h, a, b)
    ensures |a.txs| == |b.txs| && forall i :: 0 <= i < |a.txs| ==> a.txs[i].tx.core == b.txs[i].tx.core
  {
    hide CoreBytes, TxOk, TxBytes, Merkle.TxidStrings, Merkle.WitnessStrings, CommitmentPreimage;
    Merkle.TxidRootBinds(h, Txids(a.txs), Txids(b.txs));
    var xs := Merkle.TxidStrings(h, Txids(a.txs)) + Merkle.TxidStrings(h, Txids(b.txs));
    if CollisionIn(h, xs) {
      SubsetCollides(h, a, b, xs);
    }
    forall i | 0 <= i < |a.txs|
      ensures a.txs[i].tx.core == b.txs[i].tx.core
    {
      assert Txids(a.txs)[i] == Txids(b.txs)[i];
      assert BlockTxOk(h, a.txs[i]) && BlockTxOk(h, b.txs[i]);
      SameCoreOrCollide(h, a, b, a.txs[i], b.txs[i]);
    }
  }

  /** Equal witness commitments mean equal transactions after the coinbase. */
  lemma CommitmentFixesWitnesses(h: Hash, a: ParsedBlock, b: ParsedBlock)
    requires BlockOk(h, a) && BlockOk(h, b) && !Collide(h, a, b)
    requires WitnessCommitment(h, Wtxids(a.txs)) == WitnessCommitment(h, Wtxids(b.txs))
    ensures a.txs[1..] == b.txs[1..]
  {
    hide CoreBytes, TxOk, TxBytes, Merkle.TxidStrings, Merkle.WitnessStrings, CommitmentPreimage;
    var x, y := CommitmentPreimage(h, Wtxids(a.txs)), CommitmentPreimage(h, Wtxids(b.txs));
    if x != y {
      SubsetCollides(h, a, b, {x, y});
    }
    PreimageFixesRoot(h, Wtxids(a.txs), Wtxids(b.txs));
    hide Merkle.WitnessRoot;
    Merkle.WitnessRootBinds(h, Wtxids(a.txs), Wtxids(b.txs));
    var xs := Merkle.WitnessStrings(h, Wtxids(a.txs)) + Merkle.WitnessStrings(h, Wtxids(b.txs));
    if CollisionIn(h, xs) {
      SubsetCollides(h, a, b, xs);
    }
    TailsAgree(h, a, b);
  }

  lemma PreimageFixesRoot(h: Hash, v: seq<Hash32>, w: seq<Hash32>)
    requires v != [] && w != [] && CommitmentPreimage(h, v) == CommitmentPreimage(h, w)
    ensures Merkle.WitnessRoot(h, v) == Merkle.WitnessRoot(h, w)
  {
    var n := |WITNESS_DOMAIN|;
    assert Merkle.WitnessRoot(h, v).value == CommitmentPreimage(h, v)[n..];
    assert Merkle.WitnessRoot(h, w).value == CommitmentPreimage(h, w)[n..];
  }

  lemma TailsAgree(h: Hash, a: ParsedBlock, b: ParsedBlock)
    requires BlockOk(h, a) && BlockOk(h, b) && !Collide(h, a, b)
    requires Wtxids(a.txs)[1..] == Wtxids(b.txs)[1..]
    ensures a.txs[1..] == b.txs[1..]
  {
    hide CoreBytes, TxBytes, TxOk, Hashed;
    assert |a.txs| == |Wtxids(a.txs)[1..]| + 1 && |b.txs| == |Wtxids(b.txs)[1..]| + 1;
    forall i | 1 <= i < |a.txs|
      ensures a.txs[i] == b.txs[i]
    {
      assert Wtxids(a.txs)[1..][i - 1] == Wtxids(b.txs)[1..][i - 1];
      assert BlockTxOk(h, a.txs[i]) && BlockTxOk(h, b.txs[i]);
      SameTxOrCollide(h, a, b, a.txs[i], b.txs[i]);
    }
  }

  lemma SameCoinbase(h: Hash, a: ParsedBlock, b: ParsedBlock)
    requires BlockOk(h, a) && BlockOk(h, b) && StoredCommitmentsOk(h, a) && StoredCommitmentsOk(h, b)
    requires a.txs[0].tx.core == b.txs[0].tx.core
    ensures a.txs[0] == b.txs[0]
  {
    hide CoreBytes, TxBytes, TxOk, Merkle.TxidRoot, WitnessCommitment, CountCarrying;
    assert BlockTxOk(h, a.txs[0]) && BlockTxOk(h, b.txs[0]);
  }

  lemma CommitmentsAgree(h: Hash, a: ParsedBlock, b: ParsedBlock)
    requires StoredCommitmentsOk(h, a) && StoredCommitmentsOk(h, b)
    requires a.txs[0].tx.core == b.txs[0].tx.core && OneSingleAnchor(a.txs[0].tx.core.outputs)
    ensures WitnessCommitment(h, Wtxids(a.txs)) == WitnessCommitment(h, Wtxids(b.txs))
  {
    hide WitnessCommitment, Merkle.TxidRoot, CountCarrying;
  }

  /**
   Accepted blocks with the same Merkle root in the header are the same transactions, witnesses and
   payloads included, when at most one 32-byte value is carried by exactly one anchor of the coinbase,
   unless two of the strings hashed for them collide.
   */
  lemma HeaderFixesTransactions(h: Hash, a: ParsedBlock, b: ParsedBlock)
    requires BlockOk(h, a) && BlockOk(h, b) && a.header.merkleRoot == b.header.merkleRoot
    requires StoredCommitmentsOk(h, a) && StoredCommitmentsOk(h, b)
    requires OneSingleAnchor(a.txs[0].tx.core.outputs)
    ensures Collide(h, a, b) || a.txs == b.txs
  {
    hide BlockOk, Collide, WitnessCommitment, CountCarrying, OneSingleAnchor, IsCoinbase, Merkle.TxidRoot, Txids,
         Wtxids;
    if !Collide(h, a, b) {
      MerkleRootFixesCores(h, a, b);
      CommitmentsAgree(h, a, b);
      CommitmentFixesWitnesses(h, a, b);
      SameCoinbase(h, a, b);
      assert a.txs == [a.txs[0]] + a.txs[1..] && b.txs == [b.txs[0]] + b.txs[1..];
    }
  }

  // ---------------------------------------------------------------- exactly when one header fits two blocks

  function Entries(h: Hash, txs: seq<Tx>): (es: seq<BlockTx>)
    ensures |es| == |txs| && forall i :: 0 <= i < |txs| ==> es[i] == Entry(h, txs[i])
  {
    if txs == [] then [] else [Entry(h, txs[0])] + Entries(h, txs[1..])
  }

  function BlockAround(h: Hash, root: Hash32, coinbase: Tx, rest: seq<Tx>): (block: ParsedBlock)
    requires |rest| + 1 < U64
  {
    ParsedBlock(BlockHeader(1, ZERO32, root, 0, ZERO32, 0), [Entry(h, coinbase)] + Entries(h, rest))
  }

  /** Witness commitment of a block whose transactions after the coinbase are `rest`. */
  function CommitmentOver(h: Hash, rest: seq<Tx>): (c: Hash32)
  {
    WitnessCommitment(h, [ZERO32] + Wtxids(Entries(h, rest)))
  }

  lemma CommitmentIgnoresCoinbase(h: Hash, coinbase: Tx, rest: seq<Tx>)
    ensures WitnessCommitment(h, Wtxids([Entry(h, coinbase)] + Entries(h, rest))) == CommitmentOver(h, rest)
  {
    hide CoreBytes, TxBytes, Merkle.WitnessRoot;
    var w := Wtxids([Entry(h, coinbase)] + Entries(h, rest));
    var z := [ZERO32] + Wtxids(Entries(h, rest));
    assert w[1..] == z[1..];
    Merkle.WitnessRootBinds(h, w, z);
  }

  /** Transactions the parser accepts after the coinbase of a block. */
  predicate Spends(txs: seq<Tx>) {
    |txs| + 1 < U64 && forall i :: 0 <= i < |txs| ==> TxOk(txs[i])
  }

  predicate SameCores(p: seq<Tx>, q: seq<Tx>) {
    |p| == |q| && forall i :: 0 <= i < |p| ==> p[i].core == q[i].core
  }

  /** A parsed block around `coinbase` and `rest` that passes the stored-block checks under `root`. */
  ghost predicate Stored(h: Hash, root: Hash32, coinbase: Tx, rest: seq<Tx>) {
    && Spends(rest)
    && BlockOk(h, BlockAround(h, root, coinbase, rest))
    && StoredCommitmentsOk(h, BlockAround(h, root, coinbase, rest))
  }

  lemma AroundIsOk(h: Hash, root: Hash32, coinbase: Tx, rest: seq<Tx>)
    requires Spends(rest) && TxOk(coinbase)
    ensures BlockOk(h, BlockAround(h, root, coinbase, rest))
  {
    hide CoreBytes, TxBytes, TxOk;
  }

  /** The root of the coinbase followed by `rest`. */
  function RootOver(h: Hash, coinbase: Tx, rest: seq<Tx>): (root: Hash32)
  {
    Merkle.TxidRoot(h, Txids([Entry(h, coinbase)] + Entries(h, rest))).value
  }

  /** A canonical coinbase stores `rest` under its own root exactly when it carries the commitment once. */
  lemma StoredIffCarried(h: Hash, root: Hash32, coinbase: Tx, rest: seq<Tx>)
    requires Spends(rest) && TxOk(coinbase) && IsCoinbase(coinbase)
    ensures Stored(h, root, coinbase, rest)
      <==> root == RootOver(h, coinbase, rest) && CountCarrying(coinbase.core.outputs, CommitmentOver(h, rest)) == 1
  {
    AroundIsOk(h, root, coinbase, rest);
    CommitmentIgnoresCoinbase(h, coinbase, rest);
    hide CoreBytes, TxBytes, TxOk, CountCarrying, IsCoinbase, WitnessCommitment, CommitmentOver, BlockOk, Merkle.Tree;
    var block := BlockAround(h, root, coinbase, rest);
    assert block.txs == [Entry(h, coinbase)] + Entries(h, rest) && block.txs[0].tx == coinbase;
  }

  lemma SameCoresSameRoot(h: Hash, coinbase: Tx, p: seq<Tx>, q: seq<Tx>)
    requires SameCores(p, q)
    ensures RootOver(h, coinbase, p) == RootOver(h, coinbase, q)
  {
    hide CoreBytes, TxBytes, Merkle.TxidRoot;
    assert Txids([Entry(h, coinbase)] + Entries(h, p)) == Txids([Entry(h, coinbase)] + Entries(h, q));
  }

  /**
   For every canonical coinbase and any two lists of transactions with the same cores: one header root
   admits both blocks if and only if the coinbase carries each of their commitments exactly once.
   */
  lemma OneRootAdmitsBoth(h: Hash, coinbase: Tx, p: seq<Tx>, q: seq<Tx>)
    requires TxOk(coinbase) && IsCoinbase(coinbase) && Spends(p) && Spends(q) && SameCores(p, q)
    ensures (exists root :: Stored(h, root, coinbase, p) && Stored(h, root, coinbase, q))
      <==> && CountCarrying(coinbase.core.outputs, CommitmentOver(h, p)) == 1
           && CountCarrying(coinbase.core.outputs, CommitmentOver(h, q)) == 1
  {
    hide Stored, TxOk, IsCoinbase, CountCarrying, CommitmentOver, RootOver;
    SameCoresSameRoot(h, coinbase, p, q);
    forall root
      ensures Stored(h, root, coinbase, p) <==>
        root == RootOver(h, coinbase, p) && CountCarrying(coinbase.core.outputs, CommitmentOver(h, p)) == 1
      ensures Stored(h, root, coinbase, q) <==>
        root == RootOver(h, coinbase, q) && CountCarrying(coinbase.core.outputs, CommitmentOver(h, q)) == 1
    {
      StoredIffCarried(h, root, coinbase, p);
      StoredIffCarried(h, root, coinbase, q);
    }
    var root := RootOver(h, coinbase, p);
    assert Stored(h, root, coinbase, p) <==> CountCarrying(coinbase.core.outputs, CommitmentOver(h, p)) == 1;
  }

  /** A canonical coinbase with one 32-byte anchor for each of the two commitments. */
  function TwoAnchorCoinbase(c: Hash32, d: Hash32): (tx: Tx)
  {
    Tx(TxCore(TxPrefix(TX_WIRE_VERSION, 0x00, 0), [TxInput(ZERO32, U32 - 1, [], U32 - 1)],
              [TxOutput(0, COV_TYPE_ANCHOR, c), TxOutput(0, COV_TYPE_ANCHOR, d)], 0, None, None),
       [], [])
  }

  /**
   With two single anchors the header does not fix the witnesses: any two lists of well-formed
   transactions with the same cores and different commitments are both stored under one coinbase and root.
   */
  lemma TwoAnchorsFitTwoBlocks(h: Hash, p: seq<Tx>, q: seq<Tx>)
    requires Spends(p) && Spends(q) && SameCores(p, q) && CommitmentOver(h, p) != CommitmentOver(h, q)
    ensures exists coinbase, root :: Stored(h, root, coinbase, p) && Stored(h, root, coinbase, q)
  {
    var c, d := CommitmentOver(h, p), CommitmentOver(h, q);
    var coinbase := TwoAnchorCoinbase(c, d);
    CountOfTwo(c, d);
    TwoAnchorsParse(c, d);
    hide Stored, TxOk, IsCoinbase, CountCarrying, CommitmentOver, TwoAnchorCoinbase;
    OneRootAdmitsBoth(h, coinbase, p, q);
  }

  lemma TwoAnchorsParse(c: Hash32, d: Hash32)
    ensures TxOk(TwoAnchorCoinbase(c, d)) && IsCoinbase(TwoAnchorCoinbase(c, d))
  {
  }

  lemma CountOfTwo(c: Hash32, d: Hash32)
    requires c != d
    ensures CountCarrying(TwoAnchorCoinbase(c, d).core.outputs, c) == 1
    ensures CountCarrying(TwoAnchorCoinbase(c, d).core.outputs, d) == 1
  {
    var o := TwoAnchorCoinbase(c, d).core.outputs;
    assert o[1..] == [o[1]] && o[1..][1..] == [];
    assert CountCarrying(o[1..], c) == 0 && CountCarrying(o[1..], d) == 1;
  }
}
