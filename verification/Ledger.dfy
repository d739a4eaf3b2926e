/**
 The history behind the unspent outputs. On a chain replayed from nothing no txid ever repeats, so
 no block overwrites an output and every block can be undone. The reasons are that a coinbase
 carries its height, that only a coinbase has nonce zero, and that a repeated transaction would
 spend an output that is already gone.
 */
module Ledger {
  import opened Bytes
  import opened Wire
  import opened TxWire
  import opened BlockWire
  import opened Commitments
  import opened Utxo
  import opened ChainState
  import Reorg

  /** One applied transaction of the history. */
  datatype Past = Past(t: BlockTx, height: nat, coinbase: bool)

  function Ids(hist: seq<Past>): (ids: set<Hash32>)
  {
    set p | p in hist :: p.t.txid
  }

  function Cores(hist: seq<Past>): (xs: set<seq<Byte>>)
  {
    set p | p in hist :: CoreBytes(p.t.tx.core)
  }

  function InputsOf(p: Past): (ops: set<Outpoint>)
  {
    if p.coinbase then {} else PrevOuts(p.t.tx.core.inputs)
  }

  /** Shape of one applied transaction. */
  predicate Wellformed(h: Hash, p: Past) {
    && CoreOk(p.t.tx.core) && p.t.txid == h(CoreBytes(p.t.tx.core))
    && (if p.coinbase then p.t.tx.core.prefix.nonce == 0 && p.t.tx.core.locktime == p.height
        else p.t.tx.core.prefix.nonce >= 1 && p.t.tx.core.inputs != [])
  }

  predicate DistinctIds(hist: seq<Past>) {
    forall i, j :: 0 <= i < j < |hist| ==> hist[i].t.txid != hist[j].t.txid
  }

  /** What the history guarantees about the unspent outputs `u`. */
  ghost predicate Consistent(h: Hash, hist: seq<Past>, u: Utxos) {
    && (forall p :: p in hist ==> Wellformed(h, p))
    && DistinctIds(hist)
    && (forall op :: op in u ==> op.txid in Ids(hist))
    && (forall p, op :: p in hist && op in InputsOf(p) ==> op !in u && op.txid in Ids(hist))
  }

  ghost predicate HeightsBelow(hist: seq<Past>, height: nat) {
    forall p :: p in hist && p.coinbase ==> p.height < height
  }

  /** Equal ids mean equal cores when no two of the cores in question collide. */
  lemma SameIdSameCore(h: Hash, p: Past, q: Past, xs: set<seq<Byte>>)
    requires Wellformed(h, p) && Wellformed(h, q) && p.t.txid == q.t.txid
    requires CoreBytes(p.t.tx.core) in xs && CoreBytes(q.t.tx.core) in xs && !CollisionIn(h, xs)
    ensures p.t.tx.core == q.t.tx.core
  {
    hide CoreBytes, CoreOk;
    CoreBytesInjective(p.t.tx.core, q.t.tx.core);
  }

  lemma SharedInput(p: Past, q: Past) returns (op: Outpoint)
    requires !p.coinbase && !q.coinbase && p.t.tx.core == q.t.tx.core && p.t.tx.core.inputs != []
    ensures op in InputsOf(p) && op in InputsOf(q)
  {
    var i := p.t.tx.core.inputs[0];
    assert i in p.t.tx.core.inputs;
    op := PrevOut(i);
  }

  /** A transaction that can be applied next is new. */
  lemma NextIsNew(h: Hash, hist: seq<Past>, u: Utxos, next: Past, xs: set<seq<Byte>>)
    requires Consistent(h, hist, u) && Wellformed(h, next) && InputsOf(next) <= u.Keys
    requires next.coinbase ==> HeightsBelow(hist, next.height)
    requires Cores(hist + [next]) <= xs && !CollisionIn(h, xs)
    ensures next.t.txid !in Ids(hist)
  {
    hide CoreBytes, CoreOk, CollisionIn;
    if next.t.txid in Ids(hist) {
      var p :| p in hist && p.t.txid == next.t.txid;
      assert p in hist + [next] && next in hist + [next];
      SameIdSameCore(h, p, next, xs);
      if !next.coinbase {
        var op := SharedInput(p, next);
      }
      assert false;
    }
  }

  lemma Extend(h: Hash, hist: seq<Past>, u: Utxos, next: Past, created: Utxos, xs: set<seq<Byte>>)
    requires Consistent(h, hist, u) && Wellformed(h, next) && InputsOf(next) <= u.Keys
    requires next.t.txid !in Ids(hist) && forall op :: op in created ==> op.txid == next.t.txid
    ensures Consistent(h, hist + [next], (u - InputsOf(next)) + created)
  {
    hide Wellformed, InputsOf;
    var longer := hist + [next];
    assert forall p :: p in longer <==> p in hist || p == next;
    assert Ids(longer) == Ids(hist) + {next.t.txid};
    forall i, j | 0 <= i < j < |longer|
      ensures longer[i].t.txid != longer[j].t.txid
    {
      assert longer[i] in hist;
    }
  }

  // ---------------------------------------------------------------- one block

  /** The first `n` transactions of a block as history. */
  function PastOf(block: ParsedBlock, height: nat, n: nat): (hist: seq<Past>)
    requires n <= |block.txs|
    ensures |hist| == n && forall k :: 0 <= k < n ==> hist[k] == Past(block.txs[k], height, k == 0)
  {
    if n == 0 then [] else PastOf(block, height, n - 1) + [Past(block.txs[n - 1], height, n == 1)]
  }

  lemma TxWellformed(h: Hash, rules: Rules, s: State, block: ParsedBlock, k: nat)
    requires BlockOk(h, block) && Connect(rules, h, s, block).Ok? && k < |block.txs|
    ensures Wellformed(h, Past(block.txs[k], NextHeight(s), k == 0))
  {
    hide CoreBytes, CoreOk, TxCodec.TxBytes, TxCodec.TailOk, Subsidy, CoinbaseOutputError, ApplyFirst;
    assert BlockTxOk(h, block.txs[k]);
    if k > 0 {
      hide IsCoinbase;
      PrefixOk(rules, block, NextHeight(s), s.utxos, k + 1, |block.txs|);
      NextTxShape(rules, block, NextHeight(s), s.utxos, k);
    }
  }

  lemma {:induction false} PrefixOk(rules: Rules, block: ParsedBlock, height: nat, u: Utxos, k: nat, n: nat)
    requires Shaped(block) && 1 <= k <= n <= |block.txs| && ApplyFirst(rules, block, height, u, n).Ok?
    ensures ApplyFirst(rules, block, height, u, k).Ok?
    decreases n - k
  {
    hide ApplyNext, CoinbaseOutputError;
    if k < n {
      PrefixOk(rules, block, height, u, k, n - 1);
    }
  }

  lemma NextTxShape(rules: Rules, block: ParsedBlock, height: nat, u: Utxos, k: nat)
    requires Shaped(block) && 1 <= k < |block.txs| && ApplyFirst(rules, block, height, u, k + 1).Ok?
    ensures block.txs[k].tx.core.prefix.nonce >= 1 && block.txs[k].tx.core.inputs != []
  {
    hide CoinbaseOutputError;
    var w := ApplyFirst(rules, block, height, u, k).value;
    assert ApplyNext(rules, block.txs[k], height, w).Ok?;
    AppliedSpendsPresent(rules.tx, block.txs[k], w.utxos, height);
  }

  lemma {:induction false} BlockConsistent(
    h: Hash, rules: Rules, s: State, block: ParsedBlock, hist: seq<Past>, n: nat, xs: set<seq<Byte>>)
    requires BlockOk(h, block) && Connect(rules, h, s, block).Ok? && n <= |block.txs|
    requires Consistent(h, hist, s.utxos) && HeightsBelow(hist, NextHeight(s))
    requires Cores(hist + PastOf(block, NextHeight(s), n)) <= xs && !CollisionIn(h, xs)
    ensures Consistent(h, hist + PastOf(block, NextHeight(s), n), Reorg.After(block, NextHeight(s), s.utxos, n))
    decreases n
  {
    hide Consistent, Cores, CollisionIn, BlockOk, Connect, HeightsBelow;
    var height := NextHeight(s);
    if n == 0 {
      assert hist + PastOf(block, height, 0) == hist;
    } else {
      var before := hist + PastOf(block, height, n - 1);
      var next := Past(block.txs[n - 1], height, n == 1);
      assert hist + PastOf(block, height, n) == before + [next];
      CoresGrow(before, next);
      BlockConsistent(h, rules, s, block, hist, n - 1, xs);
      BlockStep(h, rules, s, block, hist, n - 1, xs);
    }
  }

  lemma CoresGrow(hist: seq<Past>, next: Past)
    ensures Cores(hist) <= Cores(hist + [next])
  {
    hide CoreBytes;
  }

  lemma BlockStep(
    h: Hash, rules: Rules, s: State, block: ParsedBlock, hist: seq<Past>, k: nat, xs: set<seq<Byte>>)
    requires BlockOk(h, block) && Connect(rules, h, s, block).Ok? && k < |block.txs|
    requires HeightsBelow(hist, NextHeight(s))
    requires Consistent(h, hist + PastOf(block, NextHeight(s), k), Reorg.After(block, NextHeight(s), s.utxos, k))
    requires Cores(hist + PastOf(block, NextHeight(s), k) + [Past(block.txs[k], NextHeight(s), k == 0)]) <= xs
    requires !CollisionIn(h, xs)
    ensures Consistent(h, hist + PastOf(block, NextHeight(s), k) + [Past(block.txs[k], NextHeight(s), k == 0)],
                       Reorg.After(block, NextHeight(s), s.utxos, k + 1))
  {
    hide CoreBytes, Consistent, Wellformed, CollisionIn, BlockOk, ApplyFirst, Cores, CreatedBy, CreatedOps,
         CoinbaseStructured, Subsidy;
    var height := NextHeight(s);
    var before, next := hist + PastOf(block, height, k), Past(block.txs[k], height, k == 0);
    var u := Reorg.After(block, height, s.utxos, k);
    TxWellformed(h, rules, s, block, k);
    Reorg.ApplyFirstPlays(rules, block, height, s.utxos, |block.txs|);
    assert Reorg.PlaysAt(block, height, s.utxos, k);
    assert InputsOf(next) == SpentIn(block, k);
    assert before == hist + [] ==> before == hist;
    NextIsNew(h, before, u, next, xs);
    CreatedHaveTxid(block, k, height);
    Extend(h, before, u, next, CreatedIn(block, k, height), xs);
  }

  lemma CreatedHaveTxid(block: ParsedBlock, k: nat, height: nat)
    requires Shaped(block) && k < |block.txs|
    ensures forall op :: op in CreatedIn(block, k, height) ==> op.txid == block.txs[k].txid
    ensures forall op :: op in OutpointsOf(block.txs[k]) ==> op.txid == block.txs[k].txid
  {
  }

  /** A block that connects on a consistent history can be undone. */
  lemma ConsistentIsReversible(
    h: Hash, rules: Rules, s: State, block: ParsedBlock, hist: seq<Past>, xs: set<seq<Byte>>)
    requires BlockOk(h, block) && Connect(rules, h, s, block).Ok?
    requires Consistent(h, hist, s.utxos) && HeightsBelow(hist, NextHeight(s))
    requires Cores(hist + PastOf(block, NextHeight(s), |block.txs|)) <= xs && !CollisionIn(h, xs)
    ensures Reorg.Reversible(block, s.utxos)
  {
    var height, n := NextHeight(s), |block.txs|;
    BlockConsistent(h, rules, s, block, hist, n, xs);
    DistinctIsReversible(h, block, height, hist, s.utxos);
  }

  /** Two positions of a history with distinct ids do not share an id. */
  lemma SameIdTwice(hist: seq<Past>, i: nat, j: nat)
    requires i < j < |hist| && DistinctIds(hist)
    ensures hist[i].t.txid != hist[j].t.txid
  {
  }

  lemma DistinctIsReversible(h: Hash, block: ParsedBlock, height: nat, hist: seq<Past>, u: Utxos)
    requires Shaped(block) && forall op :: op in u ==> op.txid in Ids(hist)
    requires DistinctIds(hist + PastOf(block, height, |block.txs|))
    ensures Reorg.Reversible(block, u)
  {
    hide OutpointsOf, SpentIn, SpentInside;
    var all := hist + PastOf(block, height, |block.txs|);
    forall j, op | 0 <= j < |block.txs| && op in OutpointsOf(block.txs[j])
      ensures op !in u
    {
      CreatedHaveTxid(block, j, height);
      if op in u {
        var p :| p in hist && p.t.txid == op.txid;
        var i :| 0 <= i < |hist| && hist[i] == p;
        SameIdTwice(all, i, |hist| + j);
      }
    }
    forall i, j, op | 0 <= i < j < |block.txs| && op in OutpointsOf(block.txs[i])
      ensures op !in OutpointsOf(block.txs[j])
    {
      CreatedHaveTxid(block, i, height);
      CreatedHaveTxid(block, j, height);
      SameIdTwice(all, |hist| + i, |hist| + j);
    }
  }
}
