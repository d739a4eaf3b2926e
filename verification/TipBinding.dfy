/**
 Blocks of a chain that replays name their parents by hash, so its tip fixes the headers below it as far
 as both of two chains go, unless two headers collide. Headers fix the cores of the transactions, and the
 cores fix the state.
 */
module TipBinding {
  import opened Bytes
  import opened Wire
  import opened BlockWire
  import opened TxWire
  import opened TxCodec
  import opened Commitments
  import opened Utxo
  import opened ChainState
  import opened ChainRuns
  import opened Times
  import Reorg

  type Chain = ChainRuns.Chain

  ghost predicate HeadersWithin(chain: Chain, xs: set<seq<Byte>>) {
    forall b :: b in chain ==> HeaderBytes(b.header) in xs
  }

  ghost predicate SameHeaders(a: Chain, b: Chain) {
    |a| == |b| && forall i :: 0 <= i < |a| ==> a[i].header == b[i].header
  }

  /** Every block after the first names the block before it. */
  predicate Linked(h: Hash, chain: Chain) {
    forall i :: 0 < i < |chain| ==> chain[i].header.prevBlockHash == BlockHash(h, chain[i - 1])
  }

  lemma ConnectLinks(rules: Rules, h: Hash, s: State, block: ParsedBlock)
    requires Shaped(block) && Connect(rules, h, s, block).Ok?
    ensures s.hasTip ==> block.header.prevBlockHash == s.tipHash
    ensures var next := Connect(rules, h, s, block).value; next.hasTip && next.tipHash == BlockHash(h, block)
  {
    hide ApplyFirst, BlockHash, Shaped, CoinbaseStructured, Subsidy;
  }

  /** The last step of a replay. */
  lemma LastConnects(rules: RuleBook, h: Hash, chain: Chain)
    requires AllShaped(chain) && chain != [] && Replay(rules, h, chain).Ok?
    ensures var n := |chain| - 1;
      && AllShaped(chain[..n]) && Shaped(chain[n]) && Replay(rules, h, chain[..n]).Ok?
      && Replay(rules, h, chain)
         == Connect(RulesOn(rules, chain[..n], chain[n]), h, Replay(rules, h, chain[..n]).value, chain[n])
  {
    hide Connect, Shaped, RulesOn;
    assert AllShaped(chain[..|chain| - 1]) && chain[|chain| - 1] in chain;
  }

  lemma LastLinks(rules: RuleBook, h: Hash, chain: Chain)
    requires AllShaped(chain) && chain != [] && Replay(rules, h, chain).Ok?
    ensures AllShaped(chain[..|chain| - 1]) && Replay(rules, h, chain[..|chain| - 1]).Ok?
    ensures var s := Replay(rules, h, chain[..|chain| - 1]).value;
      s.hasTip ==> chain[|chain| - 1].header.prevBlockHash == s.tipHash
    ensures var s := Replay(rules, h, chain).value; s.hasTip && s.tipHash == BlockHash(h, chain[|chain| - 1])
  {
    hide Connect, Shaped, AllShaped, Replay, BlockHash, RulesOn;
    LastConnects(rules, h, chain);
    var n := |chain| - 1;
    ConnectLinks(RulesOn(rules, chain[..n], chain[n]), h, Replay(rules, h, chain[..n]).value, chain[n]);
  }

  lemma {:induction false} ReplayIsLinked(rules: RuleBook, h: Hash, chain: Chain)
    requires AllShaped(chain) && Replay(rules, h, chain).Ok?
    ensures Linked(h, chain)
  {
    hide Replay, AllShaped, BlockHash;
    if chain != [] {
      var n := |chain| - 1;
      LastLinks(rules, h, chain);
      ReplayIsLinked(rules, h, chain[..n]);
      if n > 0 {
        LastLinks(rules, h, chain[..n]);
      }
      LinkedExtends(h, chain);
    }
  }

  lemma LinkedExtends(h: Hash, chain: Chain)
    requires chain != [] && Linked(h, chain[..|chain| - 1])
    requires |chain| > 1 ==> chain[|chain| - 1].header.prevBlockHash == BlockHash(h, chain[..|chain| - 1][|chain| - 2])
    ensures Linked(h, chain)
  {
    hide BlockHash;
    forall i | 0 < i < |chain|
      ensures chain[i].header.prevBlockHash == BlockHash(h, chain[i - 1])
    {
      if i < |chain| - 1 {
        assert chain[..|chain| - 1][i] == chain[i] && chain[..|chain| - 1][i - 1] == chain[i - 1];
      }
    }
  }

  lemma HashBindsHeader(h: Hash, a: ParsedBlock, b: ParsedBlock, xs: set<seq<Byte>>)
    requires HeaderBytes(a.header) in xs && HeaderBytes(b.header) in xs && !CollisionIn(h, xs)
    requires BlockHash(h, a) == BlockHash(h, b)
    ensures a.header == b.header
  {
    HeaderRoundTrip(a.header);
    HeaderRoundTrip(b.header);
    hide HeaderBytes, ParseHeader;
  }

  /** Counted back from the tips, the headers are the same as far as both chains go. */
  ghost predicate EndsAlike(a: Chain, b: Chain) {
    |a| <= |b| && forall i :: 0 <= i < |a| ==> a[i].header == b[|b| - |a| + i].header
  }

  /** Two linked chains with one tip have the same headers, counted back from it, as far as both go. */
  lemma {:induction false} TipBindsHeaders(h: Hash, a: Chain, b: Chain, xs: set<seq<Byte>>)
    requires Linked(h, a) && Linked(h, b) && HeadersWithin(a, xs) && HeadersWithin(b, xs) && !CollisionIn(h, xs)
    requires 0 < |a| <= |b| && BlockHash(h, a[|a| - 1]) == BlockHash(h, b[|b| - 1])
    ensures EndsAlike(a, b)
  {
    hide BlockHash, HeaderBytes, CollisionIn, Linked, HeadersWithin, EndsAlike;
    var m, n := |a| - 1, |b| - 1;
    BelowTip(h, a, xs);
    BelowTip(h, b, xs);
    HashBindsHeader(h, a[m], b[n], xs);
    if m > 0 {
      TipBindsHeaders(h, a[..m], b[..n], xs);
    }
    AlikeExtends(a, b);
  }

  lemma BelowTip(h: Hash, chain: Chain, xs: set<seq<Byte>>)
    requires Linked(h, chain) && HeadersWithin(chain, xs) && chain != []
    ensures var n := |chain| - 1;
      && Linked(h, chain[..n]) && HeadersWithin(chain[..n], xs) && HeaderBytes(chain[n].header) in xs
      && (n > 0 ==> chain[n].header.prevBlockHash == BlockHash(h, chain[..n][n - 1]))
  {
    hide BlockHash, HeaderBytes;
  }

  lemma AlikeExtends(a: Chain, b: Chain)
    requires 0 < |a| <= |b| && a[|a| - 1].header == b[|b| - 1].header
    requires |a| > 1 ==> EndsAlike(a[..|a| - 1], b[..|b| - 1])
    ensures EndsAlike(a, b)
  {
    var m, n := |a| - 1, |b| - 1;
    forall i | 0 <= i < |a|
      ensures a[i].header == b[|b| - |a| + i].header
    {
      if i < m {
        assert a[..m][i].header == b[..n][n - m + i].header;
      }
    }
  }

  // ---------------------------------------------------------------- from headers to the state

  /** The body check compares the Merkle root and the witness commitment. */
  ghost predicate ChecksCommitments(rules: RuleBook, h: Hash) {
    forall w, b, height :: rules(w, b).bodyOk(b, height) ==> StoredCommitmentsOk(h, b)
  }

  /** Every string hashed for the blocks of the chain is in `xs`. */
  ghost predicate HashedWithin(h: Hash, chain: Chain, xs: set<seq<Byte>>) {
    HeadersWithin(chain, xs) && forall b :: b in chain ==> b.txs != [] && Hashed(h, b) <= xs
  }

  lemma {:induction false} ReplayIsCommitted(rules: RuleBook, h: Hash, chain: Chain)
    requires ChecksCommitments(rules, h) && AllShaped(chain) && Replay(rules, h, chain).Ok?
    ensures forall b :: b in chain ==> StoredCommitmentsOk(h, b)
  {
    hide Replay, AllShaped, StoredCommitmentsOk, ChecksCommitments;
    if chain != [] {
      var n := |chain| - 1;
      TipIsCommitted(rules, h, chain);
      ReplayIsCommitted(rules, h, chain[..n]);
      assert chain == chain[..n] + [chain[n]];
    }
  }

  lemma TipIsCommitted(rules: RuleBook, h: Hash, chain: Chain)
    requires ChecksCommitments(rules, h) && AllShaped(chain) && chain != [] && Replay(rules, h, chain).Ok?
    ensures AllShaped(chain[..|chain| - 1]) && Replay(rules, h, chain[..|chain| - 1]).Ok?
    ensures StoredCommitmentsOk(h, chain[|chain| - 1])
  {
    hide StoredCommitmentsOk, Connect, Shaped, AllShaped, Replay, ChecksCommitments;
    LastConnects(rules, h, chain);
    var n := |chain| - 1;
    ConnectedIsCommitted(rules, h, Replay(rules, h, chain[..n]).value, chain[..n], chain[n]);
  }

  lemma ConnectedIsCommitted(rules: RuleBook, h: Hash, s: State, chain: Chain, block: ParsedBlock)
    requires ChecksCommitments(rules, h) && Shaped(block) && Connect(RulesOn(rules, chain, block), h, s, block).Ok?
    ensures StoredCommitmentsOk(h, block)
  {
    hide StoredCommitmentsOk, WindowOf, ApplyFirst, Subsidy, CoinbaseStructured;
    assert rules(WindowOf(chain), block).bodyOk(block, NextHeight(s));
  }

  /** The same header, and the same ids and cores in the same order; witnesses may differ. */
  ghost predicate SameCores(a: ParsedBlock, b: ParsedBlock) {
    && a.header == b.header && |a.txs| == |b.txs|
    && forall i :: 0 <= i < |a.txs| ==> a.txs[i].txid == b.txs[i].txid && a.txs[i].tx.core == b.txs[i].tx.core
  }

  lemma HeaderFixesCores(h: Hash, a: ParsedBlock, b: ParsedBlock, xs: set<seq<Byte>>)
    requires BlockOk(h, a) && BlockOk(h, b) && a.header == b.header && !CollisionIn(h, xs)
    requires StoredCommitmentsOk(h, a) && StoredCommitmentsOk(h, b) && Hashed(h, a) <= xs && Hashed(h, b) <= xs
    ensures SameCores(a, b)
  {
    hide StoredCommitmentsOk, Hashed, CoreBytes, TxOk, TxBytes;
    NoCollision(h, a, b, xs);
    MerkleRootFixesCores(h, a, b);
    forall i | 0 <= i < |a.txs|
      ensures a.txs[i].txid == b.txs[i].txid
    {
      assert BlockTxOk(h, a.txs[i]) && BlockTxOk(h, b.txs[i]);
    }
  }

  lemma NoCollision(h: Hash, a: ParsedBlock, b: ParsedBlock, xs: set<seq<Byte>>)
    requires a.txs != [] && b.txs != [] && Hashed(h, a) <= xs && Hashed(h, b) <= xs && !CollisionIn(h, xs)
    ensures !Collide(h, a, b)
  {
    hide Hashed;
  }

  lemma {:induction false} AfterFollows(a: ParsedBlock, b: ParsedBlock, height: nat, u: Utxos, n: nat)
    requires Shaped(a) && Shaped(b) && SameCores(a, b) && n <= |a.txs|
    ensures Reorg.After(a, height, u, n) == Reorg.After(b, height, u, n)
    decreases n
  {
    hide CreatedBy, PrevOuts, Shaped;
    if n > 0 {
      AfterFollows(a, b, height, u, n - 1);
    }
  }

  /** Blocks with the same cores lead from one state to one state, whatever rules accepted each. */
  lemma ConnectFollows(ra: Rules, rb: Rules, h: Hash, s: State, a: ParsedBlock, b: ParsedBlock)
    requires Shaped(a) && Shaped(b) && SameCores(a, b)
    requires Connect(ra, h, s, a).Ok? && Connect(rb, h, s, b).Ok?
    ensures Connect(ra, h, s, a) == Connect(rb, h, s, b)
  {
    hide SameCores, ApplyFirst, CoinbaseStructured, Subsidy, Reorg.After, Reorg.Plays;
    var height := NextHeight(s);
    Reorg.ApplyFirstPlays(ra, a, height, s.utxos, |a.txs|);
    Reorg.ApplyFirstPlays(rb, b, height, s.utxos, |b.txs|);
    AfterFollows(a, b, height, s.utxos, |a.txs|);
    SameHeads(a, b);
  }

  lemma SameHeads(a: ParsedBlock, b: ParsedBlock)
    requires SameCores(a, b)
    ensures a.header == b.header && |a.txs| == |b.txs|
  {
  }

  ghost predicate AllSameCores(a: Chain, b: Chain) {
    |a| == |b| && forall i :: 0 <= i < |a| ==> SameCores(a[i], b[i])
  }

  lemma {:induction false} ReplayFollows(rules: RuleBook, h: Hash, a: Chain, b: Chain)
    requires AllShaped(a) && AllShaped(b) && AllSameCores(a, b)
    requires Replay(rules, h, a).Ok? && Replay(rules, h, b).Ok?
    ensures Replay(rules, h, a) == Replay(rules, h, b)
    decreases |a|
  {
    hide SameCores, Connect, Shaped, RulesOn;
    if a != [] {
      var n := |a| - 1;
      assert AllShaped(a[..n]) && AllShaped(b[..n]) && a[n] in a && b[n] in b;
      ReplayFollows(rules, h, a[..n], b[..n]);
      ConnectFollows(RulesOn(rules, a[..n], a[n]), RulesOn(rules, b[..n], b[n]), h,
                     Replay(rules, h, a[..n]).value, a[n], b[n]);
    }
  }

  /** Headers decide the state: two replaying chains of the same headers end in one state. */
  lemma HeadersFixState(rules: RuleBook, h: Hash, a: Chain, b: Chain, xs: set<seq<Byte>>)
    requires ChecksCommitments(rules, h) && !CollisionIn(h, xs) && ChainRuns.Parsed(h, a) && ChainRuns.Parsed(h, b)
    requires HashedWithin(h, a, xs) && HashedWithin(h, b, xs) && SameHeaders(a, b)
    requires Replay(rules, h, a).Ok? && Replay(rules, h, b).Ok?
    ensures Replay(rules, h, a) == Replay(rules, h, b)
  {
    hide Replay, CollisionIn, Hashed, StoredCommitmentsOk, ChecksCommitments, SameCores, BlockOk, HeadersWithin;
    ReplayIsCommitted(rules, h, a);
    ReplayIsCommitted(rules, h, b);
    forall i | 0 <= i < |a|
      ensures SameCores(a[i], b[i])
    {
      assert a[i] in a && b[i] in b;
      HeaderFixesCores(h, a[i], b[i], xs);
    }
    ReplayFollows(rules, h, a, b);
  }
}
