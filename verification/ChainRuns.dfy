/**
 Whole runs of a node: blocks are connected to the tip, the tip is disconnected, and the node switches to
 branches, in any order and any number of times. A switch is all or nothing. After every run the state is
 the replay of the active chain from nothing, the tip can always be disconnected, and no value exists
 beyond the genesis outputs and the subsidies.
 */
module ChainRuns {
  import opened Bytes
  import opened Wire
  import opened TxWire
  import opened BlockWire
  import opened Utxo
  import opened ChainState
  import opened Ledger
  import opened Times
  import Reorg

  type Chain = seq<ParsedBlock>

  /**
   The rules that hold for a block under the times of the blocks before it. What else they read of its
   ancestors, such as the target, the block fixes by naming its parent.
   */
  type RuleBook = (Window, ParsedBlock) -> Rules

  /** The rules of a block on top of a chain. */
  function RulesOn(rules: RuleBook, chain: Chain, block: ParsedBlock): (r: Rules)
  {
    rules(WindowOf(chain), block)
  }

  ghost predicate AllShaped(chain: Chain) {
    forall b :: b in chain ==> Shaped(b)
  }

  /** The chain state after connecting the blocks of a chain to the empty state. */
  function Replay(rules: RuleBook, h: Hash, chain: Chain): (r: Result<State, ConnectError>)
    requires AllShaped(chain)
  {
    if chain == [] then Ok(EMPTY)
    else
      var s :- Replay(rules, h, chain[..|chain| - 1]);
      Connect(RulesOn(rules, chain[..|chain| - 1], chain[|chain| - 1]), h, s, chain[|chain| - 1])
  }

  function History(chain: Chain): (hist: seq<Past>)
  {
    if chain == [] then []
    else
      var n := |chain| - 1;
      History(chain[..n]) + PastOf(chain[n], n, |chain[n].txs|)
  }

  /** Blocks as the parser returns them. */
  ghost predicate Parsed(h: Hash, chain: Chain): (parsed: bool)
    ensures parsed ==> AllShaped(chain)
  {
    forall b :: b in chain ==> BlockOk(h, b)
  }

  /** Every core in the history of the chain is in `xs`. */
  ghost predicate CoresWithin(chain: Chain, xs: set<seq<Byte>>) {
    forall b, t :: b in chain && t in b.txs ==> CoreBytes(t.tx.core) in xs
  }

  // ---------------------------------------------------------------- the replayed state

  lemma {:induction false} ReplayHeight(rules: RuleBook, h: Hash, chain: Chain)
    requires Parsed(h, chain) && Replay(rules, h, chain).Ok?
    ensures var s := Replay(rules, h, chain).value;
      NextHeight(s) == |chain| && Reorg.Normal(s) && (s.hasTip <==> chain != [])
  {
    hide Connect, BlockOk;
    if chain != [] {
      var n := |chain| - 1;
      ReplayHeight(rules, h, chain[..n]);
      ConnectTip(RulesOn(rules, chain[..n], chain[n]), h, Replay(rules, h, chain[..n]).value, chain[n]);
    }
  }

  lemma ConnectTip(rules: Rules, h: Hash, s: State, block: ParsedBlock)
    requires Shaped(block) && Connect(rules, h, s, block).Ok?
    ensures var t := Connect(rules, h, s, block).value;
      NextHeight(t) == NextHeight(s) + 1 && t.hasTip && Reorg.Normal(t)
  {
    hide ApplyFirst, CoinbaseStructured, Subsidy;
  }

  lemma {:induction false} HistoryCores(chain: Chain, xs: set<seq<Byte>>)
    requires CoresWithin(chain, xs)
    ensures Cores(History(chain)) <= xs
    ensures HeightsBelow(History(chain), |chain|)
  {
    hide CoreBytes;
    if chain != [] {
      var n := |chain| - 1;
      HistoryCores(chain[..n], xs);
      var block := PastOf(chain[n], n, |chain[n].txs|);
      forall p | p in History(chain)
        ensures CoreBytes(p.t.tx.core) in xs && (p.coinbase ==> p.height < |chain|)
      {
        if p in block {
          assert p.t in chain[n].txs && p.height == n;
        } else {
          assert p in History(chain[..n]);
        }
      }
    }
  }

  /** On a replayed chain no txid repeats and spent outputs stay spent. */
  lemma {:induction false} ReplayConsistent(rules: RuleBook, h: Hash, chain: Chain, xs: set<seq<Byte>>)
    requires Parsed(h, chain) && Replay(rules, h, chain).Ok? && CoresWithin(chain, xs) && !CollisionIn(h, xs)
    ensures Consistent(h, History(chain), Replay(rules, h, chain).value.utxos)
  {
    hide Consistent, Connect, CoreBytes, CollisionIn, BlockOk, Shaped, CoresWithin, HeightsBelow;
    if chain == [] {
      NoHistory(h);
    } else {
      var n := |chain| - 1;
      var s := Replay(rules, h, chain[..n]).value;
      ShorterWithin(chain, xs);
      ReplayConsistent(rules, h, chain[..n], xs);
      ReplayHeight(rules, h, chain[..n]);
      HistoryCores(chain[..n], xs);
      HistoryCores(chain, xs);
      BlockConsistent(h, RulesOn(rules, chain[..n], chain[n]), s, chain[n], History(chain[..n]), |chain[n].txs|, xs);
      ConnectUtxos(RulesOn(rules, chain[..n], chain[n]), h, s, chain[n]);
    }
  }

  lemma NoHistory(h: Hash)
    ensures Consistent(h, [], map[])
  {
  }

  lemma ShorterWithin(chain: Chain, xs: set<seq<Byte>>)
    requires chain != [] && CoresWithin(chain, xs)
    ensures CoresWithin(chain[..|chain| - 1], xs)
  {
    hide CoreBytes;
  }

  lemma ConnectUtxos(rules: Rules, h: Hash, s: State, block: ParsedBlock)
    requires Shaped(block) && Connect(rules, h, s, block).Ok?
    ensures Connect(rules, h, s, block).value.utxos
         == Reorg.After(block, NextHeight(s), s.utxos, |block.txs|)
  {
    hide ApplyFirst, CoinbaseStructured, Subsidy;
    Reorg.ApplyFirstPlays(rules, block, NextHeight(s), s.utxos, |block.txs|);
  }

  /** The last block of a replayed chain can be disconnected, and that gives the replay without it. */
  lemma TipCanBeUndone(rules: RuleBook, h: Hash, chain: Chain, xs: set<seq<Byte>>)
    requires chain != [] && Parsed(h, chain) && Replay(rules, h, chain).Ok?
    requires CoresWithin(chain, xs) && !CollisionIn(h, xs)
    ensures var n := |chain| - 1;
      var s := Replay(rules, h, chain[..n]);
      && s.Ok? && BuildUndo(s.value, chain[n], n).Ok?
      && Disconnect(h, Replay(rules, h, chain).value, chain[n], BuildUndo(s.value, chain[n], n).value) == Ok(s.value)
  {
    hide Consistent, Connect, Disconnect, BuildUndo, CoreBytes, CollisionIn, BlockOk, Shaped, CoresWithin, HeightsBelow,
         Reorg.Reversible;
    var n := |chain| - 1;
    var s := Replay(rules, h, chain[..n]).value;
    ShorterWithin(chain, xs);
    ReplayConsistent(rules, h, chain[..n], xs);
    ReplayHeight(rules, h, chain[..n]);
    HistoryCores(chain[..n], xs);
    HistoryCores(chain, xs);
    ConsistentIsReversible(h, RulesOn(rules, chain[..n], chain[n]), s, chain[n], History(chain[..n]), xs);
    Reorg.DisconnectUndoesConnect(RulesOn(rules, chain[..n], chain[n]), h, s, chain[n]);
  }

  // ---------------------------------------------------------------- one block at the tip

  /** The state, the active chain, and the stored undo record of each of its blocks. */
  datatype Node = Node(state: State, chain: Chain, undos: seq<BlockUndo>)

  const START: Node := Node(EMPTY, [], [])

  ghost predicate Sound(node: Node) {
    |node.undos| == |node.chain| && AllShaped(node.chain)
  }

  /** Connect a block to the tip and store its undo record. */
  function TryPush(rules: RuleBook, h: Hash, node: Node, block: ParsedBlock): (r: Option<Node>)
    requires Sound(node) && Shaped(block)
    ensures r.Some? ==> Sound(r.value) && r.value.chain == node.chain + [block]
  {
    var s := Connect(RulesOn(rules, node.chain, block), h, node.state, block);
    var undo := BuildUndo(node.state, block, NextHeight(node.state));
    if s.Ok? && undo.Ok? then Some(Node(s.value, node.chain + [block], node.undos + [undo.value])) else None
  }

  /** Disconnect the tip with its stored undo record. */
  function TryPop(h: Hash, node: Node): (r: Option<Node>)
    requires Sound(node)
    ensures r.Some? ==> node.chain != [] && Sound(r.value) && r.value.chain == node.chain[..|node.chain| - 1]
  {
    if node.chain == [] then None
    else
      var n := |node.chain| - 1;
      var s := Disconnect(h, node.state, node.chain[n], node.undos[n]);
      if s.Ok? then Some(Node(s.value, node.chain[..n], node.undos[..n])) else None
  }

  /** The node holds the replay of its chain and the undo record of every block on it. */
  ghost predicate Faithful(rules: RuleBook, h: Hash, node: Node, xs: set<seq<Byte>>): (faithful: bool)
    ensures faithful ==> Sound(node)
  {
    && Parsed(h, node.chain) && CoresWithin(node.chain, xs) && |node.undos| == |node.chain|
    && Replay(rules, h, node.chain) == Ok(node.state)
    && forall k :: 0 <= k < |node.chain| ==> UndoAt(rules, h, node, k)
  }

  ghost predicate UndoAt(rules: RuleBook, h: Hash, node: Node, k: nat)
    requires k < |node.chain| && Sound(node)
  {
    var s := Replay(rules, h, node.chain[..k]);
    s.Ok? && BuildUndo(s.value, node.chain[k], k) == Ok(node.undos[k])
  }

  ghost predicate Admissible(h: Hash, block: ParsedBlock, xs: set<seq<Byte>>) {
    BlockOk(h, block) && CoresWithin([block], xs)
  }

  lemma Started(rules: RuleBook, h: Hash, xs: set<seq<Byte>>)
    ensures Faithful(rules, h, START, xs)
  {
  }

  /** A block is pushed exactly when it connects, and the node stays faithful. */
  lemma PushFaithful(rules: RuleBook, h: Hash, node: Node, block: ParsedBlock, xs: set<seq<Byte>>)
    requires Faithful(rules, h, node, xs) && Admissible(h, block, xs)
    ensures var pushed := TryPush(rules, h, node, block);
      && (pushed.Some? <==> Connect(RulesOn(rules, node.chain, block), h, node.state, block).Ok?)
      && (pushed.Some? ==> Faithful(rules, h, pushed.value, xs))
  {
    hide Connect, BuildUndo, CoreBytes, BlockOk, Shaped, AllShaped, RulesOn;
    ReplayHeight(rules, h, node.chain);
    if Connect(RulesOn(rules, node.chain, block), h, node.state, block).Ok? {
      Reorg.DisconnectUndoesConnect(RulesOn(rules, node.chain, block), h, node.state, block);
      var next := TryPush(rules, h, node, block).value;
      assert next.chain[..|node.chain|] == node.chain;
      forall k | 0 <= k < |next.chain|
        ensures UndoAt(rules, h, next, k)
      {
        if k < |node.chain| {
          assert UndoAt(rules, h, node, k);
          assert next.chain[..k] == node.chain[..k];
        }
      }
    }
  }

  /** The tip of a faithful node can always be popped, and the node stays faithful. */
  lemma PopFaithful(rules: RuleBook, h: Hash, node: Node, xs: set<seq<Byte>>)
    requires Faithful(rules, h, node, xs) && !CollisionIn(h, xs) && node.chain != []
    ensures TryPop(h, node).Some? && Faithful(rules, h, TryPop(h, node).value, xs)
  {
    hide Connect, Disconnect, BuildUndo, CoreBytes, BlockOk, Shaped, CollisionIn;
    var n := |node.chain| - 1;
    TipCanBeUndone(rules, h, node.chain, xs);
    assert UndoAt(rules, h, node, n);
    var next := TryPop(h, node).value;
    forall k | 0 <= k < |next.chain|
      ensures UndoAt(rules, h, next, k)
    {
      assert UndoAt(rules, h, node, k);
      assert next.chain[..k] == node.chain[..k];
    }
  }

  // ---------------------------------------------------------------- switching to a branch

  ghost predicate AllAdmissible(h: Hash, branch: Chain, xs: set<seq<Byte>>): (ok: bool)
    ensures ok ==> AllShaped(branch)
  {
    forall b :: b in branch ==> Admissible(h, b, xs)
  }

  /** The dry run on a copy of the state: `depth` disconnects from the stored undo records. */
  function DryPops(h: Hash, s: State, chain: Chain, undos: seq<BlockUndo>, depth: nat): (r: Option<State>)
    requires |undos| == |chain| && AllShaped(chain)
    decreases depth
  {
    if depth == 0 then Some(s)
    else if chain == [] then None
    else
      var n := |chain| - 1;
      var t := Disconnect(h, s, chain[n], undos[n]);
      if t.Err? then None else DryPops(h, t.value, chain[..n], undos[..n], depth - 1)
  }

  /** The dry run of the branch: every block connected in order under a sliding window, nothing recorded. */
  function DryPushes(rules: RuleBook, h: Hash, s: State, w: Window, branch: Chain): (r: Option<State>)
    requires AllShaped(branch)
    decreases |branch|
  {
    if branch == [] then Some(s)
    else
      var t := Connect(rules(w, branch[0]), h, s, branch[0]);
      if t.Err? then None else DryPushes(rules, h, t.value, Advance(w, branch[0].header.timestamp), branch[1..])
  }

  function DryRun(rules: RuleBook, h: Hash, node: Node, depth: nat, branch: Chain): (r: Option<State>)
    requires Sound(node) && AllShaped(branch)
  {
    if depth > |node.chain| then None
    else
      var s := DryPops(h, node.state, node.chain, node.undos, depth);
      if s.None? then None
      else DryPushes(rules, h, s.value, WindowOf(node.chain[..|node.chain| - depth]), branch)
  }

  function PopMany(h: Hash, node: Node, depth: nat): (r: Option<Node>)
    requires Sound(node)
    ensures r.Some? ==> Sound(r.value)
    decreases depth
  {
    if depth == 0 then Some(node)
    else
      var next := TryPop(h, node);
      if next.None? then None else PopMany(h, next.value, depth - 1)
  }

  function PushMany(rules: RuleBook, h: Hash, node: Node, branch: Chain): (r: Option<Node>)
    requires Sound(node) && AllShaped(branch)
    ensures r.Some? ==> Sound(r.value)
    decreases |branch|
  {
    if branch == [] then Some(node)
    else
      var next := TryPush(rules, h, node, branch[0]);
      if next.None? then None else PushMany(rules, h, next.value, branch[1..])
  }

  /** The real switch; an empty branch is an error at the end. */
  function Execute(rules: RuleBook, h: Hash, node: Node, depth: nat, branch: Chain): (r: Option<Node>)
    requires Sound(node) && AllShaped(branch)
    ensures r.Some? ==> Sound(r.value)
  {
    var cut := PopMany(h, node, depth);
    if cut.None? || branch == [] then None else PushMany(rules, h, cut.value, branch)
  }

  /** Dry run first; a failure there or later leaves the node as it was. */
  function Switched(rules: RuleBook, h: Hash, node: Node, depth: nat, branch: Chain): (next: Node)
    requires Sound(node) && AllShaped(branch)
    ensures Sound(next)
  {
    if DryRun(rules, h, node, depth, branch).None? then node
    else
      var done := Execute(rules, h, node, depth, branch);
      if done.None? then node else done.value
  }

  /** The preview loops of the source. */
  method PreviewBranch(rules: RuleBook, h: Hash, node: Node, depth: nat, branch: Chain) returns (r: Option<State>)
    requires Sound(node) && AllShaped(branch)
    ensures r == DryRun(rules, h, node, depth, branch)
  {
    hide Connect, Disconnect, WindowOf, Advance;
    if depth > |node.chain| {
      return None;
    }
    var s, chain, undos, left := node.state, node.chain, node.undos, depth;
    while left > 0
      invariant 0 <= left <= |chain| == |undos| && AllShaped(chain)
      invariant DryPops(h, s, chain, undos, left) == DryPops(h, node.state, node.chain, node.undos, depth)
    {
      var n := |chain| - 1;
      var t := Disconnect(h, s, chain[n], undos[n]);
      if t.Err? {
        return None;
      }
      s, chain, undos, left := t.value, chain[..n], undos[..n], left - 1;
    }
    var w := TimesForHeight(node.chain[..|node.chain| - depth]);
    assert branch[0..] == branch;
    for i := 0 to |branch|
      invariant DryRun(rules, h, node, depth, branch) == DryPushes(rules, h, s, w, branch[i..])
    {
      assert branch[i..][1..] == branch[i + 1..];
      var t := Connect(rules(w, branch[i]), h, s, branch[i]);
      if t.Err? {
        return None;
      }
      s, w := t.value, Advance(w, branch[i].header.timestamp);
    }
    return Some(s);
  }

  /** The switch with its rollback, as the loops of the source. */
  method ApplyPreferredBranch(rules: RuleBook, h: Hash, node: Node, depth: nat, branch: Chain) returns (next: Node)
    requires Sound(node) && AllShaped(branch)
    ensures next == Switched(rules, h, node, depth, branch)
  {
    hide TryPush, TryPop, DryRun;
    var preview := PreviewBranch(rules, h, node, depth, branch);
    if preview.None? {
      return node;
    }
    next := node;
    var left := depth;
    while left > 0
      invariant Sound(next) && PopMany(h, next, left) == PopMany(h, node, depth)
    {
      var popped := TryPop(h, next);
      if popped.None? {
        return node;
      }
      next, left := popped.value, left - 1;
    }
    ghost var cut := next;
    assert branch[0..] == branch;
    for i := 0 to |branch|
      invariant Sound(next) && PushMany(rules, h, next, branch[i..]) == PushMany(rules, h, cut, branch)
    {
      assert branch[i..][1..] == branch[i + 1..];
      var pushed := TryPush(rules, h, next, branch[i]);
      if pushed.None? {
        return node;
      }
      next := pushed.value;
    }
    if branch == [] {
      return node;
    }
  }

  lemma {:induction false} ReplayPrefix(rules: RuleBook, h: Hash, chain: Chain, k: nat)
    requires k <= |chain| && AllShaped(chain) && Replay(rules, h, chain).Ok?
    ensures Replay(rules, h, chain[..k]).Ok?
    decreases |chain|
  {
    hide Connect, Shaped;
    if k < |chain| {
      assert chain[..|chain| - 1][..k] == chain[..k];
      ReplayPrefix(rules, h, chain[..|chain| - 1], k);
    } else {
      assert chain[..k] == chain;
    }
  }

  lemma DryPopStep(h: Hash, node: Node, depth: nat)
    requires Sound(node) && depth > 0 && TryPop(h, node).Some?
    ensures var next := TryPop(h, node).value;
      DryPops(h, node.state, node.chain, node.undos, depth)
      == DryPops(h, next.state, next.chain, next.undos, depth - 1)
  {
    hide Disconnect;
  }

  /** On a faithful node no rewind fails, in the dry run or for real, and both reach the replay of what is kept. */
  lemma {:induction false} RewindAgrees(rules: RuleBook, h: Hash, node: Node, depth: nat, xs: set<seq<Byte>>)
    requires Faithful(rules, h, node, xs) && !CollisionIn(h, xs) && depth <= |node.chain|
    ensures var cut := PopMany(h, node, depth);
      && cut.Some? && Faithful(rules, h, cut.value, xs)
      && cut.value.chain == node.chain[..|node.chain| - depth]
      && DryPops(h, node.state, node.chain, node.undos, depth) == Some(cut.value.state)
    decreases depth
  {
    hide Faithful, CollisionIn, TryPop, AllShaped, Disconnect;
    if depth == 0 {
      assert node.chain[..|node.chain|] == node.chain;
    } else {
      PopFaithful(rules, h, node, xs);
      DryPopStep(h, node, depth);
      hide DryPops;
      RewindAgrees(rules, h, TryPop(h, node).value, depth - 1, xs);
      Shorter(node.chain, |node.chain| - 1, |node.chain| - depth);
    }
  }

  lemma Shorter(chain: Chain, n: nat, k: nat)
    requires k <= n <= |chain|
    ensures chain[..n][..k] == chain[..k]
  {
  }

  /** From a faithful node a branch is connected, in the dry run or for real, exactly when the longer chain replays. */
  lemma {:induction false} BranchAgrees(rules: RuleBook, h: Hash, node: Node, branch: Chain, xs: set<seq<Byte>>)
    requires Faithful(rules, h, node, xs) && AllAdmissible(h, branch, xs)
    ensures AllShaped(node.chain + branch)
    ensures var r := Replay(rules, h, node.chain + branch);
      && (r.Ok? <==> DryPushes(rules, h, node.state, WindowOf(node.chain), branch).Some?)
      && (r.Ok? <==> PushMany(rules, h, node, branch).Some?)
    ensures var done := PushMany(rules, h, node, branch);
      done.Some? ==> Faithful(rules, h, done.value, xs) && done.value.chain == node.chain + branch
    decreases |branch|
  {
    hide CoresWithin, Connect, WindowOf, Faithful, Replay, TryPush, PushMany, DryPushes, AllAdmissible, AllShaped;
    if branch == [] {
      assert node.chain + branch == node.chain;
      PushNothing(rules, h, node, xs);
    } else {
      var b, rest := branch[0], branch[1..];
      assert node.chain + branch == (node.chain + [b]) + rest;
      AdmissibleParts(h, branch, xs);
      PushFaithful(rules, h, node, b, xs);
      FirstConnects(rules, h, node, branch, xs);
      PushOne(rules, h, node, branch);
      var pushed := TryPush(rules, h, node, b);
      if pushed.Some? {
        BranchAgrees(rules, h, pushed.value, rest, xs);
      }
    }
  }

  lemma PushNothing(rules: RuleBook, h: Hash, node: Node, xs: set<seq<Byte>>)
    requires Faithful(rules, h, node, xs)
    ensures AllShaped(node.chain) && Replay(rules, h, node.chain) == Ok(node.state)
    ensures PushMany(rules, h, node, []) == Some(node)
    ensures DryPushes(rules, h, node.state, WindowOf(node.chain), []) == Some(node.state)
  {
    hide UndoAt, Replay, WindowOf;
  }

  lemma AdmissibleParts(h: Hash, branch: Chain, xs: set<seq<Byte>>)
    requires AllAdmissible(h, branch, xs) && branch != []
    ensures Admissible(h, branch[0], xs) && AllAdmissible(h, branch[1..], xs)
    ensures AllShaped(branch) && AllShaped(branch[1..]) && Shaped(branch[0])
  {
  }

  /** One block of the branch, for real and in the dry run, which slides its window to the longer chain's. */
  lemma PushOne(rules: RuleBook, h: Hash, node: Node, branch: Chain)
    requires Sound(node) && AllShaped(branch) && branch != []
    ensures var pushed := TryPush(rules, h, node, branch[0]);
      && (pushed.Some? ==> pushed.value.chain == node.chain + [branch[0]])
      && PushMany(rules, h, node, branch) ==
         if pushed.None? then None else PushMany(rules, h, pushed.value, branch[1..])
    ensures var t := Connect(RulesOn(rules, node.chain, branch[0]), h, node.state, branch[0]);
      DryPushes(rules, h, node.state, WindowOf(node.chain), branch) ==
      if t.Err? then None else DryPushes(rules, h, t.value, WindowOf(node.chain + [branch[0]]), branch[1..])
  {
    hide Connect, WindowOf, Advance, Shaped;
    WindowSlides(node.chain, branch[0]);
  }

  lemma FirstConnects(rules: RuleBook, h: Hash, node: Node, branch: Chain, xs: set<seq<Byte>>)
    requires Faithful(rules, h, node, xs) && AllAdmissible(h, branch, xs) && branch != []
    ensures AllShaped(node.chain + branch)
    ensures var t := Connect(RulesOn(rules, node.chain, branch[0]), h, node.state, branch[0]);
      var pushed := TryPush(rules, h, node, branch[0]);
      && (t.Err? ==> Replay(rules, h, node.chain + branch).Err?)
      && (t.Ok? ==> pushed.Some? && pushed.value.state == t.value)
  {
    hide CoresWithin, BlockOk, Connect, BuildUndo, RulesOn;
    PushFaithful(rules, h, node, branch[0], xs);
    var all, n := node.chain + branch, |node.chain|;
    assert all[..n + 1][..n] == node.chain && all[..n + 1][n] == branch[0];
    if Replay(rules, h, all).Ok? {
      ReplayPrefix(rules, h, all, n + 1);
    }
  }

  /**
   A switch is all or nothing, and its dry run decides: the dry run succeeds exactly when the kept blocks
   and the branch replay, a switch whose dry run succeeds cannot fail when executed, and then the node is
   the faithful node of the new chain; otherwise it is the node it was.
   */
  lemma SwitchIsAtomic(rules: RuleBook, h: Hash, node: Node, depth: nat, branch: Chain, xs: set<seq<Byte>>)
    requires Faithful(rules, h, node, xs) && AllAdmissible(h, branch, xs) && !CollisionIn(h, xs)
    requires depth <= |node.chain| && branch != []
    ensures AllShaped(node.chain[..|node.chain| - depth] + branch)
    ensures var chain := node.chain[..|node.chain| - depth] + branch;
      var next := Switched(rules, h, node, depth, branch);
      && (DryRun(rules, h, node, depth, branch).Some? <==> Replay(rules, h, chain).Ok?)
      && (DryRun(rules, h, node, depth, branch).Some? ==> Execute(rules, h, node, depth, branch).Some?)
      && (if Replay(rules, h, chain).Ok? then next.chain == chain && Faithful(rules, h, next, xs) else next == node)
  {
    hide Faithful, CollisionIn, Replay, PopMany, PushMany, DryPops, DryPushes, AllAdmissible, WindowOf;
    RewindAgrees(rules, h, node, depth, xs);
    var cut := PopMany(h, node, depth).value;
    BranchAgrees(rules, h, cut, branch, xs);
  }

  /** A depth beyond the chain or an empty branch changes nothing. */
  lemma PointlessSwitch(rules: RuleBook, h: Hash, node: Node, depth: nat, branch: Chain)
    requires Sound(node) && AllShaped(branch) && (depth > |node.chain| || branch == [])
    ensures Switched(rules, h, node, depth, branch) == node
  {
    if depth > |node.chain| {
      TooDeep(h, node, depth);
    }
  }

  lemma {:induction false} TooDeep(h: Hash, node: Node, depth: nat)
    requires Sound(node) && depth > |node.chain|
    ensures PopMany(h, node, depth).None?
    decreases depth
  {
    hide Disconnect;
    var next := TryPop(h, node);
    if next.Some? {
      TooDeep(h, next.value, depth - 1);
    }
  }

  // ---------------------------------------------------------------- runs

  datatype Command = Push(block: ParsedBlock) | Pop | Switch(depth: nat, branch: Chain)

  function Blocks(c: Command): (bs: Chain)
  {
    match c
    case Push(block) => [block]
    case Pop => []
    case Switch(_, branch) => branch
  }

  /** A command that fails leaves the node as it was. */
  function Step(rules: RuleBook, h: Hash, node: Node, c: Command): (next: Node)
    requires Sound(node) && AllShaped(Blocks(c))
    ensures Sound(next)
  {
    match c
    case Push(block) =>
      assert block in Blocks(c);
      var next := TryPush(rules, h, node, block);
      if next.Some? then next.value else node
    case Pop =>
      var next := TryPop(h, node);
      if next.Some? then next.value else node
    case Switch(depth, branch) => Switched(rules, h, node, depth, branch)
  }

  lemma StepFaithful(rules: RuleBook, h: Hash, node: Node, c: Command, xs: set<seq<Byte>>)
    requires Faithful(rules, h, node, xs) && AllAdmissible(h, Blocks(c), xs) && !CollisionIn(h, xs)
    ensures Faithful(rules, h, Step(rules, h, node, c), xs)
    ensures c.Pop? && node.chain != [] ==> Step(rules, h, node, c).chain == node.chain[..|node.chain| - 1]
    ensures c.Push? && Connect(RulesOn(rules, node.chain, c.block), h, node.state, c.block).Ok? ==>
      Step(rules, h, node, c).chain == node.chain + [c.block]
  {
    hide Faithful, CollisionIn, TryPush, TryPop, Switched, Connect, Admissible;
    match c
    case Push(block) =>
      assert block in Blocks(c);
      PushFaithful(rules, h, node, block, xs);
    case Pop =>
      if node.chain != [] {
        PopFaithful(rules, h, node, xs);
      }
    case Switch(depth, branch) =>
      if depth <= |node.chain| && branch != [] {
        SwitchIsAtomic(rules, h, node, depth, branch, xs);
      } else {
        PointlessSwitch(rules, h, node, depth, branch);
      }
  }

  /** The node after a list of commands. */
  ghost function Run(rules: RuleBook, h: Hash, xs: set<seq<Byte>>, commands: seq<Command>): (node: Node)
    requires !CollisionIn(h, xs) && forall c :: c in commands ==> AllAdmissible(h, Blocks(c), xs)
    ensures Faithful(rules, h, node, xs)
  {
    if commands == [] then
      Started(rules, h, xs);
      START
    else
      var n := |commands| - 1;
      var before := Run(rules, h, xs, commands[..n]);
      StepFaithful(rules, h, before, commands[n], xs);
      Step(rules, h, before, commands[n])
  }

  // ---------------------------------------------------------------- value

  /** Subsidies paid by the first `n` heights; a function of the height alone. */
  function Emitted(n: nat): (sum: nat)
  {
    if n == 0 then 0 else Emitted(n - 1) + Subsidy(n - 1, Emitted(n - 1))
  }

  /** The outputs of the genesis coinbase, the only ones no subsidy bounds. */
  function GenesisValue(chain: Chain): (sum: nat)
    requires AllShaped(chain)
  {
    if chain == [] then 0
    else
      assert Shaped(chain[0]);
      SumOut(chain[0].txs[0].tx.core.outputs)
  }

  /** The tail is paid from height one on, and beyond the cap nothing but the tail is paid. */
  lemma {:induction false} EmissionBounds(n: nat)
    requires n >= 1
    ensures (n - 1) * TAIL_EMISSION_PER_BLOCK <= Emitted(n) <= MINEABLE_CAP + n * TAIL_EMISSION_PER_BLOCK
  {
    if n > 1 {
      EmissionBounds(n - 1);
      var e := Emitted(n - 1);
      var base := (MINEABLE_CAP - e) / EMISSION_DIVISOR;
      assert e < MINEABLE_CAP ==> base <= MINEABLE_CAP - e;
    }
  }

  /** Before the coinbase bound is checked: unspent value and fees come from the state and the coinbase. */
  lemma {:induction false} WorkValue(rules: Rules, block: ParsedBlock, height: nat, u: Utxos, n: nat)
    requires Shaped(block) && 1 <= n <= |block.txs| && ApplyFirst(rules, block, height, u, n).Ok?
    ensures var w := ApplyFirst(rules, block, height, u, n).value;
      Total(w.utxos) + w.fees <= Total(u) + SumOut(block.txs[0].tx.core.outputs)
    decreases n
  {
    hide Total, SumOut, ApplyTx, CreatedBy, BlockTxError, CoinbaseOutputError;
    if n == 1 {
      var t := block.txs[0];
      var outputs := t.tx.core.outputs;
      TotalCreate(u, t.txid, outputs, |outputs|, height, true);
      assert outputs[..|outputs|] == outputs;
    } else {
      WorkValue(rules, block, height, u, n - 1);
      ValueConserved(rules.tx, block.txs[n - 1], ApplyFirst(rules, block, height, u, n - 1).value.utxos, height);
    }
  }

  /** Connecting a block adds at most its subsidy, or at height zero its coinbase. */
  lemma ConnectValue(rules: Rules, h: Hash, s: State, block: ParsedBlock)
    requires Shaped(block) && Connect(rules, h, s, block).Ok?
    ensures var s' := Connect(rules, h, s, block).value;
      && s'.alreadyGenerated == s.alreadyGenerated + Subsidy(NextHeight(s), s.alreadyGenerated)
      && Total(s'.utxos) <= Total(s.utxos)
           + if NextHeight(s) == 0 then SumOut(block.txs[0].tx.core.outputs)
             else Subsidy(NextHeight(s), s.alreadyGenerated)
  {
    hide Total, SumOut, ApplyFirst, CoinbaseStructured, Subsidy;
    WorkValue(rules, block, NextHeight(s), s.utxos, |block.txs|);
  }

  /** On a replayed chain the subsidy counter depends on the height alone and bounds the unspent value. */
  lemma {:induction false} ReplayValue(rules: RuleBook, h: Hash, chain: Chain)
    requires Parsed(h, chain) && Replay(rules, h, chain).Ok?
    ensures var s := Replay(rules, h, chain).value;
      s.alreadyGenerated == Emitted(|chain|) && Total(s.utxos) <= GenesisValue(chain) + Emitted(|chain|)
  {
    hide Connect, Total, SumOut, Subsidy, BlockOk;
    if chain == [] {
      NoValue();
    } else {
      var n := |chain| - 1;
      ReplayValue(rules, h, chain[..n]);
      ReplayHeight(rules, h, chain[..n]);
      ConnectValue(RulesOn(rules, chain[..n], chain[n]), h, Replay(rules, h, chain[..n]).value, chain[n]);
      assert n > 0 ==> chain[..n][0] == chain[0];
    }
  }

  lemma NoValue()
    ensures Total(map[]) == 0
  {
  }

  // ---------------------------------------------------------------- main results

  /**
   After every run: the state is the replay of the active chain; the counter of subsidies is the
   emission of its length; unspent value is at most the genesis outputs plus that emission; and the
   tip, if any, can be disconnected.
   */
  lemma EveryRun(rules: RuleBook, h: Hash, xs: set<seq<Byte>>, commands: seq<Command>)
    requires !CollisionIn(h, xs) && forall c :: c in commands ==> AllAdmissible(h, Blocks(c), xs)
    ensures var node := Run(rules, h, xs, commands);
      && Replay(rules, h, node.chain) == Ok(node.state)
      && node.state.alreadyGenerated == Emitted(|node.chain|)
      && Total(node.state.utxos) <= GenesisValue(node.chain) + Emitted(|node.chain|)
      && (node.chain != [] ==> Step(rules, h, node, Pop).chain == node.chain[..|node.chain| - 1])
  {
    var node := Run(rules, h, xs, commands);
    hide Run, Total, Replay, GenesisValue, Emitted, CollisionIn, BlockOk, AllAdmissible;
    ReplayValue(rules, h, node.chain);
    if node.chain != [] {
      PopFaithful(rules, h, node, xs);
    }
  }

  /** Two runs that end on the same chain end in the same node, however each got there. */
  lemma PathDoesNotMatter(
    rules: RuleBook, h: Hash, xs: set<seq<Byte>>, commands: seq<Command>, others: seq<Command>)
    requires !CollisionIn(h, xs)
    requires forall c :: c in commands ==> AllAdmissible(h, Blocks(c), xs)
    requires forall c :: c in others ==> AllAdmissible(h, Blocks(c), xs)
    requires Run(rules, h, xs, commands).chain == Run(rules, h, xs, others).chain
    ensures Run(rules, h, xs, commands) == Run(rules, h, xs, others)
  {
    var a, b := Run(rules, h, xs, commands), Run(rules, h, xs, others);
    hide Run, Replay, CollisionIn, BlockOk, BuildUndo, CoreBytes;
    forall k | 0 <= k < |a.chain|
      ensures a.undos[k] == b.undos[k]
    {
      assert UndoAt(rules, h, a, k) && UndoAt(rules, h, b, k);
    }
    assert a.undos == b.undos;
  }
}
