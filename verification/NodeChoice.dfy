/**
 Fork choice carried out by a node. The node meets whole chains in any order (a delivered block is met as
 the chain that ends with it) and switches to a better one at the last common block. It always ends on the
 best chain it met among those that replay, so two nodes that met the same chains agree on work and tip,
 and with them on the headers and the state.
 */
module NodeChoice {
  import opened Bytes
  import opened Wire
  import opened BlockWire
  import opened Commitments
  import opened ChainState
  import opened ChainRuns
  import opened Times
  import opened TipBinding
  import FC = ForkChoice

  type Chain = ChainRuns.Chain

  // ---------------------------------------------------------------- the rank of a chain

  function TargetOf(b: ParsedBlock): (t: nat)
  {
    FC.FromBigEndian(b.header.target)
  }

  function Targets(chain: Chain): (ts: seq<Option<int>>)
  {
    seq(|chain|, i requires 0 <= i < |chain| => Some(TargetOf(chain[i])))
  }

  /** No target is zero. */
  predicate Usable(chain: Chain) {
    forall b :: b in chain ==> TargetOf(b) >= 1
  }

  /** Work of the whole chain and hash of its tip; none without a tip or with a zero target. */
  function Rank(h: Hash, chain: Chain): (r: Option<FC.Scored>)
  {
    var work := FC.TotalWork(Targets(chain));
    if chain == [] || work.Err? then None
    else Some(FC.Scored("", work.value, BlockHash(h, chain[|chain| - 1])))
  }

  predicate Beats(h: Hash, c: Chain, d: Chain) {
    Rank(h, c).Some? && Rank(h, d).Some? && FC.Better(Rank(h, c).value, Rank(h, d).value)
  }

  /** The proof-of-work check admits no zero target. */
  ghost predicate RefusesZeroTargets(rules: RuleBook) {
    forall w, b, height :: rules(w, b).headerOk(b, height) ==> TargetOf(b) >= 1
  }

  lemma TargetsLength(chain: Chain)
    ensures |Targets(chain)| == |chain|
  {
  }

  lemma TargetsSplit(chain: Chain, k: nat)
    requires k <= |chain|
    ensures Targets(chain) == Targets(chain[..k]) + Targets(chain[k..])
  {
  }

  lemma UsableParts(chain: Chain, k: nat)
    requires Usable(chain) && k <= |chain|
    ensures Usable(chain[..k]) && Usable(chain[k..])
  {
  }

  /** Usable targets have at least one unit of work each. */
  lemma UsableWork(chain: Chain)
    requires Usable(chain)
    ensures FC.TotalWork(Targets(chain)).Ok? && FC.TotalWork(Targets(chain)).value >= |chain|
  {
    FC.LimitIsLargest();
    hide FC.TotalWork, FC.FromBigEndian, FC.Two256;
    FC.UsableWork(Targets(chain));
  }

  lemma UsableRank(h: Hash, chain: Chain)
    requires Usable(chain) && chain != []
    ensures Rank(h, chain).Some?
  {
    hide Usable, Targets, BlockHash, FC.TotalWork;
    UsableWork(chain);
  }

  /** A longer usable chain beats what it extends. */
  lemma LongerBeats(h: Hash, chain: Chain, k: nat)
    requires Usable(chain) && 0 < k < |chain|
    ensures Beats(h, chain, chain[..k])
  {
    hide Usable, Targets, BlockHash, FC.TotalWork;
    UsableParts(chain, k);
    UsableWork(chain);
    UsableWork(chain[..k]);
    UsableWork(chain[k..]);
    TargetsSplit(chain, k);
    FC.WorkAppends(Targets(chain[..k]), Targets(chain[k..]));
  }

  lemma BeatsIsStrict(h: Hash, c: Chain, d: Chain, e: Chain)
    ensures !Beats(h, c, c)
    ensures Beats(h, c, d) ==> !Beats(h, d, c)
    ensures Beats(h, c, d) && !Beats(h, e, d) ==> !Beats(h, e, c)
  {
    hide Rank, FC.Better;
    if Rank(h, c).Some? {
      var x := Rank(h, c).value;
      FC.BetterIsStrict(x, x, x);
      if Rank(h, d).Some? {
        var y := Rank(h, d).value;
        FC.BetterIsStrict(x, y, x);
        if Rank(h, e).Some? {
          FC.BetterIsStrict(Rank(h, e).value, x, y);
        }
      }
    }
  }

  lemma {:induction false} ReplayIsUsable(rules: RuleBook, h: Hash, chain: Chain)
    requires RefusesZeroTargets(rules) && AllShaped(chain) && Replay(rules, h, chain).Ok?
    ensures Usable(chain)
  {
    hide Replay, TargetOf, AllShaped, RefusesZeroTargets;
    if chain != [] {
      TipIsUsable(rules, h, chain);
      var n := |chain| - 1;
      ReplayIsUsable(rules, h, chain[..n]);
      assert chain == chain[..n] + [chain[n]];
    }
  }

  lemma TipIsUsable(rules: RuleBook, h: Hash, chain: Chain)
    requires RefusesZeroTargets(rules) && AllShaped(chain) && chain != [] && Replay(rules, h, chain).Ok?
    ensures AllShaped(chain[..|chain| - 1]) && Replay(rules, h, chain[..|chain| - 1]).Ok?
    ensures TargetOf(chain[|chain| - 1]) >= 1
  {
    hide TargetOf, Connect, Shaped, AllShaped, Replay, RefusesZeroTargets;
    LastConnects(rules, h, chain);
    var n := |chain| - 1;
    ConnectedIsUsable(rules, h, Replay(rules, h, chain[..n]).value, chain[..n], chain[n]);
  }

  lemma ConnectedIsUsable(rules: RuleBook, h: Hash, s: State, chain: Chain, block: ParsedBlock)
    requires RefusesZeroTargets(rules) && Shaped(block) && Connect(RulesOn(rules, chain, block), h, s, block).Ok?
    ensures TargetOf(block) >= 1
  {
    hide TargetOf, WindowOf, ApplyFirst, Subsidy, CoinbaseStructured;
    assert rules(WindowOf(chain), block).headerOk(block, NextHeight(s));
  }

  // ---------------------------------------------------------------- meeting a chain

  /** How many blocks two chains have in common. */
  function Common(a: Chain, b: Chain): (k: nat)
    ensures k <= |a| && k <= |b| && a[..k] == b[..k]
    ensures k < |a| && k < |b| ==> a[k] != b[k]
  {
    if a == [] || b == [] || a[0] != b[0] then 0
    else
      var k := Common(a[1..], b[1..]);
      assert a[..k + 1] == [a[0]] + a[1..][..k] && b[..k + 1] == [b[0]] + b[1..][..k];
      k + 1
  }

  lemma ShapedSuffix(c: Chain, k: nat)
    requires AllShaped(c) && k <= |c|
    ensures AllShaped(c[k..])
  {
  }

  /** Switch at the first `k` blocks, which the node has, to the rest of a chain. */
  function SwitchTo(rules: RuleBook, h: Hash, node: Node, c: Chain, k: nat): (next: Node)
    requires Sound(node) && AllShaped(c) && k <= |node.chain| && k <= |c|
    ensures Sound(next)
  {
    ShapedSuffix(c, k);
    Switched(rules, h, node, |node.chain| - k, c[k..])
  }

  /**
   The node meets a chain: blocks it has change nothing, blocks on its tip are connected, a chain with no
   common block is refused, and a fork is taken exactly when fork choice prefers it and the switch succeeds.
   */
  function Meet(rules: RuleBook, h: Hash, node: Node, c: Chain): (next: Node)
    requires Sound(node) && AllShaped(c)
    ensures Sound(next)
  {
    var k := Common(node.chain, c);
    if k == |c| || (k < |node.chain| && (k == 0 || !Beats(h, c, node.chain))) then node
    else SwitchTo(rules, h, node, c, k)
  }

  /** The decision is taken from the ancestor's work and the branch, and the switch is the loop with its rollback. */
  method MeetChain(rules: RuleBook, h: Hash, node: Node, c: Chain) returns (next: Node)
    requires Sound(node) && AllShaped(c)
    ensures next == Meet(rules, h, node, c)
  {
    hide Switched, FC.TotalWork, FC.Better, Targets, BlockHash, AllShaped, Shaped;
    var k := Common(node.chain, c);
    if k == |c| {
      return node;
    }
    ShapedSuffix(c, k);
    if k == |node.chain| {
      next := ApplyPreferredBranch(rules, h, node, 0, c[k..]);
      return;
    }
    if k == 0 {
      return node;
    }
    TargetsLength(c[k..]);
    var current := Rank(h, node.chain);
    if current.None? {
      return node;
    }
    RankOfFork(h, c, k);
    var base := FC.SumWork(Targets(c[..k]));
    if base.Err? {
      return node;
    }
    var tip := BlockHash(h, c[|c| - 1]);
    var decision := FC.ShouldSwitch(current.value, base.value, Targets(c[k..]), tip, "");
    if decision.Err? || !decision.value {
      return node;
    }
    next := ApplyPreferredBranch(rules, h, node, |node.chain| - k, c[k..]);
  }

  /** The rank of a chain from the work below a fork and the work of its branch. */
  lemma RankOfFork(h: Hash, c: Chain, k: nat)
    requires k < |c|
    ensures FC.TotalWork(Targets(c[..k])).Err? ==> Rank(h, c).None?
    ensures FC.TotalWork(Targets(c[..k])).Ok? ==>
      (Rank(h, c).Some? <==> FC.TotalWork(Targets(c[k..])).Ok?)
    ensures Rank(h, c).Some? ==>
      var tip := BlockHash(h, c[|c| - 1]);
      FC.Score(FC.Chain("", Some(tip), Targets(c[..k]) + Targets(c[k..]))) == Ok(Rank(h, c).value)
  {
    TargetsSplit(c, k);
    TargetsLength(c);
    var a, b := Targets(c[..k]), Targets(c[k..]);
    assert (a + b)[..|a|] == a;
    hide Targets, FC.TotalWork, BlockHash;
    if FC.TotalWork(a).Err? {
      FC.FirstFailureStays(a + b, |a|);
    } else {
      FC.WorkAppends(a, b);
    }
  }

  // ---------------------------------------------------------------- every order of meeting chains

  /** The node after meeting chains one after the other. */
  function Follow(rules: RuleBook, h: Hash, met: seq<Chain>): (node: Node)
    requires forall c :: c in met ==> AllShaped(c)
    ensures Sound(node)
  {
    if met == [] then START else Meet(rules, h, Follow(rules, h, met[..|met| - 1]), met[|met| - 1])
  }

  ghost predicate AllMet(h: Hash, met: seq<Chain>, xs: set<seq<Byte>>): (ok: bool)
    ensures ok ==> forall c :: c in met ==> AllShaped(c)
  {
    forall c :: c in met ==> AllAdmissible(h, c, xs)
  }

  /** A chain the node could be on: it has a block and replays. */
  ghost predicate Viable(rules: RuleBook, h: Hash, c: Chain)
    requires AllShaped(c)
  {
    c != [] && Replay(rules, h, c).Ok?
  }

  /** `c` starts at another genesis block or does not beat the node's chain. */
  ghost predicate NotAhead(h: Hash, c: Chain, node: Node) {
    c != [] && node.chain != [] && (c[0] != node.chain[0] || !Beats(h, c, node.chain))
  }

  /** The node is faithful, on a met chain if on any, and no viable met chain is ahead of it. */
  ghost predicate Best(rules: RuleBook, h: Hash, node: Node, met: seq<Chain>, xs: set<seq<Byte>>)
    requires forall c :: c in met ==> AllShaped(c)
  {
    && Faithful(rules, h, node, xs)
    && (node.chain == [] || node.chain in met)
    && forall c :: c in met && Viable(rules, h, c) ==> NotAhead(h, c, node)
  }

  /** `c` starts where the node's chain does and beats it, or the node has none. */
  ghost predicate Improves(h: Hash, c: Chain, node: Node) {
    c != [] && (node.chain == [] || (c[0] == node.chain[0] && Beats(h, c, node.chain)))
  }

  /** Meeting a chain leaves the node as it was, and the chain is not viable or not ahead, or moves it to the chain. */
  ghost predicate MeetsWell(rules: RuleBook, h: Hash, node: Node, c: Chain, next: Node, xs: set<seq<Byte>>)
    requires AllShaped(c)
  {
    || (next == node && (Viable(rules, h, c) ==> NotAhead(h, c, node)))
    || (next.chain == c && Faithful(rules, h, next, xs) && Improves(h, c, node))
  }

  lemma KnownChain(rules: RuleBook, h: Hash, node: Node, c: Chain, xs: set<seq<Byte>>)
    requires Faithful(rules, h, node, xs) && RefusesZeroTargets(rules) && AllShaped(c)
    requires Common(node.chain, c) == |c|
    ensures MeetsWell(rules, h, node, c, Meet(rules, h, node, c), xs)
  {
    hide Replay, RefusesZeroTargets, Beats, UndoAt, AllShaped, SwitchTo;
    if c != [] {
      ReplayIsUsable(rules, h, node.chain);
      PrefixDoesNotBeat(h, node.chain, |c|);
      assert c == node.chain[..|c|];
    }
  }

  lemma PrefixDoesNotBeat(h: Hash, chain: Chain, k: nat)
    requires Usable(chain) && 0 < k <= |chain|
    ensures !Beats(h, chain[..k], chain)
  {
    hide Beats, Usable;
    BeatsIsStrict(h, chain, chain[..k], chain);
    if k < |chain| {
      LongerBeats(h, chain, k);
    } else {
      assert chain[..k] == chain;
    }
  }

  lemma AdmissibleSuffix(h: Hash, c: Chain, k: nat, xs: set<seq<Byte>>)
    requires AllAdmissible(h, c, xs) && k <= |c|
    ensures AllAdmissible(h, c[k..], xs) && AllShaped(c) && AllShaped(c[k..])
  {
    hide Admissible;
  }

  /** A switch at a common prefix ends on the met chain exactly when that replays. */
  lemma ForkSwitch(rules: RuleBook, h: Hash, node: Node, c: Chain, k: nat, xs: set<seq<Byte>>)
    requires Faithful(rules, h, node, xs) && AllAdmissible(h, c, xs) && !CollisionIn(h, xs)
    requires k <= |node.chain| && k < |c| && node.chain[..k] == c[..k]
    ensures var next := SwitchTo(rules, h, node, c, k);
      if Replay(rules, h, c).Ok? then next.chain == c && Faithful(rules, h, next, xs) else next == node
  {
    hide Faithful, Replay, CollisionIn, Switched, AllAdmissible, AllShaped, DryRun, Execute;
    AdmissibleSuffix(h, c, k, xs);
    assert node.chain[..|node.chain| - (|node.chain| - k)] + c[k..] == c;
    SwitchIsAtomic(rules, h, node, |node.chain| - k, c[k..], xs);
  }

  lemma ExtendedChain(rules: RuleBook, h: Hash, node: Node, c: Chain, xs: set<seq<Byte>>)
    requires Faithful(rules, h, node, xs) && AllAdmissible(h, c, xs) && !CollisionIn(h, xs)
    requires RefusesZeroTargets(rules) && Common(node.chain, c) == |node.chain| < |c|
    ensures MeetsWell(rules, h, node, c, Meet(rules, h, node, c), xs)
  {
    hide Faithful, Replay, CollisionIn, SwitchTo, RefusesZeroTargets, Beats, AllShaped;
    var k := |node.chain|;
    assert node.chain[..k] == node.chain;
    ForkSwitch(rules, h, node, c, k, xs);
    if Replay(rules, h, c).Ok? && k > 0 {
      ReplayIsUsable(rules, h, c);
      LongerBeats(h, c, k);
      assert c[0] == c[..k][0];
    }
  }

  lemma ForkedChain(rules: RuleBook, h: Hash, node: Node, c: Chain, xs: set<seq<Byte>>)
    requires Faithful(rules, h, node, xs) && AllAdmissible(h, c, xs) && !CollisionIn(h, xs)
    requires Common(node.chain, c) < |node.chain| && Common(node.chain, c) < |c|
    ensures MeetsWell(rules, h, node, c, Meet(rules, h, node, c), xs)
  {
    hide Faithful, Replay, CollisionIn, SwitchTo, Beats, AllShaped;
    var k := Common(node.chain, c);
    if k > 0 && Beats(h, c, node.chain) {
      ForkSwitch(rules, h, node, c, k, xs);
      assert c[0] == c[..k][0] == node.chain[..k][0];
    }
  }

  lemma MeetIsWell(rules: RuleBook, h: Hash, node: Node, c: Chain, xs: set<seq<Byte>>)
    requires Faithful(rules, h, node, xs) && AllAdmissible(h, c, xs) && !CollisionIn(h, xs)
    requires RefusesZeroTargets(rules)
    ensures MeetsWell(rules, h, node, c, Meet(rules, h, node, c), xs)
  {
    hide Faithful, CollisionIn, MeetsWell, RefusesZeroTargets, AllAdmissible, Meet;
    var k := Common(node.chain, c);
    if k == |c| {
      KnownChain(rules, h, node, c, xs);
    } else if k == |node.chain| {
      ExtendedChain(rules, h, node, c, xs);
    } else {
      ForkedChain(rules, h, node, c, xs);
    }
  }

  lemma StaysBest(rules: RuleBook, h: Hash, node: Node, met: seq<Chain>, c: Chain, next: Node, xs: set<seq<Byte>>)
    requires AllMet(h, met + [c], xs) && AllMet(h, met, xs) && AllShaped(c)
    requires Best(rules, h, node, met, xs) && MeetsWell(rules, h, node, c, next, xs)
    ensures Best(rules, h, next, met + [c], xs)
  {
    hide Faithful, Replay, Beats, AllShaped, AllAdmissible;
    forall d | d in met + [c] && Viable(rules, h, d)
      ensures NotAhead(h, d, next)
    {
      if next != node {
        BeatsIsStrict(h, c, node.chain, d);
        if d in met {
          assert NotAhead(h, d, node);
        }
      }
    }
  }

  /** Whatever chains a node meets, in any order, it ends on a viable one, if any, that no viable one is ahead of. */
  lemma {:induction false} EndsOnBest(rules: RuleBook, h: Hash, met: seq<Chain>, xs: set<seq<Byte>>)
    requires RefusesZeroTargets(rules) && AllMet(h, met, xs) && !CollisionIn(h, xs)
    ensures Best(rules, h, Follow(rules, h, met), met, xs)
    decreases |met|
  {
    hide RefusesZeroTargets, CollisionIn, Faithful, Meet, MeetsWell;
    if met == [] {
      Started(rules, h, xs);
    } else {
      var n := |met| - 1;
      assert met == met[..n] + [met[n]];
      EndsOnBest(rules, h, met[..n], xs);
      var before := Follow(rules, h, met[..n]);
      assert met[n] in met;
      MeetIsWell(rules, h, before, met[n], xs);
      StaysBest(rules, h, before, met[..n], met[n], Meet(rules, h, before, met[n]), xs);
    }
  }

  // ---------------------------------------------------------------- agreement

  ghost predicate FromGenesis(met: seq<Chain>, genesis: ParsedBlock) {
    forall c :: c in met && c != [] ==> c[0] == genesis
  }

  ghost predicate SameChains(a: seq<Chain>, b: seq<Chain>) {
    forall c :: c in a <==> c in b
  }

  /** Neither of two best nodes over the same chains is ahead of the other. */
  lemma NotBeaten(rules: RuleBook, h: Hash, a: Node, metA: seq<Chain>, b: Node, metB: seq<Chain>,
                  genesis: ParsedBlock, xs: set<seq<Byte>>)
    requires AllMet(h, metA, xs) && AllMet(h, metB, xs) && SameChains(metA, metB) && FromGenesis(metA, genesis)
    requires Best(rules, h, a, metA, xs) && Best(rules, h, b, metB, xs) && a.chain != []
    ensures b.chain != [] && !Beats(h, a.chain, b.chain)
  {
    hide Beats, AllAdmissible, AllShaped;
    assert a.chain in metB && Viable(rules, h, a.chain);
    assert NotAhead(h, a.chain, b);
    assert b.chain in metA;
  }

  /**
   Two nodes that met the same chains of one genesis, in any orders and with any repetitions and any
   invalid ones among them, are both without a chain or on chains of the same work and tip.
   */
  lemma NodesConverge(rules: RuleBook, h: Hash, metA: seq<Chain>, metB: seq<Chain>, genesis: ParsedBlock,
                      xs: set<seq<Byte>>)
    requires RefusesZeroTargets(rules) && !CollisionIn(h, xs)
    requires AllMet(h, metA, xs) && AllMet(h, metB, xs) && SameChains(metA, metB) && FromGenesis(metA, genesis)
    ensures Rank(h, Follow(rules, h, metA).chain) == Rank(h, Follow(rules, h, metB).chain)
  {
    EndsOnBest(rules, h, metA, xs);
    EndsOnBest(rules, h, metB, xs);
    BestsAgree(rules, h, Follow(rules, h, metA), metA, Follow(rules, h, metB), metB, genesis, xs);
  }

  lemma BestsAgree(rules: RuleBook, h: Hash, a: Node, metA: seq<Chain>, b: Node, metB: seq<Chain>,
                   genesis: ParsedBlock, xs: set<seq<Byte>>)
    requires RefusesZeroTargets(rules)
    requires AllMet(h, metA, xs) && AllMet(h, metB, xs) && SameChains(metA, metB) && FromGenesis(metA, genesis)
    requires Best(rules, h, a, metA, xs) && Best(rules, h, b, metB, xs)
    ensures Rank(h, a.chain) == Rank(h, b.chain)
  {
    hide Best, RefusesZeroTargets, Beats, Rank, AllAdmissible, AllShaped;
    if a.chain != [] {
      NotBeaten(rules, h, a, metA, b, metB, genesis, xs);
      BestIsRanked(rules, h, a, metA, xs);
      BestIsRanked(rules, h, b, metB, xs);
    }
    if b.chain != [] {
      NotBeaten(rules, h, b, metB, a, metA, genesis, xs);
      EqualRanks(h, a.chain, b.chain);
    }
  }

  lemma EqualRanks(h: Hash, c: Chain, d: Chain)
    requires Rank(h, c).Some? && Rank(h, d).Some? && !Beats(h, c, d) && !Beats(h, d, c)
    ensures Rank(h, c) == Rank(h, d)
  {
    NoNames(h, c);
    NoNames(h, d);
    hide Rank, FC.Better;
    FC.BetterIsStrict(Rank(h, c).value, Rank(h, d).value, Rank(h, c).value);
  }

  lemma TargetsFollow(a: Chain, b: Chain)
    requires EndsAlike(a, b)
    ensures Targets(a) == Targets(b[|b| - |a|..])
    ensures |a| == |b| ==> SameHeaders(a, b)
  {
    hide FC.FromBigEndian;
  }

  /** Work and tip together fix the length and every header: a longer chain on the same tip has more work. */
  lemma RankBindsHeaders(h: Hash, a: Chain, b: Chain, xs: set<seq<Byte>>)
    requires Usable(a) && Usable(b) && Linked(h, a) && Linked(h, b) && |a| <= |b|
    requires HeadersWithin(a, xs) && HeadersWithin(b, xs) && !CollisionIn(h, xs)
    requires Rank(h, a).Some? && Rank(h, a) == Rank(h, b)
    ensures SameHeaders(a, b)
  {
    hide Usable, Linked, HeadersWithin, CollisionIn, BlockHash, FC.TotalWork, Targets, EndsAlike, SameHeaders;
    TipBindsHeaders(h, a, b, xs);
    TargetsFollow(a, b);
    WorkAbove(b, |b| - |a|);
  }

  /** Every block below adds to the work above it. */
  lemma WorkAbove(chain: Chain, d: nat)
    requires Usable(chain) && d <= |chain|
    ensures var all, above := FC.TotalWork(Targets(chain)), FC.TotalWork(Targets(chain[d..]));
      all.Ok? && above.Ok? && all.value >= above.value + d
  {
    hide Usable, Targets, FC.TotalWork;
    UsableParts(chain, d);
    UsableWork(chain[..d]);
    UsableWork(chain[d..]);
    TargetsSplit(chain, d);
    FC.WorkAppends(Targets(chain[..d]), Targets(chain[d..]));
  }

  /**
   Two nodes that met the same chains of one genesis are on the same headers, block by block, and hold the
   same state, unless strings hashed for the blocks collide.
   */
  lemma NodesShareState(rules: RuleBook, h: Hash, metA: seq<Chain>, metB: seq<Chain>, genesis: ParsedBlock,
                        xs: set<seq<Byte>>)
    requires RefusesZeroTargets(rules) && ChecksCommitments(rules, h) && !CollisionIn(h, xs)
    requires AllMet(h, metA, xs) && AllMet(h, metB, xs) && SameChains(metA, metB) && FromGenesis(metA, genesis)
    requires forall c :: c in metA ==> HashedWithin(h, c, xs)
    ensures var a, b := Follow(rules, h, metA), Follow(rules, h, metB);
      SameHeaders(a.chain, b.chain) && a.state == b.state
  {
    NodesConverge(rules, h, metA, metB, genesis, xs);
    EndsOnBest(rules, h, metA, xs);
    EndsOnBest(rules, h, metB, xs);
    BestsShareState(rules, h, Follow(rules, h, metA), metA, Follow(rules, h, metB), metB, xs);
  }

  lemma BestIsLinked(rules: RuleBook, h: Hash, node: Node, met: seq<Chain>, xs: set<seq<Byte>>)
    requires RefusesZeroTargets(rules) && AllMet(h, met, xs) && Best(rules, h, node, met, xs)
    ensures Linked(h, node.chain) && Usable(node.chain) && (node.chain == [] || node.chain in met)
    ensures ChainRuns.Parsed(h, node.chain) && Replay(rules, h, node.chain) == Ok(node.state)
  {
    hide RefusesZeroTargets, Rank, Replay, Linked, Usable;
    ReplayIsLinked(rules, h, node.chain);
    ReplayIsUsable(rules, h, node.chain);
  }

  lemma BestsShareState(rules: RuleBook, h: Hash, a: Node, metA: seq<Chain>, b: Node, metB: seq<Chain>,
                        xs: set<seq<Byte>>)
    requires RefusesZeroTargets(rules) && ChecksCommitments(rules, h) && !CollisionIn(h, xs)
    requires AllMet(h, metA, xs) && AllMet(h, metB, xs) && SameChains(metA, metB)
    requires forall c :: c in metA ==> HashedWithin(h, c, xs)
    requires Best(rules, h, a, metA, xs) && Best(rules, h, b, metB, xs) && Rank(h, a.chain) == Rank(h, b.chain)
    ensures SameHeaders(a.chain, b.chain) && a.state == b.state
  {
    hide RefusesZeroTargets, ChecksCommitments, CollisionIn, AllMet, Best, HashedWithin, Linked, Usable, Rank,
         Replay, ChainRuns.Parsed;
    BestIsLinked(rules, h, a, metA, xs);
    BestIsLinked(rules, h, b, metB, xs);
    NothingHashed(h, xs);
    assert HashedWithin(h, a.chain, xs) && HashedWithin(h, b.chain, xs);
    RankFixesHeaders(h, a.chain, b.chain, xs);
    HeadersFixState(rules, h, a.chain, b.chain, xs);
  }

  lemma NothingHashed(h: Hash, xs: set<seq<Byte>>)
    ensures HashedWithin(h, [], xs)
  {
  }

  lemma RankFixesHeaders(h: Hash, a: Chain, b: Chain, xs: set<seq<Byte>>)
    requires Usable(a) && Usable(b) && Linked(h, a) && Linked(h, b)
    requires HashedWithin(h, a, xs) && HashedWithin(h, b, xs) && !CollisionIn(h, xs) && Rank(h, a) == Rank(h, b)
    ensures SameHeaders(a, b)
  {
    hide CollisionIn, Linked, Usable, HeadersWithin, Hashed, Rank;
    RankedIsNonempty(h, a);
    RankedIsNonempty(h, b);
    if a != [] {
      if |a| <= |b| {
        RankBindsHeaders(h, a, b, xs);
      } else {
        RankBindsHeaders(h, b, a, xs);
      }
    }
  }

  lemma RankedIsNonempty(h: Hash, c: Chain)
    requires Usable(c)
    ensures Rank(h, c).Some? <==> c != []
  {
    if c != [] {
      UsableRank(h, c);
    }
  }

  lemma NoNames(h: Hash, c: Chain)
    ensures Rank(h, c).Some? ==> Rank(h, c).value.id == ""
  {
  }

  lemma BestIsRanked(rules: RuleBook, h: Hash, node: Node, met: seq<Chain>, xs: set<seq<Byte>>)
    requires RefusesZeroTargets(rules) && AllMet(h, met, xs) && Best(rules, h, node, met, xs) && node.chain != []
    ensures Rank(h, node.chain).Some?
  {
    hide RefusesZeroTargets, Rank, Replay;
    ReplayIsUsable(rules, h, node.chain);
    UsableRank(h, node.chain);
  }

  /** `scores` lists the ranks of the viable met chains, in any order. */
  ghost predicate ListsViable(rules: RuleBook, h: Hash, met: seq<Chain>, scores: seq<FC.Scored>)
    requires forall c :: c in met ==> AllShaped(c)
  {
    && (forall c :: c in met && Viable(rules, h, c) ==> Rank(h, c).Some? && Rank(h, c).value in scores)
    && (forall x :: x in scores ==> exists c :: c in met && Viable(rules, h, c) && Rank(h, c) == Some(x))
  }

  /** The node ends where the runner's selection from the viable chains it met does. */
  lemma NodeAgreesWithRunner(rules: RuleBook, h: Hash, met: seq<Chain>, genesis: ParsedBlock, xs: set<seq<Byte>>,
                             scores: seq<FC.Scored>, w: int)
    requires RefusesZeroTargets(rules) && !CollisionIn(h, xs) && AllMet(h, met, xs) && FromGenesis(met, genesis)
    requires ListsViable(rules, h, met, scores) && FC.Wins(scores, w)
    ensures Rank(h, Follow(rules, h, met).chain) == Some(scores[w])
  {
    EndsOnBest(rules, h, met, xs);
    BestIsRunners(rules, h, Follow(rules, h, met), met, genesis, xs, scores, w);
  }

  lemma BestIsRunners(rules: RuleBook, h: Hash, node: Node, met: seq<Chain>, genesis: ParsedBlock,
                      xs: set<seq<Byte>>, scores: seq<FC.Scored>, w: int)
    requires RefusesZeroTargets(rules) && AllMet(h, met, xs) && FromGenesis(met, genesis)
    requires Best(rules, h, node, met, xs) && ListsViable(rules, h, met, scores) && FC.Wins(scores, w)
    ensures Rank(h, node.chain) == Some(scores[w])
  {
    hide FC.Better, Rank, Replay, AllMet, AllShaped, RefusesZeroTargets;
    assert scores[w] in scores;
    var c :| c in met && Viable(rules, h, c) && Rank(h, c) == Some(scores[w]);
    assert NotAhead(h, c, node);
    BestIsRanked(rules, h, node, met, xs);
    assert Viable(rules, h, node.chain);
    var j :| 0 <= j < |scores| && scores[j] == Rank(h, node.chain).value;
    EqualRanks(h, c, node.chain);
  }
}
