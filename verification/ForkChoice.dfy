/**
 Fork choice: a chain's work is the sum of 2^256 / target over its targets, the heaviest chain wins and
 a tie goes to the smaller tip hash. Three places decide it: the node's work helper, the bundle runner
 (on parsed bytes) and the fixture drift gate (on hex text).
 */
module ForkChoice {
  import opened Bytes
  import opened HexText

  datatype Failure = NoChains | BadTip | EmptyTargets | BadTarget | TargetNotPositive

  /** A chain entry as parsed: no tip or no target when its hex text is unreadable. */
  datatype Chain = Chain(id: string, tip: Option<seq<Byte>>, targets: seq<Option<int>>)

  datatype Scored = Scored(id: string, work: nat, tip: seq<Byte>)

  /** 2^256, as 256^32. */
  function Two256(): (n: nat)
    ensures n >= 1
  {
    Capacity(32)
  }

  function Work(target: Option<int>): (r: Result<nat, Failure>)
  {
    if target.None? then Err(BadTarget)
    else if target.value <= 0 then Err(TargetNotPositive)
    else Ok(Two256() / target.value)
  }

  function TotalWork(targets: seq<Option<int>>): (r: Result<nat, Failure>)
  {
    if targets == [] then Ok(0)
    else
      var before :- TotalWork(targets[..|targets| - 1]);
      var last :- Work(targets[|targets| - 1]);
      Ok(before + last)
  }

  function Score(c: Chain): (r: Result<Scored, Failure>)
  {
    if c.tip.None? then Err(BadTip)
    else if c.targets == [] then Err(EmptyTargets)
    else
      var work :- TotalWork(c.targets);
      Ok(Scored(c.id, work, c.tip.value))
  }

  /** Heavier, or as heavy with the smaller tip. */
  predicate Better(a: Scored, b: Scored) {
    a.work > b.work || (a.work == b.work && LexLess(a.tip, b.tip))
  }

  method SumWork(targets: seq<Option<int>>) returns (r: Result<nat, Failure>)
    ensures r == TotalWork(targets)
  {
    var total := 0;
    for i := 0 to |targets|
      invariant TotalWork(targets[..i]) == Ok(total)
    {
      assert targets[..i + 1][..i] == targets[..i];
      var work := Work(targets[i]);
      if work.Err? {
        FirstFailureStays(targets, i + 1);
        return Err(work.error);
      }
      total := total + work.value;
    }
    assert targets[..|targets|] == targets;
    return Ok(total);
  }

  lemma {:induction false} FirstFailureStays(targets: seq<Option<int>>, i: nat)
    requires i <= |targets| && TotalWork(targets[..i]).Err?
    ensures TotalWork(targets) == TotalWork(targets[..i])
    decreases |targets|
  {
    if i < |targets| {
      assert targets[..|targets| - 1][..i] == targets[..i];
      FirstFailureStays(targets[..|targets| - 1], i);
    } else {
      assert targets[..i] == targets;
    }
  }

  // ---------------------------------------------------------------- what the selection means

  ghost predicate FailsFirst(chains: seq<Chain>, i: int) {
    0 <= i < |chains| && Score(chains[i]).Err? && forall j :: 0 <= j < i ==> Score(chains[j]).Ok?
  }

  /** The scores of the chains, or the failure of the first chain that has none. */
  function Scores(chains: seq<Chain>): (r: Result<seq<Scored>, Failure>)
    ensures r.Ok? ==> |r.value| == |chains|
  {
    if chains == [] then Ok([])
    else
      var before :- Scores(chains[..|chains| - 1]);
      var last :- Score(chains[|chains| - 1]);
      Ok(before + [last])
  }

  lemma {:induction false} ScoresAreExact(chains: seq<Chain>)
    ensures var r := Scores(chains);
      if r.Ok? then forall i :: 0 <= i < |chains| ==> Score(chains[i]) == Ok(r.value[i])
      else exists i :: FailsFirst(chains, i) && Score(chains[i]).error == r.error
  {
    hide Score;
    if chains != [] {
      var n := |chains| - 1;
      var before := Scores(chains[..n]);
      ScoresAreExact(chains[..n]);
      if before.Err? {
        var i :| FailsFirst(chains[..n], i) && Score(chains[..n][i]).error == before.error;
        assert FailsFirst(chains, i);
      } else {
        assert forall i :: 0 <= i < n ==> chains[..n][i] == chains[i];
        if Score(chains[n]).Err? {
          assert FailsFirst(chains, n);
        }
      }
    }
  }

  /** Entry `w` is beaten by none, and beats every entry before it. */
  ghost predicate Wins(scores: seq<Scored>, w: int) {
    && 0 <= w < |scores|
    && (forall j :: 0 <= j < |scores| ==> !Better(scores[j], scores[w]))
    && (forall j :: 0 <= j < w ==> Better(scores[w], scores[j]))
  }

  lemma BetterIsStrict(a: Scored, b: Scored, c: Scored)
    ensures !Better(a, a)
    ensures Better(a, b) ==> !Better(b, a)
    ensures Better(a, b) && Better(b, c) ==> Better(a, c)
    ensures !Better(a, b) && !Better(b, a) ==> a.work == b.work && a.tip == b.tip
  {
    LexTotal(a.tip, b.tip);
    LexTotal(a.tip, a.tip);
    if LexLess(a.tip, b.tip) && LexLess(b.tip, c.tip) {
      LexTransitive(a.tip, b.tip, c.tip);
    }
  }

  lemma NewWinner(scores: seq<Scored>, w: nat, next: Scored)
    requires Wins(scores, w)
    ensures if Better(next, scores[w]) then Wins(scores + [next], |scores|) else Wins(scores + [next], w)
  {
    hide Better;
    var all := scores + [next];
    BetterIsStrict(next, next, next);
    if Better(next, scores[w]) {
      forall j | 0 <= j < |scores|
        ensures Better(next, all[j]) && !Better(all[j], next)
      {
        BetterIsStrict(next, scores[w], scores[j]);
        BetterIsStrict(next, scores[j], next);
        if !Better(scores[w], scores[j]) {
          BetterIsStrict(scores[w], scores[j], next);
          SameRank(scores[w], scores[j], next);
        }
      }
    }
  }

  lemma SameRank(a: Scored, b: Scored, c: Scored)
    requires a.work == b.work && a.tip == b.tip
    ensures Better(c, a) == Better(c, b) && Better(a, c) == Better(b, c)
  {
  }

  /** The runner's loop: the first failing chain ends it, otherwise the winner is the one `Wins` describes. */
  method Select(chains: seq<Chain>) returns (r: Result<Scored, Failure>)
    ensures chains == [] ==> r == Err(NoChains)
    ensures chains != [] && Scores(chains).Err? ==> r == Err(Scores(chains).error)
    ensures chains != [] && Scores(chains).Ok? ==>
      exists w :: Wins(Scores(chains).value, w) && r == Ok(Scores(chains).value[w])
  {
    if chains == [] {
      return Err(NoChains);
    }
    var best: Option<Scored> := None;
    ghost var w := 0;
    for i := 0 to |chains|
      invariant Scores(chains[..i]).Ok?
      invariant if i == 0 then best == None
        else Wins(Scores(chains[..i]).value, w) && best == Some(Scores(chains[..i]).value[w])
    {
      assert chains[..i + 1][..i] == chains[..i];
      var chain := chains[i];
      if chain.tip.None? {
        LaterChainsDoNotMatter(chains, i + 1);
        return Err(BadTip);
      }
      if chain.targets == [] {
        LaterChainsDoNotMatter(chains, i + 1);
        return Err(EmptyTargets);
      }
      var total := SumWork(chain.targets);
      if total.Err? {
        LaterChainsDoNotMatter(chains, i + 1);
        return Err(total.error);
      }
      var next := Scored(chain.id, total.value, chain.tip.value);
      ghost var before := Scores(chains[..i]).value;
      assert Scores(chains[..i + 1]) == Ok(before + [next]);
      if i > 0 {
        NewWinner(before, w, next);
      } else {
        BetterIsStrict(next, next, next);
      }
      if best.None? || next.work > best.value.work
         || (next.work == best.value.work && LexLess(next.tip, best.value.tip)) {
        best := Some(next);
        w := i;
      }
    }
    assert chains[..|chains|] == chains;
    return Ok(best.value);
  }

  lemma {:induction false} LaterChainsDoNotMatter(chains: seq<Chain>, i: nat)
    requires i <= |chains| && Scores(chains[..i]).Err?
    ensures Scores(chains) == Scores(chains[..i])
    decreases |chains|
  {
    if i < |chains| {
      assert chains[..|chains| - 1][..i] == chains[..i];
      LaterChainsDoNotMatter(chains[..|chains| - 1], i);
    } else {
      assert chains[..i] == chains;
    }
  }

  // ---------------------------------------------------------------- the order of the list

  /** Chains of the same work and tip have the same identifier. */
  ghost predicate NoTwins(scores: seq<Scored>) {
    forall i, j :: 0 <= i < |scores| && 0 <= j < |scores| ==>
      (scores[i].work == scores[j].work && scores[i].tip == scores[j].tip ==> scores[i].id == scores[j].id)
  }

  ghost predicate SameMembers<T(!new)>(xs: seq<T>, ys: seq<T>) {
    forall x :: x in xs <==> x in ys
  }

  /** Every listing of the same chains has a winner of the same work and tip, and without twins the same winner. */
  lemma OrderDoesNotMatter(xs: seq<Scored>, v: int, ys: seq<Scored>, w: int)
    requires SameMembers(xs, ys) && Wins(xs, v) && Wins(ys, w)
    ensures xs[v].work == ys[w].work && xs[v].tip == ys[w].tip
    ensures NoTwins(xs) ==> xs[v] == ys[w]
  {
    hide Better;
    assert xs[v] in xs && ys[w] in ys;
    var i :| 0 <= i < |ys| && ys[i] == xs[v];
    var j :| 0 <= j < |xs| && xs[j] == ys[w];
    BetterIsStrict(xs[v], ys[w], xs[v]);
  }

  lemma FailsTogether(xs: seq<Chain>, ys: seq<Chain>)
    requires SameMembers(xs, ys) && Scores(xs).Err?
    ensures Scores(ys).Err?
  {
    ScoresAreExact(xs);
    ScoresAreExact(ys);
    hide Score, Scores;
    var i :| FailsFirst(xs, i) && Score(xs[i]).error == Scores(xs).error;
    assert xs[i] in ys;
    var k :| 0 <= k < |ys| && ys[k] == xs[i];
  }

  lemma ScoresFollow(xs: seq<Chain>, ys: seq<Chain>, x: Scored)
    requires SameMembers(xs, ys) && Scores(xs).Ok? && Scores(ys).Ok? && x in Scores(xs).value
    ensures x in Scores(ys).value
  {
    ScoresAreExact(xs);
    ScoresAreExact(ys);
    hide Score, Scores;
    var i :| 0 <= i < |xs| && Scores(xs).value[i] == x;
    assert xs[i] in ys;
    var k :| 0 <= k < |ys| && ys[k] == xs[i];
    assert Scores(ys).value[k] == x;
  }

  /** A list of chains fails in every order or in none, and then always offers the same scores. */
  lemma FailureIsOrderFree(xs: seq<Chain>, ys: seq<Chain>)
    requires SameMembers(xs, ys)
    ensures Scores(xs).Ok? <==> Scores(ys).Ok?
    ensures Scores(xs).Ok? ==> SameMembers(Scores(xs).value, Scores(ys).value)
  {
    hide Score, Scores;
    if Scores(xs).Err? {
      FailsTogether(xs, ys);
    } else if Scores(ys).Err? {
      FailsTogether(ys, xs);
    } else {
      forall x
        ensures x in Scores(xs).value <==> x in Scores(ys).value
      {
        if x in Scores(xs).value {
          ScoresFollow(xs, ys, x);
        }
        if x in Scores(ys).value {
          ScoresFollow(ys, xs, x);
        }
      }
    }
  }

  // ---------------------------------------------------------------- growing a chain

  lemma AtLeastOne(n: nat, t: nat)
    requires 1 <= t <= n
    ensures n / t >= 1
  {
  }

  /** Usable targets have at least one unit of work each. */
  lemma {:induction false} UsableWork(targets: seq<Option<int>>)
    requires forall i :: 0 <= i < |targets| ==> targets[i].Some? && 1 <= targets[i].value < Two256()
    ensures TotalWork(targets).Ok? && TotalWork(targets).value >= |targets|
  {
    hide Two256;
    if targets != [] {
      UsableWork(targets[..|targets| - 1]);
      AtLeastOne(Two256(), targets[|targets| - 1].value);
    }
  }

  /** One more usable target always adds work: a chain that grows beats its former self whatever its tip. */
  lemma GrowingChainWins(c: Chain, target: int, tip: seq<Byte>)
    requires Score(c).Ok? && 1 <= target < Two256()
    ensures var grown := c.(targets := c.targets + [Some(target)], tip := Some(tip));
      Score(grown).Ok? && Better(Score(grown).value, Score(c).value)
  {
    AtLeastOne(Two256(), target);
    hide Two256, Capacity;
    var grown := c.targets + [Some(target)];
    assert grown[..|grown| - 1] == c.targets;
    assert TotalWork(grown) == Ok(TotalWork(c.targets).value + Two256() / target);
  }

  // ---------------------------------------------------------------- the node's helper

  function FromBigEndian(b: seq<Byte>): (n: nat)
    ensures n < Capacity(|b|)
  {
    if b == [] then 0
    else
      var high := FromBigEndian(b[..|b| - 1]);
      assert Capacity(|b|) == 256 * Capacity(|b| - 1);
      256 * high + b[|b| - 1]
  }

  const POW_LIMIT: Hash32 := [
    255, 255, 255, 255, 255, 255, 255, 255, 255, 255, 255, 255, 255, 255, 255, 255,
    255, 255, 255, 255, 255, 255, 255, 255, 255, 255, 255, 255, 255, 255, 255, 255]

  function WorkFromTarget(target: Hash32): (r: Result<nat, Failure>)
  {
    var t := FromBigEndian(target);
    if t == 0 then Err(TargetNotPositive)
    else if t > FromBigEndian(POW_LIMIT) then Err(TargetNotPositive)
    else Ok(Two256() / t)
  }

  lemma {:induction false} AllOnes(b: seq<Byte>)
    requires forall i :: 0 <= i < |b| ==> b[i] == 255
    ensures FromBigEndian(b) == Capacity(|b|) - 1
  {
    if b != [] {
      AllOnes(b[..|b| - 1]);
      assert Capacity(|b|) == 256 * Capacity(|b| - 1);
    }
  }

  /** The node's limit check never fires, so the node and the runner give every 32-byte target one work. */
  lemma NodeAndRunnerAgree(target: Hash32)
    ensures WorkFromTarget(target) == Work(Some(FromBigEndian(target)))
    ensures WorkFromTarget(POW_LIMIT) == Ok(1)
  {
    LimitIsLargest();
    hide FromBigEndian, POW_LIMIT, Capacity, Two256;
    OneUnit(Two256());
  }

  lemma LimitIsLargest()
    ensures FromBigEndian(POW_LIMIT) == Two256() - 1 && Two256() >= 256
    ensures forall target: Hash32 :: FromBigEndian(target) < Two256()
  {
    hide FromBigEndian, POW_LIMIT, Capacity;
    LimitIsAllOnes();
    AllOnes(POW_LIMIT);
    AtLeastOneByte(31);
  }

  lemma LimitIsAllOnes()
    ensures forall i :: 0 <= i < |POW_LIMIT| ==> POW_LIMIT[i] == 255
  {
  }

  lemma AtLeastOneByte(width: nat)
    ensures Capacity(width + 1) >= 256
  {
  }

  lemma OneUnit(n: nat)
    requires n >= 3
    ensures n / (n - 1) == 1
  {
    assert n == 1 * (n - 1) + 1;
  }

  // ---------------------------------------------------------------- the drift gate, on hex text

  predicate IsU64(work: int) {
    0 <= work < U64
  }

  /** The drift gate's test that a published branch beats the stated previous tip; works outside u64 are refused. */
  predicate GateAccepts(got: int, gotHash: string, want: int, wantHash: string) {
    !(!(IsU64(got) && IsU64(want)) || got < want || (got == want && !TextLess(gotHash, wantHash)))
  }

  /** For all hash texts and works the gate accepts exactly when both works are u64 and the branch beats the tip. */
  lemma GateAgrees(got: nat, gotHash: string, want: nat, wantHash: string, id: string, other: string)
    requires IsHashText(gotHash) && IsHashText(wantHash)
    ensures GateAccepts(got, gotHash, want, wantHash)
      <==> IsU64(got) && IsU64(want) && Better(Scored(id, got, Unhex(gotHash)), Scored(other, want, Unhex(wantHash)))
  {
    HexOrder(Unhex(gotHash), Unhex(wantHash));
  }

  /** So for u64 works the gate accepts exactly when listing the branch after the tip makes it the winner. */
  lemma GateAgreesWithSelection(prev: Scored, branch: Scored)
    requires |prev.tip| == |branch.tip| == 32
    ensures GateAccepts(branch.work, Hex(branch.tip), prev.work, Hex(prev.tip))
      <==> IsU64(branch.work) && IsU64(prev.work) && Wins([prev, branch], 1)
    ensures IsU64(branch.work) && IsU64(prev.work) ==>
      (!GateAccepts(branch.work, Hex(branch.tip), prev.work, Hex(prev.tip)) <==> Wins([prev, branch], 0))
  {
    HexOrder(branch.tip, prev.tip);
    hide TextLess;
    SecondWinsIffBetter(prev, branch);
  }

  lemma SecondWinsIffBetter(prev: Scored, branch: Scored)
    ensures Wins([prev, branch], 1) <==> Better(branch, prev)
    ensures Wins([prev, branch], 0) <==> !Better(branch, prev)
  {
    hide Better;
    BetterIsStrict(branch, prev, branch);
    BetterIsStrict(prev, branch, prev);
    var both := [prev, branch];
    assert both[0] == prev && both[1] == branch;
    if Better(branch, prev) {
      assert Wins(both, 1);
    } else {
      assert Wins(both, 0);
    }
  }

  /** The guard bites: a branch of more than 64 bits of work wins over any lighter tip, and the gate refuses it. */
  lemma GateRefusesHeavyWinner(prev: Scored, branch: Scored)
    requires |prev.tip| == |branch.tip| == 32 && branch.work >= U64 && prev.work < branch.work
    ensures Wins([prev, branch], 1) && !GateAccepts(branch.work, Hex(branch.tip), prev.work, Hex(prev.tip))
  {
    SecondWinsIffBetter(prev, branch);
  }

  /** One block is enough: every target up to 2^192 has such work. */
  lemma LowTargetIsHeavy(target: int)
    requires 1 <= target <= Capacity(24)
    ensures Work(Some(target)).Ok? && Work(Some(target)).value >= U64
  {
    hide Capacity;
    Capacities();
    CapacityAdds(24, 8);
    QuotientAtLeast(Two256(), target, U64, Capacity(24));
  }

  lemma {:induction false} CapacityAdds(a: nat, b: nat)
    ensures Capacity(a + b) == Capacity(a) * Capacity(b)
    decreases b
  {
    if b > 0 {
      CapacityAdds(a, b - 1);
      assert Capacity(a + b) == 256 * Capacity(a + b - 1) && Capacity(b) == 256 * Capacity(b - 1);
      hide Capacity;
      Regroup(Capacity(a), Capacity(b - 1));
    }
  }

  lemma Regroup(x: nat, y: nat)
    ensures 256 * (x * y) == x * (256 * y)
  {
  }

  lemma QuotientAtLeast(n: nat, t: nat, q: nat, bound: nat)
    requires 1 <= t <= bound && n == bound * q
    ensures n / t >= q
  {
    Monotone(q, t, bound);
    Monotone(t, n / t + 1, q);
    assert n < t * (n / t) + t;
  }

  lemma Monotone(x: nat, a: nat, b: nat)
    ensures a <= b ==> x * a <= x * b
  {
    if a <= b {
      assert x * b == x * a + x * (b - a);
    }
  }

  /** The gate's test of two equal-work candidates: hash texts in order, equal work within 64 bits. */
  predicate CandidatesOk(firstHash: string, firstWork: int, secondHash: string, secondWork: int) {
    && IsHashText(firstHash) && IsHashText(secondHash) && TextLess(firstHash, secondHash)
    && IsU64(firstWork) && firstWork == secondWork
  }

  /** With equal work the gate publishes the first of two candidates exactly when fork choice prefers it. */
  lemma FirstCandidateWins(id: string, firstHash: string, other: string, secondHash: string, work: nat)
    requires IsHashText(firstHash) && IsHashText(secondHash) && work < U64
    ensures CandidatesOk(firstHash, work, secondHash, work)
      <==> Better(Scored(id, work, Unhex(firstHash)), Scored(other, work, Unhex(secondHash)))
  {
    HexOrder(Unhex(firstHash), Unhex(secondHash));
  }

  // ---------------------------------------------------------------- the node, one branch at a time

  /** Work is additive along a chain: the first failure wins, otherwise the parts add up. */
  lemma {:induction false} WorkAppends(base: seq<Option<int>>, branch: seq<Option<int>>)
    requires TotalWork(base).Ok?
    ensures TotalWork(base + branch) == match TotalWork(branch)
      case Ok(w) => Ok(TotalWork(base).value + w)
      case Err(e) => Err(e)
    decreases |branch|
  {
    hide Work, Two256;
    if branch == [] {
      assert base + branch == base;
    } else {
      var n := |branch| - 1;
      WorkAppends(base, branch[..n]);
      assert (base + branch)[..|base| + n] == base + branch[..n];
    }
  }

  /**
   The node's decision from the ancestor's stored work and the branch alone: for every chain of that work
   below the branch it is the preference between the whole candidate and the current tip.
   */
  method ShouldSwitch(current: Scored, ancestorWork: nat, branch: seq<Option<int>>, tip: seq<Byte>, ghost id: string)
    returns (r: Result<bool, Failure>)
    ensures r.Ok? <==> TotalWork(branch).Ok? && branch != []
    ensures r.Ok? ==> forall base :: TotalWork(base) == Ok(ancestorWork) ==>
      var whole := Score(Chain(id, Some(tip), base + branch));
      whole.Ok? && (r.value <==> Better(whole.value, current))
  {
    var work := SumWork(branch);
    if work.Err? {
      return Err(work.error);
    }
    var candidate := ancestorWork + work.value;
    if branch == [] {
      return Err(EmptyTargets);
    }
    forall base | TotalWork(base) == Ok(ancestorWork)
      ensures Score(Chain(id, Some(tip), base + branch)) == Ok(Scored(id, candidate, tip))
    {
      WorkAppends(base, branch);
      hide TotalWork;
      assert base + branch != [];
    }
    hide TotalWork, Score;
    if candidate > current.work {
      return Ok(true);
    } else if candidate == current.work {
      return Ok(LexLess(tip, current.tip));
    }
    return Ok(false);
  }

  /** The tip of a node that meets candidates one after the other and switches whenever one is better. */
  function Follow(current: Scored, candidates: seq<Scored>): (tip: Scored)
  {
    if candidates == [] then current
    else
      var before, last := Follow(current, candidates[..|candidates| - 1]), candidates[|candidates| - 1];
      if Better(last, before) then last else before
  }

  /** One by one is as good as all at once: the node ends on the chain the runner selects. */
  lemma {:induction false} FollowingSelects(first: Scored, more: seq<Scored>)
    ensures exists w :: Wins([first] + more, w) && ([first] + more)[w] == Follow(first, more)
    decreases |more|
  {
    hide Better;
    if more == [] {
      BetterIsStrict(first, first, first);
      assert Wins([first] + more, 0);
    } else {
      var n := |more| - 1;
      FollowingSelects(first, more[..n]);
      var before := [first] + more[..n];
      var w :| Wins(before, w) && before[w] == Follow(first, more[..n]);
      NewWinner(before, w, more[n]);
      assert [first] + more == before + [more[n]];
      assert Wins([first] + more, if Better(more[n], before[w]) then |before| else w);
    }
  }
}
