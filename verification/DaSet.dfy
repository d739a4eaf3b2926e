/**
 The data-availability set of the compact-relay vectors: chunks and a commit arrive, blocks tick, and
 the set is an orphan (A), waits for chunks (B), is complete and pinned (C), or is evicted.
 */
module DaSet {
  import opened Bytes
  import opened Finite

  datatype Phase = A | B | C | Evicted

  datatype Event = Chunk(index: int) | Commit | Tick(blocks: int) | CheckBlock | Unknown

  datatype Config = Config(chunkCount: int, ttlBlocks: int)

  datatype Machine = Machine(
    phase: Phase, chunks: set<int>, commitSeen: bool, pinned: bool, ttl: int, resets: nat, evicted: bool,
    answers: seq<bool>)

  function Start(cfg: Config, chunks: set<int>, commitSeen: bool): (m: Machine)
  {
    var phase := if commitSeen && |chunks| == cfg.chunkCount then C else if commitSeen then B else A;
    Machine(phase, chunks, commitSeen, phase == C, if phase == C then 0 else cfg.ttlBlocks, 0, false, [])
  }

  function OnChunk(cfg: Config, m: Machine, index: int): (m': Machine)
  {
    var chunks := if 0 <= index < cfg.chunkCount && m.phase != Evicted then m.chunks + {index} else m.chunks;
    if m.commitSeen && |chunks| == cfg.chunkCount then m.(chunks := chunks, phase := C, pinned := true)
    else m.(chunks := chunks)
  }

  function OnCommit(cfg: Config, m: Machine): (m': Machine)
  {
    if m.phase == Evicted then m
    else
      var n := if m.phase == A then m.(ttl := cfg.ttlBlocks, resets := m.resets + 1) else m;
      var complete := |m.chunks| == cfg.chunkCount;
      n.(commitSeen := true, phase := if complete then C else B, pinned := complete)
  }

  function OnTick(m: Machine, blocks: int): (m': Machine)
  {
    if m.phase != A && m.phase != B then m
    else if m.ttl - blocks > 0 then m.(ttl := m.ttl - blocks)
    else m.(phase := Evicted, evicted := true, commitSeen := false, chunks := {}, pinned := false, ttl := 0)
  }

  function OnCheck(cfg: Config, m: Machine): (m': Machine)
  {
    m.(answers := m.answers + [m.commitSeen && |m.chunks| == cfg.chunkCount])
  }

  function Step(cfg: Config, m: Machine, e: Event): (m': Machine)
    requires e != Unknown
  {
    match e
    case Chunk(index) => OnChunk(cfg, m, index)
    case Commit => OnCommit(cfg, m)
    case Tick(blocks) => OnTick(m, blocks)
    case CheckBlock => OnCheck(cfg, m)
  }

  predicate Known(events: seq<Event>) {
    Unknown !in events
  }

  /** The machine after a list of events. */
  function Run(cfg: Config, m: Machine, events: seq<Event>): (m': Machine)
    requires Known(events)
  {
    if events == [] then m
    else Step(cfg, Run(cfg, m, events[..|events| - 1]), events[|events| - 1])
  }

  /** The event loop of the vector: it stops with a problem at the first unknown event. */
  method RunVector(cfg: Config, initial: seq<int>, commitSeen: bool, events: seq<Event>)
    returns (r: Result<Machine, ()>)
    ensures Known(events) ==> r == Ok(Run(cfg, Start(cfg, SetOf(initial), commitSeen), events))
    ensures !Known(events) ==> r == Err(())
  {
    var m := Start(cfg, SetOf(initial), commitSeen);
    for i := 0 to |events|
      invariant Known(events[..i])
      invariant m == Run(cfg, Start(cfg, SetOf(initial), commitSeen), events[..i])
    {
      if events[i] == Unknown {
        return Err(());
      }
      assert events[..i + 1][..i] == events[..i];
      m := Step(cfg, m, events[i]);
    }
    assert events[..|events|] == events;
    return Ok(m);
  }

  // ---------------------------------------------------------------- what every run keeps

  predicate InRange(chunks: set<int>, n: int) {
    forall i :: i in chunks ==> 0 <= i < n
  }

  predicate AllPresent(chunks: set<int>, n: int) {
    forall i :: 0 <= i < n ==> i in chunks
  }

  /** In range, having `n` chunks and having every chunk are the same. */
  lemma Pigeonhole(chunks: set<int>, n: int)
    requires n >= 0 && InRange(chunks, n)
    ensures |chunks| <= n
    ensures |chunks| == n <==> AllPresent(chunks, n)
  {
    var all := Below(n);
    assert chunks <= all;
    SubsetSize(chunks, all);
    if AllPresent(chunks, n) {
      assert chunks == all;
    }
  }

  /** The invariant of the machine. */
  ghost predicate Valid(cfg: Config, m: Machine) {
    && InRange(m.chunks, cfg.chunkCount)
    && (m.phase == A ==> !m.commitSeen && !m.pinned)
    && (m.phase == B ==> m.commitSeen && !AllPresent(m.chunks, cfg.chunkCount) && !m.pinned)
    && (m.phase == C ==> m.commitSeen && AllPresent(m.chunks, cfg.chunkCount) && m.pinned)
    && (m.phase == Evicted ==> !m.commitSeen && m.chunks == {} && !m.pinned)
    && (m.evicted <==> m.phase == Evicted)
    && (m.phase == A ==> m.resets == 0) && m.resets <= 1
  }

  /** One step keeps the invariant, never leaves C or Evicted, and answers a check exactly by the phase. */
  ghost predicate Kept(cfg: Config, m: Machine, e: Event, m': Machine) {
    && Valid(cfg, m')
    && (m.phase == C ==> m'.phase == C)
    && (m.phase == Evicted ==> m'.phase == Evicted)
    && m'.answers == m.answers + if e == CheckBlock then [m.phase == C] else []
  }

  lemma ChunkValid(cfg: Config, m: Machine, index: int)
    requires cfg.chunkCount >= 0 && Valid(cfg, m)
    ensures Kept(cfg, m, Chunk(index), OnChunk(cfg, m, index))
  {
    Pigeonhole(m.chunks, cfg.chunkCount);
    Pigeonhole(OnChunk(cfg, m, index).chunks, cfg.chunkCount);
  }

  lemma CommitValid(cfg: Config, m: Machine)
    requires cfg.chunkCount >= 0 && Valid(cfg, m)
    ensures Kept(cfg, m, Commit, OnCommit(cfg, m))
  {
    Pigeonhole(m.chunks, cfg.chunkCount);
    hide AllPresent, InRange;
  }

  lemma TickValid(cfg: Config, m: Machine, blocks: int)
    requires Valid(cfg, m)
    ensures Kept(cfg, m, Tick(blocks), OnTick(m, blocks))
  {
    hide AllPresent;
  }

  lemma CheckValid(cfg: Config, m: Machine)
    requires cfg.chunkCount >= 0 && Valid(cfg, m)
    ensures Kept(cfg, m, CheckBlock, OnCheck(cfg, m))
  {
    Pigeonhole(m.chunks, cfg.chunkCount);
    hide AllPresent, InRange;
  }

  lemma StepValid(cfg: Config, m: Machine, e: Event)
    requires cfg.chunkCount >= 0 && Valid(cfg, m) && e != Unknown
    ensures Kept(cfg, m, e, Step(cfg, m, e))
  {
    hide Kept, Valid, OnChunk, OnCommit, OnTick, OnCheck;
    match e
    case Chunk(index) => ChunkValid(cfg, m, index);
    case Commit => CommitValid(cfg, m);
    case Tick(blocks) => TickValid(cfg, m, blocks);
    case CheckBlock => CheckValid(cfg, m);
  }

  lemma {:induction false} RunValid(cfg: Config, chunks: set<int>, commitSeen: bool, events: seq<Event>)
    requires cfg.chunkCount >= 0 && InRange(chunks, cfg.chunkCount) && Known(events)
    ensures Valid(cfg, Run(cfg, Start(cfg, chunks, commitSeen), events))
  {
    var m := Start(cfg, chunks, commitSeen);
    if events == [] {
      Pigeonhole(chunks, cfg.chunkCount);
    } else {
      RunValid(cfg, chunks, commitSeen, events[..|events| - 1]);
      StepValid(cfg, Run(cfg, m, events[..|events| - 1]), events[|events| - 1]);
    }
  }

  /** Complete means: a commit has been seen and every chunk is present. */
  predicate CompleteIffAllSeen(cfg: Config, m: Machine) {
    m.phase == C <==> m.commitSeen && AllPresent(m.chunks, cfg.chunkCount)
  }

  /**
   The set is in phase C exactly when it is complete, in every run, if and only if the chunk count is
   not negative and the initial chunks are in range.
   */
  lemma CompletenessIsExact(cfg: Config, chunks: set<int>, commitSeen: bool)
    ensures (forall events: seq<Event> :: Known(events) ==>
               CompleteIffAllSeen(cfg, Run(cfg, Start(cfg, chunks, commitSeen), events)))
      <==> cfg.chunkCount >= 0 && InRange(chunks, cfg.chunkCount)
  {
    if cfg.chunkCount >= 0 && InRange(chunks, cfg.chunkCount) {
      forall events | Known(events)
        ensures CompleteIffAllSeen(cfg, Run(cfg, Start(cfg, chunks, commitSeen), events))
      {
        RunValid(cfg, chunks, commitSeen, events);
      }
    } else {
      var events := FailingRun(cfg, chunks, commitSeen);
    }
  }

  /** All chunks in order and then the commit, when the count is negative or a chunk is out of range. */
  lemma FailingRun(cfg: Config, chunks: set<int>, commitSeen: bool) returns (events: seq<Event>)
    requires cfg.chunkCount < 0 || !InRange(chunks, cfg.chunkCount)
    ensures Known(events) && !CompleteIffAllSeen(cfg, Run(cfg, Start(cfg, chunks, commitSeen), events))
  {
    var n := if cfg.chunkCount < 0 then 0 else cfg.chunkCount;
    events := Chunks(n) + [Commit];
    assert events[..|events| - 1] == Chunks(n);
    SendAll(cfg, chunks, commitSeen, n);
    if cfg.chunkCount >= 0 {
      TooMany(chunks, n);
    }
    var m := Run(cfg, Start(cfg, chunks, commitSeen), Chunks(n));
    assert AllPresent(m.chunks, cfg.chunkCount);
    CommitMisjudges(cfg, m);
    assert Step(cfg, m, Commit) == OnCommit(cfg, m);
    hide Start, Chunks, OnCommit, CompleteIffAllSeen;
  }

  /** With all chunks present but another number of them, the commit leaves the set incomplete. */
  lemma CommitMisjudges(cfg: Config, m: Machine)
    requires m.phase != Evicted && AllPresent(m.chunks, cfg.chunkCount) && |m.chunks| != cfg.chunkCount
    ensures !CompleteIffAllSeen(cfg, OnCommit(cfg, m))
  {
  }

  function Chunks(n: nat): (events: seq<Event>)
    ensures |events| == n && Known(events)
  {
    if n == 0 then [] else Chunks(n - 1) + [Chunk(n - 1)]
  }

  lemma {:induction false} SendAll(cfg: Config, chunks: set<int>, commitSeen: bool, n: nat)
    requires n == 0 || n <= cfg.chunkCount
    ensures var m := Run(cfg, Start(cfg, chunks, commitSeen), Chunks(n));
      m.phase != Evicted && m.chunks == chunks + Below(n)
  {
    if n == 0 {
      assert chunks + Below(0) == chunks;
    } else {
      SendAll(cfg, chunks, commitSeen, n - 1);
      assert Chunks(n)[..n - 1] == Chunks(n - 1);
      assert chunks + Below(n - 1) + {n - 1} == chunks + Below(n);
    }
  }

  lemma TooMany(chunks: set<int>, n: nat)
    requires !InRange(chunks, n)
    ensures |chunks + Below(n)| > n
  {
    var x :| x in chunks && !(0 <= x < n);
    SubsetSize(Below(n) + {x}, chunks + Below(n));
  }

  /** Phases C and Evicted are never left. */
  lemma {:induction false} FinalPhases(cfg: Config, m: Machine, events: seq<Event>)
    requires cfg.chunkCount >= 0 && Valid(cfg, m) && Known(events)
    ensures Valid(cfg, Run(cfg, m, events))
    ensures m.phase == C ==> Run(cfg, m, events).phase == C
    ensures m.phase == Evicted ==> Run(cfg, m, events).phase == Evicted
    ensures var after := Run(cfg, m, events).answers;
      m.phase == C ==> forall i :: |m.answers| <= i < |after| ==> after[i]
    ensures m.answers <= Run(cfg, m, events).answers
  {
    if events != [] {
      FinalPhases(cfg, m, events[..|events| - 1]);
      StepValid(cfg, Run(cfg, m, events[..|events| - 1]), events[|events| - 1]);
    }
  }

  /** Once an answer is yes all later ones are, and none is before phase C. */
  predicate AnswersOk(m: Machine) {
    && (forall i, j :: 0 <= i < j < |m.answers| && m.answers[i] ==> m.answers[j])
    && (m.phase != C ==> forall i :: 0 <= i < |m.answers| ==> !m.answers[i])
  }

  lemma AnswersKept(cfg: Config, m: Machine, e: Event, m': Machine)
    requires AnswersOk(m) && Kept(cfg, m, e, m')
    ensures AnswersOk(m')
  {
    hide Valid;
    if e == CheckBlock {
      var n := |m.answers|;
      assert m'.answers[..n] == m.answers && m'.answers[n] == (m.phase == C);
      forall i, j | 0 <= i < j < |m'.answers| && m'.answers[i]
        ensures m'.answers[j]
      {
        assert m.answers[i];
      }
      forall i | m'.phase != C && 0 <= i < |m'.answers|
        ensures !m'.answers[i]
      {
        assert i < n ==> !m.answers[i];
      }
    }
  }

  /** The answers to block checks: once one is yes, all later ones are. */
  lemma {:induction false} AnswersAreMonotone(cfg: Config, chunks: set<int>, commitSeen: bool, events: seq<Event>)
    requires cfg.chunkCount >= 0 && InRange(chunks, cfg.chunkCount) && Known(events)
    ensures AnswersOk(Run(cfg, Start(cfg, chunks, commitSeen), events))
  {
    if events != [] {
      hide AnswersOk, Kept, Step;
      var before := events[..|events| - 1];
      AnswersAreMonotone(cfg, chunks, commitSeen, before);
      RunValid(cfg, chunks, commitSeen, before);
      var m, e := Run(cfg, Start(cfg, chunks, commitSeen), before), events[|events| - 1];
      StepValid(cfg, m, e);
      AnswersKept(cfg, m, e, Step(cfg, m, e));
    }
  }

  // ---------------------------------------------------------------- time to live

  /** Blocks ticked since the time to live was last set: from the start, or from the commit that ended A. */
  function PhaseBlocks(cfg: Config, m: Machine, events: seq<Event>): (n: int)
    requires Known(events)
  {
    if events == [] then 0
    else
      var before := events[..|events| - 1];
      var last := events[|events| - 1];
      if last.Commit? && Run(cfg, m, before).phase == A then 0
      else PhaseBlocks(cfg, m, before) + if last.Tick? then last.blocks else 0
  }

  function TotalBlocks(events: seq<Event>): (n: int)
  {
    if events == [] then 0
    else
      var last := events[|events| - 1];
      TotalBlocks(events[..|events| - 1]) + if last.Tick? then last.blocks else 0
  }

  /** While the set can still be evicted, the counter is what is left of the current phase. */
  lemma {:induction false} CounterIsExact(cfg: Config, chunks: set<int>, commitSeen: bool, events: seq<Event>)
    requires cfg.chunkCount >= 0 && InRange(chunks, cfg.chunkCount) && Known(events)
    ensures var m := Run(cfg, Start(cfg, chunks, commitSeen), events);
      m.phase == A || m.phase == B ==> m.ttl == cfg.ttlBlocks - PhaseBlocks(cfg, Start(cfg, chunks, commitSeen), events)
  {
    if events != [] {
      var before := events[..|events| - 1];
      CounterIsExact(cfg, chunks, commitSeen, before);
      RunValid(cfg, chunks, commitSeen, before);
      StepValid(cfg, Run(cfg, Start(cfg, chunks, commitSeen), before), events[|events| - 1]);
    }
  }

  /**
   A tick evicts exactly when the set is in A or B and the blocks of the current phase reach the time
   to live; nothing else evicts.
   */
  lemma EvictionIsExact(cfg: Config, chunks: set<int>, commitSeen: bool, events: seq<Event>, next: Event)
    requires cfg.chunkCount >= 0 && InRange(chunks, cfg.chunkCount) && Known(events) && next != Unknown
    ensures var start := Start(cfg, chunks, commitSeen);
      var m, m' := Run(cfg, start, events), Run(cfg, start, events + [next]);
      m.phase != Evicted && m'.phase == Evicted <==>
        && (m.phase == A || m.phase == B) && next.Tick?
        && PhaseBlocks(cfg, start, events) + next.blocks >= cfg.ttlBlocks
  {
    assert (events + [next])[..|events|] == events;
    CounterIsExact(cfg, chunks, commitSeen, events);
    RunValid(cfg, chunks, commitSeen, events);
    StepValid(cfg, Run(cfg, Start(cfg, chunks, commitSeen), events), next);
  }

  predicate ForwardTicks(events: seq<Event>) {
    forall e :: e in events && e.Tick? ==> e.blocks >= 0
  }

  /** In A or B: `p` blocks of this phase and `t` blocks in all are within the bounds. */
  predicate Survives(cfg: Config, m: Machine, p: int, t: int) {
    && 0 <= p
    && (m.phase == A || m.phase == B ==>
          p <= cfg.ttlBlocks - 1 && t <= if m.resets == 0 then p else p + cfg.ttlBlocks - 1)
  }

  lemma SurvivalStep(cfg: Config, m: Machine, e: Event, p: int, t: int)
    requires Valid(cfg, m) && e != Unknown && cfg.ttlBlocks >= 1 && (e.Tick? ==> e.blocks >= 0)
    requires Survives(cfg, m, p, t) && (m.phase == A || m.phase == B ==> m.ttl == cfg.ttlBlocks - p)
    requires m.phase == C ==> Step(cfg, m, e).phase == C
    requires m.phase == Evicted ==> Step(cfg, m, e).phase == Evicted
    ensures var blocks := if e.Tick? then e.blocks else 0;
      Survives(cfg, Step(cfg, m, e), if e.Commit? && m.phase == A then 0 else p + blocks, t + blocks)
  {
    hide AllPresent, InRange;
  }

  /** A set that is still in A or B has seen less than one time to live per phase. */
  lemma {:induction false} SurvivalBound(cfg: Config, chunks: set<int>, commitSeen: bool, events: seq<Event>)
    requires cfg.chunkCount >= 0 && InRange(chunks, cfg.chunkCount) && Known(events)
    requires cfg.ttlBlocks >= 1 && ForwardTicks(events)
    ensures var start := Start(cfg, chunks, commitSeen);
      var m := Run(cfg, start, events);
      && Survives(cfg, m, PhaseBlocks(cfg, start, events), TotalBlocks(events))
      && (m.phase == A || m.phase == B ==> TotalBlocks(events) <= 2 * (cfg.ttlBlocks - 1))
  {
    if events != [] {
      var before, last := events[..|events| - 1], events[|events| - 1];
      assert last in events && forall e :: e in before ==> e in events;
      SurvivalBound(cfg, chunks, commitSeen, before);
      CounterIsExact(cfg, chunks, commitSeen, before);
      RunValid(cfg, chunks, commitSeen, before);
      var start := Start(cfg, chunks, commitSeen);
      var m := Run(cfg, start, before);
      StepValid(cfg, m, last);
      hide Valid, Step, Start;
      SurvivalStep(cfg, m, last, PhaseBlocks(cfg, start, before), TotalBlocks(before));
    }
  }

  /** The bound is reached: wait as long as possible, commit, wait as long as possible. */
  lemma SurvivalBoundIsReached(cfg: Config)
    requires cfg.chunkCount >= 1 && cfg.ttlBlocks >= 1
    ensures var events := [Tick(cfg.ttlBlocks - 1), Commit, Tick(cfg.ttlBlocks - 1)];
      && Run(cfg, Start(cfg, {}, false), events).phase == B
      && TotalBlocks(events) == 2 * (cfg.ttlBlocks - 1)
  {
    var t := Tick(cfg.ttlBlocks - 1);
    var events := [t, Commit, t];
    assert events[..2] == [t, Commit] && events[..2][..1] == [t] && [t][..0] == [];
    var m := Start(cfg, {}, false);
    assert Run(cfg, m, [t]) == Step(cfg, m, t);
    assert Run(cfg, m, [t, Commit]) == Step(cfg, Step(cfg, m, t), Commit);
    var two := [t, Commit];
    assert two[..1] == [t] && events[..2] == two;
    assert TotalBlocks([]) == 0;
    assert TotalBlocks([t]) == TotalBlocks([t][..0]) + t.blocks;
    assert TotalBlocks(two) == TotalBlocks(two[..1]) + 0;
    assert TotalBlocks(events) == TotalBlocks(events[..2]) + t.blocks;
  }

  // ---------------------------------------------------------------- order of arrival

  predicate TickFree(events: seq<Event>) {
    forall e :: e in events ==> e.Chunk? || e.Commit?
  }

  function Arrived(cfg: Config, events: seq<Event>): (s: set<int>)
  {
    set e | e in events && e.Chunk? && 0 <= e.index < cfg.chunkCount :: e.index
  }

  /** The machine after `arrived` chunks and possibly a commit, in any order. */
  ghost predicate IsOutcome(cfg: Config, start: Machine, arrived: set<int>, commit: bool, m: Machine) {
    && m.chunks == start.chunks + arrived && m.commitSeen == (start.commitSeen || commit)
    && m.phase == (if !m.commitSeen then A else if AllPresent(m.chunks, cfg.chunkCount) then C else B)
    && m.ttl == start.ttl
    && m.resets == (if !start.commitSeen && commit then 1 else 0)
  }

  lemma OutcomeChunk(cfg: Config, start: Machine, arrived: set<int>, commit: bool, m: Machine, index: int)
    requires cfg.chunkCount >= 0 && Valid(cfg, m) && IsOutcome(cfg, start, arrived, commit, m) && m.phase != Evicted
    ensures var one := if 0 <= index < cfg.chunkCount then {index} else {};
      IsOutcome(cfg, start, arrived + one, commit, OnChunk(cfg, m, index))
  {
    var m' := OnChunk(cfg, m, index);
    ChunkValid(cfg, m, index);
    var one := if 0 <= index < cfg.chunkCount then {index} else {};
    assert m'.chunks == start.chunks + (arrived + one);
    hide AllPresent, InRange;
  }

  lemma OutcomeCommit(cfg: Config, start: Machine, arrived: set<int>, commit: bool, m: Machine)
    requires cfg.chunkCount >= 0 && Valid(cfg, m) && IsOutcome(cfg, start, arrived, commit, m) && m.phase != Evicted
    requires !start.commitSeen ==> start.ttl == cfg.ttlBlocks
    ensures IsOutcome(cfg, start, arrived, true, OnCommit(cfg, m))
  {
    CommitValid(cfg, m);
    hide AllPresent, InRange;
  }

  lemma OutcomeStep(
    cfg: Config, chunks: set<int>, commitSeen: bool, arrived: set<int>, commit: bool, m: Machine, e: Event)
    requires cfg.chunkCount >= 0 && Valid(cfg, m) && (e.Chunk? || e.Commit?)
    requires IsOutcome(cfg, Start(cfg, chunks, commitSeen), arrived, commit, m)
    ensures var one := if e.Chunk? && 0 <= e.index < cfg.chunkCount then {e.index} else {};
      IsOutcome(cfg, Start(cfg, chunks, commitSeen), arrived + one, commit || e.Commit?, Step(cfg, m, e))
  {
    var start := Start(cfg, chunks, commitSeen);
    assert m.phase != Evicted && (!start.commitSeen ==> start.ttl == cfg.ttlBlocks);
    hide Start, Valid, IsOutcome, OnChunk, OnCommit;
    match e
    case Chunk(index) => OutcomeChunk(cfg, start, arrived, commit, m, index);
    case Commit =>
      OutcomeCommit(cfg, start, arrived, commit, m);
      assert arrived + {} == arrived;
  }

  /** Without ticks the outcome depends only on which chunks arrived and whether a commit did. */
  lemma {:induction false} TickFreeOutcome(cfg: Config, chunks: set<int>, commitSeen: bool, events: seq<Event>)
    requires cfg.chunkCount >= 0 && InRange(chunks, cfg.chunkCount) && TickFree(events)
    ensures Known(events)
    ensures var start := Start(cfg, chunks, commitSeen);
      IsOutcome(cfg, start, Arrived(cfg, events), Commit in events, Run(cfg, start, events))
  {
    if events == [] {
      Pigeonhole(chunks, cfg.chunkCount);
      assert chunks + Arrived(cfg, events) == chunks;
    } else {
      var before, last := events[..|events| - 1], events[|events| - 1];
      assert events == before + [last];
      assert last in events && forall e :: e in before ==> e in events;
      TickFreeOutcome(cfg, chunks, commitSeen, before);
      RunValid(cfg, chunks, commitSeen, before);
      hide Valid, IsOutcome, Start, Step, Arrived, InRange, TickFree;
      ArrivedStep(cfg, before, last);
      OutcomeStep(cfg, chunks, commitSeen, Arrived(cfg, before), Commit in before,
                  Run(cfg, Start(cfg, chunks, commitSeen), before), last);
    }
  }

  lemma ArrivedStep(cfg: Config, before: seq<Event>, last: Event)
    ensures Arrived(cfg, before + [last])
         == Arrived(cfg, before) + if last.Chunk? && 0 <= last.index < cfg.chunkCount then {last.index} else {}
    ensures Commit in before + [last] <==> Commit in before || last.Commit?
  {
    assert forall e :: e in before + [last] <==> e in before || e == last;
    assert last in before + [last];
  }

  /** Reordering chunks and commits changes nothing but when the phases are passed. */
  lemma OrderDoesNotMatter(
    cfg: Config, chunks: set<int>, commitSeen: bool, events: seq<Event>, reordered: seq<Event>)
    requires cfg.chunkCount >= 0 && InRange(chunks, cfg.chunkCount) && TickFree(events)
    requires multiset(events) == multiset(reordered)
    ensures Known(events) && Known(reordered)
    ensures Run(cfg, Start(cfg, chunks, commitSeen), events) == Run(cfg, Start(cfg, chunks, commitSeen), reordered)
  {
    forall e
      ensures e in events <==> e in reordered
    {
      assert e in multiset(events) <==> e in multiset(reordered);
    }
    assert TickFree(reordered);
    assert Arrived(cfg, events) == Arrived(cfg, reordered);
    TickFreeOutcome(cfg, chunks, commitSeen, events);
    TickFreeOutcome(cfg, chunks, commitSeen, reordered);
    RunValid(cfg, chunks, commitSeen, events);
    RunValid(cfg, chunks, commitSeen, reordered);
    NoAnswers(cfg, Start(cfg, chunks, commitSeen), events);
    NoAnswers(cfg, Start(cfg, chunks, commitSeen), reordered);
  }

  lemma {:induction false} NoAnswers(cfg: Config, m: Machine, events: seq<Event>)
    requires TickFree(events) && Known(events)
    ensures Run(cfg, m, events).answers == m.answers
  {
    if events != [] {
      NoAnswers(cfg, m, events[..|events| - 1]);
      assert events[|events| - 1] in events;
    }
  }

  // ---------------------------------------------------------------- the retention vector

  datatype Retention = Retention(phase: Phase, missing: seq<int>)

  /** The retention vector lists the missing chunks and derives the phase from them. */
  method RetainOnCommit(chunkCount: int, initial: set<int>, commitArrives: bool) returns (r: Result<Retention, ()>)
    ensures r.Err? <==> chunkCount <= 0
    ensures r.Ok? ==> forall i :: i in r.value.missing <==> 0 <= i < chunkCount && i !in initial
    ensures r.Ok? ==> forall i, j :: 0 <= i < j < |r.value.missing| ==> r.value.missing[i] < r.value.missing[j]
    ensures r.Ok? ==>
      r.value.phase == if !commitArrives then A else if AllPresent(initial, chunkCount) then C else B
  {
    if chunkCount <= 0 {
      return Err(());
    }
    var missing := [];
    for i := 0 to chunkCount
      invariant forall j :: j in missing <==> 0 <= j < i && j !in initial
      invariant forall j, k :: 0 <= j < k < |missing| ==> missing[j] < missing[k]
    {
      assert forall j :: 0 <= j < |missing| ==> missing[j] in missing;
      if i !in initial {
        missing := missing + [i];
      }
    }
    if commitArrives && |missing| > 0 {
      assert missing[0] in missing;
    }
    return Ok(Retention(if !commitArrives then A else if |missing| == 0 then C else B, missing));
  }

  /** The phase the retention vector derives is the one the machine reaches on a single commit. */
  lemma RetentionAgrees(cfg: Config, chunks: set<int>)
    requires cfg.chunkCount >= 0 && InRange(chunks, cfg.chunkCount)
    ensures Run(cfg, Start(cfg, chunks, false), [Commit]).phase
         == if AllPresent(chunks, cfg.chunkCount) then C else B
    ensures Run(cfg, Start(cfg, chunks, false), []).phase == A
  {
    TickFreeOutcome(cfg, chunks, false, [Commit]);
    assert Arrived(cfg, [Commit]) == {};
    assert chunks + {} == chunks;
  }
}
