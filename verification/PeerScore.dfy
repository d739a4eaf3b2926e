/** The peer quality score of the compact-block vectors: a clamped fold of event deltas, then a decay to the middle. */
module PeerScore {
  import opened Bytes

  datatype Event =
    | ReconstructNoGetBlockTxn
    | GetBlockTxnFirstTry
    | PrefetchCompleted
    | IncompleteSet
    | GetBlockTxnRequired
    | FullBlockRequired
    | PrefetchCapExceeded
    | Unknown

  const MIDDLE: int := 50
  const DECAY_BLOCKS: int := 144

  function Delta(e: Event): (d: int)
  {
    match e
    case ReconstructNoGetBlockTxn => 2
    case GetBlockTxnFirstTry => 1
    case PrefetchCompleted => 1
    case IncompleteSet => -5
    case GetBlockTxnRequired => -3
    case FullBlockRequired => -10
    case PrefetchCapExceeded => -2
    case Unknown => 0
  }

  /** A penalty halved toward zero. */
  function Halved(d: int): (h: int)
  {
    if d < 0 then -((-d) / 2) else d / 2
  }

  function Clamp(x: int): (y: int)
    ensures 0 <= y <= 100
  {
    if x < 0 then 0 else if x > 100 then 100 else x
  }

  function After(score: int, e: Event, grace: bool): (s: int)
  {
    Clamp(score + if grace && Delta(e) < 0 then Halved(Delta(e)) else Delta(e))
  }

  function Fold(score: int, events: seq<Event>, grace: bool): (s: int)
  {
    if events == [] then score else After(Fold(score, events[..|events| - 1], grace), events[|events| - 1], grace)
  }

  function Toward(score: int): (s: int)
  {
    if score > MIDDLE then score - 1 else if score < MIDDLE then score + 1 else score
  }

  function Decay(score: int, steps: nat): (s: int)
  {
    if steps == 0 then score else Toward(Decay(score, steps - 1))
  }

  predicate InRange(score: int) {
    0 <= score <= 100
  }

  function Distance(a: int, b: int): (d: nat)
  {
    if a < b then b - a else a - b
  }

  function Max(a: int, b: int): (m: int)
  {
    if a < b then b else a
  }

  // ---------------------------------------------------------------- the loops

  /** The event loop; an unknown event is a problem with the vector. */
  method RunEvents(start: int, events: seq<Event>, grace: bool) returns (r: Result<int, ()>)
    ensures r.Err? <==> Unknown in events
    ensures r.Ok? ==> r.value == Fold(start, events, grace)
  {
    var score := start;
    for i := 0 to |events|
      invariant Unknown !in events[..i] && score == Fold(start, events[..i], grace)
    {
      assert events[..i + 1][..i] == events[..i];
      if events[i] == Unknown {
        return Err(());
      }
      var delta := Delta(events[i]);
      if grace && delta < 0 {
        delta := Halved(delta);
      }
      score := Clamp(score + delta);
    }
    assert events[..|events|] == events;
    return Ok(score);
  }

  /** The decay loop, one step for every 144 elapsed blocks and none for a negative count. */
  method RunDecay(start: int, elapsed: int) returns (score: int)
    ensures score == Decay(start, if elapsed < 0 then 0 else elapsed / DECAY_BLOCKS)
  {
    score := start;
    var steps := if elapsed < 0 then 0 else elapsed / DECAY_BLOCKS;
    for i := 0 to steps
      invariant score == Decay(start, i)
    {
      if score > MIDDLE {
        score := score - 1;
      } else if score < MIDDLE {
        score := score + 1;
      }
    }
  }

  // ---------------------------------------------------------------- properties of every event list

  /** From two start scores in range: both stay in range, in order, and no further apart. */
  lemma {:induction false} FoldIsTame(a: int, b: int, events: seq<Event>, grace: bool)
    requires InRange(a) && InRange(b) && a <= b
    ensures InRange(Fold(a, events, grace)) && InRange(Fold(b, events, grace))
    ensures Fold(a, events, grace) <= Fold(b, events, grace)
    ensures Fold(b, events, grace) - Fold(a, events, grace) <= b - a
  {
    if events != [] {
      FoldIsTame(a, b, events[..|events| - 1], grace);
    }
  }

  /** Halving the penalties during grace never lowers the score, from any start. */
  lemma {:induction false} GraceNeverHurts(score: int, events: seq<Event>)
    ensures Fold(score, events, false) <= Fold(score, events, true)
  {
    if events != [] {
      GraceNeverHurts(score, events[..|events| - 1]);
    }
  }

  /** After `k` decay steps the distance to the middle is what is left of it, on the same side. */
  lemma {:induction false} DecayDistance(score: int, k: nat)
    ensures Distance(Decay(score, k), MIDDLE) == Max(0, Distance(score, MIDDLE) - k)
    ensures (score >= MIDDLE ==> Decay(score, k) >= MIDDLE) && (score <= MIDDLE ==> Decay(score, k) <= MIDDLE)
    ensures InRange(score) ==> InRange(Decay(score, k))
  {
    if k > 0 {
      DecayDistance(score, k - 1);
    }
  }

  /** The whole vector: a score that starts in range ends in range, and a better start never ends worse. */
  lemma ScoreStaysOrdered(a: int, b: int, events: seq<Event>, grace: bool, steps: nat)
    requires InRange(a) && InRange(b) && a <= b
    ensures InRange(Decay(Fold(a, events, grace), steps))
    ensures Decay(Fold(a, events, grace), steps) <= Decay(Fold(b, events, grace), steps)
    ensures Decay(Fold(a, events, false), steps) <= Decay(Fold(a, events, true), steps)
  {
    FoldIsTame(a, b, events, grace);
    GraceNeverHurts(a, events);
    DecayDistance(Fold(a, events, grace), steps);
    DecayIsMonotone(Fold(a, events, grace), Fold(b, events, grace), steps);
    DecayIsMonotone(Fold(a, events, false), Fold(a, events, true), steps);
  }

  lemma {:induction false} DecayIsMonotone(a: int, b: int, steps: nat)
    requires a <= b
    ensures Decay(a, steps) <= Decay(b, steps)
  {
    if steps > 0 {
      DecayIsMonotone(a, b, steps - 1);
    }
  }
}
