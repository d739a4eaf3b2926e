/**
 The window of block times a candidate is judged by: the times of the eleven blocks before it, newest
 first. The store derives it from heights; the preview of a switch slides it one block at a time.
 */
module Times {
  import opened Bytes
  import opened Wire
  import opened BlockWire

  const MAX_WINDOW := 11

  type Window = seq<uint64>

  function Min(a: nat, b: nat): (m: nat)
  {
    if a < b then a else b
  }

  /** The times of the last `n` blocks, newest first. */
  function LastTimes(chain: seq<ParsedBlock>, n: nat): (w: Window)
    ensures |w| == Min(|chain|, n)
    ensures forall i :: 0 <= i < |w| ==> w[i] == chain[|chain| - 1 - i].header.timestamp
  {
    if chain == [] || n == 0 then []
    else [chain[|chain| - 1].header.timestamp] + LastTimes(chain[..|chain| - 1], n - 1)
  }

  function WindowOf(chain: seq<ParsedBlock>): (w: Window)
  {
    LastTimes(chain, MAX_WINDOW)
  }

  /** The store's loop over heights. */
  method TimesForHeight(chain: seq<ParsedBlock>) returns (w: Window)
    ensures w == WindowOf(chain)
  {
    var len := Min(|chain|, MAX_WINDOW);
    w := [];
    for offset := 0 to len
      invariant |w| == offset && forall i :: 0 <= i < offset ==> w[i] == chain[|chain| - 1 - i].header.timestamp
    {
      w := w + [chain[|chain| - 1 - offset].header.timestamp];
    }
  }

  /** One block further: its time in front, and at most eleven in all. */
  function Advance(w: Window, time: uint64): (next: Window)
  {
    [time] + w[..Min(|w|, MAX_WINDOW - 1)]
  }

  /** Sliding the window over a block gives the window of the longer chain. */
  lemma WindowSlides(chain: seq<ParsedBlock>, block: ParsedBlock)
    ensures Advance(WindowOf(chain), block.header.timestamp) == WindowOf(chain + [block])
  {
    var longer := chain + [block];
    assert longer[..|chain|] == chain;
    var a, b := Advance(WindowOf(chain), block.header.timestamp), WindowOf(longer);
    hide LastTimes;
    assert |a| == |b|;
    assert forall i :: 0 <= i < |a| ==> a[i] == b[i];
  }

  function Slide(w: Window, branch: seq<ParsedBlock>): (next: Window)
    decreases |branch|
  {
    if branch == [] then w else Slide(Advance(w, branch[0].header.timestamp), branch[1..])
  }

  /** Slid over a whole branch, the ancestor's window is the window of the longer chain. */
  lemma {:induction false} WindowSlidesOver(chain: seq<ParsedBlock>, branch: seq<ParsedBlock>)
    ensures Slide(WindowOf(chain), branch) == WindowOf(chain + branch)
    decreases |branch|
  {
    hide WindowOf, Advance;
    if branch == [] {
      assert chain + branch == chain;
    } else {
      WindowSlides(chain, branch[0]);
      WindowSlidesOver(chain + [branch[0]], branch[1..]);
      assert chain + [branch[0]] + branch[1..] == chain + branch;
    }
  }
}
