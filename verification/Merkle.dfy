/**
 The tagged Merkle root. The source hashes a list level by level, carrying an odd last node to the
 next level unchanged. Its reference is the recursive tree of section 2.1 of RFC 6962, which splits
 a list at the largest power of two below its length. The hash is a parameter; results that would
 need it to be injective instead exhibit the two colliding byte strings.
 */
module Merkle {
  import opened Bytes

  datatype MerkleError = EmptyIdList | IdLength

  function Leaf(h: Hash, leafTag: Byte, id: seq<Byte>): (n: Hash32)
  {
    h([leafTag] + id)
  }

  function Node(h: Hash, nodeTag: Byte, left: Hash32, right: Hash32): (n: Hash32)
  {
    h([nodeTag] + left + right)
  }

  function Leaves(h: Hash, leafTag: Byte, ids: seq<seq<Byte>>): (level: seq<Hash32>)
    ensures |level| == |ids|
    ensures forall i :: 0 <= i < |ids| ==> level[i] == Leaf(h, leafTag, ids[i])
  {
    if ids == [] then [] else [Leaf(h, leafTag, ids[0])] + Leaves(h, leafTag, ids[1..])
  }

  // ---------------------------------------------------------------- level by level

  /** One level up: neighbours are hashed in pairs and an odd last node is carried over. */
  function Up(h: Hash, nodeTag: Byte, level: seq<Hash32>): (next: seq<Hash32>)
    ensures |next| == (|level| + 1) / 2
  {
    if |level| <= 1 then level
    else [Node(h, nodeTag, level[0], level[1])] + Up(h, nodeTag, level[2..])
  }

  function Climb(h: Hash, nodeTag: Byte, level: seq<Hash32>): (root: Hash32)
    requires level != []
    decreases |level|
  {
    if |level| == 1 then level[0] else Climb(h, nodeTag, Up(h, nodeTag, level))
  }

  // ---------------------------------------------------------------- the reference tree

  ghost predicate IsPowerOfTwo(n: nat)
    decreases n
  {
    n == 1 || (n > 1 && n % 2 == 0 && IsPowerOfTwo(n / 2))
  }

  lemma TwicePower(k: nat)
    requires IsPowerOfTwo(k)
    ensures IsPowerOfTwo(2 * k)
  {
    assert 2 * k / 2 == k;
  }

  /** The largest power of two strictly below `n`. */
  function Split(n: nat): (k: nat)
    requires n >= 2
    ensures 1 <= k < n <= 2 * k && IsPowerOfTwo(k)
  {
    if n == 2 then 1
    else
      var half := Split((n + 1) / 2);
      TwicePower(half);
      2 * half
  }

  /** The root by recursion on the two parts. */
  function Tree(h: Hash, leafTag: Byte, nodeTag: Byte, ids: seq<seq<Byte>>): (root: Hash32)
    requires ids != []
    decreases |ids|
  {
    if |ids| == 1 then Leaf(h, leafTag, ids[0])
    else
      var k := Split(|ids|);
      Node(h, nodeTag, Tree(h, leafTag, nodeTag, ids[..k]), Tree(h, leafTag, nodeTag, ids[k..]))
  }

  lemma {:induction false} UpConcat(h: Hash, nodeTag: Byte, a: seq<Hash32>, b: seq<Hash32>)
    requires |a| % 2 == 0
    ensures Up(h, nodeTag, a + b) == Up(h, nodeTag, a) + Up(h, nodeTag, b)
    decreases |a|
  {
    if a == [] {
      assert a + b == b;
    } else {
      assert (a + b)[2..] == a[2..] + b;
      UpConcat(h, nodeTag, a[2..], b);
    }
  }

  /** Climbing one level does not change where the climb ends. */
  lemma ClimbUp(h: Hash, nodeTag: Byte, level: seq<Hash32>)
    requires level != []
    ensures Climb(h, nodeTag, Up(h, nodeTag, level)) == Climb(h, nodeTag, level)
  {
  }

  /** The climb of a list of two or more nodes is the hash of the climbs of its two parts. */
  lemma {:induction false} ClimbSplits(h: Hash, nodeTag: Byte, level: seq<Hash32>)
    requires |level| >= 2
    ensures var k := Split(|level|);
      Climb(h, nodeTag, level) == Node(h, nodeTag, Climb(h, nodeTag, level[..k]), Climb(h, nodeTag, level[k..]))
    decreases |level|
  {
    var k := Split(|level|);
    var up := Up(h, nodeTag, level);
    if |level| == 2 {
      assert up == [Node(h, nodeTag, level[0], level[1])];
      assert level[..1] == [level[0]] && level[1..] == [level[1]];
    } else {
      assert level == level[..k] + level[k..];
      UpConcat(h, nodeTag, level[..k], level[k..]);
      var left, right := Up(h, nodeTag, level[..k]), Up(h, nodeTag, level[k..]);
      assert k == 2 * Split(|up|);
      assert up[..k / 2] == left && up[k / 2..] == right;
      ClimbSplits(h, nodeTag, up);
      ClimbUp(h, nodeTag, level[..k]);
      ClimbUp(h, nodeTag, level[k..]);
    }
  }

  lemma {:induction false} ClimbIsTree(h: Hash, leafTag: Byte, nodeTag: Byte, ids: seq<seq<Byte>>)
    requires ids != []
    ensures Climb(h, nodeTag, Leaves(h, leafTag, ids)) == Tree(h, leafTag, nodeTag, ids)
    decreases |ids|
  {
    var level := Leaves(h, leafTag, ids);
    if |ids| > 1 {
      var k := Split(|ids|);
      ClimbSplits(h, nodeTag, level);
      assert level[..k] == Leaves(h, leafTag, ids[..k]);
      assert level[k..] == Leaves(h, leafTag, ids[k..]);
      ClimbIsTree(h, leafTag, nodeTag, ids[..k]);
      ClimbIsTree(h, leafTag, nodeTag, ids[k..]);
    }
  }

  /** The level-by-level loops of the source compute the recursive tree, and reject only the empty list. */
  method MerkleRootTagged(h: Hash, ids: seq<seq<Byte>>, leafTag: Byte, nodeTag: Byte)
    returns (r: Result<Hash32, MerkleError>)
    ensures ids == [] ==> r == Err(EmptyIdList)
    ensures ids != [] ==> r == Ok(Tree(h, leafTag, nodeTag, ids))
  {
    if ids == [] {
      return Err(EmptyIdList);
    }
    var level: seq<Hash32> := [];
    for i := 0 to |ids|
      invariant level == Leaves(h, leafTag, ids)[..i]
    {
      level := level + [Leaf(h, leafTag, ids[i])];
    }
    assert level == Leaves(h, leafTag, ids);
    while |level| > 1
      invariant level != []
      invariant Climb(h, nodeTag, level) == Climb(h, nodeTag, Leaves(h, leafTag, ids))
      decreases |level|
    {
      level := LevelUp(h, nodeTag, level);
    }
    ClimbIsTree(h, leafTag, nodeTag, ids);
    return Ok(level[0]);
  }

  lemma UpFrom(h: Hash, nodeTag: Byte, level: seq<Hash32>, i: nat)
    requires i < |level|
    ensures i + 1 == |level| ==> Up(h, nodeTag, level[i..]) == [level[i]] + Up(h, nodeTag, level[i + 1..])
    ensures i + 1 < |level| ==>
      Up(h, nodeTag, level[i..]) == [Node(h, nodeTag, level[i], level[i + 1])] + Up(h, nodeTag, level[i + 2..])
  {
    hide Node;
    if i + 1 < |level| {
      assert level[i..][2..] == level[i + 2..];
    }
  }

  method LevelUp(h: Hash, nodeTag: Byte, level: seq<Hash32>) returns (next: seq<Hash32>)
    ensures next == Up(h, nodeTag, level)
  {
    hide Node, Up;
    next := [];
    var i := 0;
    assert level[0..] == level;
    while i < |level|
      invariant 0 <= i <= |level|
      invariant Up(h, nodeTag, level) == next + Up(h, nodeTag, level[i..])
    {
      UpFrom(h, nodeTag, level, i);
      if i == |level| - 1 {
        next := next + [level[i]];
        i := i + 1;
        continue;
      }
      next := next + [Node(h, nodeTag, level[i], level[i + 1])];
      i := i + 2;
    }
    assert |Up(h, nodeTag, level[i..])| == 0;
  }

  // ---------------------------------------------------------------- binding

  /** The string whose hash is the root. */
  function RootPreimage(h: Hash, leafTag: Byte, nodeTag: Byte, ids: seq<seq<Byte>>): (x: seq<Byte>)
    requires ids != []
    ensures h(x) == Tree(h, leafTag, nodeTag, ids)
    ensures x != [] && x[0] == if |ids| == 1 then leafTag else nodeTag
  {
    if |ids| == 1 then [leafTag] + ids[0]
    else
      var k := Split(|ids|);
      [nodeTag] + Tree(h, leafTag, nodeTag, ids[..k]) + Tree(h, leafTag, nodeTag, ids[k..])
  }

  lemma PreimageOfRoot(h: Hash, leafTag: Byte, nodeTag: Byte, ids: seq<seq<Byte>>)
    requires ids != []
    ensures var x := RootPreimage(h, leafTag, nodeTag, ids);
      h(x) == Tree(h, leafTag, nodeTag, ids) && x != [] && x[0] == if |ids| == 1 then leafTag else nodeTag
  {
  }

  lemma IdOfPreimage(h: Hash, leafTag: Byte, nodeTag: Byte, ids: seq<seq<Byte>>)
    requires |ids| == 1
    ensures ids == [RootPreimage(h, leafTag, nodeTag, ids)[1..]]
  {
  }

  lemma PartsOfPreimage(h: Hash, leafTag: Byte, nodeTag: Byte, ids: seq<seq<Byte>>)
    requires |ids| >= 2
    ensures var k, x := Split(|ids|), RootPreimage(h, leafTag, nodeTag, ids);
      && 0 < k < |ids|
      && |x| == 65
      && Tree(h, leafTag, nodeTag, ids[..k]) == x[1..33]
      && Tree(h, leafTag, nodeTag, ids[k..]) == x[33..]
  {
  }

  /** Every string hashed while the root is computed. */
  function TreeStrings(h: Hash, leafTag: Byte, nodeTag: Byte, ids: seq<seq<Byte>>): (xs: set<seq<Byte>>)
    requires ids != []
    decreases |ids|
  {
    var root := {RootPreimage(h, leafTag, nodeTag, ids)};
    if |ids| == 1 then root
    else
      var k := Split(|ids|);
      root + TreeStrings(h, leafTag, nodeTag, ids[..k]) + TreeStrings(h, leafTag, nodeTag, ids[k..])
  }

  /**
   Equal roots mean equal id lists, of any lengths and with ids of any sizes, unless two of the
   strings hashed for them collide.
   */
  lemma {:induction false} RootBinds(
    h: Hash, leafTag: Byte, nodeTag: Byte, a: seq<seq<Byte>>, b: seq<seq<Byte>>, xs: set<seq<Byte>>)
    requires leafTag != nodeTag && a != [] && b != []
    requires TreeStrings(h, leafTag, nodeTag, a) <= xs && TreeStrings(h, leafTag, nodeTag, b) <= xs
    requires Tree(h, leafTag, nodeTag, a) == Tree(h, leafTag, nodeTag, b)
    ensures a == b || CollisionIn(h, xs)
    decreases |a|
  {
    hide TreeStrings, CollisionIn, RootPreimage, Tree, Split;
    var x, y := RootPreimage(h, leafTag, nodeTag, a), RootPreimage(h, leafTag, nodeTag, b);
    PreimageOfRoot(h, leafTag, nodeTag, a);
    PreimageOfRoot(h, leafTag, nodeTag, b);
    StringsOfParts(h, leafTag, nodeTag, a, xs);
    StringsOfParts(h, leafTag, nodeTag, b, xs);
    if x != y {
      Collides(h, x, y, xs);
    } else if |a| == 1 {
      IdOfPreimage(h, leafTag, nodeTag, a);
      IdOfPreimage(h, leafTag, nodeTag, b);
    } else {
      PartsOfPreimage(h, leafTag, nodeTag, a);
      PartsOfPreimage(h, leafTag, nodeTag, b);
      var k, m := Split(|a|), Split(|b|);
      RootBinds(h, leafTag, nodeTag, a[..k], b[..m], xs);
      RootBinds(h, leafTag, nodeTag, a[k..], b[m..], xs);
      assert a == a[..k] + a[k..] && b == b[..m] + b[m..];
    }
  }

  lemma Collides(h: Hash, x: seq<Byte>, y: seq<Byte>, xs: set<seq<Byte>>)
    requires x in xs && y in xs && x != y && h(x) == h(y)
    ensures CollisionIn(h, xs)
  {
  }

  lemma StringsOfParts(
    h: Hash, leafTag: Byte, nodeTag: Byte, ids: seq<seq<Byte>>, xs: set<seq<Byte>>)
    requires ids != [] && TreeStrings(h, leafTag, nodeTag, ids) <= xs
    ensures RootPreimage(h, leafTag, nodeTag, ids) in xs
    ensures |ids| > 1 ==>
      && TreeStrings(h, leafTag, nodeTag, ids[..Split(|ids|)]) <= xs
      && TreeStrings(h, leafTag, nodeTag, ids[Split(|ids|)..]) <= xs
  {
    hide RootPreimage;
  }

  // ---------------------------------------------------------------- the two roots of a block

  function TxidRoot(h: Hash, txids: seq<Hash32>): (r: Result<Hash32, MerkleError>)
  {
    if txids == [] then Err(EmptyIdList) else Ok(Tree(h, 0x00, 0x01, txids))
  }

  /** The root over the witness ids, with the coinbase entry replaced by zeros. */
  function WitnessRoot(h: Hash, wtxids: seq<Hash32>): (r: Result<Hash32, MerkleError>)
  {
    if wtxids == [] then Err(EmptyIdList) else Ok(Tree(h, 0x02, 0x03, wtxids[0 := ZERO32]))
  }

  method MerkleRootTxids(h: Hash, txids: seq<Hash32>) returns (r: Result<Hash32, MerkleError>)
    ensures r == TxidRoot(h, txids)
  {
    r := MerkleRootTagged(h, txids, 0x00, 0x01);
  }

  method WitnessMerkleRootWtxids(h: Hash, wtxids: seq<Hash32>) returns (r: Result<Hash32, MerkleError>)
    ensures r == WitnessRoot(h, wtxids)
  {
    if wtxids == [] {
      return Err(EmptyIdList);
    }
    r := MerkleRootTagged(h, wtxids[0 := ZERO32], 0x02, 0x03);
  }

  /** The fixture generator's variant, which also rejects an id that is not 32 bytes long. */
  method MerkleRootTaggedChecked(h: Hash, ids: seq<seq<Byte>>, leafTag: Byte, nodeTag: Byte)
    returns (r: Result<Hash32, MerkleError>)
    ensures r.Ok? <==> ids != [] && forall i :: 0 <= i < |ids| ==> |ids[i]| == 32
    ensures r.Ok? ==> r.value == Tree(h, leafTag, nodeTag, ids)
    ensures ids == [] ==> r == Err(EmptyIdList)
    ensures r.Err? && ids != [] ==> r == Err(IdLength)
  {
    if ids == [] {
      return Err(EmptyIdList);
    }
    for i := 0 to |ids|
      invariant forall j :: 0 <= j < i ==> |ids[j]| == 32
    {
      if |ids[i]| != 32 {
        return Err(IdLength);
      }
    }
    r := MerkleRootTagged(h, ids, leafTag, nodeTag);
  }

  /** Every string hashed for a txid root, and for a witness root. */
  function TxidStrings(h: Hash, txids: seq<Hash32>): (xs: set<seq<Byte>>)
    requires txids != []
  {
    TreeStrings(h, 0x00, 0x01, txids)
  }

  function WitnessStrings(h: Hash, wtxids: seq<Hash32>): (xs: set<seq<Byte>>)
    requires wtxids != []
  {
    TreeStrings(h, 0x02, 0x03, wtxids[0 := ZERO32])
  }

  /** The witness root fixes every witness id but the coinbase's, and does not depend on that one. */
  lemma WitnessRootBinds(h: Hash, a: seq<Hash32>, b: seq<Hash32>)
    requires a != [] && b != []
    ensures a[1..] == b[1..] ==> WitnessRoot(h, a) == WitnessRoot(h, b)
    ensures WitnessRoot(h, a) == WitnessRoot(h, b) ==>
      a[1..] == b[1..] || CollisionIn(h, WitnessStrings(h, a) + WitnessStrings(h, b))
  {
    var za, zb := a[0 := ZERO32], b[0 := ZERO32];
    assert za == [ZERO32] + a[1..] && zb == [ZERO32] + b[1..];
    if WitnessRoot(h, a) == WitnessRoot(h, b) {
      RootBinds(h, 0x02, 0x03, za, zb, WitnessStrings(h, a) + WitnessStrings(h, b));
      assert za == zb ==> a[1..] == za[1..] == zb[1..] == b[1..];
    }
  }

  lemma TxidRootBinds(h: Hash, a: seq<Hash32>, b: seq<Hash32>)
    requires a != [] && b != [] && TxidRoot(h, a) == TxidRoot(h, b)
    ensures a == b || CollisionIn(h, TxidStrings(h, a) + TxidStrings(h, b))
  {
    RootBinds(h, 0x00, 0x01, a, b, TxidStrings(h, a) + TxidStrings(h, b));
  }

  /** A txid root never equals a witness root. */
  lemma RootsAreSeparated(h: Hash, txids: seq<Hash32>, wtxids: seq<Hash32>)
    requires txids != [] && wtxids != []
    ensures TxidRoot(h, txids) != WitnessRoot(h, wtxids)
      || CollisionIn(h, TxidStrings(h, txids) + WitnessStrings(h, wtxids))
  {
    var x := RootPreimage(h, 0x00, 0x01, txids);
    var y := RootPreimage(h, 0x02, 0x03, wtxids[0 := ZERO32]);
    assert x in TxidStrings(h, txids) && y in WitnessStrings(h, wtxids) && x[0] != y[0];
  }
}
