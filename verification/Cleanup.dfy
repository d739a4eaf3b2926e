/**
 The cleanup classifier of the fixture drift gate: how many retained DA records a block removes, and how
 many of the sets it includes are no-ops.
 */
module Cleanup {
  import opened Bytes
  import opened Finite
  import opened HexText

  // ---------------------------------------------------------------- identities

  datatype Ids = Ids(txid: string, wtxid: string)

  datatype Chunk = Chunk(index: int, ids: Ids)

  /** A complete DA set as stated; two statements are the same set exactly when these fields are equal. */
  datatype Identity = Identity(daId: string, commit: Ids, chunks: seq<Chunk>)

  predicate IdsOk(ids: Ids) {
    IsHashText(ids.txid) && IsHashText(ids.wtxid)
  }

  /** Hash texts throughout, and at least one chunk, with u16 indices ascending strictly. */
  ghost predicate IdentityOk(x: Identity) {
    && IsHashText(x.daId) && IdsOk(x.commit) && x.chunks != []
    && (forall i :: 0 <= i < |x.chunks| ==> IdsOk(x.chunks[i].ids) && 0 <= x.chunks[i].index < U16)
    && (forall i, j :: 0 <= i < j < |x.chunks| ==> x.chunks[i].index < x.chunks[j].index)
  }

  /** The identity check compares each chunk with the one before it only. */
  method CheckIdentity(x: Identity) returns (ok: bool)
    ensures ok <==> IdentityOk(x)
  {
    if !IsHashText(x.daId) || x.chunks == [] || !IdsOk(x.commit) {
      return false;
    }
    var previous := -1;
    for k := 0 to |x.chunks|
      invariant previous == if k == 0 then -1 else x.chunks[k - 1].index
      invariant forall i :: 0 <= i < k ==> IdsOk(x.chunks[i].ids) && 0 <= x.chunks[i].index < U16
      invariant forall i, j :: 0 <= i < j < k ==> x.chunks[i].index < x.chunks[j].index
    {
      var chunk := x.chunks[k];
      if !(0 <= chunk.index < U16) || !IdsOk(chunk.ids) || (k > 0 && chunk.index <= previous) {
        return false;
      }
      previous := chunk.index;
    }
    return true;
  }

  // ---------------------------------------------------------------- the cleanup classifier

  datatype Stage = BadIncluded | BadRetained | BadPlan | BadOwnerToken

  const FAULT_KIND := "exact_token_mismatch_against_selected_record"
  const FAULT_TARGET := "CLAIM_DA_SET_1"

  /** What an owner-token case states: its faults by kind and target, the claims it lists, the claim and the record. */
  datatype OwnerToken = OwnerToken(
    faults: seq<(string, string)>, claimListed: bool, claimKind: string, claimDomain: string,
    claimTxid: string, commitTxid: string)

  /** Exactly one fault of the right kind against a listed owner claim that binds the record's commit. */
  predicate OwnerTokenOk(o: OwnerToken) {
    && |o.faults| == 1 && o.faults[0] == (FAULT_KIND, FAULT_TARGET) && o.claimListed
    && o.claimKind == "owner_claim" && o.claimDomain == "da"
    && IsHashText(o.claimTxid) && o.claimTxid == o.commitTxid
  }

  datatype Counts = Counts(removals: nat, noops: int)

  /** The stated case: included sets, retained records by alias, invalid members, the selected plan. */
  datatype Case = Case(
    included: seq<Identity>, retained: seq<string>, invalid: set<string>, plan: seq<string>, faulty: bool,
    owner: Option<OwnerToken>)

  type Records = map<string, Identity>

  ghost predicate Known(recs: Records, alias: string) {
    alias in recs && IdentityOk(recs[alias])
  }

  ghost predicate IncludedOk(c: Case) {
    forall i :: 0 <= i < |c.included| ==> IdentityOk(c.included[i])
  }

  /** Retained aliases name known records, no two of one identity. */
  ghost predicate RetainedOk(recs: Records, retained: seq<string>) {
    && (forall i :: 0 <= i < |retained| ==> Known(recs, retained[i]))
    && (forall i, j :: 0 <= i < j < |retained| ==> recs[retained[i]] != recs[retained[j]])
  }

  ghost predicate PlanOk(recs: Records, c: Case) {
    forall i :: 0 <= i < |c.plan| ==> Known(recs, c.plan[i]) && c.plan[i] in c.retained
  }

  /** The retained records a fault-free cleanup removes: invalid members and included sets. */
  ghost function Removed(recs: Records, c: Case): (s: set<string>)
    requires RetainedOk(recs, c.retained)
  {
    set a | a in c.retained && (a in c.invalid || recs[a] in c.included)
  }

  /** The included sets some retained record states. */
  ghost function Matched(recs: Records, c: Case): (s: set<Identity>)
    requires RetainedOk(recs, c.retained)
  {
    set a | a in c.retained && recs[a] in c.included :: recs[a]
  }

  ghost function Wanted(recs: Records, c: Case): (w: Counts)
    requires RetainedOk(recs, c.retained)
  {
    Counts(if c.faulty then 0 else |Removed(recs, c)|, |SetOf(c.included)| - |Matched(recs, c)|)
  }

  method CollectIncluded(xs: seq<Identity>) returns (ok: bool, included: set<Identity>)
    ensures ok <==> forall i :: 0 <= i < |xs| ==> IdentityOk(xs[i])
    ensures ok ==> included == SetOf(xs)
  {
    ok, included := true, {};
    for i := 0 to |xs|
      invariant forall j :: 0 <= j < i ==> IdentityOk(xs[j])
      invariant included == SetOf(xs[..i])
    {
      assert xs[..i + 1] == xs[..i] + [xs[i]];
      var fine := CheckIdentity(xs[i]);
      if !fine {
        return false, {};
      }
      included := included + {xs[i]};
    }
    assert xs[..|xs|] == xs;
  }

  /** The retained dictionary after the first `i` aliases. */
  ghost predicate Holds(recs: Records, aliases: seq<string>, retained: map<Identity, string>) {
    && (forall a :: a in aliases ==> a in recs && recs[a] in retained && retained[recs[a]] == a)
    && (forall k :: k in retained ==> retained[k] in aliases && retained[k] in recs && recs[retained[k]] == k)
  }

  lemma HoldsStep(recs: Records, aliases: seq<string>, retained: map<Identity, string>, a: string)
    requires Holds(recs, aliases, retained) && a in recs && recs[a] !in retained
    ensures Holds(recs, aliases + [a], retained[recs[a] := a])
  {
  }

  lemma RetainedStep(recs: Records, retained: seq<string>, i: nat, dict: map<Identity, string>)
    requires i < |retained| && RetainedOk(recs, retained[..i]) && Holds(recs, retained[..i], dict)
    ensures RetainedOk(recs, retained[..i + 1])
      <==> Known(recs, retained[i]) && recs[retained[i]] !in dict
  {
    hide IdentityOk;
    var done, next := retained[..i], retained[i];
    assert retained[..i + 1] == done + [next];
    if Known(recs, next) && recs[next] in dict {
      var a := dict[recs[next]];
      var j :| 0 <= j < i && done[j] == a;
      assert retained[..i + 1][j] == a && retained[..i + 1][i] == next;
    }
    if Known(recs, next) && recs[next] !in dict {
      assert forall j :: 0 <= j < i ==> done[j] in done;
    }
    if RetainedOk(recs, retained[..i + 1]) {
      assert Known(recs, retained[..i + 1][i]);
    }
  }

  lemma RetainedPrefix(recs: Records, retained: seq<string>, i: nat)
    requires i <= |retained| && RetainedOk(recs, retained)
    ensures RetainedOk(recs, retained[..i])
  {
    assert forall j :: 0 <= j < i ==> retained[..i][j] == retained[j];
  }

  /** The second loop: the retained dictionary, the removed aliases and the matched identities. */
  method ScanRetained(recs: Records, c: Case, included: set<Identity>)
    returns (ok: bool, dict: map<Identity, string>, removed: set<string>, matched: set<Identity>)
    requires included == SetOf(c.included)
    ensures ok <==> RetainedOk(recs, c.retained)
    ensures ok ==> Holds(recs, c.retained, dict) && removed == Removed(recs, c) && matched == Matched(recs, c)
  {
    hide IdentityOk, RetainedOk, Removed, Matched, Holds;
    ScanBase(recs, c);
    ok, dict, removed, matched := true, map[], {}, {};
    for i := 0 to |c.retained|
      invariant RetainedOk(recs, c.retained[..i]) && Holds(recs, c.retained[..i], dict)
      invariant removed == Removed(recs, c.(retained := c.retained[..i]))
      invariant matched == Matched(recs, c.(retained := c.retained[..i]))
    {
      var alias := c.retained[i];
      RetainedStep(recs, c.retained, i, dict);
      if RetainedOk(recs, c.retained) {
        RetainedPrefix(recs, c.retained, i + 1);
      }
      if alias !in recs {
        return false, map[], {}, {};
      }
      var key := recs[alias];
      var fine := CheckIdentity(key);
      if !fine || key in dict {
        return false, map[], {}, {};
      }
      assert c.retained[..i + 1] == c.retained[..i] + [alias];
      HoldsStep(recs, c.retained[..i], dict, alias);
      RemovedStep(recs, c, i);
      dict := dict[key := alias];
      if alias in c.invalid || key in included {
        removed := removed + {alias};
      }
      if key in included {
        matched := matched + {key};
      }
    }
    assert c.retained[..|c.retained|] == c.retained;
  }

  lemma ScanBase(recs: Records, c: Case)
    ensures RetainedOk(recs, c.retained[..0]) && Holds(recs, c.retained[..0], map[])
    ensures Removed(recs, c.(retained := c.retained[..0])) == {} && Matched(recs, c.(retained := c.retained[..0])) == {}
  {
  }

  lemma RemovedStep(recs: Records, c: Case, i: nat)
    requires i < |c.retained| && RetainedOk(recs, c.retained[..i + 1]) && RetainedOk(recs, c.retained[..i])
    ensures var before, after, a := c.(retained := c.retained[..i]), c.(retained := c.retained[..i + 1]), c.retained[i];
      && a in recs
      && Removed(recs, after) == Removed(recs, before) + (if a in c.invalid || recs[a] in c.included then {a} else {})
      && Matched(recs, after) == Matched(recs, before) + (if recs[a] in c.included then {recs[a]} else {})
  {
    hide IdentityOk;
    assert c.retained[..i + 1] == c.retained[..i] + [c.retained[i]];
    assert Known(recs, c.retained[..i + 1][i]);
  }

  method CheckPlan(recs: Records, c: Case, dict: map<Identity, string>) returns (ok: bool)
    requires RetainedOk(recs, c.retained) && Holds(recs, c.retained, dict)
    ensures ok <==> PlanOk(recs, c)
  {
    for i := 0 to |c.plan|
      invariant forall j :: 0 <= j < i ==> Known(recs, c.plan[j]) && c.plan[j] in c.retained
    {
      var alias := c.plan[i];
      if alias !in recs {
        return false;
      }
      var fine := CheckIdentity(recs[alias]);
      if !fine || recs[alias] !in dict || dict[recs[alias]] != alias {
        return false;
      }
    }
    return true;
  }

  /** The classifier: which stage refuses the case, or the counts it wants. */
  method Classify(recs: Records, c: Case) returns (r: Result<Counts, Stage>)
    ensures r == Err(BadIncluded) <==> !IncludedOk(c)
    ensures r == Err(BadRetained) <==> IncludedOk(c) && !RetainedOk(recs, c.retained)
    ensures r == Err(BadPlan) <==> IncludedOk(c) && RetainedOk(recs, c.retained) && !PlanOk(recs, c)
    ensures r == Err(BadOwnerToken) <==>
      && IncludedOk(c) && RetainedOk(recs, c.retained) && PlanOk(recs, c)
      && c.owner.Some? && !OwnerTokenOk(c.owner.value)
    ensures r.Ok? ==> RetainedOk(recs, c.retained) && r.value == Wanted(recs, c)
  {
    var includedOk, included := CollectIncluded(c.included);
    if !includedOk {
      return Err(BadIncluded);
    }
    var retainedOk, dict, removed, matched := ScanRetained(recs, c, included);
    if !retainedOk {
      return Err(BadRetained);
    }
    var planOk := CheckPlan(recs, c, dict);
    if !planOk {
      return Err(BadPlan);
    }
    if c.faulty {
      removed := {};
    }
    if c.owner.Some? && !OwnerTokenOk(c.owner.value) {
      return Err(BadOwnerToken);
    }
    return Ok(Counts(|removed|, |included| - |matched|));
  }

  /** The retained records that are invalid without being included. */
  ghost function InvalidOnly(recs: Records, c: Case): (s: set<string>)
    requires RetainedOk(recs, c.retained)
  {
    set a | a in c.retained && a in c.invalid && recs[a] !in c.included
  }

  ghost function IncludedRecords(recs: Records, c: Case): (s: set<string>)
    requires RetainedOk(recs, c.retained)
  {
    set a | a in c.retained && recs[a] in c.included
  }

  ghost function Image(recs: Records, s: set<string>): (t: set<Identity>)
    requires s <= recs.Keys
  {
    set a | a in s :: recs[a]
  }

  lemma {:induction false} ImageSize(recs: Records, s: set<string>)
    requires s <= recs.Keys && forall a, b :: a in s && b in s && a != b ==> recs[a] != recs[b]
    ensures |Image(recs, s)| == |s|
  {
    if s != {} {
      var a :| a in s;
      ImageSize(recs, s - {a});
      assert Image(recs, s) == Image(recs, s - {a}) + {recs[a]};
    }
  }

  lemma DistinctRecords(recs: Records, retained: seq<string>, a: string, b: string)
    requires RetainedOk(recs, retained) && a in retained && b in retained && a != b
    ensures recs[a] != recs[b]
  {
    hide IdentityOk;
    var i :| 0 <= i < |retained| && retained[i] == a;
    var j :| 0 <= j < |retained| && retained[j] == b;
    if i < j {
      assert recs[retained[i]] != recs[retained[j]];
    } else {
      assert recs[retained[j]] != recs[retained[i]];
    }
  }

  /**
   Conservation: without a fault the removals and the no-ops together count every distinct included set once
   and every record that is invalid only; a fault takes the removals to zero and leaves the no-ops.
   */
  lemma CleanupCounts(recs: Records, c: Case)
    requires RetainedOk(recs, c.retained)
    ensures !c.faulty ==>
      Wanted(recs, c).removals + Wanted(recs, c).noops == |SetOf(c.included)| + |InvalidOnly(recs, c)|
    ensures c.faulty ==> Wanted(recs, c) == Counts(0, Wanted(recs, c.(faulty := false)).noops)
    ensures 0 <= Wanted(recs, c).noops <= |SetOf(c.included)|
  {
    var hit, only := IncludedRecords(recs, c), InvalidOnly(recs, c);
    forall a, b | a in hit && b in hit && a != b
      ensures recs[a] != recs[b]
    {
      DistinctRecords(recs, c.retained, a, b);
    }
    hide IdentityOk;
    assert forall a :: a in hit ==> Known(recs, a);
    ImageSize(recs, hit);
    assert Matched(recs, c) == Image(recs, hit);
    assert Removed(recs, c) == hit + only;
    assert hit !! only;
    assert Matched(recs, c) <= SetOf(c.included);
    SubsetSize(Matched(recs, c), SetOf(c.included));
    var calm := c.(faulty := false);
    assert Matched(recs, calm) == Matched(recs, c);
  }
}
