/**
 Disconnecting undoes connecting. For every block that connects, the undo record can be built, and
 disconnecting with it restores the previous state exactly when no unspent output of the previous
 state is overwritten and every outpoint created twice is spent by a later transaction of the block.
 */
module Reorg {
  import opened Bytes
  import opened Wire
  import opened TxWire
  import opened BlockWire
  import opened Utxo
  import opened ChainState
  import Commitments

  // ---------------------------------------------------------------- the block as set operations

  /** The unspent outputs after the first `n` transactions. */
  ghost function After(block: ParsedBlock, height: nat, u: Utxos, n: nat): (w: Utxos)
    requires Shaped(block) && n <= |block.txs|
  {
    if n == 0 then u
    else (After(block, height, u, n - 1) - SpentIn(block, n - 1)) + CreatedIn(block, n - 1, height)
  }

  predicate DistinctInputs(inputs: seq<TxInput>) {
    forall i, j :: 0 <= i < j < |inputs| ==> PrevOut(inputs[i]) != PrevOut(inputs[j])
  }

  /** Every transaction spends outputs that are there, none of them twice. */
  ghost predicate Plays(block: ParsedBlock, height: nat, u: Utxos, n: nat)
    requires Shaped(block) && n <= |block.txs|
  {
    forall k :: 0 <= k < n ==> PlaysAt(block, height, u, k)
  }

  ghost predicate PlaysAt(block: ParsedBlock, height: nat, u: Utxos, k: nat)
    requires Shaped(block) && k < |block.txs|
  {
    && SpentIn(block, k) <= After(block, height, u, k).Keys
    && (k > 0 ==> DistinctInputs(block.txs[k].tx.core.inputs))
  }

  lemma ApplyNextPlays(rules: Rules, t: BlockTx, height: nat, w: Work)
    requires |t.tx.core.outputs| <= MAX_TX_OUTPUTS && ApplyNext(rules, t, height, w).Ok?
    ensures ApplyNext(rules, t, height, w).value.utxos == Utxo.After(w.utxos, t, height)
    ensures PrevOuts(t.tx.core.inputs) <= w.utxos.Keys && DistinctInputs(t.tx.core.inputs)
  {
    AppliedSpendsPresent(rules.tx, t, w.utxos, height);
    ResolveIsExact(t.tx.core.inputs, w.utxos, SpendingOf(rules.tx, t, height), {}, []);
  }

  lemma AfterCoinbase(block: ParsedBlock, height: nat, u: Utxos)
    requires Shaped(block)
    ensures After(block, height, u, 1) == u + CreatedIn(block, 0, height) && PlaysAt(block, height, u, 0)
  {
    hide CreatedIn;
    assert After(block, height, u, 0) == u && u - SpentIn(block, 0) == u;
  }

  lemma AfterNext(rules: Rules, block: ParsedBlock, height: nat, u: Utxos, k: nat, w: Work)
    requires Shaped(block) && 1 <= k < |block.txs| && w.utxos == After(block, height, u, k)
    requires ApplyNext(rules, block.txs[k], height, w).Ok?
    ensures ApplyNext(rules, block.txs[k], height, w).value.utxos == After(block, height, u, k + 1)
    ensures PlaysAt(block, height, u, k)
  {
    hide ApplyNext, CreatedBy, PrevOuts;
    ApplyNextPlays(rules, block.txs[k], height, w);
  }

  lemma {:induction false} ApplyFirstPlays(rules: Rules, block: ParsedBlock, height: nat, u: Utxos, n: nat)
    requires Shaped(block) && 1 <= n <= |block.txs| && ApplyFirst(rules, block, height, u, n).Ok?
    ensures ApplyFirst(rules, block, height, u, n).value.utxos == After(block, height, u, n)
    ensures Plays(block, height, u, n)
    decreases n
  {
    hide ApplyNext, PlaysAt, CoinbaseOutputError;
    if n == 1 {
      AfterCoinbase(block, height, u);
    } else {
      ApplyFirstPlays(rules, block, height, u, n - 1);
      AfterNext(rules, block, height, u, n - 1, ApplyFirst(rules, block, height, u, n - 1).value);
    }
  }

  // ---------------------------------------------------------------- building the undo record

  /** Outputs created by the first `n` transactions and not spent by them since. */
  ghost function Unspent(block: ParsedBlock, n: nat): (ops: set<Outpoint>)
    requires Shaped(block) && n <= |block.txs|
  {
    if n == 0 then {} else (Unspent(block, n - 1) - SpentIn(block, n - 1)) + OutpointsOf(block.txs[n - 1])
  }

  /** The part of what transaction `k` spends that comes from before the block. */
  ghost function Recorded(block: ParsedBlock, k: nat): (ops: set<Outpoint>)
    requires Shaped(block) && k < |block.txs|
  {
    SpentIn(block, k) - Unspent(block, k)
  }

  ghost function RecordedFirst(block: ParsedBlock, n: nat): (ops: set<Outpoint>)
    requires Shaped(block) && n <= |block.txs|
  {
    if n == 0 then {} else RecordedFirst(block, n - 1) + Recorded(block, n - 1)
  }

  /** Everything in `w` is in `unspent` or is unchanged from `u` and not in `recorded`. */
  ghost predicate Sourced(w: Utxos, u: Utxos, unspent: set<Outpoint>, recorded: set<Outpoint>) {
    && unspent <= w.Keys
    && forall op :: op in w && op !in unspent ==> op in u && w[op] == u[op] && op !in recorded
  }

  lemma SourcedStep(
    w: Utxos, u: Utxos, unspent: set<Outpoint>, recorded: set<Outpoint>, spent: set<Outpoint>, created: Utxos)
    requires Sourced(w, u, unspent, recorded) && spent <= w.Keys
    ensures Sourced((w - spent) + created, u, (unspent - spent) + created.Keys, recorded + (spent - unspent))
  {
  }

  /** Everything present comes from the block or is untouched from before it. */
  lemma {:induction false} Provenance(block: ParsedBlock, height: nat, u: Utxos, n: nat)
    requires Shaped(block) && n <= |block.txs| && Plays(block, height, u, n)
    ensures Sourced(After(block, height, u, n), u, Unspent(block, n), RecordedFirst(block, n))
  {
    hide Sourced, SpentIn, CreatedIn, OutpointsOf, DistinctInputs;
    if n > 0 {
      assert PlaysAt(block, height, u, n - 1);
      Provenance(block, height, u, n - 1);
      SourcedStep(After(block, height, u, n - 1), u, Unspent(block, n - 1), RecordedFirst(block, n - 1),
                  SpentIn(block, n - 1), CreatedIn(block, n - 1, height));
    } else {
      NothingTouched(u);
    }
  }

  lemma NothingTouched(u: Utxos)
    ensures Sourced(u, u, {}, {})
  {
  }

  /** `spent` lists the outpoints `ops` once each, with their entries in `u`. */
  ghost predicate IsRecord(spent: seq<SpentUndo>, ops: set<Outpoint>, u: Utxos) {
    && (forall i :: 0 <= i < |spent| ==>
          spent[i].outpoint in ops && spent[i].outpoint in u && spent[i].entry == u[spent[i].outpoint])
    && (forall i, j :: 0 <= i < j < |spent| ==> spent[i].outpoint != spent[j].outpoint)
    && (forall op :: op in ops ==> exists i :: 0 <= i < |spent| && spent[i].outpoint == op)
  }

  lemma {:induction false} UndoInputsRecords(
    u: Utxos, inputs: seq<TxInput>, sets: UndoSets, spent: seq<SpentUndo>, before: set<Outpoint>)
    requires DistinctInputs(inputs) && IsRecord(spent, before, u) && before <= sets.spentPrev
    requires forall i :: 0 <= i < |inputs| ==>
      PrevOut(inputs[i]) in sets.blockOutputs || (PrevOut(inputs[i]) in u && PrevOut(inputs[i]) !in sets.spentPrev)
    ensures var ops := PrevOuts(inputs);
      var r := UndoInputs(u, inputs, sets, spent);
      && r.Ok?
      && r.value.sets == UndoSets(sets.spentPrev + (ops - sets.blockOutputs), sets.blockOutputs - ops)
      && IsRecord(r.value.spent, before + (ops - sets.blockOutputs), u)
    decreases |inputs|
  {
    var ops := PrevOuts(inputs);
    if inputs == [] {
      assert ops == {};
      assert before + (ops - sets.blockOutputs) == before;
      assert sets == UndoSets(sets.spentPrev + (ops - sets.blockOutputs), sets.blockOutputs - ops);
    } else {
      var op, rest := PrevOut(inputs[0]), inputs[1..];
      HeadAndTail(inputs);
      if op in sets.blockOutputs {
        var sets' := sets.(blockOutputs := sets.blockOutputs - {op});
        UndoInputsRecords(u, rest, sets', spent, before);
        assert ops - sets.blockOutputs == PrevOuts(rest) - sets'.blockOutputs;
        assert sets.blockOutputs - ops == sets'.blockOutputs - PrevOuts(rest);
      } else {
        var sets' := sets.(spentPrev := sets.spentPrev + {op});
        RecordOneMore(spent, before, u, op);
        UndoInputsRecords(u, rest, sets', spent + [SpentUndo(op, u[op])], before + {op});
        assert ops - sets.blockOutputs == {op} + (PrevOuts(rest) - sets.blockOutputs);
        assert before + (ops - sets.blockOutputs) == before + {op} + (PrevOuts(rest) - sets.blockOutputs);
        assert sets.spentPrev + (ops - sets.blockOutputs) == sets'.spentPrev + (PrevOuts(rest) - sets.blockOutputs);
        assert sets.blockOutputs - ops == sets.blockOutputs - PrevOuts(rest);
      }
    }
  }

  lemma HeadAndTail(inputs: seq<TxInput>)
    requires inputs != [] && DistinctInputs(inputs)
    ensures PrevOuts(inputs) == {PrevOut(inputs[0])} + PrevOuts(inputs[1..])
    ensures PrevOut(inputs[0]) !in PrevOuts(inputs[1..]) && DistinctInputs(inputs[1..])
    ensures forall i :: 0 <= i < |inputs[1..]| ==> inputs[1..][i] == inputs[i + 1]
  {
    assert forall i :: i in inputs <==> i == inputs[0] || i in inputs[1..];
  }

  lemma RecordOneMore(spent: seq<SpentUndo>, ops: set<Outpoint>, u: Utxos, op: Outpoint)
    requires IsRecord(spent, ops, u) && op in u && op !in ops
    ensures IsRecord(spent + [SpentUndo(op, u[op])], ops + {op}, u)
  {
    var longer := spent + [SpentUndo(op, u[op])];
    forall x | x in ops + {op}
      ensures exists i :: 0 <= i < |longer| && longer[i].outpoint == x
    {
      if x == op {
        assert longer[|spent|].outpoint == x;
      } else {
        var i :| 0 <= i < |spent| && spent[i].outpoint == x;
        assert longer[i].outpoint == x;
      }
    }
  }

  ghost predicate RecordsBlock(undo: seq<seq<SpentUndo>>, block: ParsedBlock, u: Utxos, n: nat)
    requires Shaped(block) && n <= |block.txs|
  {
    n <= |undo| && forall k :: 0 <= k < n ==> IsRecord(undo[k], Recorded(block, k), u)
  }

  /** The undo record of a block that plays is always built and lists exactly what came from before it. */
  lemma {:induction false} UndoFirstRecords(block: ParsedBlock, height: nat, u: Utxos, n: nat)
    requires Shaped(block) && n <= |block.txs| && Plays(block, height, u, n)
    ensures var r := UndoFirst(u, block, n);
      && r.Ok? && r.value.sets == UndoSets(RecordedFirst(block, n), Unspent(block, n))
      && |r.value.txs| == n && RecordsBlock(r.value.txs, block, u, n)
    decreases n
  {
    hide UndoNext, IsRecord, OutpointsOf, After, Recorded, SpentIn;
    if n > 0 {
      UndoFirstRecords(block, height, u, n - 1);
      Provenance(block, height, u, n - 1);
      assert PlaysAt(block, height, u, n - 1);
      UndoNextRecords(block, n - 1, After(block, height, u, n - 1), u, UndoFirst(u, block, n - 1).value);
    }
  }

  lemma RecordsExtend(
    undo: seq<seq<SpentUndo>>, longer: seq<seq<SpentUndo>>, block: ParsedBlock, u: Utxos, n: nat)
    requires Shaped(block) && n < |block.txs| && |undo| == n && |longer| == n + 1 && longer[..n] == undo
    requires RecordsBlock(undo, block, u, n) && IsRecord(longer[n], Recorded(block, n), u)
    ensures RecordsBlock(longer, block, u, n + 1)
  {
    hide IsRecord, Recorded;
    forall k | 0 <= k < n + 1
      ensures IsRecord(longer[k], Recorded(block, k), u)
    {
      if k < n {
        assert longer[k] == longer[..n][k] == undo[k];
      }
    }
  }

  lemma UndoNextRecords(block: ParsedBlock, k: nat, w: Utxos, u: Utxos, done: UndoWork)
    requires Shaped(block) && k < |block.txs| && |done.txs| == k
    requires done.sets == UndoSets(RecordedFirst(block, k), Unspent(block, k)) && RecordsBlock(done.txs, block, u, k)
    requires Sourced(w, u, Unspent(block, k), RecordedFirst(block, k))
    requires SpentIn(block, k) <= w.Keys && (k > 0 ==> DistinctInputs(block.txs[k].tx.core.inputs))
    ensures var r := UndoNext(u, block, k, done);
      && r.Ok? && r.value.sets == UndoSets(RecordedFirst(block, k + 1), Unspent(block, k + 1))
      && RecordsBlock(r.value.txs, block, u, k + 1)
  {
    hide UndoInputs, IsRecord, RecordsBlock, OutpointsOf, DistinctInputs;
    UndoStepRecords(block, k, w, u, done.sets);
    hide SpentIn, Sourced;
    RecordsExtend(done.txs, UndoNext(u, block, k, done).value.txs, block, u, k);
  }

  lemma UndoStepRecords(block: ParsedBlock, k: nat, w: Utxos, u: Utxos, sets: UndoSets)
    requires Shaped(block) && k < |block.txs| && Sourced(w, u, sets.blockOutputs, sets.spentPrev)
    requires SpentIn(block, k) <= w.Keys && (k > 0 ==> DistinctInputs(block.txs[k].tx.core.inputs))
    requires sets.blockOutputs == Unspent(block, k)
    ensures var r := UndoInputs(u, if k == 0 then [] else block.txs[k].tx.core.inputs, sets, []);
      && r.Ok?
      && r.value.sets == UndoSets(sets.spentPrev + Recorded(block, k), sets.blockOutputs - SpentIn(block, k))
      && IsRecord(r.value.spent, Recorded(block, k), u)
  {
    var inputs := if k == 0 then [] else block.txs[k].tx.core.inputs;
    assert PrevOuts(inputs) == SpentIn(block, k);
    forall i | 0 <= i < |inputs|
      ensures PrevOut(inputs[i]) in sets.blockOutputs
        || (PrevOut(inputs[i]) in u && PrevOut(inputs[i]) !in sets.spentPrev)
    {
      assert PrevOut(inputs[i]) in PrevOuts(inputs);
    }
    UndoInputsRecords(u, inputs, sets, [], {});
    assert {} + (PrevOuts(inputs) - sets.blockOutputs) == Recorded(block, k);
  }

  // ---------------------------------------------------------------- unwinding

  /**
   Outpoints whose next event from transaction `n` on is anything but a spend of an output from
   before the block; the unwinding removes these and does not bring them back.
   */
  ghost function Lost(block: ParsedBlock, n: nat): (ops: set<Outpoint>)
    requires Shaped(block) && n <= |block.txs|
    decreases |block.txs| - n
  {
    if n == |block.txs| then {}
    else (Lost(block, n + 1) + OutpointsOf(block.txs[n]) + SpentIn(block, n)) - Recorded(block, n)
  }

  function Restrict(u: Utxos, ops: set<Outpoint>): (m: Utxos)
  {
    map op | op in ops && op in u :: u[op]
  }

  /** Restoring a record puts back exactly the entries it lists. */
  lemma {:induction false} RestoreRecord(w: Restoring, spent: seq<SpentUndo>, ops: set<Outpoint>, u: Utxos)
    requires IsRecord(spent, ops, u) && ops !! w.restored && ops !! w.utxos.Keys
    ensures Restore(w, spent) == Ok(Restoring(w.utxos + Restrict(u, ops), w.restored + ops))
    decreases |spent|
  {
    hide IsRecord, Restrict, Restore;
    if spent == [] {
      NothingRestored(w, spent, ops, u);
    } else {
      var op := spent[0].outpoint;
      RecordTail(spent, ops, u);
      RestoreHead(w, spent, u);
      StillApart(ops, op, w.restored, w.utxos, u[op]);
      RestoreRecord(Restoring(w.utxos[op := u[op]], w.restored + {op}), spent[1..], ops - {op}, u);
      InsertOne(w.utxos, u, ops, op);
    }
  }

  lemma NothingRestored(w: Restoring, spent: seq<SpentUndo>, ops: set<Outpoint>, u: Utxos)
    requires spent == [] && IsRecord(spent, ops, u)
    ensures Restore(w, spent) == Ok(Restoring(w.utxos + Restrict(u, ops), w.restored + ops))
  {
    assert ops == {};
    assert w.utxos + Restrict(u, ops) == w.utxos && w.restored + ops == w.restored;
  }

  lemma StillApart(ops: set<Outpoint>, op: Outpoint, restored: set<Outpoint>, utxos: Utxos, e: UtxoEntry)
    requires op in ops && ops !! restored && ops !! utxos.Keys
    ensures ops - {op} !! restored + {op} && ops - {op} !! utxos[op := e].Keys
    ensures restored + {op} + (ops - {op}) == restored + ops
  {
  }

  lemma RestoreHead(w: Restoring, spent: seq<SpentUndo>, u: Utxos)
    requires spent != [] && spent[0].outpoint in u && spent[0].entry == u[spent[0].outpoint]
    requires spent[0].outpoint !in w.restored && spent[0].outpoint !in w.utxos
    ensures var op := spent[0].outpoint;
      Restore(w, spent) == Restore(Restoring(w.utxos[op := u[op]], w.restored + {op}), spent[1..])
  {
  }

  lemma InsertOne(w: Utxos, u: Utxos, ops: set<Outpoint>, op: Outpoint)
    requires op in ops && op in u
    ensures w[op := u[op]] + Restrict(u, ops - {op}) == w + Restrict(u, ops)
  {
  }

  lemma RecordTail(spent: seq<SpentUndo>, ops: set<Outpoint>, u: Utxos)
    requires spent != [] && IsRecord(spent, ops, u)
    ensures IsRecord(spent[1..], ops - {spent[0].outpoint}, u)
    ensures spent[0].outpoint in ops && spent[0].outpoint in u && spent[0].entry == u[spent[0].outpoint]
  {
    var tail, rest := spent[1..], ops - {spent[0].outpoint};
    assert forall i :: 0 <= i < |tail| ==> tail[i] == spent[i + 1];
    forall op | op in rest
      ensures exists i :: 0 <= i < |tail| && tail[i].outpoint == op
    {
      var i :| 0 <= i < |spent| && spent[i].outpoint == op;
      assert tail[i - 1].outpoint == op;
    }
  }

  /** One step back, on maps and sets. */
  lemma StepBack(
    w: Utxos, u: Utxos, unspent: set<Outpoint>, recordedBefore: set<Outpoint>,
    spent: set<Outpoint>, created: Utxos, lost: set<Outpoint>)
    requires Sourced(w, u, unspent, recordedBefore) && spent <= w.Keys
    ensures var recorded := spent - unspent;
      var after := (w - spent) + created;
      && recorded !! (after - lost - created.Keys).Keys && recorded !! recordedBefore
      && (after - lost - created.Keys) + Restrict(u, recorded) == w - ((lost + created.Keys + spent) - recorded)
  {
    var recorded := spent - unspent;
    var after := (w - spent) + created;
    var l := (after - lost - created.Keys) + Restrict(u, recorded);
    var r := w - ((lost + created.Keys + spent) - recorded);
    assert l.Keys == r.Keys;
    assert forall op :: op in l ==> l[op] == r[op];
  }

  /** No transaction before `n` created an output that is lost later without being spent inside the block. */
  ghost predicate Removable(block: ParsedBlock, n: nat)
    requires Shaped(block) && n <= |block.txs|
  {
    forall k :: 0 <= k < n ==> OutpointsOf(block.txs[k]) * Lost(block, k + 1) <= SpentInside(block, |block.txs|)
  }

  lemma UnwindOne(
    block: ParsedBlock, height: nat, u: Utxos, undo: seq<seq<SpentUndo>>, k: nat, restored: set<Outpoint>)
    requires Shaped(block) && k < |block.txs| == |undo| && Plays(block, height, u, |block.txs|)
    requires RecordsBlock(undo, block, u, |block.txs|) && restored !! RecordedFirst(block, k + 1)
    ensures var inside := SpentInside(block, |block.txs|);
      var w := Restoring(After(block, height, u, k + 1) - Lost(block, k + 1), restored);
      UnwindTx(block.txs[k], undo[k], inside, w)
      == if OutpointsOf(block.txs[k]) * Lost(block, k + 1) <= inside
         then Ok(Restoring(After(block, height, u, k) - Lost(block, k), restored + Recorded(block, k)))
         else Err(MissingCreated)
  {
    hide IsRecord, OutpointsOf, SpentInside, CreatedIn, DistinctInputs, SpentIn, Unspent, Restore;
    Provenance(block, height, u, k);
    assert PlaysAt(block, height, u, k);
    var created, lost, before := CreatedIn(block, k, height), Lost(block, k + 1), After(block, height, u, k);
    var inside, after := SpentInside(block, |block.txs|), After(block, height, u, k + 1);
    StepBack(before, u, Unspent(block, k), RecordedFirst(block, k), SpentIn(block, k), created, lost);
    assert created.Keys <= (after - lost).Keys + inside <==> created.Keys * lost <= inside;
    if created.Keys * lost <= inside {
      assert IsRecord(undo[k], Recorded(block, k), u);
      RestoreRecord(Restoring(after - lost - created.Keys, restored), undo[k], Recorded(block, k), u);
    }
  }

  lemma {:induction false} UnwindAll(
    block: ParsedBlock, height: nat, u: Utxos, undo: seq<seq<SpentUndo>>, n: nat, restored: set<Outpoint>)
    requires Shaped(block) && n <= |block.txs| == |undo| && Plays(block, height, u, |block.txs|)
    requires RecordsBlock(undo, block, u, |block.txs|) && restored !! RecordedFirst(block, n)
    ensures var w := Restoring(After(block, height, u, n) - Lost(block, n), restored);
      var r := Unwind(block, undo, SpentInside(block, |block.txs|), n, w);
      && (r.Ok? <==> Removable(block, n))
      && (r.Ok? ==> r.value.utxos == u - Lost(block, 0))
    decreases n
  {
    hide UnwindTx, RecordsBlock, Plays, After, Lost, SpentInside, Recorded, OutpointsOf;
    if n == 0 {
      AfterNothing(block, height, u);
    } else {
      RecordedDisjoint(block, height, u, n - 1);
      UnwindOne(block, height, u, undo, n - 1, restored);
      UnwindAll(block, height, u, undo, n - 1, restored + Recorded(block, n - 1));
    }
  }

  lemma AfterNothing(block: ParsedBlock, height: nat, u: Utxos)
    requires Shaped(block)
    ensures After(block, height, u, 0) == u
  {
  }

  lemma RecordedDisjoint(block: ParsedBlock, height: nat, u: Utxos, k: nat)
    requires Shaped(block) && k < |block.txs| && Plays(block, height, u, |block.txs|)
    ensures Recorded(block, k) !! RecordedFirst(block, k)
    ensures RecordedFirst(block, k + 1) == RecordedFirst(block, k) + Recorded(block, k)
  {
    hide DistinctInputs, SpentIn, Unspent, After;
    assert PlaysAt(block, height, u, k);
    Provenance(block, height, u, k);
  }

  // ---------------------------------------------------------------- when a block can be undone

  ghost predicate Touches(block: ParsedBlock, k: nat, op: Outpoint)
    requires Shaped(block) && k < |block.txs|
  {
    op in OutpointsOf(block.txs[k]) || op in SpentIn(block, k)
  }

  /** The first transaction from `n` on that touches a lost outpoint does not spend it from before the block. */
  lemma {:induction false} FirstTouch(block: ParsedBlock, n: nat, op: Outpoint) returns (m: nat)
    requires Shaped(block) && n <= |block.txs| && op in Lost(block, n)
    ensures n <= m < |block.txs| && Touches(block, m, op) && op !in Recorded(block, m)
    ensures forall k :: n <= k < m ==> !Touches(block, k, op)
    decreases |block.txs| - n
  {
    hide OutpointsOf, SpentIn, Unspent;
    if Touches(block, n, op) {
      m := n;
    } else {
      m := FirstTouch(block, n + 1, op);
    }
  }

  lemma {:induction false} UnspentIsCreated(block: ParsedBlock, n: nat, op: Outpoint) returns (k: nat)
    requires Shaped(block) && n <= |block.txs| && op in Unspent(block, n)
    ensures k < n && Touches(block, k, op)
  {
    hide OutpointsOf, SpentIn;
    if op in OutpointsOf(block.txs[n - 1]) {
      k := n - 1;
    } else {
      k := UnspentIsCreated(block, n - 1, op);
    }
  }

  lemma {:induction false} CreatedFirstContains(block: ParsedBlock, k: nat, n: nat)
    requires Shaped(block) && k < n <= |block.txs|
    ensures OutpointsOf(block.txs[k]) <= CreatedFirst(block, n)
    decreases n
  {
    hide OutpointsOf;
    if k < n - 1 {
      CreatedFirstContains(block, k, n - 1);
    }
  }

  lemma {:induction false} SpentInsideContains(block: ParsedBlock, j: nat, k: nat, n: nat, op: Outpoint)
    requires Shaped(block) && j < k < n <= |block.txs|
    requires op in OutpointsOf(block.txs[j]) && op in SpentIn(block, k)
    ensures op in SpentInside(block, n)
    decreases n
  {
    hide OutpointsOf, SpentIn, CreatedFirst;
    if k == n - 1 {
      CreatedFirstContains(block, j, k);
    } else {
      SpentInsideContains(block, j, k, n - 1, op);
    }
  }

  /** No output of the previous state is created again before it has been spent. */
  ghost predicate KeepsPrevious(block: ParsedBlock, u: Utxos)
    requires Shaped(block)
  {
    forall j, op :: 0 <= j < |block.txs| && op in OutpointsOf(block.txs[j]) && op in u ==>
      exists k :: 0 <= k <= j && op in SpentIn(block, k)
  }

  /** An outpoint created by two transactions is spent by one after it was created. */
  ghost predicate RecreatesOnlySpent(block: ParsedBlock)
    requires Shaped(block)
  {
    forall i, j, op ::
      0 <= i < j < |block.txs| && op in OutpointsOf(block.txs[i]) && op in OutpointsOf(block.txs[j]) ==>
      op in SpentInside(block, |block.txs|)
  }

  lemma LostNothingOld(block: ParsedBlock, u: Utxos)
    requires Shaped(block)
    ensures u - Lost(block, 0) == u <==> KeepsPrevious(block, u)
  {
    hide OutpointsOf, SpentIn, Lost, Unspent;
    if KeepsPrevious(block, u) {
      forall op | op in u
        ensures op !in Lost(block, 0)
      {
        if op in Lost(block, 0) {
          FirstTouchCreates(block, op, u);
        }
      }
      assert u - Lost(block, 0) == u;
    } else {
      var j, op :| 0 <= j < |block.txs| && op in OutpointsOf(block.txs[j]) && op in u
        && forall k :: 0 <= k <= j ==> op !in SpentIn(block, k);
      CreatedUnspentIsLost(block, 0, j, op);
      assert op in u && op !in u - Lost(block, 0);
    }
  }

  lemma FirstTouchCreates(block: ParsedBlock, op: Outpoint, u: Utxos)
    requires Shaped(block) && op in u && op in Lost(block, 0)
    ensures !KeepsPrevious(block, u)
  {
    hide OutpointsOf, SpentIn, Lost, Unspent;
    var m := FirstTouch(block, 0, op);
    if op in SpentIn(block, m) {
      var k := UnspentIsCreated(block, m, op);
      assert false;
    }
    assert op in OutpointsOf(block.txs[m]);
    forall k | 0 <= k <= m
      ensures op !in SpentIn(block, k)
    {
      assert k < m ==> !Touches(block, k, op);
    }
  }

  lemma {:induction false} CreatedUnspentIsLost(block: ParsedBlock, n: nat, j: nat, op: Outpoint)
    requires Shaped(block) && n <= j < |block.txs| && op in OutpointsOf(block.txs[j])
    requires forall k :: n <= k <= j ==> op !in SpentIn(block, k)
    ensures op in Lost(block, n)
    decreases j - n
  {
    hide OutpointsOf, SpentIn, Unspent;
    if n < j {
      CreatedUnspentIsLost(block, n + 1, j, op);
    }
  }

  lemma RemovableIff(block: ParsedBlock)
    requires Shaped(block)
    ensures Removable(block, |block.txs|) <==> RecreatesOnlySpent(block)
  {
    hide OutpointsOf, SpentIn, Lost, Unspent, SpentInside;
    var inside := SpentInside(block, |block.txs|);
    if RecreatesOnlySpent(block) {
      forall k, op | 0 <= k < |block.txs| && op in OutpointsOf(block.txs[k]) && op in Lost(block, k + 1)
        ensures op in inside
      {
        var m := FirstTouch(block, k + 1, op);
        if op in SpentIn(block, m) {
          SpentInsideContains(block, k, m, |block.txs|, op);
        }
      }
    }
    if Removable(block, |block.txs|) {
      forall i, j, op | 0 <= i < j < |block.txs|
                        && op in OutpointsOf(block.txs[i]) && op in OutpointsOf(block.txs[j])
        ensures op in inside
      {
        RecreatedIsInside(block, i, j, op);
      }
    }
  }

  lemma RecreatedIsInside(block: ParsedBlock, i: nat, j: nat, op: Outpoint)
    requires Shaped(block) && i < j < |block.txs| && Removable(block, |block.txs|)
    requires op in OutpointsOf(block.txs[i]) && op in OutpointsOf(block.txs[j])
    ensures op in SpentInside(block, |block.txs|)
  {
    hide OutpointsOf, SpentIn, Lost, Unspent, SpentInside;
    if k :| i < k <= j && op in SpentIn(block, k) {
      SpentInsideContains(block, i, k, |block.txs|, op);
    } else {
      CreatedUnspentIsLost(block, i + 1, j, op);
      assert op in OutpointsOf(block.txs[i]) * Lost(block, i + 1);
    }
  }

  // ---------------------------------------------------------------- the round trip

  /** A state without a tip is the empty header, as a new or fully disconnected chain has it. */
  predicate Normal(s: State) {
    s.hasTip || (s.height == 0 && s.tipHash == ZERO32)
  }

  /** What the caller can check before connecting: the block can be undone from these outputs. */
  ghost predicate Reversible(block: ParsedBlock, u: Utxos)
    requires Shaped(block)
  {
    KeepsPrevious(block, u) && RecreatesOnlySpent(block)
  }

  /**
   For every state and every block that connects to it, the undo record is built, and disconnecting
   with that record gives back the previous state exactly when the block is reversible.
   */
  lemma DisconnectUndoesConnect(rules: Rules, h: Hash, s: State, block: ParsedBlock)
    requires Shaped(block) && Normal(s) && Connect(rules, h, s, block).Ok?
    ensures BuildUndo(s, block, NextHeight(s)).Ok?
    ensures var undo := BuildUndo(s, block, NextHeight(s)).value;
      Disconnect(h, Connect(rules, h, s, block).value, block, undo) == Ok(s) <==> Reversible(block, s.utxos)
  {
    hide ApplyFirst, UndoFirst, Unwind, KeepsPrevious, RecreatesOnlySpent, SpentInside, CoinbaseStructured, Subsidy,
         IsRecord, Removable, Lost, After, Plays;
    var n, height := |block.txs|, NextHeight(s);
    ApplyFirstPlays(rules, block, height, s.utxos, n);
    UndoFirstRecords(block, height, s.utxos, n);
    NothingLostAtEnd(block, height, s.utxos);
    UnwindAll(block, height, s.utxos, UndoFirst(s.utxos, block, n).value.txs, n, {});
    RemovableIff(block);
    LostNothingOld(block, s.utxos);
    DisconnectIsUnwind(rules, h, s, block);
  }

  /** Of the state after a connect, everything but the outputs is restored directly. */
  lemma DisconnectIsUnwind(rules: Rules, h: Hash, s: State, block: ParsedBlock)
    requires Shaped(block) && Normal(s) && Connect(rules, h, s, block).Ok?
    requires UndoFirst(s.utxos, block, |block.txs|).Ok?
    ensures var undo := BuildUndo(s, block, NextHeight(s));
      var s' := Connect(rules, h, s, block).value;
      var w := Unwind(block, UndoFirst(s.utxos, block, |block.txs|).value.txs, SpentInside(block, |block.txs|),
                      |block.txs|, Restoring(s'.utxos, {}));
      && undo.Ok?
      && Disconnect(h, s', block, undo.value) == if w.Ok? then Ok(s.(utxos := w.value.utxos)) else Err(w.error)
  {
    hide ApplyFirst, UndoFirst, Unwind, SpentInside, CoinbaseStructured, Subsidy, Shaped;
  }

  lemma NothingLostAtEnd(block: ParsedBlock, height: nat, u: Utxos)
    requires Shaped(block)
    ensures After(block, height, u, |block.txs|) - Lost(block, |block.txs|) == After(block, height, u, |block.txs|)
  {
    hide After;
  }

  // ---------------------------------------------------------------- the condition is needed

  /** A parsed genesis block: a canonical coinbase with one P2PK output to the 33 bytes `key`. */
  function OneOutputBlock(h: Hash, key: seq<Byte>): (block: ParsedBlock)
    requires |key| == 33
  {
    var input := TxInput(ZERO32, U32 - 1, [], U32 - 1);
    var core := TxCore(TxPrefix(TX_WIRE_VERSION, 0x00, 0), [input], [TxOutput(5, 0x0000, key)], 0, None, None);
    ParsedBlock(BlockHeader(1, ZERO32, ZERO32, 0, ZERO32, 0), [Entry(h, Tx(core, [], []))])
  }

  /** Rules that let a block in as genesis. */
  predicate AcceptsGenesis(rules: Rules, block: ParsedBlock)
    requires block.txs != []
  {
    && rules.headerOk(block, 0) && rules.bodyOk(block, 0) && rules.coinbaseGroupsOk(block.txs[0].tx)
    && forall o :: o in block.txs[0].tx.core.outputs ==> rules.coinbaseOutputOk(o, 0)
  }

  /** The state that already holds the output the block creates, with another value. */
  function Occupied(block: ParsedBlock, key: Vec<Byte>): (s: State)
    requires block.txs != []
  {
    EMPTY.(utxos := map[Outpoint(block.txs[0].txid, 0) := UtxoEntry(7, 0x0000, key, 0, false)])
  }

  lemma OneOutputParses(h: Hash, key: seq<Byte>)
    requires |key| == 33
    ensures BlockOk(h, OneOutputBlock(h, key))
    ensures Commitments.IsCoinbase(OneOutputBlock(h, key).txs[0].tx)
  {
    hide CoreBytes, TxCodec.TxBytes;
    assert TxCodec.TxOk(OneOutputBlock(h, key).txs[0].tx);
  }

  lemma OneOutputConnects(rules: Rules, h: Hash, key: seq<Byte>)
    requires |key| == 33 && AcceptsGenesis(rules, OneOutputBlock(h, key))
    ensures var block := OneOutputBlock(h, key);
      Shaped(block) && Connect(rules, h, Occupied(block, key), block).Ok?
  {
    OneOutputParses(h, key);
    var block := OneOutputBlock(h, key);
    hide CoreBytes, TxCodec.TxBytes, BlockOk, Commitments.IsCoinbase, CreatedBy;
    assert block.txs[0].tx.core.outputs[0] in block.txs[0].tx.core.outputs;
    assert block.txs[0].tx.core.outputs[1..] == [];
    assert CoinbaseOutputError(rules, block.txs[0].tx.core.outputs, 0) == None;
  }

  /** For every parsed such block and all rules that let it in, the output it creates again is gone after the undo. */
  lemma OverwriteIsNotUndone(rules: Rules, h: Hash, key: seq<Byte>)
    requires |key| == 33 && AcceptsGenesis(rules, OneOutputBlock(h, key))
    ensures var block := OneOutputBlock(h, key);
      var s := Occupied(block, key);
      && BlockOk(h, block) && Normal(s) && Connect(rules, h, s, block).Ok? && BuildUndo(s, block, 0).Ok?
      && Disconnect(h, Connect(rules, h, s, block).value, block, BuildUndo(s, block, 0).value) != Ok(s)
  {
    OneOutputParses(h, key);
    OneOutputConnects(rules, h, key);
    var block := OneOutputBlock(h, key);
    var s := Occupied(block, key);
    hide Connect, Disconnect, BuildUndo, CoreBytes, TxCodec.TxBytes, BlockOk, Commitments.IsCoinbase;
    DisconnectUndoesConnect(rules, h, s, block);
    assert Outpoint(block.txs[0].txid, 0) in OutpointsOf(block.txs[0]) && Outpoint(block.txs[0].txid, 0) in s.utxos;
    assert forall k :: 0 <= k <= 0 ==> SpentIn(block, k) == {};
    assert !KeepsPrevious(block, s.utxos);
  }
}
