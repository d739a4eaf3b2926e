/**
 Connecting a block to the chain state, recording what it spends, and disconnecting it again.
 Functions give the result of each operation; the class and methods are the loops of the source,
 proved to compute them.
 */
module ChainState {
  import opened Bytes
  import opened Wire
  import opened TxWire
  import opened BlockWire
  import opened Commitments
  import opened Utxo

  const MINEABLE_CAP := 4_900_000_000_000_000
  const EMISSION_DIVISOR := 1_048_576
  const TAIL_EMISSION_PER_BLOCK := 19_025_875

  datatype State = State(hasTip: bool, height: nat, tipHash: Hash32, alreadyGenerated: nat, utxos: Utxos)

  const EMPTY: State := State(false, 0, ZERO32, 0, map[])

  datatype ConnectError =
    | HeightOverflow | HeaderRejected | LinkageInvalid | BodyRejected | CoinbaseStructureInvalid | CoinbaseVault
    | CoinbaseCovenant | CoinbaseLikeTx | NonceAndInputsMissing | InputsMissing | NonceReplay | InTx(error: TxError)
    | FeesOverflow | LimitOverflow | SubsidyExceeded | GeneratedOverflow

  /**
   State-independent block checks: proof of work and target before the linkage, and after it Merkle and
   witness commitments, times, weights and DA sets.
   */
  datatype Rules = Rules(
    tx: TxRules, headerOk: (ParsedBlock, nat) -> bool, bodyOk: (ParsedBlock, nat) -> bool,
    coinbaseOutputOk: (TxOutput, nat) -> bool, coinbaseGroupsOk: Tx -> bool)

  // ---------------------------------------------------------------- connecting

  function Subsidy(height: nat, alreadyGenerated: nat): (n: nat)
    ensures n < U64
    ensures height > 0 ==> n >= TAIL_EMISSION_PER_BLOCK
  {
    if height == 0 then 0
    else if alreadyGenerated >= MINEABLE_CAP then TAIL_EMISSION_PER_BLOCK
    else
      var base := (MINEABLE_CAP - alreadyGenerated) / EMISSION_DIVISOR;
      if base < TAIL_EMISSION_PER_BLOCK then TAIL_EMISSION_PER_BLOCK else base
  }

  /** The outpoints a transaction creates. */
  function OutpointsOf(t: BlockTx): (ops: set<Outpoint>)
    requires |t.tx.core.outputs| <= MAX_TX_OUTPUTS
  {
    CreatedOps(t.txid, t.tx.core.outputs, |t.tx.core.outputs|)
  }

  function CreatedIn(block: ParsedBlock, k: nat, height: nat): (m: Utxos)
    requires Shaped(block) && k < |block.txs|
    ensures m.Keys == OutpointsOf(block.txs[k])
  {
    var t := block.txs[k];
    CreatedBy(t.txid, t.tx.core.outputs, |t.tx.core.outputs|, height, k == 0)
  }

  /** Outpoints consumed by transaction `k`; the coinbase consumes none. */
  function SpentIn(block: ParsedBlock, k: nat): (ops: set<Outpoint>)
    requires k < |block.txs|
  {
    if k == 0 then {} else PrevOuts(block.txs[k].tx.core.inputs)
  }

  function CoinbaseOutputError(rules: Rules, outputs: seq<TxOutput>, height: nat): (e: Option<ConnectError>)
  {
    if outputs == [] then None
    else if outputs[0].covenantType == COV_TYPE_VAULT then Some(CoinbaseVault)
    else if !rules.coinbaseOutputOk(outputs[0], height) then Some(CoinbaseCovenant)
    else CoinbaseOutputError(rules, outputs[1..], height)
  }

  datatype Work = Work(utxos: Utxos, fees: nat, nonces: set<uint64>)

  function BlockTxError(tx: Tx, nonces: set<uint64>): (e: Option<ConnectError>)
  {
    if IsCoinbase(tx) then Some(CoinbaseLikeTx)
    else if tx.core.prefix.nonce == 0 && tx.core.inputs == [] then Some(NonceAndInputsMissing)
    else if tx.core.inputs == [] then Some(InputsMissing)
    else if tx.core.prefix.nonce in nonces then Some(NonceReplay)
    else None
  }

  function ApplyNext(rules: Rules, t: BlockTx, height: nat, w: Work): (r: Result<Work, ConnectError>)
    requires |t.tx.core.outputs| <= MAX_TX_OUTPUTS
  {
    match BlockTxError(t.tx, w.nonces)
    case Some(e) => Err(e)
    case None =>
      match ApplyTx(rules.tx, t, w.utxos, height)
      case Err(e) => Err(InTx(e))
      case Ok(a) =>
        if w.fees + a.fee >= U128 then Err(FeesOverflow)
        else Ok(Work(a.utxos, w.fees + a.fee, w.nonces + {t.tx.core.prefix.nonce}))
  }

  /** The working set after the first `n` transactions. */
  function ApplyFirst(rules: Rules, block: ParsedBlock, height: nat, u: Utxos, n: nat): (r: Result<Work, ConnectError>)
    requires Shaped(block) && 1 <= n <= |block.txs|
    decreases n
  {
    if n == 1 then
      match CoinbaseOutputError(rules, block.txs[0].tx.core.outputs, height)
      case Some(e) => Err(e)
      case None =>
        if !rules.coinbaseGroupsOk(block.txs[0].tx) then Err(CoinbaseCovenant)
        else Ok(Work(u + CreatedIn(block, 0, height), 0, {}))
    else
      var w :- ApplyFirst(rules, block, height, u, n - 1);
      ApplyNext(rules, block.txs[n - 1], height, w)
  }

  predicate CoinbaseStructured(block: ParsedBlock, height: nat)
    requires block.txs != []
  {
    var core := block.txs[0].tx.core;
    IsCoinbase(block.txs[0].tx) && core.outputs != [] && height < U32 && core.locktime == height
  }

  function NextHeight(s: State): (n: nat)
  {
    if s.hasTip then s.height + 1 else 0
  }

  function BlockHash(h: Hash, block: ParsedBlock): (id: Hash32)
  {
    h(HeaderBytes(block.header))
  }

  function Connect(rules: Rules, h: Hash, s: State, block: ParsedBlock): (r: Result<State, ConnectError>)
    requires Shaped(block)
  {
    var height := NextHeight(s);
    if height >= U64 then Err(HeightOverflow)
    else if !rules.headerOk(block, height) then Err(HeaderRejected)
    else if s.hasTip && block.header.prevBlockHash != s.tipHash then Err(LinkageInvalid)
    else if !rules.bodyOk(block, height) then Err(BodyRejected)
    else if !CoinbaseStructured(block, height) then Err(CoinbaseStructureInvalid)
    else
      var w :- ApplyFirst(rules, block, height, s.utxos, |block.txs|);
      var subsidy := Subsidy(height, s.alreadyGenerated);
      if height != 0 && subsidy + w.fees >= U128 then Err(LimitOverflow)
      else if height != 0 && SumOut(block.txs[0].tx.core.outputs) > subsidy + w.fees then Err(SubsidyExceeded)
      else if s.alreadyGenerated + subsidy >= U128 then Err(GeneratedOverflow)
      else Ok(State(true, height, BlockHash(h, block), s.alreadyGenerated + subsidy, w.utxos))
  }

  // ---------------------------------------------------------------- the undo record

  datatype SpentUndo = SpentUndo(outpoint: Outpoint, entry: UtxoEntry)

  datatype BlockUndo = BlockUndo(height: nat, previousGenerated: nat, txs: seq<seq<SpentUndo>>)

  datatype UndoError = MissingPrevious | DuplicatePreviousSpend

  datatype UndoSets = UndoSets(spentPrev: set<Outpoint>, blockOutputs: set<Outpoint>)

  datatype UndoStep = UndoStep(sets: UndoSets, spent: seq<SpentUndo>)

  /** The inputs of one transaction: outputs of the same block are dropped, the others recorded. */
  function UndoInputs(u: Utxos, inputs: seq<TxInput>, sets: UndoSets, spent: seq<SpentUndo>)
    : (r: Result<UndoStep, UndoError>)
    decreases |inputs|
  {
    if inputs == [] then Ok(UndoStep(sets, spent))
    else
      var op := PrevOut(inputs[0]);
      if op in sets.blockOutputs then
        UndoInputs(u, inputs[1..], sets.(blockOutputs := sets.blockOutputs - {op}), spent)
      else if op !in u then Err(MissingPrevious)
      else if op in sets.spentPrev then Err(DuplicatePreviousSpend)
      else
        UndoInputs(u, inputs[1..], sets.(spentPrev := sets.spentPrev + {op}), spent + [SpentUndo(op, u[op])])
  }

  datatype UndoWork = UndoWork(sets: UndoSets, txs: seq<seq<SpentUndo>>)

  /** Transaction `k` added to the record of the ones before it. */
  function UndoNext(u: Utxos, block: ParsedBlock, k: nat, w: UndoWork): (r: Result<UndoWork, UndoError>)
    requires Shaped(block) && k < |block.txs|
    ensures r.Ok? ==> |r.value.txs| == |w.txs| + 1
  {
    var inputs := if k == 0 then [] else block.txs[k].tx.core.inputs;
    var step :- UndoInputs(u, inputs, w.sets, []);
    var outputs := step.sets.blockOutputs + OutpointsOf(block.txs[k]);
    Ok(UndoWork(step.sets.(blockOutputs := outputs), w.txs + [step.spent]))
  }

  function UndoFirst(u: Utxos, block: ParsedBlock, n: nat): (r: Result<UndoWork, UndoError>)
    requires Shaped(block) && n <= |block.txs|
    ensures r.Ok? ==> |r.value.txs| == n
    decreases n
  {
    if n == 0 then Ok(UndoWork(UndoSets({}, {}), []))
    else
      var w :- UndoFirst(u, block, n - 1);
      UndoNext(u, block, n - 1, w)
  }

  function BuildUndo(prev: State, block: ParsedBlock, height: nat): (r: Result<BlockUndo, UndoError>)
    requires Shaped(block)
  {
    var w :- UndoFirst(prev.utxos, block, |block.txs|);
    Ok(BlockUndo(height, prev.alreadyGenerated, w.txs))
  }

  // ---------------------------------------------------------------- disconnecting

  datatype DisconnectError =
    | NoTip | HeightMismatch | UndoCountMismatch | NotCurrentTip | MissingCreated | DuplicateRestore | RestorePresent

  function CreatedFirst(block: ParsedBlock, n: nat): (ops: set<Outpoint>)
    requires Shaped(block) && n <= |block.txs|
  {
    if n == 0 then {} else CreatedFirst(block, n - 1) + OutpointsOf(block.txs[n - 1])
  }

  /** Outpoints created and later spent among the first `n` transactions. */
  function SpentInside(block: ParsedBlock, n: nat): (ops: set<Outpoint>)
    requires Shaped(block) && n <= |block.txs|
  {
    if n == 0 then {} else SpentInside(block, n - 1) + SpentIn(block, n - 1) * CreatedFirst(block, n - 1)
  }

  datatype Restoring = Restoring(utxos: Utxos, restored: set<Outpoint>)

  function Restore(w: Restoring, spent: seq<SpentUndo>): (r: Result<Restoring, DisconnectError>)
    decreases |spent|
  {
    if spent == [] then Ok(w)
    else
      var op := spent[0].outpoint;
      if op in w.restored then Err(DuplicateRestore)
      else if op in w.utxos then Err(RestorePresent)
      else Restore(Restoring(w.utxos[op := spent[0].entry], w.restored + {op}), spent[1..])
  }

  function UnwindTx(t: BlockTx, spent: seq<SpentUndo>, inside: set<Outpoint>, w: Restoring)
    : (r: Result<Restoring, DisconnectError>)
    requires |t.tx.core.outputs| <= MAX_TX_OUTPUTS
  {
    var created := OutpointsOf(t);
    if !(created <= w.utxos.Keys + inside) then Err(MissingCreated)
    else Restore(Restoring(w.utxos - created, w.restored), spent)
  }

  /** Transactions `n - 1` down to `0` undone. */
  function Unwind(block: ParsedBlock, undo: seq<seq<SpentUndo>>, inside: set<Outpoint>, n: nat, w: Restoring)
    : (r: Result<Restoring, DisconnectError>)
    requires Shaped(block) && n <= |block.txs| == |undo|
    decreases n
  {
    if n == 0 then Ok(w)
    else
      var w' :- UnwindTx(block.txs[n - 1], undo[n - 1], inside, w);
      Unwind(block, undo, inside, n - 1, w')
  }

  function Disconnect(h: Hash, s: State, block: ParsedBlock, undo: BlockUndo): (r: Result<State, DisconnectError>)
    requires Shaped(block)
  {
    if !s.hasTip then Err(NoTip)
    else if s.height != undo.height then Err(HeightMismatch)
    else if |undo.txs| != |block.txs| then Err(UndoCountMismatch)
    else if s.tipHash != BlockHash(h, block) then Err(NotCurrentTip)
    else
      var inside := SpentInside(block, |block.txs|);
      var w :- Unwind(block, undo.txs, inside, |block.txs|, Restoring(s.utxos, {}));
      if s.height == 0 then Ok(State(false, 0, ZERO32, undo.previousGenerated, w.utxos))
      else Ok(State(true, s.height - 1, block.header.prevBlockHash, undo.previousGenerated, w.utxos))
  }

  // ---------------------------------------------------------------- the loops of the source

  lemma {:induction false} ErrorStays(rules: Rules, block: ParsedBlock, height: nat, u: Utxos, k: nat, n: nat)
    requires Shaped(block) && 1 <= k <= n <= |block.txs| && ApplyFirst(rules, block, height, u, k).Err?
    ensures ApplyFirst(rules, block, height, u, n) == Err(ApplyFirst(rules, block, height, u, k).error)
    decreases n - k
  {
    hide ApplyNext, CoinbaseOutputError;
    if k < n {
      ErrorStays(rules, block, height, u, k, n - 1);
    }
  }

  lemma CoinbaseFirst(rules: Rules, block: ParsedBlock, height: nat, u: Utxos)
    requires Shaped(block)
    ensures var t := block.txs[0];
      && |t.tx.core.outputs| <= MAX_TX_OUTPUTS
      && u + CreatedBy(t.txid, t.tx.core.outputs, 0, height, true) == u
      && ApplyFirst(rules, block, height, u, 1) ==
         match CoinbaseOutputError(rules, t.tx.core.outputs, height)
         case Some(e) => Err(e)
         case None =>
           if !rules.coinbaseGroupsOk(t.tx) then Err(CoinbaseCovenant)
           else Ok(Work(u + CreatedBy(t.txid, t.tx.core.outputs, |t.tx.core.outputs|, height, true), 0, {}))
  {
    hide CoinbaseOutputError;
  }

  method ApplyCoinbaseOutputs(rules: Rules, block: ParsedBlock, height: nat, u: Utxos)
    returns (r: Result<Utxos, ConnectError>)
    requires Shaped(block)
    ensures ApplyFirst(rules, block, height, u, 1)
         == if r.Ok? then Ok(Work(r.value, 0, {})) else Err(r.error)
  {
    CoinbaseFirst(rules, block, height, u);
    hide ApplyFirst, CreatedBy, CreatedIn, Spendable, EntryOf;
    var t := block.txs[0];
    var outputs := t.tx.core.outputs;
    var work := u;
    assert outputs[0..] == outputs;
    for i := 0 to |outputs|
      invariant work == u + CreatedBy(t.txid, outputs, i, height, true)
      invariant CoinbaseOutputError(rules, outputs[i..], height) == CoinbaseOutputError(rules, outputs, height)
    {
      assert outputs[i..][0] == outputs[i] && outputs[i..][1..] == outputs[i + 1..];
      if outputs[i].covenantType == COV_TYPE_VAULT {
        return Err(CoinbaseVault);
      }
      if !rules.coinbaseOutputOk(outputs[i], height) {
        return Err(CoinbaseCovenant);
      }
      CreatedStep(u, t.txid, outputs, i, height, true);
      if Spendable(outputs[i]) {
        work := work[Outpoint(t.txid, i) := EntryOf(outputs[i], height, true)];
      }
    }
    if !rules.coinbaseGroupsOk(t.tx) {
      return Err(CoinbaseCovenant);
    }
    return Ok(work);
  }

  method ApplyTransactions(rules: Rules, block: ParsedBlock, height: nat, u: Utxos)
    returns (r: Result<Work, ConnectError>)
    requires Shaped(block)
    ensures r == ApplyFirst(rules, block, height, u, |block.txs|)
  {
    hide ApplyFirst, CoinbaseOutputError, Shaped;
    assert |block.txs| >= 1 by { NotEmpty(block); }
    var first := ApplyCoinbaseOutputs(rules, block, height, u);
    if first.Err? {
      ErrorStays(rules, block, height, u, 1, |block.txs|);
      return Err(first.error);
    }
    var w := Work(first.value, 0, {});
    for n := 1 to |block.txs|
      invariant ApplyFirst(rules, block, height, u, n) == Ok(w)
    {
      OneMore(rules, block, height, u, n);
      var next := ConnectTx(rules, block.txs[n], height, w);
      if next.Err? {
        ErrorStays(rules, block, height, u, n + 1, |block.txs|);
        return next;
      }
      w := next.value;
    }
    return Ok(w);
  }

  lemma NotEmpty(block: ParsedBlock)
    requires Shaped(block)
    ensures |block.txs| >= 1
  {
  }

  lemma OneMore(rules: Rules, block: ParsedBlock, height: nat, u: Utxos, n: nat)
    requires Shaped(block) && 1 <= n < |block.txs| && ApplyFirst(rules, block, height, u, n).Ok?
    ensures |block.txs[n].tx.core.outputs| <= MAX_TX_OUTPUTS
    ensures ApplyFirst(rules, block, height, u, n + 1)
         == ApplyNext(rules, block.txs[n], height, ApplyFirst(rules, block, height, u, n).value)
  {
    hide ApplyNext, CoinbaseOutputError;
  }

  method ConnectTx(rules: Rules, t: BlockTx, height: nat, w: Work) returns (r: Result<Work, ConnectError>)
    requires |t.tx.core.outputs| <= MAX_TX_OUTPUTS
    ensures r == ApplyNext(rules, t, height, w)
  {
    hide ApplyTx;
    var e := BlockTxError(t.tx, w.nonces);
    if e.Some? {
      return Err(e.value);
    }
    var nonces := w.nonces + {t.tx.core.prefix.nonce};
    var a := ApplyNonCoinbaseTx(rules.tx, t, w.utxos, height);
    if a.Err? {
      return Err(InTx(a.error));
    }
    if w.fees + a.value.fee >= U128 {
      return Err(FeesOverflow);
    }
    return Ok(Work(a.value.utxos, w.fees + a.value.fee, nonces));
  }

  method RecordInputs(u: Utxos, inputs: seq<TxInput>, before: UndoSets) returns (r: Result<UndoStep, UndoError>)
    ensures r == UndoInputs(u, inputs, before, [])
  {
    var spentPrev, blockOutputs, spent := before.spentPrev, before.blockOutputs, [];
    assert inputs[0..] == inputs;
    for i := 0 to |inputs|
      invariant UndoInputs(u, inputs[i..], UndoSets(spentPrev, blockOutputs), spent)
             == UndoInputs(u, inputs, before, [])
    {
      assert inputs[i..][0] == inputs[i] && inputs[i..][1..] == inputs[i + 1..];
      var op := PrevOut(inputs[i]);
      if op in blockOutputs {
        blockOutputs := blockOutputs - {op};
        continue;
      }
      if op !in u {
        return Err(MissingPrevious);
      }
      if op in spentPrev {
        return Err(DuplicatePreviousSpend);
      }
      spentPrev := spentPrev + {op};
      spent := spent + [SpentUndo(op, u[op])];
    }
    return Ok(UndoStep(UndoSets(spentPrev, blockOutputs), spent));
  }

  method OutpointsCreated(t: BlockTx) returns (ops: set<Outpoint>)
    requires |t.tx.core.outputs| <= MAX_TX_OUTPUTS
    ensures ops == OutpointsOf(t)
  {
    var outputs := t.tx.core.outputs;
    ops := {};
    for i := 0 to |outputs|
      invariant ops == CreatedOps(t.txid, outputs, i)
    {
      assert CreatedOps(t.txid, outputs, i + 1)
          == CreatedOps(t.txid, outputs, i) + if Spendable(outputs[i]) then {Outpoint(t.txid, i)} else {};
      if Spendable(outputs[i]) {
        ops := ops + {Outpoint(t.txid, i)};
      }
    }
  }

  lemma {:induction false} UndoErrorStays(u: Utxos, block: ParsedBlock, k: nat, n: nat)
    requires Shaped(block) && k <= n <= |block.txs| && UndoFirst(u, block, k).Err?
    ensures UndoFirst(u, block, n) == Err(UndoFirst(u, block, k).error)
    decreases n - k
  {
    hide UndoNext;
    if k < n {
      UndoErrorStays(u, block, k, n - 1);
    }
  }

  method BuildBlockUndo(prev: State, block: ParsedBlock, height: nat) returns (r: Result<BlockUndo, UndoError>)
    requires Shaped(block)
    ensures r == BuildUndo(prev, block, height)
  {
    hide UndoInputs, OutpointsOf;
    var sets, txs := UndoSets({}, {}), [];
    for k := 0 to |block.txs|
      invariant UndoFirst(prev.utxos, block, k) == Ok(UndoWork(sets, txs))
    {
      var inputs := if k == 0 then [] else block.txs[k].tx.core.inputs;
      var step := RecordInputs(prev.utxos, inputs, sets);
      if step.Err? {
        assert UndoFirst(prev.utxos, block, k + 1) == Err(step.error);
        UndoErrorStays(prev.utxos, block, k + 1, |block.txs|);
        return Err(step.error);
      }
      var created := OutpointsCreated(block.txs[k]);
      sets := step.value.sets.(blockOutputs := step.value.sets.blockOutputs + created);
      txs := txs + [step.value.spent];
    }
    return Ok(BlockUndo(height, prev.alreadyGenerated, txs));
  }

  method FindSpentInside(block: ParsedBlock) returns (inside: set<Outpoint>)
    requires Shaped(block)
    ensures inside == SpentInside(block, |block.txs|)
  {
    hide OutpointsOf;
    var created: set<Outpoint> := {};
    inside := {};
    for k := 0 to |block.txs|
      invariant created == CreatedFirst(block, k) && inside == SpentInside(block, k)
    {
      if k > 0 {
        var inputs := block.txs[k].tx.core.inputs;
        var before := inside;
        for i := 0 to |inputs|
          invariant inside == before + PrevOuts(inputs[..i]) * created
        {
          assert forall x :: x in inputs[..i + 1] <==> x in inputs[..i] || x == inputs[i];
          assert PrevOuts(inputs[..i + 1]) == PrevOuts(inputs[..i]) + {PrevOut(inputs[i])};
          if PrevOut(inputs[i]) in created {
            inside := inside + {PrevOut(inputs[i])};
          }
        }
        assert inputs[..|inputs|] == inputs;
      }
      var ops := OutpointsCreated(block.txs[k]);
      created := created + ops;
    }
  }

  /** Removing the created outputs one by one and failing at the first that is missing. */
  method RemoveCreated(t: BlockTx, inside: set<Outpoint>, u: Utxos) returns (r: Result<Utxos, DisconnectError>)
    requires |t.tx.core.outputs| <= MAX_TX_OUTPUTS
    ensures r == if OutpointsOf(t) <= u.Keys + inside then Ok(u - OutpointsOf(t)) else Err(MissingCreated)
  {
    var outputs := t.tx.core.outputs;
    var work := u;
    for i := 0 to |outputs|
      invariant CreatedOps(t.txid, outputs, i) <= u.Keys + inside
      invariant work == u - CreatedOps(t.txid, outputs, i)
    {
      assert CreatedOps(t.txid, outputs, i + 1)
          == CreatedOps(t.txid, outputs, i) + if Spendable(outputs[i]) then {Outpoint(t.txid, i)} else {};
      if Spendable(outputs[i]) {
        var op := Outpoint(t.txid, i);
        if op !in work && op !in inside {
          assert op in OutpointsOf(t) && op !in u.Keys + inside;
          return Err(MissingCreated);
        }
        work := work - {op};
      }
    }
    return Ok(work);
  }

  method RestoreSpent(w: Restoring, spent: seq<SpentUndo>) returns (r: Result<Restoring, DisconnectError>)
    ensures r == Restore(w, spent)
  {
    var work, restored := w.utxos, w.restored;
    assert spent[0..] == spent;
    for i := 0 to |spent|
      invariant Restore(Restoring(work, restored), spent[i..]) == Restore(w, spent)
    {
      assert spent[i..][0] == spent[i] && spent[i..][1..] == spent[i + 1..];
      var op := spent[i].outpoint;
      if op in restored {
        return Err(DuplicateRestore);
      }
      restored := restored + {op};
      if op in work {
        return Err(RestorePresent);
      }
      work := work[op := spent[i].entry];
    }
    return Ok(Restoring(work, restored));
  }

  /** The mutable chain state of a node. */
  class Chain {
    var hasTip: bool
    var height: nat
    var tipHash: Hash32
    var alreadyGenerated: nat
    var utxos: Utxos

    function View(): (s: State)
      reads this
    {
      State(hasTip, height, tipHash, alreadyGenerated, utxos)
    }

    constructor ()
      ensures View() == EMPTY
    {
      hasTip, height, tipHash, alreadyGenerated, utxos := false, 0, ZERO32, 0, map[];
    }

    /** Connects `block` at the tip; a rejected block leaves every field as it was. */
    method ConnectBlock(rules: Rules, h: Hash, block: ParsedBlock) returns (r: Result<(), ConnectError>)
      requires Shaped(block)
      modifies this
      ensures match Connect(rules, h, old(View()), block)
        case Ok(s) => r == Ok(()) && View() == s
        case Err(e) => r == Err(e) && View() == old(View())
    {
      hide ApplyFirst, CoinbaseStructured, Subsidy;
      var next := if hasTip then height + 1 else 0;
      if next >= U64 {
        return Err(HeightOverflow);
      }
      if !rules.headerOk(block, next) {
        return Err(HeaderRejected);
      }
      if hasTip && block.header.prevBlockHash != tipHash {
        return Err(LinkageInvalid);
      }
      if !rules.bodyOk(block, next) {
        return Err(BodyRejected);
      }
      if !CoinbaseStructured(block, next) {
        return Err(CoinbaseStructureInvalid);
      }
      var w :- ApplyTransactions(rules, block, next, utxos);
      var subsidy := Subsidy(next, alreadyGenerated);
      if next != 0 && subsidy + w.fees >= U128 {
        return Err(LimitOverflow);
      }
      if next != 0 && SumOut(block.txs[0].tx.core.outputs) > subsidy + w.fees {
        return Err(SubsidyExceeded);
      }
      if alreadyGenerated + subsidy >= U128 {
        return Err(GeneratedOverflow);
      }
      hasTip, height, tipHash := true, next, BlockHash(h, block);
      alreadyGenerated, utxos := alreadyGenerated + subsidy, w.utxos;
      return Ok(());
    }

    /** Disconnects the tip; a failure leaves every field as it was. */
    method DisconnectBlock(h: Hash, block: ParsedBlock, undo: BlockUndo) returns (r: Result<(), DisconnectError>)
      requires Shaped(block)
      modifies this
      ensures match Disconnect(h, old(View()), block, undo)
        case Ok(s) => r == Ok(()) && View() == s
        case Err(e) => r == Err(e) && View() == old(View())
    {
      hide Restore, SpentInside, OutpointsOf;
      if !hasTip {
        return Err(NoTip);
      }
      if height != undo.height {
        return Err(HeightMismatch);
      }
      if |undo.txs| != |block.txs| {
        return Err(UndoCountMismatch);
      }
      if tipHash != BlockHash(h, block) {
        return Err(NotCurrentTip);
      }
      var inside := FindSpentInside(block);
      var work := Restoring(utxos, {});
      var n := |block.txs|;
      while n > 0
        invariant 0 <= n <= |block.txs|
        invariant View() == old(View())
        invariant Unwind(block, undo.txs, inside, n, work)
               == Unwind(block, undo.txs, inside, |block.txs|, Restoring(old(utxos), {}))
      {
        n := n - 1;
        var removed :- RemoveCreated(block.txs[n], inside, work.utxos);
        work :- RestoreSpent(Restoring(removed, work.restored), undo.txs[n]);
      }
      utxos, alreadyGenerated := work.utxos, undo.previousGenerated;
      if height == 0 {
        hasTip, height, tipHash := false, 0, ZERO32;
      } else {
        height, tipHash := height - 1, block.header.prevBlockHash;
      }
      return Ok(());
    }
  }
}
