/**
 The unspent outputs and one non-coinbase transaction applied to them: input checks in the order of
 the source, removal of what is spent, creation of what is spendable, and the value rules.
 */
module Utxo {
  import opened Bytes
  import opened Wire
  import opened TxWire
  import opened BlockWire

  const COINBASE_MATURITY := 100
  const COV_TYPE_P2PK := 0x0000
  const COV_TYPE_HTLC := 0x0100
  const COV_TYPE_VAULT := 0x0101
  const COV_TYPE_MULTISIG := 0x0104
  const COV_TYPE_CORE_STEALTH := 0x0105
  const COV_TYPE_CORE_SIMPLICITY := 0x0106

  datatype Outpoint = Outpoint(txid: Hash32, vout: uint32)

  datatype UtxoEntry = UtxoEntry(
    value: uint64, covenantType: uint16, covenantData: Vec<Byte>, creationHeight: nat, createdByCoinbase: bool)

  type Utxos = map<Outpoint, UtxoEntry>

  datatype TxError =
    | NonceInvalid | NoInputs | CovenantRejected | CoinbasePrevout | ScriptSigPresent | SequenceInvalid
    | DuplicateInput | MissingUtxo | CoinbaseImmature | MultipleVaults | SimplicityDisabled | CovenantInvalid
    | WitnessSlotsInvalid | WitnessUnderflow | WitnessCountMismatch | SpendRejected
    | SumOverflow | VaultRejected | SumOutExceedsSumIn | VaultFundsFee

  /**
   The checks that read no UTXO state beyond the entries handed to them: covenant creation, covenant data
   of an input, signatures and authorisation of the resolved inputs, and the vault rules after the outputs.
   */
  datatype TxRules = TxRules(
    outputsOk: (Tx, nat) -> bool, dataOk: UtxoEntry -> bool, spendsOk: (Tx, seq<UtxoEntry>, nat) -> bool,
    vaultsOk: (Tx, seq<UtxoEntry>, nat) -> bool)

  /** What the input loop reads beside the inputs and the unspent outputs. */
  datatype Spending = Spending(dataOk: UtxoEntry -> bool, height: nat, witnesses: nat)

  function SpendingOf(rules: TxRules, t: BlockTx, height: nat): (sp: Spending)
  {
    Spending(rules.dataOk, height, |t.tx.witnesses|)
  }

  predicate Spendable(o: TxOutput) {
    o.covenantType != COV_TYPE_ANCHOR && o.covenantType != COV_TYPE_DA_COMMIT
  }

  function PrevOut(i: TxInput): (op: Outpoint)
  {
    Outpoint(i.prevTxid, i.prevVout)
  }

  function PrevOuts(inputs: seq<TxInput>): (ops: set<Outpoint>)
  {
    set i | i in inputs :: PrevOut(i)
  }

  /** The outpoints created by the first `n` outputs of a transaction. */
  function CreatedOps(txid: Hash32, outputs: seq<TxOutput>, n: nat): (ops: set<Outpoint>)
    requires n <= |outputs| <= MAX_TX_OUTPUTS
  {
    set i: int | 0 <= i < n && Spendable(outputs[i]) :: Outpoint(txid, i)
  }

  function EntryOf(o: TxOutput, height: nat, coinbase: bool): (e: UtxoEntry)
  {
    UtxoEntry(o.value, o.covenantType, o.covenantData, height, coinbase)
  }

  function CreatedBy(txid: Hash32, outputs: seq<TxOutput>, n: nat, height: nat, coinbase: bool): (m: Utxos)
    requires n <= |outputs| <= MAX_TX_OUTPUTS
    ensures m.Keys == CreatedOps(txid, outputs, n)
  {
    map op | op in CreatedOps(txid, outputs, n) :: EntryOf(outputs[op.vout], height, coinbase)
  }

  // ---------------------------------------------------------------- input checks

  /** The first failing check of where an input comes from, given the outpoints of the inputs before it. */
  function SourceError(i: TxInput, u: Utxos, height: nat, seen: set<Outpoint>): (e: Option<TxError>)
    ensures e == None ==> PrevOut(i) in u && PrevOut(i) !in seen
  {
    var op := PrevOut(i);
    if op == Outpoint(ZERO32, U32 - 1) then Some(CoinbasePrevout)
    else if i.scriptSig != [] then Some(ScriptSigPresent)
    else if i.sequence > 0x7FFF_FFFF then Some(SequenceInvalid)
    else if op in seen then Some(DuplicateInput)
    else if op !in u then Some(MissingUtxo)
    else
      var entry := u[op];
      if entry.covenantType == COV_TYPE_ANCHOR || entry.covenantType == COV_TYPE_DA_COMMIT then Some(MissingUtxo)
      else if entry.createdByCoinbase
           && (height < entry.creationHeight || height - entry.creationHeight < COINBASE_MATURITY) then
        Some(CoinbaseImmature)
      else None
  }

  predicate Supported(covenantType: uint16) {
    covenantType in {COV_TYPE_P2PK, COV_TYPE_CORE_STEALTH, COV_TYPE_VAULT, COV_TYPE_MULTISIG, COV_TYPE_HTLC}
  }

  /** How many witness items an input takes. */
  function Slots(e: UtxoEntry): (n: nat)
  {
    if e.covenantType == COV_TYPE_MULTISIG then (if |e.covenantData| > 1 then e.covenantData[1] else 1)
    else if e.covenantType == COV_TYPE_VAULT then (if |e.covenantData| > 33 then e.covenantData[33] else 1)
    else if e.covenantType == COV_TYPE_HTLC then 2
    else 1
  }

  function SlotSum(entries: seq<UtxoEntry>): (n: nat)
  {
    if entries == [] then 0 else SlotSum(entries[..|entries| - 1]) + Slots(entries[|entries| - 1])
  }

  /** The first failing check of a present entry, after the entries of the inputs before it. */
  function EntryError(e: UtxoEntry, sp: Spending, done: seq<UtxoEntry>): (error: Option<TxError>)
  {
    if e.covenantType == COV_TYPE_VAULT && VaultCount(done) >= 1 then Some(MultipleVaults)
    else if e.covenantType == COV_TYPE_CORE_SIMPLICITY then Some(SimplicityDisabled)
    else if !Supported(e.covenantType) || !sp.dataOk(e) then Some(CovenantInvalid)
    else if Slots(e) == 0 then Some(WitnessSlotsInvalid)
    else if SlotSum(done) + Slots(e) > sp.witnesses then Some(WitnessUnderflow)
    else None
  }

  /** The entries spent by `inputs`, after those already in `done`, with every witness item assigned. */
  function Resolve(inputs: seq<TxInput>, u: Utxos, sp: Spending, seen: set<Outpoint>, done: seq<UtxoEntry>)
    : (r: Result<seq<UtxoEntry>, TxError>)
    decreases |inputs|
  {
    if inputs == [] then (if SlotSum(done) != sp.witnesses then Err(WitnessCountMismatch) else Ok(done))
    else
      match SourceError(inputs[0], u, sp.height, seen)
      case Some(e) => Err(e)
      case None =>
        var entry := u[PrevOut(inputs[0])];
        match EntryError(entry, sp, done)
        case Some(e) => Err(e)
        case None => Resolve(inputs[1..], u, sp, seen + {PrevOut(inputs[0])}, done + [entry])
  }

  function VaultCount(entries: seq<UtxoEntry>): (n: nat)
  {
    if entries == [] then 0
    else VaultCount(entries[..|entries| - 1]) + if entries[|entries| - 1].covenantType == COV_TYPE_VAULT then 1 else 0
  }

  function SumIn(entries: seq<UtxoEntry>): (n: nat)
  {
    if entries == [] then 0 else SumIn(entries[..|entries| - 1]) + entries[|entries| - 1].value
  }

  function SumVault(entries: seq<UtxoEntry>): (n: nat)
    ensures n <= SumIn(entries)
  {
    if entries == [] then 0
    else
      var last := entries[|entries| - 1];
      SumVault(entries[..|entries| - 1]) + if last.covenantType == COV_TYPE_VAULT then last.value else 0
  }

  function SumOut(outputs: seq<TxOutput>): (n: nat)
  {
    if outputs == [] then 0 else SumOut(outputs[..|outputs| - 1]) + outputs[|outputs| - 1].value
  }

  /** What `Resolve` promises: distinct present outpoints, their entries in input order, all witness items taken. */
  lemma {:induction false} ResolveIsExact(
    inputs: seq<TxInput>, u: Utxos, sp: Spending, seen: set<Outpoint>, done: seq<UtxoEntry>)
    requires Resolve(inputs, u, sp, seen, done).Ok?
    ensures var es := Resolve(inputs, u, sp, seen, done).value;
      && |es| == |done| + |inputs| && es[..|done|] == done && SlotSum(es) == sp.witnesses
      && PrevOuts(inputs) <= u.Keys && PrevOuts(inputs) !! seen
      && (forall i :: 0 <= i < |inputs| ==> PrevOut(inputs[i]) in u && es[|done| + i] == u[PrevOut(inputs[i])])
      && (forall i, j :: 0 <= i < j < |inputs| ==> PrevOut(inputs[i]) != PrevOut(inputs[j]))
    decreases |inputs|
  {
    hide EntryError, SourceError, SlotSum;
    if inputs != [] {
      var op := PrevOut(inputs[0]);
      var done' := done + [u[op]];
      ResolveIsExact(inputs[1..], u, sp, seen + {op}, done');
      var es := Resolve(inputs, u, sp, seen, done).value;
      assert es[|done|] == es[..|done'|][|done|] == u[op];
      assert es[..|done|] == es[..|done'|][..|done|];
      forall i | 1 <= i < |inputs|
        ensures PrevOut(inputs[i]) in u && es[|done| + i] == u[PrevOut(inputs[i])]
        ensures PrevOut(inputs[i]) != op
      {
        assert inputs[i] == inputs[1..][i - 1];
        assert PrevOut(inputs[i]) in PrevOuts(inputs[1..]);
      }
      forall i, j | 0 <= i < j < |inputs|
        ensures PrevOut(inputs[i]) != PrevOut(inputs[j])
      {
        if i > 0 {
          assert inputs[i] == inputs[1..][i - 1] && inputs[j] == inputs[1..][j - 1];
        }
      }
      assert forall i :: i in inputs <==> i == inputs[0] || i in inputs[1..];
    }
  }

  // ---------------------------------------------------------------- one transaction

  datatype Applied = Applied(utxos: Utxos, fee: nat)

  function After(u: Utxos, t: BlockTx, height: nat): (u': Utxos)
    requires |t.tx.core.outputs| <= MAX_TX_OUTPUTS
  {
    var outputs := t.tx.core.outputs;
    (u - PrevOuts(t.tx.core.inputs)) + CreatedBy(t.txid, outputs, |outputs|, height, false)
  }

  function ApplyTx(rules: TxRules, t: BlockTx, u: Utxos, height: nat): (r: Result<Applied, TxError>)
    requires |t.tx.core.outputs| <= MAX_TX_OUTPUTS
  {
    var core := t.tx.core;
    if core.prefix.nonce == 0 then Err(NonceInvalid)
    else if core.inputs == [] then Err(NoInputs)
    else if !rules.outputsOk(t.tx, height) then Err(CovenantRejected)
    else
      var entries :- Resolve(core.inputs, u, SpendingOf(rules, t, height), {}, []);
      if !rules.spendsOk(t.tx, entries, height) then Err(SpendRejected)
      else if SumIn(entries) >= U128 || SumOut(core.outputs) >= U128 then Err(SumOverflow)
      else if !rules.vaultsOk(t.tx, entries, height) then Err(VaultRejected)
      else if SumOut(core.outputs) > SumIn(entries) then Err(SumOutExceedsSumIn)
      else if VaultCount(entries) == 1 && SumOut(core.outputs) < SumVault(entries) then Err(VaultFundsFee)
      else Ok(Applied(After(u, t, height), SumIn(entries) - SumOut(core.outputs)))
  }

  lemma {:induction false} AtMostOneVault(
    inputs: seq<TxInput>, u: Utxos, sp: Spending, seen: set<Outpoint>, done: seq<UtxoEntry>)
    requires VaultCount(done) <= 1 && Resolve(inputs, u, sp, seen, done).Ok?
    ensures VaultCount(Resolve(inputs, u, sp, seen, done).value) <= 1
    decreases |inputs|
  {
    hide SlotSum, Slots, Supported;
    if inputs != [] {
      var op := PrevOut(inputs[0]);
      assert (done + [u[op]])[..|done|] == done;
      AtMostOneVault(inputs[1..], u, sp, seen + {op}, done + [u[op]]);
    }
  }

  lemma {:induction false} NoVaultNoValue(entries: seq<UtxoEntry>)
    requires VaultCount(entries) == 0
    ensures SumVault(entries) == 0
  {
    if entries != [] {
      NoVaultNoValue(entries[..|entries| - 1]);
    }
  }

  /** The fee of an applied transaction is covered by its inputs that are not vaults. */
  lemma VaultNeverFundsFee(rules: TxRules, t: BlockTx, u: Utxos, height: nat)
    requires |t.tx.core.outputs| <= MAX_TX_OUTPUTS && ApplyTx(rules, t, u, height).Ok?
    ensures var entries := Resolve(t.tx.core.inputs, u, SpendingOf(rules, t, height), {}, []).value;
      ApplyTx(rules, t, u, height).value.fee <= SumIn(entries) - SumVault(entries)
  {
    var entries := Resolve(t.tx.core.inputs, u, SpendingOf(rules, t, height), {}, []).value;
    AtMostOneVault(t.tx.core.inputs, u, SpendingOf(rules, t, height), {}, []);
    if VaultCount(entries) == 0 {
      NoVaultNoValue(entries);
    }
  }

  /** A transaction that applies spends only what is there. */
  lemma AppliedSpendsPresent(rules: TxRules, t: BlockTx, u: Utxos, height: nat)
    requires |t.tx.core.outputs| <= MAX_TX_OUTPUTS && ApplyTx(rules, t, u, height).Ok?
    ensures t.tx.core.prefix.nonce >= 1 && t.tx.core.inputs != []
    ensures PrevOuts(t.tx.core.inputs) <= u.Keys
    ensures ApplyTx(rules, t, u, height).value.utxos == After(u, t, height)
  {
    ResolveIsExact(t.tx.core.inputs, u, SpendingOf(rules, t, height), {}, []);
  }

  // ---------------------------------------------------------------- total value

  /** The sum of all unspent values. */
  ghost function Total(u: Utxos): (n: nat)
    decreases |u|
  {
    if u == map[] then 0
    else
      var op :| op in u;
      u[op].value + Total(u - {op})
  }

  lemma {:induction false} TotalRemove(u: Utxos, op: Outpoint)
    requires op in u
    ensures Total(u) == u[op].value + Total(u - {op})
    decreases |u|
  {
    var first :| first in u && Total(u) == u[first].value + Total(u - {first});
    if first != op {
      TotalRemove(u - {first}, op);
      TotalRemove(u - {op}, first);
      assert u - {first} - {op} == u - {op} - {first};
    }
  }

  lemma TotalInsert(u: Utxos, op: Outpoint, e: UtxoEntry)
    ensures Total(u[op := e]) == Total(u - {op}) + e.value
    ensures Total(u[op := e]) <= Total(u) + e.value
  {
    var v := u[op := e];
    TotalRemove(v, op);
    assert v - {op} == u - {op};
    if op in u {
      TotalRemove(u, op);
    } else {
      assert u - {op} == u;
    }
  }

  /** Removing the resolved inputs lowers the total by exactly their sum. */
  lemma {:induction false} TotalSpend(u: Utxos, inputs: seq<TxInput>, entries: seq<UtxoEntry>)
    requires |inputs| == |entries|
    requires forall i :: 0 <= i < |inputs| ==> PrevOut(inputs[i]) in u && entries[i] == u[PrevOut(inputs[i])]
    requires forall i, j :: 0 <= i < j < |inputs| ==> PrevOut(inputs[i]) != PrevOut(inputs[j])
    ensures Total(u) == SumIn(entries) + Total(u - PrevOuts(inputs))
    decreases |inputs|
  {
    if inputs == [] {
      assert u - PrevOuts(inputs) == u;
    } else {
      var n := |inputs| - 1;
      var rest, last := inputs[..n], PrevOut(inputs[n]);
      TotalSpend(u, rest, entries[..n]);
      var v := u - PrevOuts(rest);
      assert last in v;
      TotalRemove(v, last);
      assert forall i :: i in inputs <==> i in rest || i == inputs[n];
      assert PrevOuts(inputs) == PrevOuts(rest) + {last};
      assert v - {last} == u - PrevOuts(inputs);
    }
  }

  /** Creating outputs raises the total by at most their sum. */
  lemma {:induction false} TotalCreate(
    u: Utxos, txid: Hash32, outputs: seq<TxOutput>, n: nat, height: nat, coinbase: bool)
    requires n <= |outputs| <= MAX_TX_OUTPUTS
    ensures Total(u + CreatedBy(txid, outputs, n, height, coinbase)) <= Total(u) + SumOut(outputs[..n])
    decreases n
  {
    if n == 0 {
      assert u + CreatedBy(txid, outputs, n, height, coinbase) == u;
    } else {
      var before := u + CreatedBy(txid, outputs, n - 1, height, coinbase);
      TotalCreate(u, txid, outputs, n - 1, height, coinbase);
      CreatedStep(u, txid, outputs, n - 1, height, coinbase);
      if Spendable(outputs[n - 1]) {
        TotalInsert(before, Outpoint(txid, n - 1), EntryOf(outputs[n - 1], height, coinbase));
      }
      assert outputs[..n][..n - 1] == outputs[..n - 1];
    }
  }

  /** One more output: an insertion if it is spendable, nothing otherwise. */
  lemma CreatedStep(u: Utxos, txid: Hash32, outputs: seq<TxOutput>, n: nat, height: nat, coinbase: bool)
    requires n < |outputs| <= MAX_TX_OUTPUTS
    ensures u + CreatedBy(txid, outputs, n + 1, height, coinbase)
         == if Spendable(outputs[n])
            then (u + CreatedBy(txid, outputs, n, height, coinbase))
                   [Outpoint(txid, n) := EntryOf(outputs[n], height, coinbase)]
            else u + CreatedBy(txid, outputs, n, height, coinbase)
  {
    var a, b := CreatedOps(txid, outputs, n), CreatedOps(txid, outputs, n + 1);
    var op := Outpoint(txid, n);
    assert b == if Spendable(outputs[n]) then a + {op} else a;
  }

  lemma AppliedIs(rules: TxRules, t: BlockTx, u: Utxos, height: nat)
    requires |t.tx.core.outputs| <= MAX_TX_OUTPUTS && ApplyTx(rules, t, u, height).Ok?
    ensures var entries := Resolve(t.tx.core.inputs, u, SpendingOf(rules, t, height), {}, []);
      && entries.Ok? && SumOut(t.tx.core.outputs) <= SumIn(entries.value)
      && ApplyTx(rules, t, u, height).value
           == Applied(After(u, t, height), SumIn(entries.value) - SumOut(t.tx.core.outputs))
  {
    hide Resolve, After, SumIn, SumOut;
  }

  /** `entries` are the entries of distinct present outpoints, in the order of `inputs`. */
  ghost predicate Takes(inputs: seq<TxInput>, u: Utxos, entries: seq<UtxoEntry>) {
    && |inputs| == |entries|
    && (forall i :: 0 <= i < |inputs| ==> PrevOut(inputs[i]) in u && entries[i] == u[PrevOut(inputs[i])])
    && (forall i, j :: 0 <= i < j < |inputs| ==> PrevOut(inputs[i]) != PrevOut(inputs[j]))
  }

  lemma ResolvedTakes(inputs: seq<TxInput>, u: Utxos, sp: Spending)
    requires Resolve(inputs, u, sp, {}, []).Ok?
    ensures Takes(inputs, u, Resolve(inputs, u, sp, {}, []).value)
  {
    hide Resolve;
    ResolveIsExact(inputs, u, sp, {}, []);
  }

  lemma Balance(t: BlockTx, u: Utxos, height: nat, entries: seq<UtxoEntry>)
    requires |t.tx.core.outputs| <= MAX_TX_OUTPUTS && Takes(t.tx.core.inputs, u, entries)
    ensures Total(After(u, t, height)) + SumIn(entries) <= Total(u) + SumOut(t.tx.core.outputs)
  {
    hide SumIn, SumOut, Total, CreatedBy, PrevOuts;
    var inputs, outputs := t.tx.core.inputs, t.tx.core.outputs;
    TotalSpend(u, inputs, entries);
    TotalCreate(u - PrevOuts(inputs), t.txid, outputs, |outputs|, height, false);
    assert outputs[..|outputs|] == outputs;
  }

  /** Value is conserved: what is left plus the fee is at most what was there. */
  lemma ValueConserved(rules: TxRules, t: BlockTx, u: Utxos, height: nat)
    requires |t.tx.core.outputs| <= MAX_TX_OUTPUTS && ApplyTx(rules, t, u, height).Ok?
    ensures var a := ApplyTx(rules, t, u, height).value; Total(a.utxos) + a.fee <= Total(u)
  {
    hide ApplyTx, Resolve, SpendingOf, SumIn, SumOut, Total, After, Takes;
    AppliedIs(rules, t, u, height);
    ResolvedTakes(t.tx.core.inputs, u, SpendingOf(rules, t, height));
    Balance(t, u, height, Resolve(t.tx.core.inputs, u, SpendingOf(rules, t, height), {}, []).value);
  }

  // ---------------------------------------------------------------- the loops of the source

  /** The checks of one input in the order of the source. */
  method ResolveInput(i: TxInput, u: Utxos, sp: Spending, seen: set<Outpoint>, ghost done: seq<UtxoEntry>,
                      vaults: nat, cursor: nat) returns (r: Result<UtxoEntry, TxError>)
    requires vaults == VaultCount(done) && cursor == SlotSum(done)
    ensures match SourceError(i, u, sp.height, seen)
      case Some(e) => r == Err(e)
      case None =>
        var entry := u[PrevOut(i)];
        r == (match EntryError(entry, sp, done) case Some(e) => Err(e) case None => Ok(entry))
  {
    hide VaultCount, SlotSum;
    var e := SourceError(i, u, sp.height, seen);
    if e.Some? {
      return Err(e.value);
    }
    var entry := u[PrevOut(i)];
    if entry.covenantType == COV_TYPE_VAULT && vaults + 1 > 1 {
      return Err(MultipleVaults);
    }
    if entry.covenantType == COV_TYPE_CORE_SIMPLICITY {
      return Err(SimplicityDisabled);
    }
    if !Supported(entry.covenantType) || !sp.dataOk(entry) {
      return Err(CovenantInvalid);
    }
    var slots := Slots(entry);
    if slots == 0 {
      return Err(WitnessSlotsInvalid);
    }
    if cursor + slots > sp.witnesses {
      return Err(WitnessUnderflow);
    }
    return Ok(entry);
  }

  method ResolveInputs(inputs: seq<TxInput>, u: Utxos, sp: Spending) returns (r: Result<seq<UtxoEntry>, TxError>)
    ensures r == Resolve(inputs, u, sp, {}, [])
  {
    hide EntryError, SourceError, Slots;
    var seen: set<Outpoint>, resolved, vaults, cursor := {}, [], 0, 0;
    assert inputs[0..] == inputs;
    for i := 0 to |inputs|
      invariant vaults == VaultCount(resolved) && cursor == SlotSum(resolved)
      invariant Resolve(inputs[i..], u, sp, seen, resolved) == Resolve(inputs, u, sp, {}, [])
    {
      assert inputs[i..][0] == inputs[i] && inputs[i..][1..] == inputs[i + 1..];
      var next := ResolveInput(inputs[i], u, sp, seen, resolved, vaults, cursor);
      if next.Err? {
        return Err(next.error);
      }
      assert (resolved + [next.value])[..|resolved|] == resolved;
      seen := seen + {PrevOut(inputs[i])};
      vaults := vaults + if next.value.covenantType == COV_TYPE_VAULT then 1 else 0;
      cursor := cursor + Slots(next.value);
      resolved := resolved + [next.value];
    }
    if cursor != sp.witnesses {
      return Err(WitnessCountMismatch);
    }
    return Ok(resolved);
  }

  method AddOutputs(u: Utxos, txid: Hash32, outputs: seq<TxOutput>, height: nat, coinbase: bool)
    returns (work: Utxos, sum: nat)
    requires |outputs| <= MAX_TX_OUTPUTS
    ensures work == u + CreatedBy(txid, outputs, |outputs|, height, coinbase)
    ensures sum == SumOut(outputs)
  {
    work, sum := u, 0;
    for i := 0 to |outputs|
      invariant work == u + CreatedBy(txid, outputs, i, height, coinbase)
      invariant sum == SumOut(outputs[..i])
    {
      CreatedStep(u, txid, outputs, i, height, coinbase);
      assert outputs[..i + 1][..i] == outputs[..i];
      sum := sum + outputs[i].value;
      if Spendable(outputs[i]) {
        work := work[Outpoint(txid, i) := EntryOf(outputs[i], height, coinbase)];
      }
    }
    assert outputs[..|outputs|] == outputs;
  }

  method SpendInputs(u: Utxos, inputs: seq<TxInput>, entries: seq<UtxoEntry>)
    returns (work: Utxos, sumIn: nat, sumVault: nat)
    requires |inputs| == |entries|
    ensures work == u - PrevOuts(inputs)
    ensures sumIn == SumIn(entries) && sumVault == SumVault(entries)
  {
    work, sumIn, sumVault := u, 0, 0;
    for i := 0 to |inputs|
      invariant work == u - PrevOuts(inputs[..i])
      invariant sumIn == SumIn(entries[..i]) && sumVault == SumVault(entries[..i])
    {
      assert entries[..i + 1][..i] == entries[..i];
      sumIn := sumIn + entries[i].value;
      if entries[i].covenantType == COV_TYPE_VAULT {
        sumVault := sumVault + entries[i].value;
      }
      assert forall x :: x in inputs[..i + 1] <==> x in inputs[..i] || x == inputs[i];
      work := work - {PrevOut(inputs[i])};
    }
    assert inputs[..|inputs|] == inputs && entries[..|entries|] == entries;
  }

  method ApplyNonCoinbaseTx(rules: TxRules, t: BlockTx, u: Utxos, height: nat) returns (r: Result<Applied, TxError>)
    requires |t.tx.core.outputs| <= MAX_TX_OUTPUTS
    ensures r == ApplyTx(rules, t, u, height)
  {
    var core := t.tx.core;
    if core.prefix.nonce == 0 {
      return Err(NonceInvalid);
    }
    if core.inputs == [] {
      return Err(NoInputs);
    }
    if !rules.outputsOk(t.tx, height) {
      return Err(CovenantRejected);
    }
    var entries :- ResolveInputs(core.inputs, u, SpendingOf(rules, t, height));
    ResolveIsExact(core.inputs, u, SpendingOf(rules, t, height), {}, []);
    hide Resolve;
    if !rules.spendsOk(t.tx, entries, height) {
      return Err(SpendRejected);
    }
    var work, sumIn, sumVault := SpendInputs(u, core.inputs, entries);
    var sumOut;
    work, sumOut := AddOutputs(work, t.txid, core.outputs, height, false);
    if sumIn >= U128 || sumOut >= U128 {
      return Err(SumOverflow);
    }
    if !rules.vaultsOk(t.tx, entries, height) {
      return Err(VaultRejected);
    }
    if sumOut > sumIn {
      return Err(SumOutExceedsSumIn);
    }
    if VaultCount(entries) == 1 && sumOut < sumVault {
      return Err(VaultFundsFee);
    }
    return Ok(Applied(work, sumIn - sumOut));
  }
}
