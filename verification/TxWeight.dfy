/**
 Transaction and block weight. The clients add up field sizes with overflow checks and never
 serialise; the fixture runner serialises and adds lengths. Both are the same number.
 */
module TxWeight {
  import opened Bytes
  import opened Wire
  import opened TxWire
  import opened WitnessWire
  import opened TxCodec
  import opened BlockWire
  import CS = CompactSize

  const WITNESS_DISCOUNT_DIVISOR := 4
  const VERIFY_COST_ML_DSA_87 := 8
  const VERIFY_COST_UNKNOWN_SUITE := 64
  const SIMPLICITY_BASE_VERIFY_COST := 64

  datatype Fault = Overflow | DaFieldsAbsent

  /** A running total that must stay below 2^64. */
  function Checked(n: nat): (r: Result<uint64, Fault>)
  {
    if n < U64 then Ok(n) else Err(Overflow)
  }

  function CheckedAdd(a: uint64, b: uint64): (r: Result<uint64, Fault>)
    ensures r == Checked(a + b)
  {
    if a <= U64 - 1 - b then Ok(a + b) else Err(Overflow)
  }

  /** The verification cost of a witness item under some table. */
  type Costs = WitnessItem -> uint64

  /** The fixed table. */
  function SigCost(w: WitnessItem): (n: uint64)
    ensures n <= 64
  {
    if w.suiteId == SUITE_ID_SENTINEL then 0
    else if w.suiteId == SUITE_ID_SIMPLICITY_ENVELOPE then SIMPLICITY_BASE_VERIFY_COST
    else if w.suiteId == SUITE_ID_ML_DSA_87 then
      if |w.pubkey| == ML_DSA_87_PUBKEY_BYTES && |w.signature| == ML_DSA_87_SIG_BYTES + 1
      then VERIFY_COST_ML_DSA_87 else 0
    else VERIFY_COST_UNKNOWN_SUITE
  }

  datatype Suite = Suite(pubkeyLen: nat, sigLen: nat, verifyCost: uint64)

  /** The table of the registry, for the suites that are native at the height in question. */
  function RegistryCost(native: set<uint8>, registry: map<uint8, Suite>, w: WitnessItem): (n: uint64)
  {
    if w.suiteId == SUITE_ID_SENTINEL then 0
    else if w.suiteId == SUITE_ID_SIMPLICITY_ENVELOPE then SIMPLICITY_BASE_VERIFY_COST
    else if w.suiteId !in native || w.suiteId !in registry then VERIFY_COST_UNKNOWN_SUITE
    else
      var suite := registry[w.suiteId];
      if |w.pubkey| == suite.pubkeyLen && |w.signature| == suite.sigLen + 1 then suite.verifyCost else 0
  }

  function SigCosts(cost: Costs, ws: seq<WitnessItem>): (n: nat)
  {
    if ws == [] then 0 else SigCosts(cost, ws[..|ws| - 1]) + cost(ws[|ws| - 1])
  }

  const ML_DSA_87 := Suite(ML_DSA_87_PUBKEY_BYTES, ML_DSA_87_SIG_BYTES, VERIFY_COST_ML_DSA_87)

  /** Of the suites the table looks up, ML-DSA-87 alone is native and registered, with its own sizes and cost. */
  ghost predicate OnlyMlDsa87(native: set<uint8>, registry: map<uint8, Suite>) {
    && SUITE_ID_ML_DSA_87 in native && SUITE_ID_ML_DSA_87 in registry && registry[SUITE_ID_ML_DSA_87] == ML_DSA_87
    && forall id :: id in native && id in registry ==>
         id == SUITE_ID_SENTINEL || id == SUITE_ID_SIMPLICITY_ENVELOPE || id == SUITE_ID_ML_DSA_87
  }

  ghost predicate SameTable(native: set<uint8>, registry: map<uint8, Suite>) {
    forall w :: RegistryCost(native, registry, w) == SigCost(w)
  }

  function Zeros(n: nat): (v: seq<Byte>)
  {
    seq(n, i => 0)
  }

  /** The registry charges every item what the fixed table does exactly when ML-DSA-87 is its only suite. */
  lemma TablesAgree(native: set<uint8>, registry: map<uint8, Suite>)
    ensures SameTable(native, registry) <==> OnlyMlDsa87(native, registry)
  {
    if SameTable(native, registry) {
      var short := WitnessItem(SUITE_ID_ML_DSA_87, [], []);
      assert RegistryCost(native, registry, short) == SigCost(short);
      var w := WitnessItem(SUITE_ID_ML_DSA_87, Zeros(ML_DSA_87_PUBKEY_BYTES), Zeros(ML_DSA_87_SIG_BYTES + 1));
      assert RegistryCost(native, registry, w) == SigCost(w);
      forall id | id in native && id in registry
        ensures id == SUITE_ID_SENTINEL || id == SUITE_ID_SIMPLICITY_ENVELOPE || id == SUITE_ID_ML_DSA_87
      {
        var odd := WitnessItem(id, if registry[id].pubkeyLen == 0 then [0] else [], []);
        assert RegistryCost(native, registry, odd) == SigCost(odd);
      }
    }
  }

  /** Then every transaction has the same weight and statistics under both tables. */
  lemma WeightsAgree(native: set<uint8>, registry: map<uint8, Suite>, tx: Tx)
    requires OnlyMlDsa87(native, registry)
    ensures StatsOf(w => RegistryCost(native, registry, w), tx) == StatsOf(SigCost, tx)
  {
    hide RegistryCost, SigCost, OnlyMlDsa87, StatsOf, SigCosts;
    TablesAgree(native, registry);
    SameStats(w => RegistryCost(native, registry, w), SigCost, tx);
  }

  lemma SameStats(a: Costs, b: Costs, tx: Tx)
    requires forall w :: a(w) == b(w)
    ensures StatsOf(a, tx) == StatsOf(b, tx)
  {
    hide SigCosts, CoreBytes, WitnessBytes, Blob, ListsLen, AnchorBytes, DaFieldsMissing;
    SameCosts(a, b, tx.witnesses);
  }

  lemma {:induction false} SameCosts(a: Costs, b: Costs, ws: seq<WitnessItem>)
    requires forall w :: a(w) == b(w)
    ensures SigCosts(a, ws) == SigCosts(b, ws)
    decreases |ws|
  {
    if ws != [] {
      SameCosts(a, b, ws[..|ws| - 1]);
    }
  }

  predicate CountsAsAnchor(o: TxOutput) {
    o.covenantType == COV_TYPE_ANCHOR || o.covenantType == COV_TYPE_DA_COMMIT
  }

  /** Covenant bytes of the outputs that are not spendable. */
  function AnchorBytes(outputs: seq<TxOutput>): (n: nat)
  {
    if outputs == [] then 0
    else
      var last := outputs[|outputs| - 1];
      AnchorBytes(outputs[..|outputs| - 1]) + if CountsAsAnchor(last) then |last.covenantData| else 0
  }

  lemma InputSize(i: TxInput)
    ensures |InputBytes(i)| == 32 + 4 + CS.EncodedLen(|i.scriptSig|) + |i.scriptSig| + 4
  {
    CS.EncodedLenMatches(|i.scriptSig|);
  }

  lemma OutputSize(o: TxOutput)
    ensures |OutputBytes(o)| == 8 + 2 + CS.EncodedLen(|o.covenantData|) + |o.covenantData|
  {
    CS.EncodedLenMatches(|o.covenantData|);
  }

  lemma ItemSize(w: WitnessItem)
    ensures |ItemBytes(w)|
         == 1 + CS.EncodedLen(|w.pubkey|) + |w.pubkey| + CS.EncodedLen(|w.signature|) + |w.signature|
  {
    CS.EncodedLenMatches(|w.pubkey|);
    CS.EncodedLenMatches(|w.signature|);
  }

  lemma ConcatPrefix<T>(enc: T -> seq<Byte>, xs: seq<T>, i: nat)
    requires i < |xs|
    ensures |Concat(enc, xs[..i + 1])| == |Concat(enc, xs[..i])| + |enc(xs[i])|
  {
    assert xs[..i + 1] == xs[..i] + [xs[i]];
    ConcatSnoc(enc, xs[..i], xs[i]);
  }

  lemma {:induction false} ConcatGrows<T>(enc: T -> seq<Byte>, xs: seq<T>, i: nat)
    requires i <= |xs|
    ensures |Concat(enc, xs[..i])| <= |Concat(enc, xs)|
    decreases |xs| - i
  {
    if i == |xs| {
      assert xs[..i] == xs;
    } else {
      ConcatGrows(enc, xs, i + 1);
      ConcatPrefix(enc, xs, i);
    }
  }

  method AddInputSizes(base: uint64, inputs: seq<TxInput>) returns (r: Result<uint64, Fault>)
    ensures r == Checked(base + |Concat(InputBytes, inputs)|)
  {
    hide InputBytes, Concat;
    var size := base;
    assert inputs[..0] == [] && |Concat(InputBytes, inputs[..0])| == 0 by { EmptyConcat(InputBytes); }
    for i := 0 to |inputs|
      invariant size == base + |Concat(InputBytes, inputs[..i])|
    {
      var input := inputs[i];
      ConcatPrefix(InputBytes, inputs, i);
      ConcatGrows(InputBytes, inputs, i + 1);
      InputSize(input);
      size :- CheckedAdd(size, 32 + 4);
      size :- CheckedAdd(size, CS.EncodedLen(|input.scriptSig|));
      size :- CheckedAdd(size, |input.scriptSig|);
      size :- CheckedAdd(size, 4);
    }
    assert inputs[..|inputs|] == inputs;
    return Ok(size);
  }

  lemma EmptyConcat<T>(enc: T -> seq<Byte>)
    ensures Concat(enc, []) == []
  {
  }

  method AddOutputSizes(base: uint64, outputs: seq<TxOutput>) returns (r: Result<(uint64, nat), Fault>)
    ensures var size := base + |Concat(OutputBytes, outputs)|;
      r == if size < U64 then Ok((size, AnchorBytes(outputs))) else Err(Overflow)
  {
    hide OutputBytes, Concat;
    var size, anchors := base, 0;
    assert outputs[..0] == [] && |Concat(OutputBytes, outputs[..0])| == 0 by { EmptyConcat(OutputBytes); }
    for i := 0 to |outputs|
      invariant size == base + |Concat(OutputBytes, outputs[..i])|
      invariant anchors == AnchorBytes(outputs[..i]) <= |Concat(OutputBytes, outputs[..i])|
    {
      var output := outputs[i];
      ConcatPrefix(OutputBytes, outputs, i);
      ConcatGrows(OutputBytes, outputs, i + 1);
      OutputSize(output);
      assert outputs[..i + 1][..i] == outputs[..i];
      size :- CheckedAdd(size, 8 + 2);
      size :- CheckedAdd(size, CS.EncodedLen(|output.covenantData|));
      size :- CheckedAdd(size, |output.covenantData|);
      if CountsAsAnchor(output) {
        anchors :- CheckedAdd(anchors, |output.covenantData|);
      }
    }
    assert outputs[..|outputs|] == outputs;
    return Ok((size, anchors));
  }

  method AddItemSize(base: uint64, w: WitnessItem) returns (r: Result<uint64, Fault>)
    ensures r == Checked(base + |ItemBytes(w)|)
  {
    ItemSize(w);
    hide ItemBytes;
    var size :- CheckedAdd(base, 1);
    size :- CheckedAdd(size, CS.EncodedLen(|w.pubkey|));
    size :- CheckedAdd(size, |w.pubkey|);
    size :- CheckedAdd(size, CS.EncodedLen(|w.signature|));
    size :- CheckedAdd(size, |w.signature|);
    return Ok(size);
  }

  lemma {:induction false} SigCostsGrow(cost: Costs, ws: seq<WitnessItem>, i: nat)
    requires i <= |ws|
    ensures SigCosts(cost, ws[..i]) <= SigCosts(cost, ws)
    decreases |ws| - i
  {
    if i == |ws| {
      assert ws[..i] == ws;
    } else {
      SigCostsGrow(cost, ws, i + 1);
      assert ws[..i + 1][..i] == ws[..i];
    }
  }

  /** Size of the count and the first `i` items, and the cost of those items. */
  function SizeTo(ws: Vec<WitnessItem>, i: nat): (n: nat)
    requires i <= |ws|
  {
    CS.EncodedLen(|ws|) + |Concat(ItemBytes, ws[..i])|
  }

  function CostTo(cost: Costs, ws: Vec<WitnessItem>, i: nat): (n: nat)
    requires i <= |ws|
  {
    SigCosts(cost, ws[..i])
  }

  lemma Ends(cost: Costs, ws: Vec<WitnessItem>)
    ensures SizeTo(ws, 0) == CS.EncodedLen(|ws|) <= 9 && CostTo(cost, ws, 0) == 0
    ensures SizeTo(ws, |ws|) == |WitnessBytes(ws)| && CostTo(cost, ws, |ws|) == SigCosts(cost, ws)
  {
    CS.EncodedLenMatches(|ws|);
    assert ws[..0] == [] && ws[..|ws|] == ws;
    EmptyConcat(ItemBytes);
    hide Concat, ItemBytes;
  }

  lemma OneItem(cost: Costs, ws: Vec<WitnessItem>, i: nat)
    requires i < |ws|
    ensures SizeTo(ws, i + 1) == SizeTo(ws, i) + |ItemBytes(ws[i])| <= SizeTo(ws, |ws|)
    ensures CostTo(cost, ws, i + 1) == CostTo(cost, ws, i) + cost(ws[i]) <= CostTo(cost, ws, |ws|)
  {
    ConcatPrefix(ItemBytes, ws, i);
    ConcatGrows(ItemBytes, ws, i + 1);
    SigCostsGrow(cost, ws, i + 1);
    assert ws[..i + 1][..i] == ws[..i] && ws[..|ws|] == ws;
    hide Concat, ItemBytes, CS.EncodedLen;
  }

  /** Size and cost in one loop over the witness items. */
  method WitnessSizeAndCost(cost: Costs, ws: Vec<WitnessItem>) returns (r: Result<(uint64, uint64), Fault>)
    ensures var size, total := |WitnessBytes(ws)|, SigCosts(cost, ws);
      r == if size < U64 && total < U64 then Ok((size, total)) else Err(Overflow)
  {
    hide ItemBytes, WitnessBytes, CS.EncodedLen, SigCosts, SizeTo, CostTo;
    Ends(cost, ws);
    var size, total := CS.EncodedLen(|ws|), 0;
    for i := 0 to |ws|
      invariant size < U64 && size == SizeTo(ws, i) && total < U64 && total == CostTo(cost, ws, i)
    {
      OneItem(cost, ws, i);
      size :- AddItemSize(size, ws[i]);
      total :- CheckedAdd(total, cost(ws[i]));
    }
    return Ok((size, total));
  }

  /** The core without its data-availability fields. */
  function ListsLen(core: TxCore): (n: nat)
  {
    13 + CS.EncodedLen(|core.inputs|) + |Concat(InputBytes, core.inputs)|
    + CS.EncodedLen(|core.outputs|) + |Concat(OutputBytes, core.outputs)| + 4
  }

  lemma CoreSize(core: TxCore)
    ensures |CoreBytes(core)| == ListsLen(core) + |DaCoreBytes(core)|
  {
    CS.EncodedLenMatches(|core.inputs|);
    CS.EncodedLenMatches(|core.outputs|);
    hide InputBytes, OutputBytes, Concat, DaCoreBytes;
  }

  method ListsSize(core: TxCore) returns (r: Result<(uint64, nat), Fault>)
    ensures r == if ListsLen(core) < U64 then Ok((ListsLen(core), AnchorBytes(core.outputs))) else Err(Overflow)
  {
    hide InputBytes, OutputBytes, Concat, AnchorBytes;
    var size: uint64 := 4 + 1 + 8 + CS.EncodedLen(|core.inputs|);
    size :- AddInputSizes(size, core.inputs);
    size :- CheckedAdd(size, CS.EncodedLen(|core.outputs|));
    var both :- AddOutputSizes(size, core.outputs);
    size :- CheckedAdd(both.0, 4);
    return Ok((size, both.1));
  }

  /** Base size and anchor bytes: missing data-availability fields are found after the lists are added up. */
  function BaseOf(core: TxCore): (r: Result<(uint64, nat), Fault>)
  {
    if ListsLen(core) >= U64 then Err(Overflow)
    else if DaFieldsMissing(core) then Err(DaFieldsAbsent)
    else if |CoreBytes(core)| >= U64 then Err(Overflow)
    else Ok((|CoreBytes(core)|, AnchorBytes(core.outputs)))
  }

  method BaseSize(core: TxCore) returns (r: Result<(uint64, nat), Fault>)
    ensures r == BaseOf(core)
  {
    CoreSize(core);
    hide DaCoreBytes, CoreBytes, ListsLen, AnchorBytes;
    var both :- ListsSize(core);
    if DaFieldsMissing(core) {
      return Err(DaFieldsAbsent);
    }
    var da := |DaCoreBytes(core)|;
    if da >= U64 {
      return Err(Overflow);
    }
    var size :- CheckedAdd(both.0, da);
    return Ok((size, both.1));
  }

  method DaSize(payload: Vec<Byte>) returns (r: Result<uint64, Fault>)
    ensures r == Checked(|Blob(payload)|)
  {
    CS.EncodedLenMatches(|payload|);
    r := CheckedAdd(CS.EncodedLen(|payload|), |payload|);
  }

  method Combine(base: uint64, wit: uint64, da: uint64, cost: uint64) returns (r: Result<uint64, Fault>)
    ensures r == Checked(WITNESS_DISCOUNT_DIVISOR * base + wit + da + cost)
  {
    var weight: nat := WITNESS_DISCOUNT_DIVISOR * base;
    if weight >= U64 {
      return Err(Overflow);
    }
    weight :- CheckedAdd(weight, wit);
    weight :- CheckedAdd(weight, da);
    weight :- CheckedAdd(weight, cost);
    return Ok(weight);
  }

  /** Weight by serialised sizes: the core counts four times, the rest once, plus verification costs. */
  function Weight(cost: Costs, tx: Tx): (n: nat)
  {
    WITNESS_DISCOUNT_DIVISOR * |CoreBytes(tx.core)| + |WitnessBytes(tx.witnesses)| + |Blob(tx.daPayload)|
    + SigCosts(cost, tx.witnesses)
  }

  datatype Stats = Stats(weight: uint64, daBytes: nat, anchorBytes: nat)

  /** What the size arithmetic must return, in terms of the serialised transaction. */
  function StatsOf(cost: Costs, tx: Tx): (r: Result<Stats, Fault>)
  {
    if ListsLen(tx.core) >= U64 then Err(Overflow)
    else if DaFieldsMissing(tx.core) then Err(DaFieldsAbsent)
    else if Weight(cost, tx) >= U64 then Err(Overflow)
    else
      var daBytes := if tx.core.prefix.kind != 0x00 then |tx.daPayload| else 0;
      Ok(Stats(Weight(cost, tx), daBytes, AnchorBytes(tx.core.outputs)))
  }

  /** The overflow-checked size arithmetic returns weight and statistics of the serialised form, for any cost table. */
  method TxWeightOf(cost: Costs, tx: Tx) returns (r: Result<Stats, Fault>)
    ensures r == StatsOf(cost, tx)
  {
    CoreSize(tx.core);
    hide CoreBytes, WitnessBytes, SigCosts, Blob, ListsLen, AnchorBytes, DaCoreBytes;
    var base :- BaseSize(tx.core);
    var wit :- WitnessSizeAndCost(cost, tx.witnesses);
    var da :- DaSize(tx.daPayload);
    var weight :- Combine(base.0, wit.0, da, wit.1);
    return Ok(Stats(weight, if tx.core.prefix.kind != 0x00 then |tx.daPayload| else 0, base.1));
  }

  // ---------------------------------------------------------------- bounds and blocks

  lemma OneMoreTimes(n: nat, max: nat)
    ensures (n + 1) * max == n * max + max
  {
  }

  lemma {:induction false} ConcatBound<T>(enc: T -> seq<Byte>, xs: seq<T>, max: nat)
    requires forall x :: x in xs ==> |enc(x)| <= max
    ensures |Concat(enc, xs)| <= |xs| * max
  {
    if xs != [] {
      assert forall x :: x in xs[1..] ==> x in xs;
      ConcatBound(enc, xs[1..], max);
      assert |enc(xs[0])| <= max;
      OneMoreTimes(|xs[1..]|, max);
    }
  }

  lemma {:induction false} SigCostsBound(cost: Costs, ws: seq<WitnessItem>, max: nat)
    requires forall w :: w in ws ==> cost(w) <= max
    ensures SigCosts(cost, ws) <= |ws| * max
  {
    if ws != [] {
      var n := |ws| - 1;
      assert forall w :: w in ws[..n] ==> w in ws;
      SigCostsBound(cost, ws[..n], max);
      assert cost(ws[n]) <= max;
      OneMoreTimes(n, max);
    }
  }

  lemma CoreBound(core: TxCore)
    requires CoreOk(core)
    ensures |CoreBytes(core)| <= 68_000_000
  {
    hide CoreBytes;
    CoreSize(core);
    forall i | i in core.inputs
      ensures |InputBytes(i)| <= 73
    {
      InputSize(i);
      assert InputOk(i);
    }
    forall o | o in core.outputs
      ensures |OutputBytes(o)| <= 65_551
    {
      OutputSize(o);
      assert OutputOk(o);
    }
    hide InputBytes, OutputBytes;
    ConcatBound(InputBytes, core.inputs, 73);
    ConcatBound(OutputBytes, core.outputs, 65_551);
    DaCoreBound(core);
  }

  lemma DaCoreBound(core: TxCore)
    requires DaCoreOk(core)
    ensures |DaCoreBytes(core)| <= 66_000
  {
    if core.daCommit.Some? {
      CS.EncodedLenMatches(|core.daCommit.value.batchSig|);
    }
  }

  /** Under any table of costs up to 2^32 no transaction the parser accepts fails the weight arithmetic. */
  lemma ParsedWeightFits(cost: Costs, tx: Tx)
    requires TxOk(tx) && forall w :: w in tx.witnesses ==> cost(w) <= U32
    ensures StatsOf(cost, tx).Ok? && StatsOf(cost, tx).value.weight == Weight(cost, tx)
    ensures Weight(cost, tx) == |TxBytes(tx)| + 3 * |CoreBytes(tx.core)| + SigCosts(cost, tx.witnesses)
  {
    hide CoreBytes, ItemOk, SigCosts, ListsLen, DaCoreBytes, Concat, Blob, WitnessBytes;
    CoreBound(tx.core);
    CoreSize(tx.core);
    SigCostsBound(cost, tx.witnesses, U32);
    CostsFit(|tx.witnesses|);
    PayloadBound(tx.core.prefix.kind, tx.daPayload);
    WitnessBound(tx.witnesses);
  }

  lemma CostsFit(n: nat)
    ensures n <= MAX_WITNESS_ITEMS ==> n * U32 <= MAX_WITNESS_ITEMS * U32
  {
  }

  lemma PayloadBound(kind: uint8, payload: Vec<Byte>)
    requires PayloadOk(kind, payload)
    ensures |Blob(payload)| <= CHUNK_BYTES + MAX_DA_MANIFEST_BYTES_PER_TX + 9
  {
    CS.EncodedLenMatches(|payload|);
  }

  lemma WitnessBound(ws: Vec<WitnessItem>)
    requires WitnessesOk(ws)
    ensures |WitnessBytes(ws)| <= MAX_WITNESS_BYTES_PER_TX + 9
  {
    CS.EncodedLenMatches(|ws|);
    if ws == [] {
      assert |WitnessBytes(ws)| == 1;
    }
  }

  /** The runner's parts of a serialised transaction. */
  datatype Parts = Parts(core: seq<Byte>, wit: seq<Byte>, payload: Vec<Byte>) {
    function Full(): (b: seq<Byte>)
    {
      core + wit + CS.Encode(|payload|) + payload
    }

    function PartWeight(): (n: nat)
    {
      4 * |core| + |wit| + (|CS.Encode(|payload|)| + |payload|)
    }
  }

  function Sum<T>(f: T -> nat, xs: seq<T>): (n: nat)
  {
    if xs == [] then 0 else Sum(f, xs[..|xs| - 1]) + f(xs[|xs| - 1])
  }

  method BlockWeight(parts: seq<Parts>) returns (weight: nat)
    ensures weight == Sum((p: Parts) => |p.Full()|, parts) + 3 * Sum((p: Parts) => |p.core|, parts)
  {
    weight := 0;
    var full, core := (p: Parts) => |p.Full()|, (p: Parts) => |p.core|;
    for i := 0 to |parts|
      invariant weight == Sum(full, parts[..i]) + 3 * Sum(core, parts[..i])
    {
      assert parts[..i + 1][..i] == parts[..i];
      weight := weight + parts[i].PartWeight();
    }
    assert parts[..|parts|] == parts;
  }
}
