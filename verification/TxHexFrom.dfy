/**
 Vectors whose transaction is taken from another vector and then mutated byte by byte. The references form
 an arbitrary graph; a set of ids already followed guards the recursion.
 */
module TxHexFrom {
  import opened Bytes
  import opened Finite
  import opened HexText

  /** The byte text of a mutation: not two characters, not hex, or a byte. */
  datatype ByteText = WrongLength | NotHex | Spells(value: Byte)

  /** `offset` is absent when the fixture gives no integer. */
  datatype Mutation = Mutation(offset: Option<int>, text: ByteText)

  /** A vector has its own transaction text, built or given, or takes one from `ref`. */
  datatype Vector = Own(text: Result<string, string>) | From(ref: string, mutations: seq<Mutation>)

  datatype Failure =
    | OwnFailure(message: string)
    | NotFound(id: string)
    | Recursion(id: string)
    | NotHexText
    | BadOffset
    | BadByte
    | OutOfRange

  type Vectors = map<string, Vector>

  // ---------------------------------------------------------------- mutations

  /** What stops a mutation of `length` bytes, checked in the order of the source. */
  function Fault(m: Mutation, length: nat): (f: Option<Failure>)
  {
    if m.offset.None? then Some(BadOffset)
    else if m.text == WrongLength then Some(BadByte)
    else if m.offset.value < 0 || m.offset.value >= length then Some(OutOfRange)
    else if m.text == NotHex then Some(BadByte)
    else None
  }

  function Apply(base: seq<Byte>, muts: seq<Mutation>): (r: Result<seq<Byte>, Failure>)
    ensures r.Ok? ==> |r.value| == |base|
  {
    if muts == [] then Ok(base)
    else
      var before :- Apply(base, muts[..|muts| - 1]);
      var last := muts[|muts| - 1];
      var fault := Fault(last, |base|);
      if fault.Some? then Err(fault.value) else Ok(before[last.offset.value := last.text.value])
  }

  /** The byte the last mutation of offset `k` writes, or `otherwise` if none does. */
  function LastWrite(muts: seq<Mutation>, k: nat, otherwise: Byte): (b: Byte)
  {
    if muts == [] then otherwise
    else
      var last := muts[|muts| - 1];
      if last.offset == Some(k) && last.text.Spells? then last.text.value
      else LastWrite(muts[..|muts| - 1], k, otherwise)
  }

  ghost predicate FaultsFirst(muts: seq<Mutation>, length: nat, i: int) {
    && 0 <= i < |muts| && Fault(muts[i], length).Some?
    && forall j :: 0 <= j < i ==> Fault(muts[j], length).None?
  }

  /** Every byte is the last one written to its offset, unlisted offsets are unchanged, and the first fault decides. */
  lemma {:induction false} MutationsAreExact(base: seq<Byte>, muts: seq<Mutation>)
    ensures var r := Apply(base, muts);
      if r.Ok? then
        && (forall i :: 0 <= i < |muts| ==> Fault(muts[i], |base|).None?)
        && |r.value| == |base|
        && (forall k :: 0 <= k < |base| ==> r.value[k] == LastWrite(muts, k, base[k]))
      else
        exists i :: FaultsFirst(muts, |base|, i) && Fault(muts[i], |base|) == Some(r.error)
  {
    if muts != [] {
      var n := |muts| - 1;
      MutationsAreExact(base, muts[..n]);
      if Apply(base, muts[..n]).Err? {
        var i :| FaultsFirst(muts[..n], |base|, i) && Fault(muts[..n][i], |base|) == Some(Apply(base, muts[..n]).error);
        assert FaultsFirst(muts, |base|, i);
      } else {
        assert forall i :: 0 <= i < n ==> muts[..n][i] == muts[i];
        if Fault(muts[n], |base|).Some? {
          assert FaultsFirst(muts, |base|, n);
        }
      }
    }
  }

  lemma {:induction false} FirstFaultStays(base: seq<Byte>, muts: seq<Mutation>, i: nat)
    requires i <= |muts| && Apply(base, muts[..i]).Err?
    ensures Apply(base, muts) == Apply(base, muts[..i])
    decreases |muts|
  {
    if i < |muts| {
      assert muts[..|muts| - 1][..i] == muts[..i];
      FirstFaultStays(base, muts[..|muts| - 1], i);
    } else {
      assert muts[..i] == muts;
    }
  }

  /** The mutated byte array. */
  method ApplyMutations(base: seq<Byte>, muts: seq<Mutation>) returns (r: Result<seq<Byte>, Failure>)
    ensures r == Apply(base, muts)
  {
    var bytes := new Byte[|base|];
    for i := 0 to |base|
      invariant bytes[..i] == base[..i]
    {
      bytes[i] := base[i];
    }
    assert bytes[..] == base;
    for i := 0 to |muts|
      invariant Apply(base, muts[..i]) == Ok(bytes[..])
    {
      assert muts[..i + 1][..i] == muts[..i];
      var m := muts[i];
      var fault := Fault(m, bytes.Length);
      if fault.Some? {
        FirstFaultStays(base, muts, i + 1);
        return Err(fault.value);
      }
      bytes[m.offset.value] := m.text.value;
    }
    assert muts[..|muts|] == muts;
    return Ok(bytes[..]);
  }

  // ---------------------------------------------------------------- resolution

  /** Decode the text taken over, mutate the bytes, and write them again. */
  function Rewrite(text: string, muts: seq<Mutation>): (r: Result<string, Failure>)
  {
    var base := FromHex(text);
    if base.None? then Err(NotHexText)
    else
      var bytes :- Apply(base.value, muts);
      Ok(Hex(bytes))
  }

  /** The text of a vector; its own is returned as it is, whether or not it is hex. */
  function Resolve(vs: Vectors, v: Vector, seen: set<string>): (r: Result<string, Failure>)
    decreases |vs.Keys - seen|
  {
    match v
    case Own(text) => if text.Ok? then Ok(text.value) else Err(OwnFailure(text.error))
    case From(ref, mutations) =>
      if ref !in vs then Err(NotFound(ref))
      else if ref in seen then Err(Recursion(ref))
      else
        SmallerRest(vs.Keys, seen, ref);
        var base :- Resolve(vs, vs[ref], seen + {ref});
        Rewrite(base, mutations)
  }

  method MaterializeTx(vs: Vectors, v: Vector, seen: set<string>) returns (r: Result<string, Failure>)
    ensures r == Resolve(vs, v, seen)
    decreases |vs.Keys - seen|
  {
    if v.Own? {
      return if v.text.Ok? then Ok(v.text.value) else Err(OwnFailure(v.text.error));
    }
    if v.ref !in vs {
      return Err(NotFound(v.ref));
    }
    if v.ref in seen {
      return Err(Recursion(v.ref));
    }
    SmallerRest(vs.Keys, seen, v.ref);
    var base := MaterializeTx(vs, vs[v.ref], seen + {v.ref});
    if base.Err? {
      return Err(base.error);
    }
    var bytes := FromHex(base.value);
    if bytes.None? {
      return Err(NotHexText);
    }
    var mutated := ApplyMutations(bytes.value, v.mutations);
    return if mutated.Ok? then Ok(Hex(mutated.value)) else Err(mutated.error);
  }

  /** A text obtained through a reference is always hex again, so only a vector's own text can be unreadable. */
  lemma TakenTextIsHex(vs: Vectors, v: Vector, seen: set<string>)
    requires v.From? && Resolve(vs, v, seen).Ok?
    ensures FromHex(Resolve(vs, v, seen).value).Some?
  {
    var base := Resolve(vs, vs[v.ref], seen + {v.ref}).value;
    FromHexOfHex(Apply(FromHex(base).value, v.mutations).value);
  }

  /** How many references deep the resolution goes. */
  function Depth(vs: Vectors, v: Vector, seen: set<string>): (d: nat)
    ensures d <= |vs.Keys - seen|
    decreases |vs.Keys - seen|
  {
    if v.Own? || v.ref !in vs || v.ref in seen then 0
    else
      SmallerRest(vs.Keys, seen, v.ref);
      1 + Depth(vs, vs[v.ref], seen + {v.ref})
  }

  // ---------------------------------------------------------------- the reference chain

  /** The `k`-th id that following references from `v` names, if the chain gets that far. */
  function Nth(vs: Vectors, v: Vector, k: nat): (id: Option<string>)
    decreases k
  {
    if v.Own? then None
    else if k == 0 then Some(v.ref)
    else if v.ref !in vs then None
    else Nth(vs, vs[v.ref], k - 1)
  }

  /** Reference `j` names an existing id that `seen` or an earlier reference already named. */
  ghost predicate Repeats(vs: Vectors, v: Vector, seen: set<string>, j: nat) {
    var id := Nth(vs, v, j);
    id.Some? && id.value in vs && (id.value in seen || exists i: nat :: i < j && Nth(vs, v, i) == id)
  }

  ghost predicate RepeatsFirst(vs: Vectors, v: Vector, seen: set<string>, j: nat) {
    Repeats(vs, v, seen, j) && forall i: nat :: i < j ==> !Repeats(vs, v, seen, i)
  }

  lemma RepeatsShift(vs: Vectors, v: Vector, seen: set<string>, j: nat)
    requires v.From? && v.ref in vs && v.ref !in seen
    ensures !Repeats(vs, v, seen, 0)
    ensures Repeats(vs, v, seen, j + 1) <==> Repeats(vs, vs[v.ref], seen + {v.ref}, j)
  {
    var w, id := vs[v.ref], Nth(vs, v, j + 1);
    assert id == Nth(vs, w, j);
    if i: nat :| i < j + 1 && Nth(vs, v, i) == id && i > 0 {
      assert Nth(vs, w, i - 1) == id;
    }
    if i: nat :| i < j && Nth(vs, w, i) == id {
      assert Nth(vs, v, i + 1) == id;
    }
    if id == Some(v.ref) {
      assert Nth(vs, v, 0) == id;
    }
  }

  lemma FirstShifts(vs: Vectors, v: Vector, seen: set<string>, j: nat)
    requires v.From? && v.ref in vs && v.ref !in seen
    ensures RepeatsFirst(vs, v, seen, j + 1) <==> RepeatsFirst(vs, vs[v.ref], seen + {v.ref}, j)
  {
    hide Repeats;
    var w, more := vs[v.ref], seen + {v.ref};
    forall i: nat
      ensures Repeats(vs, v, seen, i + 1) <==> Repeats(vs, w, more, i)
    {
      RepeatsShift(vs, v, seen, i);
    }
    RepeatsShift(vs, v, seen, 0);
    if RepeatsFirst(vs, v, seen, j + 1) {
      forall i: nat | i < j
        ensures !Repeats(vs, w, more, i)
      {
        assert !Repeats(vs, v, seen, i + 1);
      }
    }
    if RepeatsFirst(vs, w, more, j) {
      forall i: nat | i < j + 1
        ensures !Repeats(vs, v, seen, i)
      {
        assert i > 0 ==> !Repeats(vs, w, more, i - 1);
      }
    }
  }

  ghost predicate EndsAt(vs: Vectors, v: Vector, k: nat, id: string) {
    Nth(vs, v, k) == Some(id) && id !in vs
  }

  lemma NoneAfter(vs: Vectors, v: Vector, k: nat)
    requires v.Own? || v.ref !in vs
    ensures Nth(vs, v, k).Some? ==> v.From? && k == 0
  {
  }

  /** Recursion is reported for exactly the first reference that names an id a second time. */
  lemma {:induction false} RecursionIsExact(vs: Vectors, v: Vector, seen: set<string>, id: string)
    ensures Resolve(vs, v, seen) == Err(Recursion(id))
      <==> exists j: nat :: RepeatsFirst(vs, v, seen, j) && Nth(vs, v, j) == Some(id)
    decreases |vs.Keys - seen|
  {
    if v.Own? || v.ref !in vs {
      forall j: nat
        ensures !Repeats(vs, v, seen, j)
      {
        NoneAfter(vs, v, j);
      }
    } else if v.ref in seen {
      assert Repeats(vs, v, seen, 0);
      assert RepeatsFirst(vs, v, seen, 0);
    } else {
      SmallerRest(vs.Keys, seen, v.ref);
      var w, more := vs[v.ref], seen + {v.ref};
      RecursionIsExact(vs, w, more, id);
      RepeatsShift(vs, v, seen, 0);
      if j: nat :| RepeatsFirst(vs, w, more, j) && Nth(vs, w, j) == Some(id) {
        FirstShifts(vs, v, seen, j);
        assert RepeatsFirst(vs, v, seen, j + 1) && Nth(vs, v, j + 1) == Some(id);
      }
      if j: nat :| RepeatsFirst(vs, v, seen, j) && Nth(vs, v, j) == Some(id) {
        FirstShifts(vs, v, seen, j - 1);
        assert RepeatsFirst(vs, w, more, j - 1);
      }
      ApplyDoesNotRecurse(vs, v, seen, id);
    }
  }

  lemma SeenIsReported(vs: Vectors, v: Vector, seen: set<string>)
    requires v.From? && v.ref in vs
    ensures v.ref in seen ==> Resolve(vs, v, seen) == Err(Recursion(v.ref)) && Repeats(vs, v, seen, 0)
  {
  }

  lemma ApplyDoesNotRecurse(vs: Vectors, v: Vector, seen: set<string>, id: string)
    requires v.From? && v.ref in vs && v.ref !in seen
    ensures Resolve(vs, v, seen) == Err(Recursion(id)) <==> Resolve(vs, vs[v.ref], seen + {v.ref}) == Err(Recursion(id))
    ensures Resolve(vs, v, seen) == Err(NotFound(id)) <==> Resolve(vs, vs[v.ref], seen + {v.ref}) == Err(NotFound(id))
  {
    var base := Resolve(vs, vs[v.ref], seen + {v.ref});
    if base.Ok? && FromHex(base.value).Some? {
      MutationsAreExact(FromHex(base.value).value, v.mutations);
    }
  }

  // ---------------------------------------------------------------- chains that never end

  lemma {:induction false} NthComposes(vs: Vectors, v: Vector, i: nat, m: nat)
    requires Nth(vs, v, i).Some? && Nth(vs, v, i).value in vs
    ensures Nth(vs, v, i + 1 + m) == Nth(vs, vs[Nth(vs, v, i).value], m)
    decreases i
  {
    if i > 0 {
      NthComposes(vs, vs[v.ref], i - 1, m);
    }
  }

  ghost predicate Goes(vs: Vectors, v: Vector, k: nat) {
    Nth(vs, v, k).Some? && Nth(vs, v, k).value in vs
  }

  lemma {:induction false} GoesBefore(vs: Vectors, v: Vector, k: nat, i: nat)
    requires Goes(vs, v, k) && i <= k
    ensures Goes(vs, v, i)
    decreases k
  {
    if i > 0 {
      GoesBefore(vs, vs[v.ref], k - 1, i - 1);
    }
  }

  lemma {:induction false} LoopGoesOn(vs: Vectors, v: Vector, i: nat, j: nat, k: nat)
    requires i < j && Goes(vs, v, j) && Nth(vs, v, i) == Nth(vs, v, j)
    ensures Goes(vs, v, k)
    decreases k
  {
    if k <= j {
      GoesBefore(vs, v, j, k);
    } else {
      LoopGoesOn(vs, v, i, j, k - (j - i));
      NthComposes(vs, v, i, k - j - 1);
      NthComposes(vs, v, j, k - j - 1);
    }
  }

  lemma {:induction false} StopsUnlessRepeated(vs: Vectors, v: Vector, seen: set<string>)
    requires forall id :: Resolve(vs, v, seen) != Err(Recursion(id))
    ensures exists k: nat :: k <= |vs.Keys - seen| && !Goes(vs, v, k)
    decreases |vs.Keys - seen|
  {
    if v.Own? || v.ref !in vs {
      assert !Goes(vs, v, 0);
    } else {
      SeenIsReported(vs, v, seen);
      SmallerRest(vs.Keys, seen, v.ref);
      forall id
        ensures Resolve(vs, vs[v.ref], seen + {v.ref}) != Err(Recursion(id))
      {
        ApplyDoesNotRecurse(vs, v, seen, id);
      }
      StopsUnlessRepeated(vs, vs[v.ref], seen + {v.ref});
      var k: nat :| k <= |vs.Keys - (seen + {v.ref})| && !Goes(vs, vs[v.ref], k);
      assert !Goes(vs, v, k + 1);
    }
  }

  /**
   For every reference graph: recursion is reported exactly when following the references would never end,
   and otherwise they end within as many references as there are vectors.
   */
  lemma RecursionMeansEndless(vs: Vectors, v: Vector)
    ensures (exists id :: Resolve(vs, v, {}) == Err(Recursion(id))) <==> (forall k: nat :: Goes(vs, v, k))
    ensures (forall id :: Resolve(vs, v, {}) != Err(Recursion(id))) ==> exists k: nat :: k <= |vs| && !Goes(vs, v, k)
  {
    hide Resolve, Nth;
    assert vs.Keys - {} == vs.Keys;
    if id :| Resolve(vs, v, {}) == Err(Recursion(id)) {
      RecursionIsExact(vs, v, {}, id);
      var j: nat :| RepeatsFirst(vs, v, {}, j) && Nth(vs, v, j) == Some(id);
      var i: nat :| i < j && Nth(vs, v, i) == Nth(vs, v, j);
      forall k: nat
        ensures Goes(vs, v, k)
      {
        LoopGoesOn(vs, v, i, j, k);
      }
    } else {
      StopsUnlessRepeated(vs, v, {});
    }
  }

  /** A missing reference is reported exactly when the chain runs into an id no vector has. */
  lemma {:induction false} NotFoundIsExact(vs: Vectors, v: Vector, seen: set<string>, id: string)
    requires forall j: nat :: !Repeats(vs, v, seen, j)
    ensures Resolve(vs, v, seen) == Err(NotFound(id)) <==> exists k: nat :: EndsAt(vs, v, k, id)
    decreases |vs.Keys - seen|
  {
    if v.Own? || v.ref !in vs {
      forall k: nat
        ensures EndsAt(vs, v, k, id) ==> v.From? && k == 0
      {
        NoneAfter(vs, v, k);
      }
      if v.From? {
        assert EndsAt(vs, v, 0, v.ref);
      }
    } else {
      SeenIsReported(vs, v, seen);
      SmallerRest(vs.Keys, seen, v.ref);
      var w, more := vs[v.ref], seen + {v.ref};
      forall j: nat
        ensures !Repeats(vs, w, more, j)
      {
        RepeatsShift(vs, v, seen, j);
      }
      NotFoundIsExact(vs, w, more, id);
      if k: nat :| EndsAt(vs, w, k, id) {
        assert EndsAt(vs, v, k + 1, id);
      }
      if k: nat :| EndsAt(vs, v, k, id) {
        assert EndsAt(vs, w, k - 1, id);
      }
      ApplyDoesNotRecurse(vs, v, seen, id);
    }
  }

  lemma {:induction false} SomeRepeatIsFirst(vs: Vectors, v: Vector, seen: set<string>, j: nat)
    requires Repeats(vs, v, seen, j)
    ensures exists i: nat :: RepeatsFirst(vs, v, seen, i)
    decreases j
  {
    hide Repeats;
    if i: nat :| i < j && Repeats(vs, v, seen, i) {
      SomeRepeatIsFirst(vs, v, seen, i);
    } else {
      assert RepeatsFirst(vs, v, seen, j);
    }
  }

  /** For every reference graph a missing reference is reported exactly when the chain ends at it. */
  lemma NotFoundMeansDangling(vs: Vectors, v: Vector, id: string)
    ensures Resolve(vs, v, {}) == Err(NotFound(id)) <==> exists k: nat :: EndsAt(vs, v, k, id)
  {
    hide Resolve, Nth;
    RecursionMeansEndless(vs, v);
    if other :| Resolve(vs, v, {}) == Err(Recursion(other)) {
      forall k: nat
        ensures !EndsAt(vs, v, k, id)
      {
        assert Goes(vs, v, k);
      }
    } else {
      forall j: nat
        ensures !Repeats(vs, v, {}, j)
      {
        if Repeats(vs, v, {}, j) {
          SomeRepeatIsFirst(vs, v, {}, j);
          var i: nat :| RepeatsFirst(vs, v, {}, i);
          RecursionIsExact(vs, v, {}, Nth(vs, v, i).value);
          assert false;
        }
      }
      NotFoundIsExact(vs, v, {}, id);
    }
  }
}
