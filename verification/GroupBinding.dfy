/**
 The binding of included-set groups to summary rows in the fixture drift gate. A group names the end of a
 block id; it must match exactly one row, no row twice, and every row must be bound.
 */
module GroupBinding {
  import opened Bytes
  import opened Finite

  datatype Unbound = NotOneRow(suffix: string) | RowTaken(suffix: string) | RowsLeft

  predicate EndsWith(s: string, tail: string) {
    |tail| <= |s| && s[|s| - |tail|..] == tail
  }

  /** Row `i` is a row of the group `suffix`. */
  predicate Matches(rows: seq<string>, suffix: string, i: int) {
    0 <= i < |rows| && EndsWith(rows[i], "_" + suffix)
  }

  ghost predicate OnlyRow(rows: seq<string>, suffix: string, i: int) {
    Matches(rows, suffix, i) && forall j :: Matches(rows, suffix, j) ==> j == i
  }

  ghost predicate HasOneRow(rows: seq<string>, suffix: string) {
    exists i :: OnlyRow(rows, suffix, i)
  }

  ghost predicate HasOneGroup(groups: set<string>, rows: seq<string>, i: int) {
    exists s :: s in groups && Matches(rows, s, i) && forall t :: t in groups && Matches(rows, t, i) ==> t == s
  }

  /** Every group has exactly one row and every row exactly one group. */
  ghost predicate Bijective(groups: set<string>, rows: seq<string>) {
    && (forall s :: s in groups ==> HasOneRow(rows, s))
    && (forall i :: 0 <= i < |rows| ==> HasOneGroup(groups, rows, i))
  }

  // ---------------------------------------------------------------- picked rows

  /** `picks` are the only rows of the first groups in `order`. */
  ghost predicate Picked(rows: seq<string>, order: seq<string>, picks: seq<int>) {
    |picks| <= |order| && forall k :: 0 <= k < |picks| ==> OnlyRow(rows, order[k], picks[k])
  }

  lemma InRows(rows: seq<string>, suffix: string, i: int)
    requires Matches(rows, suffix, i)
    ensures 0 <= i < |rows|
  {
  }

  lemma SameNameSameRow(rows: seq<string>, s: string, i: int, j: int)
    requires OnlyRow(rows, s, i) && 0 <= j < |rows| && rows[i] == rows[j]
    ensures i == j
  {
    assert Matches(rows, s, j);
  }

  lemma OneGroupEach(groups: set<string>, rows: seq<string>, i: int, s: string, t: string)
    requires HasOneGroup(groups, rows, i)
    requires s in groups && t in groups && Matches(rows, s, i) && Matches(rows, t, i)
    ensures s == t
  {
  }

  /** Two groups with one row between them rule the bijection out. */
  lemma SharedIsNotBijective(order: seq<string>, rows: seq<string>, a: nat, b: nat, i: int)
    requires a < b < |order| && NoRepeats(order) && Matches(rows, order[a], i) && Matches(rows, order[b], i)
    ensures !Bijective(SetOf(order), rows)
  {
    InRows(rows, order[a], i);
    hide Matches, HasOneGroup;
    if HasOneGroup(SetOf(order), rows, i) {
      OneGroupEach(SetOf(order), rows, i, order[a], order[b]);
      assert false;
    }
  }

  lemma PicksAreRows(order: seq<string>, rows: seq<string>, picks: seq<int>)
    requires Picked(rows, order, picks)
    ensures forall k :: 0 <= k < |picks| ==> 0 <= picks[k] < |rows|
  {
    forall k | 0 <= k < |picks|
      ensures 0 <= picks[k] < |rows|
    {
      InRows(rows, order[k], picks[k]);
    }
  }

  lemma BijectionReachesRow(order: seq<string>, rows: seq<string>, picks: seq<int>, i: int)
    requires Picked(rows, order, picks) && |picks| == |order| && HasOneGroup(SetOf(order), rows, i)
    ensures i in picks
  {
    hide Matches;
    var s :| s in SetOf(order) && Matches(rows, s, i);
    var k :| 0 <= k < |order| && order[k] == s;
    assert OnlyRow(rows, order[k], picks[k]);
    assert picks[k] == i;
  }

  lemma PickedHasOneGroup(order: seq<string>, rows: seq<string>, picks: seq<int>, i: int)
    requires Picked(rows, order, picks) && |picks| == |order| && NoRepeats(picks) && i in picks
    ensures HasOneGroup(SetOf(order), rows, i)
  {
    hide Matches;
    var k :| 0 <= k < |picks| && picks[k] == i;
    var s := order[k];
    assert OnlyRow(rows, order[k], picks[k]);
    assert s in SetOf(order) && Matches(rows, s, i);
    forall t | t in SetOf(order) && Matches(rows, t, i)
      ensures t == s
    {
      var l :| 0 <= l < |order| && order[l] == t;
      assert OnlyRow(rows, order[l], picks[l]);
      assert picks[l] == i;
    }
  }

  /** With one distinct row picked for every group, a bijection is a matter of counting. */
  lemma BijectiveIffAllRows(order: seq<string>, rows: seq<string>, picks: seq<int>)
    requires Picked(rows, order, picks) && |picks| == |order| && NoRepeats(picks)
    ensures Bijective(SetOf(order), rows) <==> |order| == |rows|
  {
    PicksAreRows(order, rows, picks);
    DistinctBelow(picks, |rows|);
    hide OnlyRow, HasOneGroup;
    if Bijective(SetOf(order), rows) {
      forall i | 0 <= i < |rows|
        ensures i in picks
      {
        BijectionReachesRow(order, rows, picks, i);
      }
    }
    if |order| == |rows| {
      forall i | 0 <= i < |rows|
        ensures HasOneGroup(SetOf(order), rows, i)
      {
        PickedHasOneGroup(order, rows, picks, i);
      }
      forall s | s in SetOf(order)
        ensures HasOneRow(rows, s)
      {
        var k :| 0 <= k < |order| && order[k] == s;
        assert OnlyRow(rows, order[k], picks[k]);
      }
    }
  }

  // ---------------------------------------------------------------- the gate

  method MatchingRows(rows: seq<string>, suffix: string) returns (found: seq<int>)
    ensures forall i :: i in found <==> Matches(rows, suffix, i)
    ensures NoRepeats(found)
  {
    found := [];
    for i := 0 to |rows|
      invariant forall k :: k in found <==> k < i && Matches(rows, suffix, k)
      invariant NoRepeats(found)
    {
      assert i !in found;
      if EndsWith(rows[i], "_" + suffix) {
        found := found + [i];
      }
    }
  }

  lemma OneFound(rows: seq<string>, suffix: string, found: seq<int>)
    requires forall i :: i in found <==> Matches(rows, suffix, i)
    requires NoRepeats(found)
    ensures |found| == 1 ==> OnlyRow(rows, suffix, found[0])
    ensures |found| != 1 ==> !HasOneRow(rows, suffix)
  {
    hide Matches;
    if |found| == 1 {
      assert found[0] in found;
    } else if |found| > 1 {
      assert found[0] in found && found[1] in found;
      assert found[0] != found[1];
      forall i
        ensures !OnlyRow(rows, suffix, i)
      {
        assert Matches(rows, suffix, found[0]) && Matches(rows, suffix, found[1]);
      }
    }
  }

  /** The dictionary under construction: distinct names, each with its value. */
  ghost predicate Filled<V>(names: seq<string>, values: seq<V>, out: map<string, V>) {
    && |names| == |values| == |out| && NoRepeats(names)
    && out.Keys == SetOf(names)
    && forall k :: 0 <= k < |names| ==> names[k] in out && out[names[k]] == values[k]
  }

  lemma FilledStep<V>(names: seq<string>, values: seq<V>, out: map<string, V>, name: string, value: V)
    requires Filled(names, values, out) && name !in out
    ensures Filled(names + [name], values + [value], out[name := value])
  {
    var next, more := out[name := value], names + [name];
    assert next.Keys == out.Keys + {name};
    assert SetOf(more) == SetOf(names) + {name};
    forall k | 0 <= k < |more|
      ensures more[k] in next && next[more[k]] == (values + [value])[k]
    {
      assert k < |names| ==> names[k] in out;
    }
    assert NoRepeats(more) by {
      assert forall k :: 0 <= k < |names| ==> names[k] != name;
    }
  }

  ghost predicate NamesOf(rows: seq<string>, picks: seq<int>, names: seq<string>) {
    |names| == |picks| && forall k :: 0 <= k < |picks| ==> 0 <= picks[k] < |rows| && names[k] == rows[picks[k]]
  }

  ghost predicate ValuesOf<V>(groups: map<string, V>, order: seq<string>, values: seq<V>) {
    |values| <= |order| && forall k :: 0 <= k < |values| ==> order[k] in groups && values[k] == groups[order[k]]
  }

  /** What the gate returns: every row name, with the sets of the group that matches the row. */
  ghost predicate Binding<V>(groups: map<string, V>, rows: seq<string>, out: map<string, V>) {
    && (forall x :: x in out <==> x in rows)
    && (forall s, i :: s in groups && Matches(rows, s, i) ==> rows[i] in out && out[rows[i]] == groups[s])
  }

  lemma FilledValue<V>(groups: map<string, V>, order: seq<string>, rows: seq<string>,
                       picks: seq<int>, names: seq<string>, values: seq<V>, out: map<string, V>, s: string, i: int)
    requires SetOf(order) == groups.Keys && Picked(rows, order, picks) && |picks| == |order|
    requires NamesOf(rows, picks, names) && ValuesOf(groups, order, values) && Filled(names, values, out)
    requires s in groups && Matches(rows, s, i)
    ensures rows[i] in out && out[rows[i]] == groups[s]
  {
    assert s in SetOf(order);
    var k :| 0 <= k < |order| && order[k] == s;
    assert OnlyRow(rows, order[k], picks[k]);
    InRows(rows, s, i);
    hide Matches;
    assert picks[k] == i;
    assert names[k] == rows[i];
  }

  lemma FilledKeys<V>(rows: seq<string>, picks: seq<int>, names: seq<string>, values: seq<V>, out: map<string, V>,
                      x: string)
    requires NoRepeats(picks) && |picks| == |rows| && NamesOf(rows, picks, names) && Filled(names, values, out)
    ensures x in out <==> x in rows
  {
    DistinctBelow(picks, |rows|);
    if x in rows {
      var i :| 0 <= i < |rows| && rows[i] == x;
      assert i in picks;
      var k :| 0 <= k < |picks| && picks[k] == i;
      assert names[k] == x;
    }
    if x in out {
      assert x in SetOf(names);
      var k :| 0 <= k < |names| && names[k] == x;
      assert rows[picks[k]] == x;
    }
  }

  lemma FilledIsBinding<V>(groups: map<string, V>, order: seq<string>, rows: seq<string>,
                           picks: seq<int>, names: seq<string>, values: seq<V>, out: map<string, V>)
    requires SetOf(order) == groups.Keys && Picked(rows, order, picks)
    requires |picks| == |order| == |rows| && NoRepeats(picks)
    requires NamesOf(rows, picks, names) && ValuesOf(groups, order, values) && Filled(names, values, out)
    ensures Binding(groups, rows, out)
  {
    hide Filled, NamesOf, ValuesOf, Picked;
    forall s, i | s in groups && Matches(rows, s, i)
      ensures 0 <= i < |rows| && rows[i] in out && out[rows[i]] == groups[s]
    {
      FilledValue(groups, order, rows, picks, names, values, out, s, i);
    }
    forall x
      ensures x in out <==> x in rows
    {
      FilledKeys(rows, picks, names, values, out, x);
    }
  }

  lemma NewPick(rows: seq<string>, order: seq<string>, picks: seq<int>, names: seq<string>, i: int)
    requires |picks| < |order| && Picked(rows, order, picks) && NamesOf(rows, picks, names)
    requires NoRepeats(order) && OnlyRow(rows, order[|picks|], i)
    ensures 0 <= i < |rows|
    ensures rows[i] in names ==> !Bijective(SetOf(order), rows)
    ensures Picked(rows, order, picks + [i]) && NamesOf(rows, picks + [i], names + [rows[i]])
  {
    InRows(rows, order[|picks|], i);
    if rows[i] in names {
      var k :| 0 <= k < |names| && names[k] == rows[i];
      SameNameSameRow(rows, order[|picks|], i, picks[k]);
      SharedIsNotBijective(order, rows, k, |picks|, i);
    }
  }

  lemma DistinctNamesDistinctRows(rows: seq<string>, picks: seq<int>, names: seq<string>)
    requires NamesOf(rows, picks, names) && NoRepeats(names)
    ensures NoRepeats(picks)
  {
    forall i, j | 0 <= i < j < |picks|
      ensures picks[i] != picks[j]
    {
      assert names[i] != names[j];
    }
  }

  /** The gate accepts exactly when groups and rows are in bijection. `order` lists the groups, as sorted. */
  method BindGroups<V>(groups: map<string, V>, order: seq<string>, rows: seq<string>)
    returns (r: Result<map<string, V>, Unbound>)
    requires NoRepeats(order) && SetOf(order) == groups.Keys
    ensures r.Ok? <==> Bijective(groups.Keys, rows)
    ensures r.Ok? ==> Binding(groups, rows, r.value)
  {
    hide Binding, Bijective, OnlyRow, HasOneRow, Matches, HasOneGroup, Filled, NamesOf, Picked, ValuesOf;
    var out: map<string, V> := map[];
    ghost var picks: seq<int>, names: seq<string>, values: seq<V> := [], [], [];
    NothingBound(groups, rows, order, out);
    for n := 0 to |order|
      invariant |picks| == |names| == |values| == n && NoRepeats(names)
      invariant Picked(rows, order, picks) && NamesOf(rows, picks, names)
      invariant ValuesOf(groups, order, values) && Filled(names, values, out) && out.Keys == SetOf(names)
    {
      var suffix := order[n];
      assert suffix in SetOf(order);
      var found := MatchingRows(rows, suffix);
      OneFound(rows, suffix, found);
      if |found| != 1 {
        NoRowNoBijection(groups.Keys, rows, suffix);
        return Err(NotOneRow(suffix));
      }
      var i := found[0];
      NewPick(rows, order, picks, names, i);
      if rows[i] in out {
        return Err(RowTaken(suffix));
      }
      FilledStep(names, values, out, rows[i], groups[suffix]);
      ValuesStep(groups, order, values);
      out := out[rows[i] := groups[suffix]];
      picks, names, values := picks + [i], names + [rows[i]], values + [groups[suffix]];
      assert NoRepeats(names) && out.Keys == SetOf(names) by { FilledNames(names, values, out); }
    }
    DistinctNamesDistinctRows(rows, picks, names);
    BijectiveIffAllRows(order, rows, picks);
    FilledNames(names, values, out);
    if |out| != |rows| {
      return Err(RowsLeft);
    }
    FilledIsBinding(groups, order, rows, picks, names, values, out);
    return Ok(out);
  }

  lemma FilledNames<V>(names: seq<string>, values: seq<V>, out: map<string, V>)
    requires Filled(names, values, out)
    ensures NoRepeats(names) && out.Keys == SetOf(names) && |out| == |names|
  {
  }

  lemma NothingBound<V>(groups: map<string, V>, rows: seq<string>, order: seq<string>, out: map<string, V>)
    requires out == map[]
    ensures Picked(rows, order, []) && NamesOf(rows, [], []) && Filled([], [], out) && ValuesOf(groups, order, [])
  {
  }

  lemma NoRowNoBijection(groups: set<string>, rows: seq<string>, suffix: string)
    requires suffix in groups && !HasOneRow(rows, suffix)
    ensures !Bijective(groups, rows)
  {
  }

  lemma ValuesStep<V>(groups: map<string, V>, order: seq<string>, values: seq<V>)
    requires ValuesOf(groups, order, values) && |values| < |order| && order[|values|] in groups
    ensures ValuesOf(groups, order, values + [groups[order[|values|]]])
  {
  }

  /** In an accepted summary no two rows have one block id. */
  lemma BoundRowsAreDistinct(groups: set<string>, rows: seq<string>)
    requires Bijective(groups, rows)
    ensures NoRepeats(rows)
  {
    forall i, j | 0 <= i < j < |rows|
      ensures rows[i] != rows[j]
    {
      assert HasOneGroup(groups, rows, i);
      var s :| s in groups && Matches(rows, s, i);
      var k :| OnlyRow(rows, s, k);
      assert Matches(rows, s, j) ==> j == k;
    }
  }
}
