// deref: the depth-bounded unfolding of a table of values that refer to each
// other by index, possibly in cycles.
module Unfolding {
  import opened Results

  // A parsed JSON value. Booleans are integers here, as they are to the
  // program; each dictionary object has its own id.
  datatype Json =
    | Int(n: int)
    | Text(s: string)
    | Other(tag: nat)
    | List(items: seq<Json>)
    | Dict(id: nat, entries: seq<(string, Json)>)

  datatype Out = Null | Leaf(value: Json) | OutList(items: seq<Out>) | OutDict(entries: map<Json, Out>)

  datatype Outcome = Value(out: Out) | Unhashable | TooDeep

  // The table, and the program's reading of a key's text as a number.
  datatype Table = Table(data: seq<Json>, parse: string -> Option<int>)

  const DEPTH_LIMIT := 150

  function At(t: Table, n: int): Option<Json> {
    if 0 <= n < |t.data| then Some(t.data[n]) else None
  }

  // A key of the form _<index> names an entry of the table.
  function ActualKey(t: Table, k: string): Json {
    if k != "" && k[0] == '_' then
      var ki := t.parse(k[1..]);
      if ki.Some? && At(t, ki.value).Some? then At(t, ki.value).value else Text(k)
    else Text(k)
  }

  predicate Hashable(key: Json) {
    !key.List? && !key.Dict?
  }

  // What a dictionary value and a list item refer to. A number out of range
  // becomes null in a dictionary and stands for itself in a list.
  function DictTarget(t: Table, val: Json): Option<Json> {
    if val.Int? then At(t, val.n) else Some(val)
  }

  function ListTarget(t: Table, x: Json): Json {
    if x.Int? && At(t, x.n).Some? then At(t, x.n).value else x
  }

  // ---------- deref ----------

  function Deref(t: Table, v: Json, depth: nat, stack: set<Json>): (r: Outcome)
    ensures r != TooDeep
    decreases DEPTH_LIMIT + 1 - depth, 1, 0
  {
    if depth > DEPTH_LIMIT then Value(Null)
    else match v
      case Dict(_, entries) =>
        if v in stack then Value(Null) else DerefEntries(t, entries, depth, stack + {v}, map[])
      case List(items) => DerefItems(t, items, depth, stack, [])
      case _ => Value(Leaf(v))
  }

  function DerefEntries(
      t: Table, entries: seq<(string, Json)>, depth: nat, stack: set<Json>, out: map<Json, Out>): (r: Outcome)
    requires depth <= DEPTH_LIMIT
    ensures r != TooDeep
    decreases DEPTH_LIMIT + 1 - depth, 0, |entries|
  {
    if entries == [] then Value(OutDict(out)) else
      var target := DictTarget(t, entries[0].1);
      var child := if target.None? then Value(Null) else Deref(t, target.value, depth + 1, stack);
      var key := ActualKey(t, entries[0].0);
      if child.Unhashable? || !Hashable(key) then Unhashable
      else DerefEntries(t, entries[1..], depth, stack, out[key := child.out])
  }

  function DerefItems(t: Table, items: seq<Json>, depth: nat, stack: set<Json>, out: seq<Out>): (r: Outcome)
    requires depth <= DEPTH_LIMIT
    ensures r != TooDeep
    decreases DEPTH_LIMIT + 1 - depth, 0, |items|
  {
    if items == [] then Value(OutList(out)) else
      var child := Deref(t, ListTarget(t, items[0]), depth + 1, stack);
      if child.Unhashable? then Unhashable else DerefItems(t, items[1..], depth, stack, out + [child.out])
  }

  method DerefValue(t: Table, v: Json, depth: nat, stack: set<Json>) returns (r: Outcome)
    ensures r == Deref(t, v, depth, stack)
    decreases DEPTH_LIMIT + 1 - depth
  {
    if depth > DEPTH_LIMIT {
      return Value(Null);
    }
    match v
    case Dict(_, entries) =>
      if v in stack {
        return Value(Null);
      }
      var inner := stack + {v};
      var out: map<Json, Out> := map[];
      for i := 0 to |entries|
        invariant DerefEntries(t, entries[i..], depth, inner, out) == Deref(t, v, depth, stack)
      {
        assert entries[i..][1..] == entries[i + 1..];
        var target := DictTarget(t, entries[i].1);
        var child := Value(Null);
        if target.Some? {
          child := DerefValue(t, target.value, depth + 1, inner);
        }
        var key := ActualKey(t, entries[i].0);
        if child.Unhashable? || !Hashable(key) {
          return Unhashable;
        }
        out := out[key := child.out];
      }
      return Value(OutDict(out));
    case List(items) =>
      var out: seq<Out> := [];
      for i := 0 to |items|
        invariant DerefItems(t, items[i..], depth, stack, out) == Deref(t, v, depth, stack)
      {
        assert items[i..][1..] == items[i + 1..];
        var child := DerefValue(t, ListTarget(t, items[i]), depth + 1, stack);
        if child.Unhashable? {
          return Unhashable;
        }
        out := out + [child.out];
      }
      return Value(OutList(out));
    case _ =>
      return Value(Leaf(v));
  }

  // ---------- The unfolding itself ----------

  // References followed without any check for cycles, through at most `levels`
  // levels; TooDeep if there are more.
  ghost function Unfold(t: Table, v: Json, levels: nat): Outcome
    decreases levels, 1, 0
  {
    if levels == 0 then TooDeep
    else match v
      case Dict(_, entries) => UnfoldEntries(t, entries, levels, map[])
      case List(items) => UnfoldItems(t, items, levels, [])
      case _ => Value(Leaf(v))
  }

  ghost function UnfoldEntries(t: Table, entries: seq<(string, Json)>, levels: nat, out: map<Json, Out>): Outcome
    requires levels > 0
    decreases levels, 0, |entries|
  {
    if entries == [] then Value(OutDict(out)) else
      var target := DictTarget(t, entries[0].1);
      var child := if target.None? then Value(Null) else Unfold(t, target.value, levels - 1);
      var key := ActualKey(t, entries[0].0);
      if child.TooDeep? then TooDeep
      else if child.Unhashable? || !Hashable(key) then Unhashable
      else UnfoldEntries(t, entries[1..], levels, out[key := child.out])
  }

  ghost function UnfoldItems(t: Table, items: seq<Json>, levels: nat, out: seq<Out>): Outcome
    requires levels > 0
    decreases levels, 0, |items|
  {
    if items == [] then Value(OutList(out)) else
      var child := Unfold(t, ListTarget(t, items[0]), levels - 1);
      if child.TooDeep? then TooDeep
      else if child.Unhashable? then Unhashable
      else UnfoldItems(t, items[1..], levels, out + [child.out])
  }

  // An unfolding that ends does not depend on how many levels are allowed.
  lemma {:induction false} UnfoldStable(t: Table, v: Json, levels: nat)
    requires Unfold(t, v, levels) != TooDeep
    ensures Unfold(t, v, levels + 1) == Unfold(t, v, levels)
    decreases levels, 1, 0
  {
    match v
    case Dict(_, entries) => EntriesStable(t, entries, levels, map[]);
    case List(items) => ItemsStable(t, items, levels, []);
    case _ =>
  }

  lemma {:induction false} EntriesStable(t: Table, entries: seq<(string, Json)>, levels: nat, out: map<Json, Out>)
    requires levels > 0 && UnfoldEntries(t, entries, levels, out) != TooDeep
    ensures UnfoldEntries(t, entries, levels + 1, out) == UnfoldEntries(t, entries, levels, out)
    decreases levels, 0, |entries|
  {
    if entries != [] {
      var target := DictTarget(t, entries[0].1);
      if target.Some? {
        UnfoldStable(t, target.value, levels - 1);
      }
      var child := if target.None? then Value(Null) else Unfold(t, target.value, levels - 1);
      if child.Value? && Hashable(ActualKey(t, entries[0].0)) {
        EntriesStable(t, entries[1..], levels, out[ActualKey(t, entries[0].0) := child.out]);
      }
    }
  }

  lemma {:induction false} ItemsStable(t: Table, items: seq<Json>, levels: nat, out: seq<Out>)
    requires levels > 0 && UnfoldItems(t, items, levels, out) != TooDeep
    ensures UnfoldItems(t, items, levels + 1, out) == UnfoldItems(t, items, levels, out)
    decreases levels, 0, |items|
  {
    if items != [] {
      var child := Unfold(t, ListTarget(t, items[0]), levels - 1);
      UnfoldStable(t, ListTarget(t, items[0]), levels - 1);
      if child.Value? {
        ItemsStable(t, items[1..], levels, out + [child.out]);
      }
    }
  }

  // A value whose unfolding ends within `levels` levels is unfolded exactly,
  // below any dictionaries whose own unfolding does not.
  lemma {:induction false} DerefUnfolds(t: Table, v: Json, depth: nat, stack: set<Json>, levels: nat)
    requires Unfold(t, v, levels) != TooDeep && depth + levels <= DEPTH_LIMIT + 1
    requires forall d <- stack :: Unfold(t, d, levels) == TooDeep
    ensures Deref(t, v, depth, stack) == Unfold(t, v, levels)
    decreases levels, 1, 0
  {
    LowerStack(t, stack, levels - 1);
    if Unfold(t, v, levels - 1) != TooDeep {
      UnfoldStable(t, v, levels - 1);
      DerefUnfolds(t, v, depth, stack, levels - 1);
    } else {
      match v
      case Dict(_, entries) => DerefUnfoldsEntries(t, entries, depth, stack + {v}, levels, map[]);
      case List(items) => DerefUnfoldsItems(t, items, depth, stack, levels, []);
      case _ =>
    }
  }

  lemma LowerStack(t: Table, stack: set<Json>, levels: nat)
    requires forall d <- stack :: Unfold(t, d, levels + 1) == TooDeep
    ensures forall d <- stack :: Unfold(t, d, levels) == TooDeep
  {
    forall d <- stack ensures Unfold(t, d, levels) == TooDeep {
      if Unfold(t, d, levels) != TooDeep {
        UnfoldStable(t, d, levels);
      }
    }
  }

  lemma {:induction false} DerefUnfoldsEntries(
      t: Table, entries: seq<(string, Json)>, depth: nat, stack: set<Json>, levels: nat, out: map<Json, Out>)
    requires levels > 0 && depth + levels <= DEPTH_LIMIT + 1
    requires UnfoldEntries(t, entries, levels, out) != TooDeep
    requires forall d <- stack :: Unfold(t, d, levels - 1) == TooDeep
    ensures DerefEntries(t, entries, depth, stack, out) == UnfoldEntries(t, entries, levels, out)
    decreases levels, 0, |entries|
  {
    if entries != [] {
      var target := DictTarget(t, entries[0].1);
      if target.Some? {
        DerefUnfolds(t, target.value, depth + 1, stack, levels - 1);
      }
      var child := if target.None? then Value(Null) else Unfold(t, target.value, levels - 1);
      if child.Value? && Hashable(ActualKey(t, entries[0].0)) {
        DerefUnfoldsEntries(t, entries[1..], depth, stack, levels, out[ActualKey(t, entries[0].0) := child.out]);
      }
    }
  }

  lemma {:induction false} DerefUnfoldsItems(
      t: Table, items: seq<Json>, depth: nat, stack: set<Json>, levels: nat, out: seq<Out>)
    requires levels > 0 && depth + levels <= DEPTH_LIMIT + 1
    requires UnfoldItems(t, items, levels, out) != TooDeep
    requires forall d <- stack :: Unfold(t, d, levels - 1) == TooDeep
    ensures DerefItems(t, items, depth, stack, out) == UnfoldItems(t, items, levels, out)
    decreases levels, 0, |items|
  {
    if items != [] {
      var child := Unfold(t, ListTarget(t, items[0]), levels - 1);
      DerefUnfolds(t, ListTarget(t, items[0]), depth + 1, stack, levels - 1);
      if child.Value? {
        DerefUnfoldsItems(t, items[1..], depth, stack, levels, out + [child.out]);
      }
    }
  }

  // On every table, cyclic or not, deref gives an outcome; where following
  // the references ends at all within the depth limit, it is the result of
  // following them.
  lemma DerefExact(t: Table, v: Json, levels: nat)
    requires levels <= DEPTH_LIMIT + 1 && Unfold(t, v, levels) != TooDeep
    ensures Deref(t, v, 0, {}) == Unfold(t, v, levels)
  {
    DerefUnfolds(t, v, 0, {}, levels);
  }

  // ---------- Keys, numbers out of range, and cycles ----------

  // A key that is an underscore and the number of an entry is replaced by that
  // entry; any other key is kept.
  lemma KeyNamed(t: Table, id: nat, k: string, text: string, n: Option<int>)
    requires n == if "_" <= k then t.parse(k[1..]) else None
    ensures var r := Deref(t, Dict(id, [(k, Text(text))]), 0, {});
      var key := if n.Some? && 0 <= n.value < |t.data| then t.data[n.value] else Text(k);
      r == if key.List? || key.Dict? then Unhashable else Value(OutDict(map[key := Leaf(Text(text))]))
  {
    var entries := [(k, Text(text))];
    assert entries[1..] == [];
  }

  // A number that names no entry stands for itself in a list and becomes null
  // in a dictionary.
  lemma NumberOutOfRange(t: Table, id: nat, k: string, n: int)
    requires !(0 <= n < |t.data|) && !("_" <= k)
    ensures Deref(t, List([Int(n)]), 0, {}) == Value(OutList([Leaf(Int(n))]))
    ensures Deref(t, Dict(id, [(k, Int(n))]), 0, {}) == Value(OutDict(map[Text(k) := Null]))
  {
    var items, entries := [Int(n)], [(k, Int(n))];
    assert items[1..] == [] && entries[1..] == [] && [] + [Leaf(Int(n))] == [Leaf(Int(n))];
    assert DerefItems(t, items, 0, {}, []) == DerefItems(t, [], 0, {}, [Leaf(Int(n))]);
  }

  ghost function Nested(n: nat): Out {
    if n == 0 then Null else OutList([Nested(n - 1)])
  }

  // A list that holds itself is not recognised: it is unfolded down to the depth
  // limit, 151 lists deep.
  lemma ListCycle(t: Table)
    requires t.data != [] && t.data[0] == List([Int(0)])
    ensures Deref(t, t.data[0], 0, {}) == Value(Nested(151))
  {
    ListCycleFrom(t, 0, {});
  }

  lemma {:induction false} ListCycleFrom(t: Table, depth: nat, stack: set<Json>)
    requires t.data != [] && t.data[0] == List([Int(0)]) && depth <= 151
    ensures Deref(t, t.data[0], depth, stack) == Value(Nested(151 - depth))
    decreases 151 - depth
  {
    if depth <= 150 {
      ListCycleFrom(t, depth + 1, stack);
      var items := [Int(0)];
      assert items[1..] == [] && [] + [Nested(150 - depth)] == [Nested(150 - depth)];
      assert DerefItems(t, items, depth, stack, []) == DerefItems(t, [], depth, stack, [Nested(150 - depth)]);
    }
  }

  // A dictionary met again below itself becomes null at once, directly or
  // through another one.
  lemma DictCycle(t: Table, a: nat, b: nat, k: string, l: string)
    requires |t.data| >= 2 && t.data[0] == Dict(a, [(k, Int(1))]) && t.data[1] == Dict(b, [(l, Int(0))])
    requires !("_" <= k) && !("_" <= l) && t.data[0] != t.data[1]
    ensures Deref(t, t.data[0], 0, {}) == Value(OutDict(map[Text(k) := OutDict(map[Text(l) := Null])]))
  {
    var outer, inner := [(k, Int(1))], [(l, Int(0))];
    assert outer[1..] == [] && inner[1..] == [];
    var stack := {t.data[0], t.data[1]};
    assert {} + {t.data[0]} + {t.data[1]} == stack;
    assert Deref(t, t.data[0], 2, stack) == Value(Null);
    assert DerefEntries(t, inner, 1, stack, map[]) == DerefEntries(t, [], 1, stack, map[Text(l) := Null]);
    assert Deref(t, t.data[1], 1, {} + {t.data[0]}) == Value(OutDict(map[Text(l) := Null]));
  }
}
