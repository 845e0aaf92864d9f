/** The JSON value tree of eina_json.c: typed nodes with a parent link,
    ordered child lists for objects and arrays, and the public value API
    (constructors, setters and getters, list editing, key-path lookup,
    recursive free and text output).

    Nodes live in an arena: a map from handles to nodes, with handle 0
    standing for NULL. A node's `parent` is the handle of the container that
    owns it, or `Nil`. */
module JsonValue {
  import opened JsonTypes
  import opened JsonPrint

  /** The typed union of a node. Objects list their pairs, arrays their
      items, in list order. */
  datatype Payload =
    | NullVal
    | NumberVal(num: real)
    | StringVal(text: string)
    | BooleanVal(b: bool)
    | PairVal(name: string, val: Handle)
    | ObjectVal(items: seq<Handle>)
    | ArrayVal(items: seq<Handle>)
  {
    function Type(): JsonType
    {
      match this
      case NullVal => TNull
      case NumberVal(_) => TNumber
      case StringVal(_) => TString
      case BooleanVal(_) => TBoolean
      case PairVal(_, _) => TPair
      case ObjectVal(_) => TObject
      case ArrayVal(_) => TArray
    }

    /** The child list as the union exposes it: objects and arrays have
        one, the other types read as an empty list. */
    function Children(): seq<Handle>
    {
      if ObjectVal? || ArrayVal? then items else []
    }
  }

  datatype Value = Value(payload: Payload, parent: Handle)

  /** The arena: live nodes and the next handle to hand out. */
  datatype Heap = Heap(values: map<Handle, Value>, next: Handle)

  /** Handles in use are below `next`, and no child list holds NULL. */
  ghost predicate HeapOk(hp: Heap)
  {
    hp.next > 0
    && (forall h :: h in hp.values ==> 0 < h < hp.next)
    && (forall h :: h in hp.values ==> Nil !in hp.values[h].payload.Children())
  }

  /** `_eina_json_type_new` with its payload set: a zeroed node with no
      parent, under a handle that is not in use. */
  function Alloc(hp: Heap, p: Payload): (r: (Heap, Handle))
    ensures HeapOk(hp) && Nil !in p.Children() ==>
      HeapOk(r.0) && r.1 != Nil && r.1 !in hp.values
      && r.0.values == hp.values[r.1 := Value(p, Nil)]
  {
    (Heap(hp.values[hp.next := Value(p, Nil)], hp.next + 1), hp.next)
  }

  /** The node of a container with its child list replaced. */
  function WithChildren(v: Value, items: seq<Handle>): (r: Value)
    ensures r.parent == v.parent
    ensures v.payload.ObjectVal? ==> r.payload == ObjectVal(items)
    ensures v.payload.ArrayVal? ==> r.payload == ArrayVal(items)
  {
    match v.payload
    case ObjectVal(_) => v.(payload := ObjectVal(items))
    case ArrayVal(_) => v.(payload := ArrayVal(items))
    case _ => v
  }

  /** What a node holds for `eina_json_value_free`: the list of an object
      or array, the value of a pair. */
  function Owned(v: Value): (r: seq<Handle>)
    ensures v.payload.PairVal? ==> r == [v.payload.val]
    ensures !v.payload.PairVal? ==> r == v.payload.Children()
  {
    if v.payload.PairVal? then [v.payload.val] else v.payload.Children()
  }

  /** No node of `d` holds a live node outside `d`. */
  ghost predicate Closed(vs: map<Handle, Value>, d: set<Handle>)
  {
    forall k, c :: k in d && k in vs && c in Owned(vs[k]) && c in vs ==> c in d
  }

  /** `d` is the subtree of `h`: the live nodes reachable from `h` through
      lists and pair values, that is the least set of live nodes that holds
      `h` and every live node one of its members holds. */
  ghost predicate Subtree(vs: map<Handle, Value>, h: Handle, d: set<Handle>)
  {
    h in d && d <= vs.Keys && Closed(vs, d)
    && forall s :: h in s && Closed(vs, s) ==> d <= s
  }

  /** A node has one subtree. */
  lemma SubtreeUnique(vs: map<Handle, Value>, h: Handle, d1: set<Handle>, d2: set<Handle>)
    requires Subtree(vs, h, d1) && Subtree(vs, h, d2)
    ensures d1 == d2
  {
    assert d1 <= d2;
    assert d2 <= d1;
  }

  /** A node that holds no live node is its own subtree. */
  lemma SubtreeOfLeaf(vs: map<Handle, Value>, h: Handle)
    requires h in vs && forall c :: c in Owned(vs[h]) ==> c !in vs
    ensures Subtree(vs, h, {h})
  {
  }

  /** The subtree of `c`, a live node that `h` holds, lies inside the
      subtree of `h`. */
  lemma SubtreeOfChild(vs: map<Handle, Value>, h: Handle, d: set<Handle>, c: Handle, e: set<Handle>)
    requires Subtree(vs, h, d) && c in Owned(vs[h]) && Subtree(vs, c, e)
    ensures e <= d
  {
    assert c in d;
  }

  /** Two arenas with the same nodes, lists and pair values: only parent
      links differ. */
  ghost predicate SameOwned(a: map<Handle, Value>, b: map<Handle, Value>)
  {
    a.Keys == b.Keys && forall k :: k in a ==> Owned(a[k]) == Owned(b[k])
  }

  /** Parent links play no part in a subtree. */
  lemma SubtreeOfSameOwned(a: map<Handle, Value>, b: map<Handle, Value>, h: Handle, d: set<Handle>)
    requires SameOwned(a, b) && Subtree(a, h, d)
    ensures Subtree(b, h, d)
  {
    forall s | h in s && Closed(b, s)
      ensures d <= s
    {
      assert Closed(a, s);
    }
  }

  /** Part way through freeing `h` from `v0`: `h` is gone, the nodes still
      present are untouched, every other gone node has had everything it
      holds freed, and nothing outside the subtree of `h` is gone. */
  ghost predicate Freeing(v0: map<Handle, Value>, h: Handle, vs: map<Handle, Value>)
  {
    h in v0 && h !in vs && vs.Keys <= v0.Keys
    && (forall k :: k in vs ==> vs[k] == v0[k])
    && (forall k, c :: k in v0 && k !in vs && k != h && c in Owned(v0[k]) ==> c !in vs)
    && (forall s :: h in s && Closed(v0, s) ==> v0.Keys - vs.Keys <= s)
  }

  lemma FreeStart(v0: map<Handle, Value>, h: Handle)
    requires h in v0
    ensures Freeing(v0, h, v0 - {h})
  {
    assert v0.Keys - (v0 - {h}).Keys == {h};
  }

  /** Freeing the subtree of one node that `h` holds keeps the freeing of
      `h` on track. */
  lemma FreeStep(v0: map<Handle, Value>, h: Handle, v1: map<Handle, Value>, v2: map<Handle, Value>, c: Handle)
    requires Freeing(v0, h, v1) && c in Owned(v0[h])
    requires v2.Keys <= v1.Keys && c !in v2
    requires forall k :: k in v2 ==> v2[k] == v1[k]
    requires c in v1 ==> Subtree(v1, c, v1.Keys - v2.Keys)
    requires c !in v1 ==> v2 == v1
    ensures Freeing(v0, h, v2)
  {
    if c in v1 {
      var e := v1.Keys - v2.Keys;
      forall k, x | k in v0 && k !in v2 && k != h && x in Owned(v0[k])
        ensures x !in v2
      {
        if k in v1 {
          assert k in e && v1[k] == v0[k];
        }
      }
      forall s | h in s && Closed(v0, s)
        ensures v0.Keys - v2.Keys <= s
      {
        assert Closed(v1, s) by {
          forall k, x | k in s && k in v1 && x in Owned(v1[k]) && x in v1
            ensures x in s
          {
            assert v1[k] == v0[k];
          }
        }
        assert c in s;
      }
    }
  }

  /** Once everything `h` holds is gone, the gone nodes are exactly the
      subtree of `h`. */
  lemma FreeEnd(v0: map<Handle, Value>, h: Handle, vs: map<Handle, Value>)
    requires Freeing(v0, h, vs) && forall c :: c in Owned(v0[h]) ==> c !in vs
    ensures Subtree(v0, h, v0.Keys - vs.Keys)
  {
  }

  /** The arena after `_eina_json_gen_nth_remove` took position `idx` out
      of the list of `obj`. With `v1` the arena in which only that list
      changed, the removed node is gone together with its subtree in `v1`,
      and every other node is as in `v1`. */
  ghost predicate NthRemoved(v0: map<Handle, Value>, obj: Handle, idx: nat, vs: map<Handle, Value>)
    requires obj in v0 && idx < |v0[obj].payload.Children()|
  {
    var items := v0[obj].payload.Children();
    var v1 := v0[obj := WithChildren(v0[obj], Removed(items, idx))];
    var o := items[idx];
    vs.Keys <= v1.Keys && o !in vs
    && (forall k :: k in vs ==> vs[k] == v1[k])
    && (o in v1 ==> Subtree(v1, o, v1.Keys - vs.Keys))
    && (o !in v1 ==> vs == v1)
  }

  /** Changing a parent link keeps lists and pair values. */
  lemma ReparentSameOwned(vs: map<Handle, Value>, o: Handle, p: Handle)
    requires o in vs
    ensures SameOwned(vs[o := vs[o].(parent := p)], vs)
  {
  }

  /** Allocating a pair for `v`, pointing `v` at it and inserting the pair
      in the list of `obj` come to one update of the arena. */
  lemma PairInsertMap(v0: map<Handle, Value>, obj: Handle, v: Handle, pr: Handle, key: string, ins: seq<Handle>)
    requires obj in v0 && v in v0 && pr !in v0
    ensures var a := v0[pr := Value(PairVal(key, v), Nil)][v := v0[v].(parent := pr)];
      var b := a[obj := WithChildren(a[obj], ins)];
      var v1 := v0[v := v0[v].(parent := pr)];
      b[pr := b[pr].(parent := obj)] == v1[obj := WithChildren(v1[obj], ins)][pr := Value(PairVal(key, v), obj)]
  {
  }

  lemma NthRemovedIntro(v0: map<Handle, Value>, obj: Handle, idx: nat, v1: map<Handle, Value>, vs: map<Handle, Value>)
    requires obj in v0 && idx < |v0[obj].payload.Children()|
    requires v1 == v0[obj := WithChildren(v0[obj], Removed(v0[obj].payload.Children(), idx))]
    requires var o := v0[obj].payload.Children()[idx];
      vs.Keys <= v1.Keys && o !in vs && (forall k :: k in vs ==> vs[k] == v1[k])
      && (o in v1 ==> Subtree(v1, o, v1.Keys - vs.Keys)) && (o !in v1 ==> vs == v1)
    ensures NthRemoved(v0, obj, idx, vs)
  {
  }

  /** Removing a node that holds no live node frees that node alone. */
  lemma NthRemovedLeaf(v0: map<Handle, Value>, obj: Handle, idx: nat, vs: map<Handle, Value>)
    requires obj in v0 && idx < |v0[obj].payload.Children()| && NthRemoved(v0, obj, idx, vs)
    requires var items := v0[obj].payload.Children();
      var v1 := v0[obj := WithChildren(v0[obj], Removed(items, idx))];
      items[idx] in v1 && forall c :: c in Owned(v1[items[idx]]) ==> c !in v1
    ensures var items := v0[obj].payload.Children();
      vs == v0[obj := WithChildren(v0[obj], Removed(items, idx))] - {items[idx]}
  {
    var items := v0[obj].payload.Children();
    var v1 := v0[obj := WithChildren(v0[obj], Removed(items, idx))];
    SubtreeOfLeaf(v1, items[idx]);
    SubtreeUnique(v1, items[idx], {items[idx]}, v1.Keys - vs.Keys);
    assert vs.Keys == (v1 - {items[idx]}).Keys;
  }

  /** `_eina_json_gen_append`: a value that already has a parent is refused
      and nothing changes; otherwise it goes to the end of the list and
      its parent becomes the container. */
  function GenAppendOn(hp: Heap, obj: Handle, v: Handle): (r: (Heap, Handle))
    requires obj in hp.values && v in hp.values && v != Nil
    requires hp.values[obj].payload.ObjectVal? || hp.values[obj].payload.ArrayVal?
    ensures hp.values[v].parent != Nil <==> r.1 == Nil
    ensures r.1 == Nil ==> r.0 == hp
    ensures r.1 != Nil ==>
      r.1 == v && r.0.next == hp.next && r.0.values.Keys == hp.values.Keys
      && r.0.values[obj].payload.Children() == hp.values[obj].payload.Children() + [v]
      && r.0.values[v].parent == obj
      && forall k :: k in hp.values && k != obj && k != v ==> r.0.values[k] == hp.values[k]
  {
    if hp.values[v].parent != Nil then (hp, Nil)
    else
      var items := hp.values[obj].payload.items;
      var vs := hp.values[obj := WithChildren(hp.values[obj], items + [v])];
      (hp.(values := vs[v := vs[v].(parent := obj)]), v)
  }

  /** `eina_json_array_append`: the container must be an array and the
      value must not be a pair; then `GenAppendOn`. */
  function ArrayAppendOn(hp: Heap, arr: Handle, v: Handle): (r: (Heap, Handle))
    requires arr in hp.values && v in hp.values && v != Nil
    ensures r.1 != Nil <==>
      hp.values[arr].payload.ArrayVal? && !hp.values[v].payload.PairVal?
      && hp.values[v].parent == Nil
    ensures r.1 == Nil ==> r.0 == hp
    ensures r.1 != Nil ==>
      r.1 == v && r.0.next == hp.next && r.0.values.Keys == hp.values.Keys
      && r.0.values[arr].payload == ArrayVal(hp.values[arr].payload.items + [v])
      && r.0.values[v].parent == arr
      && forall k :: k in hp.values && k != arr && k != v ==> r.0.values[k] == hp.values[k]
  {
    if !hp.values[arr].payload.ArrayVal? then (hp, Nil)
    else if hp.values[v].payload.PairVal? then (hp, Nil)
    else GenAppendOn(hp, arr, v)
  }

  /** A list with `v` placed at position `idx` (`eina_inlist_prepend_relative`
      before the node at `idx`, or at the end when `idx` is the length). */
  function Inserted(items: seq<Handle>, idx: nat, v: Handle): (r: seq<Handle>)
    requires idx <= |items|
    ensures |r| == |items| + 1 && r[idx] == v
    ensures forall x :: x in r ==> x in items || x == v
    ensures forall i :: 0 <= i < idx ==> r[i] == items[i]
    ensures forall i :: idx < i < |r| ==> r[i] == items[i - 1]
  {
    items[..idx] + [v] + items[idx..]
  }

  /** A list with the node at position `idx` unlinked. */
  function Removed(items: seq<Handle>, idx: nat): (r: seq<Handle>)
    requires idx < |items|
    ensures |r| == |items| - 1
    ensures forall x :: x in r ==> x in items
    ensures forall i :: 0 <= i < idx ==> r[i] == items[i]
    ensures forall i :: idx <= i < |r| ==> r[i] == items[i + 1]
  {
    items[..idx] + items[idx + 1..]
  }

  /** Removing what was inserted at the same position gives the list back,
      and re-inserting what was removed restores it. */
  lemma InsertRemoveInverse(items: seq<Handle>, idx: nat, v: Handle)
    requires idx <= |items|
    ensures Removed(Inserted(items, idx, v), idx) == items
    ensures idx < |items| ==> Inserted(Removed(items, idx), idx, items[idx]) == items
  {
    var a := Removed(Inserted(items, idx, v), idx);
    assert |a| == |items|;
    assert forall i :: 0 <= i < |a| ==> a[i] == items[i];
    if idx < |items| {
      var b := Inserted(Removed(items, idx), idx, items[idx]);
      assert |b| == |items|;
      assert forall i :: 0 <= i < |b| ==> b[i] == items[i];
    }
  }

  /** `_eina_json_gen_nth_get`: walk the list counting nodes; the node at
      position `idx`, or NULL when the list is shorter. */
  method NthGet(items: seq<Handle>, idx: nat) returns (r: Handle)
    ensures idx < |items| ==> r == items[idx]
    ensures idx >= |items| ==> r == Nil
  {
    var count := 0;
    r := Nil;
    while count < |items|
      invariant 0 <= count <= |items|
      invariant count <= idx
      decreases |items| - count
    {
      if count == idx {
        return items[count];
      }
      count := count + 1;
    }
  }

  /** `h` is a live pair whose name is `key`. */
  predicate PairNamed(values: map<Handle, Value>, h: Handle, key: string)
  {
    h in values && values[h].payload.PairVal? && values[h].payload.name == key
  }

  /** The first pair among `items` whose name is `key`: a later pair with
      the same name is never the one found. */
  function FindPair(values: map<Handle, Value>, items: seq<Handle>, key: string): (r: Option<Handle>)
    ensures r.Some? ==>
      exists i :: 0 <= i < |items| && items[i] == r.value && PairNamed(values, r.value, key)
        && forall j :: 0 <= j < i ==> !PairNamed(values, items[j], key)
    ensures r.None? ==> forall i :: 0 <= i < |items| ==> !PairNamed(values, items[i], key)
    decreases |items|
  {
    if |items| == 0 then None
    else if PairNamed(values, items[0], key) then Some(items[0])
    else
      var r := FindPair(values, items[1..], key);
      assert r.Some? ==> (exists i :: 1 <= i < |items| && items[i] == r.value
                           && forall j :: 1 <= j < i ==> !PairNamed(values, items[j], key));
      r
  }

  /** Following a key path from `cur`: at each key the current value must be
      an object, and the path continues with the value of its first pair of
      that name. A missing key, a non-object along the way, or a step that
      C takes through a NULL pointer ends in `Nil`. An empty object reads
      its pair value slot through the union, which is NULL. */
  function Walk(values: map<Handle, Value>, cur: Handle, keys: seq<string>): Handle
    decreases |keys|
  {
    if |keys| == 0 then cur
    else if cur !in values || !values[cur].payload.ObjectVal? then Nil
    else if |values[cur].payload.items| == 0 then Nil
    else match FindPair(values, values[cur].payload.items, keys[0])
      case None => Nil
      case Some(p) => Walk(values, values[p].payload.val, keys[1..])
  }

  /** The result of `eina_json_object_value_get`: `Nil` when the start is not
      an object or the walk ends where it started. */
  function ValueAt(values: map<Handle, Value>, obj: Handle, keys: seq<string>): Handle
  {
    if obj !in values || !values[obj].payload.ObjectVal? then Nil
    else
      var r := Walk(values, obj, keys);
      if r == obj then Nil else r
  }

  /** A one-key lookup in an object answers the value of the first pair with
      that key, and `Nil` exactly when no pair has it (or it holds the object
      itself); an empty key path answers `Nil`. */
  lemma ValueAtOneKey(values: map<Handle, Value>, obj: Handle, key: string)
    requires obj in values && values[obj].payload.ObjectVal?
    ensures ValueAt(values, obj, []) == Nil
    ensures var f := FindPair(values, values[obj].payload.items, key);
      ValueAt(values, obj, [key]) ==
        (if f.Some? && values[f.value].payload.val != obj then values[f.value].payload.val else Nil)
  {
    var items := values[obj].payload.items;
    assert [key][1..] == [];
    if |items| == 0 {
      assert FindPair(values, items, key).None?;
    } else {
      var f := FindPair(values, items, key);
      if f.Some? {
        assert Walk(values, obj, [key]) == Walk(values, values[f.value].payload.val, []);
      }
    }
  }

  /** Reading a stored subtree as a printable tree: `None` when a handle is
      missing, a pair has no value, or the structure is deeper than the
      fuel (which includes every cyclic structure). */
  function ToJson(values: map<Handle, Value>, h: Handle, fuel: nat): Option<Json>
    decreases fuel, 0
  {
    if fuel == 0 || h !in values then None
    else match values[h].payload
      case NullVal => Some(JNull)
      case NumberVal(r) => Some(JNumber(r))
      case StringVal(s) => Some(JString(s))
      case BooleanVal(b) => Some(JBoolean(b))
      case PairVal(name, v) =>
        (match ToJson(values, v, fuel - 1)
         case None => None
         case Some(j) => Some(JPair(name, j)))
      case ObjectVal(items) =>
        (match ToJsonList(values, items, fuel - 1)
         case None => None
         case Some(js) => Some(JObject(js)))
      case ArrayVal(items) =>
        (match ToJsonList(values, items, fuel - 1)
         case None => None
         case Some(js) => Some(JArray(js)))
  }

  function ToJsonList(values: map<Handle, Value>, items: seq<Handle>, fuel: nat): (r: Option<seq<Json>>)
    ensures r.Some? ==> |r.value| == |items|
    decreases fuel, 1, |items|
  {
    if |items| == 0 then Some([])
    else match ToJson(values, items[0], fuel)
      case None => None
      case Some(j) =>
        match ToJsonList(values, items[1..], fuel)
        case None => None
        case Some(js) => Some([j] + js)
  }

  /** The tree under `h`, when it is a finite tree of live nodes. */
  function Tree(values: map<Handle, Value>, h: Handle): Option<Json>
  {
    ToJson(values, h, |values|)
  }

  /** `eina_json_format_string_get`: PACKED (0) prints on one line without
      indentation, BASIC (1) breaks lines and indents by two per object
      level; any other format is refused. */
  function FormatString(values: map<Handle, Value>, h: Handle, format: nat): (r: Option<string>)
    requires Tree(values, h).Some?
    ensures format > 1 <==> r.None?
    ensures format == 0 && BlankFreeTexts(Tree(values, h).value) ==> NoBlank(r.value)
  {
    if format > 1 then None
    else
      var t := Tree(values, h).value;
      var out := DelimPrint(t, 0, if format == 1 then 2 else 0, format == 1);
      if format == 0 && BlankFreeTexts(t) then
        PackedHasNoBlank(t, 0, 0);
        Some(out)
      else Some(out)
  }

  /** The store of value nodes that the value API allocates into and frees
      from. */
  class Store {
    var values: map<Handle, Value>
    var next: Handle

    ghost predicate Valid()
      reads this
    {
      HeapOk(Heap(values, next))
    }

    function Snapshot(): Heap
      reads this
    {
      Heap(values, next)
    }

    constructor ()
      ensures Valid() && values == map[]
    {
      values := map[];
      next := 1;
    }

    /** `_eina_json_type_new` followed by the constructor's payload. */
    method NewValue(p: Payload) returns (h: Handle)
      requires Valid() && Nil !in p.Children()
      modifies this
      ensures Valid() && (Snapshot(), h) == Alloc(old(Snapshot()), p)
      ensures h != Nil && h !in old(values) && values == old(values)[h := Value(p, Nil)]
    {
      h := next;
      values := values[h := Value(p, Nil)];
      next := next + 1;
    }

    method NumberNew(num: real) returns (h: Handle)
      requires Valid()
      modifies this
      ensures Valid() && h !in old(values) && values == old(values)[h := Value(NumberVal(num), Nil)]
      ensures NumberGet(h) == num
    {
      h := NewValue(NumberVal(num));
    }

    /** `eina_json_string_new`: a NULL string yields NULL and allocates
        nothing. */
    method StringNew(s: Option<string>) returns (h: Handle)
      requires Valid()
      modifies this
      ensures Valid()
      ensures s.None? ==> h == Nil && values == old(values) && next == old(next)
      ensures s.Some? ==>
        h != Nil && h !in old(values) && values == old(values)[h := Value(StringVal(s.value), Nil)]
        && StringGet(h) == s
    {
      if s.None? {
        return Nil;
      }
      h := NewValue(StringVal(s.value));
    }

    method BooleanNew(b: bool) returns (h: Handle)
      requires Valid()
      modifies this
      ensures Valid() && h !in old(values) && values == old(values)[h := Value(BooleanVal(b), Nil)]
      ensures BooleanGet(h) == b
    {
      h := NewValue(BooleanVal(b));
    }

    method NullNew() returns (h: Handle)
      requires Valid()
      modifies this
      ensures Valid() && h !in old(values) && values == old(values)[h := Value(NullVal, Nil)]
      ensures TypeGet(h) == TNull
    {
      h := NewValue(NullVal);
    }

    method ObjectNew() returns (h: Handle)
      requires Valid()
      modifies this
      ensures Valid() && h !in old(values) && values == old(values)[h := Value(ObjectVal([]), Nil)]
      ensures ObjectCount(h) == 0
    {
      h := NewValue(ObjectVal([]));
    }

    method ArrayNew() returns (h: Handle)
      requires Valid()
      modifies this
      ensures Valid() && h !in old(values) && values == old(values)[h := Value(ArrayVal([]), Nil)]
      ensures ArrayCount(h) == 0
    {
      h := NewValue(ArrayVal([]));
    }

    /** Store a pair's value, as the parser's tree builder does: the value
        keeps its own parent link. */
    method SetPairValue(pair: Handle, v: Handle)
      requires Valid() && pair in values && values[pair].payload.PairVal?
      modifies this
      ensures Valid() && next == old(next)
      ensures values == old(values)[pair := old(values)[pair].(payload := PairVal(old(values)[pair].payload.name, v))]
    {
      var pv := values[pair];
      values := values[pair := pv.(payload := PairVal(pv.payload.name, v))];
    }

    /** Append to an object's list with `eina_inlist_append` alone, as the
        parser's tree builder does: the child's parent link is not set. */
    method ListAppend(obj: Handle, v: Handle)
      requires Valid() && obj in values && values[obj].payload.ObjectVal? && v != Nil
      modifies this
      ensures Valid() && next == old(next)
      ensures values == old(values)[obj := old(values)[obj].(payload := ObjectVal(old(values)[obj].payload.items + [v]))]
    {
      var ov := values[obj];
      values := values[obj := ov.(payload := ObjectVal(ov.payload.items + [v]))];
    }

    /** `eina_json_value_free`: NULL and owned values are left alone;
        otherwise the node and, recursively, every child (each first
        released from its parent) leave the store: the nodes that go are
        exactly the subtree of `h`, and the nodes that stay are untouched. */
    method Free(h: Handle)
      requires Valid()
      modifies this
      ensures Valid() && next == old(next)
      ensures values.Keys <= old(values).Keys
      ensures forall k :: k in values ==> values[k] == old(values)[k]
      ensures h == Nil || h !in old(values) || old(values)[h].parent != Nil ==> values == old(values)
      ensures h != Nil && h in old(values) && old(values)[h].parent == Nil ==>
        Subtree(old(values), h, old(values).Keys - values.Keys)
      decreases values.Keys, 0
    {
      if h == Nil || h !in values || values[h].parent != Nil {
        return;
      }
      ghost var v0 := values;
      var p := values[h].payload;
      values := values - {h};
      FreeStart(v0, h);
      if p.PairVal? {
        ghost var v1 := values;
        FreeChild(p.val);
        FreeStep(v0, h, v1, values, p.val);
      } else if p.ObjectVal? || p.ArrayVal? {
        FreeItems(v0, h, p.items);
      }
      FreeEnd(v0, h, values);
    }

    /** The loop of `eina_json_value_free` over a freed node's list:
        each child in turn is released and freed with its subtree. */
    method FreeItems(ghost v0: map<Handle, Value>, h: Handle, items: seq<Handle>)
      requires Valid() && Freeing(v0, h, values) && Owned(v0[h]) == items
      modifies this
      ensures Valid() && next == old(next) && Freeing(v0, h, values)
      ensures forall c :: c in items ==> c !in values
      decreases values.Keys, 2
    {
      var i := 0;
      while i < |items|
        invariant 0 <= i <= |items|
        invariant Valid() && next == old(next) && values.Keys <= old(values).Keys
        invariant Freeing(v0, h, values)
        invariant forall j :: 0 <= j < i ==> items[j] !in values
      {
        ghost var v1 := values;
        FreeChild(items[i]);
        FreeStep(v0, h, v1, values, items[i]);
        assert forall j :: 0 <= j <= i ==> items[j] !in values;
        i := i + 1;
      }
    }

    /** One child of a freed node: released from its parent, then freed
        with its subtree. */
    method FreeChild(c: Handle)
      requires Valid()
      modifies this
      ensures Valid() && next == old(next)
      ensures values.Keys <= old(values).Keys && c !in values
      ensures forall k :: k in values ==> values[k] == old(values)[k]
      ensures c !in old(values) ==> values == old(values)
      ensures c in old(values) ==> Subtree(old(values), c, old(values).Keys - values.Keys)
      decreases values.Keys, 1
    {
      if c in values {
        ghost var v0 := values;
        values := values[c := values[c].(parent := Nil)];
        ghost var v1 := values;
        Free(c);
        SubtreeOfSameOwned(v1, v0, c, v1.Keys - values.Keys);
      }
    }

    function TypeGet(h: Handle): JsonType
      reads this
      requires h in values
    {
      values[h].payload.Type()
    }

    function NumberGet(h: Handle): real
      reads this
      requires h in values
    {
      if values[h].payload.NumberVal? then values[h].payload.num else 0.0
    }

    function StringGet(h: Handle): Option<string>
      reads this
      requires h in values
    {
      if values[h].payload.StringVal? then Some(values[h].payload.text) else None
    }

    function BooleanGet(h: Handle): bool
      reads this
      requires h in values
    {
      values[h].payload.BooleanVal? && values[h].payload.b
    }

    function PairNameGet(h: Handle): Option<string>
      reads this
      requires h in values
    {
      if values[h].payload.PairVal? then Some(values[h].payload.name) else None
    }

    function PairValueGet(h: Handle): Handle
      reads this
      requires h in values
    {
      if values[h].payload.PairVal? then values[h].payload.val else Nil
    }

    function ObjectCount(h: Handle): nat
      reads this
      requires h in values
    {
      if values[h].payload.ObjectVal? then |values[h].payload.items| else 0
    }

    function ArrayCount(h: Handle): nat
      reads this
      requires h in values
    {
      if values[h].payload.ArrayVal? then |values[h].payload.items| else 0
    }

    /** The setters refuse a value of another type and change nothing;
        otherwise the getter reads back what was set. */
    method NumberSet(h: Handle, num: real) returns (ok: bool)
      requires Valid() && h in values
      modifies this
      ensures Valid() && next == old(next)
      ensures ok <==> old(values)[h].payload.NumberVal?
      ensures !ok ==> values == old(values)
      ensures ok ==> values == old(values)[h := old(values)[h].(payload := NumberVal(num))]
      ensures ok ==> NumberGet(h) == num
    {
      if !values[h].payload.NumberVal? {
        return false;
      }
      values := values[h := values[h].(payload := NumberVal(num))];
      return true;
    }

    /** `eina_json_string_set` resets the buffer and appends the text; a NULL
        text appends nothing, leaving an empty string. */
    method StringSet(h: Handle, s: Option<string>) returns (ok: bool)
      requires Valid() && h in values
      modifies this
      ensures Valid() && next == old(next)
      ensures ok <==> old(values)[h].payload.StringVal?
      ensures !ok ==> values == old(values)
      ensures ok ==> values == old(values)[h := old(values)[h].(payload := StringVal(if s.Some? then s.value else ""))]
      ensures ok && s.Some? ==> StringGet(h) == s
    {
      if !values[h].payload.StringVal? {
        return false;
      }
      values := values[h := values[h].(payload := StringVal(if s.Some? then s.value else ""))];
      return true;
    }

    method BooleanSet(h: Handle, b: bool) returns (ok: bool)
      requires Valid() && h in values
      modifies this
      ensures Valid() && next == old(next)
      ensures ok <==> old(values)[h].payload.BooleanVal?
      ensures !ok ==> values == old(values)
      ensures ok ==> values == old(values)[h := old(values)[h].(payload := BooleanVal(b))]
      ensures ok ==> BooleanGet(h) == b
    {
      if !values[h].payload.BooleanVal? {
        return false;
      }
      values := values[h := values[h].(payload := BooleanVal(b))];
      return true;
    }

    /** `eina_json_object_nth_get`: NULL for a non-object or an index past
        the end. */
    method ObjectNthGet(obj: Handle, idx: nat) returns (r: Handle)
      requires Valid() && obj in values
      ensures r != Nil <==> values[obj].payload.ObjectVal? && idx < ObjectCount(obj)
      ensures r != Nil ==> r == values[obj].payload.items[idx]
    {
      if !values[obj].payload.ObjectVal? {
        return Nil;
      }
      r := NthGet(values[obj].payload.items, idx);
    }

    method ArrayNthGet(arr: Handle, idx: nat) returns (r: Handle)
      requires Valid() && arr in values
      ensures r != Nil <==> values[arr].payload.ArrayVal? && idx < ArrayCount(arr)
      ensures r != Nil ==> r == values[arr].payload.items[idx]
    {
      if !values[arr].payload.ArrayVal? {
        return Nil;
      }
      r := NthGet(values[arr].payload.items, idx);
    }

    /** The iterators walk the child list in order: the same nodes as
        `nth_get` at 0, 1, ...; NULL for a value of the wrong type. */
    function ObjectIterator(obj: Handle): (r: Option<seq<Handle>>)
      reads this
      requires obj in values
      ensures r.Some? <==> TypeGet(obj) == TObject
      ensures r.Some? ==>
        |r.value| == ObjectCount(obj)
        && forall i :: 0 <= i < |r.value| ==> r.value[i] == values[obj].payload.items[i]
    {
      if values[obj].payload.ObjectVal? then Some(values[obj].payload.items) else None
    }

    function ArrayIterator(arr: Handle): (r: Option<seq<Handle>>)
      reads this
      requires arr in values
      ensures r.Some? <==> TypeGet(arr) == TArray
      ensures r.Some? ==>
        |r.value| == ArrayCount(arr)
        && forall i :: 0 <= i < |r.value| ==> r.value[i] == values[arr].payload.items[i]
    {
      if values[arr].payload.ArrayVal? then Some(values[arr].payload.items) else None
    }

    /** `eina_json_array_append`. */
    method ArrayAppend(arr: Handle, v: Handle) returns (r: Handle)
      requires Valid() && arr in values && v in values
      modifies this
      ensures Valid() && (Snapshot(), r) == ArrayAppendOn(old(Snapshot()), arr, v)
      ensures r != Nil ==> ArrayCount(arr) == old(ArrayCount(arr)) + 1
    {
      if !values[arr].payload.ArrayVal? || values[v].payload.PairVal? {
        return Nil;
      }
      if values[v].parent != Nil {
        return Nil;
      }
      var items := values[arr].payload.items;
      values := values[arr := values[arr].(payload := ArrayVal(items + [v]))];
      values := values[v := values[v].(parent := arr)];
      r := v;
    }

    /** `_eina_json_gen_insert`: an index with no node at it is refused unless
        it is 0, so inserting at the end works only on an empty list; an
        owned value is refused too, and then nothing changes;
        otherwise the value takes position `idx` and the container becomes
        its parent. */
    method GenInsert(obj: Handle, idx: nat, v: Handle) returns (r: Handle)
      requires Valid() && obj in values && v in values
      requires values[obj].payload.ObjectVal? || values[obj].payload.ArrayVal?
      modifies this
      ensures Valid() && next == old(next)
      ensures r != Nil <==>
        (idx < |old(values)[obj].payload.items| || idx == 0) && old(values)[v].parent == Nil
      ensures r == Nil ==> values == old(values)
      ensures r != Nil ==>
        var vs := old(values)[obj := WithChildren(old(values)[obj], Inserted(old(values)[obj].payload.items, idx, v))];
        r == v && values == vs[v := vs[v].(parent := obj)]
    {
      var items := values[obj].payload.items;
      assert Nil !in items by {
        assert items == values[obj].payload.Children();
      }
      var o := NthGet(items, idx);
      if idx < |items| {
        assert items[idx] in items;
      }
      if o == Nil && idx != 0 {
        return Nil;
      }
      if values[v].parent != Nil {
        return Nil;
      }
      assert v != Nil;
      var ins := Inserted(items, idx, v);
      values := values[obj := WithChildren(values[obj], ins)];
      values := values[v := values[v].(parent := obj)];
      assert values[obj].payload.Children() == ins;
      r := v;
    }

    /** `_eina_json_gen_nth_remove`: false for an index past the end;
        otherwise the node leaves the list, is released and freed with its
        subtree. */
    method GenNthRemove(obj: Handle, idx: nat) returns (ok: bool)
      requires Valid() && obj in values
      requires values[obj].payload.ObjectVal? || values[obj].payload.ArrayVal?
      modifies this
      ensures Valid() && next == old(next)
      ensures ok <==> idx < |old(values)[obj].payload.items|
      ensures !ok ==> values == old(values)
      ensures ok ==> NthRemoved(old(values), obj, idx, values)
    {
      var items := values[obj].payload.items;
      var o := NthGet(items, idx);
      if o == Nil {
        return false;
      }
      ghost var v0 := values;
      values := values[obj := WithChildren(values[obj], Removed(items, idx))];
      ghost var v1 := values;
      if o in values {
        values := values[o := values[o].(parent := Nil)];
        ghost var v2 := values;
        Free(o);
        ReparentSameOwned(v1, o, Nil);
        SubtreeOfSameOwned(v2, v1, o, v2.Keys - values.Keys);
      }
      NthRemovedIntro(v0, obj, idx, v1, values);
      ok := true;
    }

    /** `eina_json_object_nth_remove`: `GenNthRemove` on an object; the
        object, unless it lay in the freed subtree, keeps the rest of its
        list in order. */
    method ObjectNthRemove(obj: Handle, idx: nat) returns (ok: bool)
      requires Valid() && obj in values
      modifies this
      ensures Valid() && next == old(next)
      ensures ok <==> old(values)[obj].payload.ObjectVal? && idx < old(ObjectCount(obj))
      ensures !ok ==> values == old(values)
      ensures ok ==> NthRemoved(old(values), obj, idx, values)
      ensures ok && obj in values ==>
        values[obj].payload == ObjectVal(Removed(old(values)[obj].payload.items, idx))
        && ObjectCount(obj) == old(ObjectCount(obj)) - 1
    {
      if !values[obj].payload.ObjectVal? {
        return false;
      }
      ok := GenNthRemove(obj, idx);
    }

    /** `eina_json_array_nth_remove`: `GenNthRemove` on an array. */
    method ArrayNthRemove(arr: Handle, idx: nat) returns (ok: bool)
      requires Valid() && arr in values
      modifies this
      ensures Valid() && next == old(next)
      ensures ok <==> old(values)[arr].payload.ArrayVal? && idx < old(ArrayCount(arr))
      ensures !ok ==> values == old(values)
      ensures ok ==> NthRemoved(old(values), arr, idx, values)
      ensures ok && arr in values ==>
        values[arr].payload == ArrayVal(Removed(old(values)[arr].payload.items, idx))
        && ArrayCount(arr) == old(ArrayCount(arr)) - 1
    {
      if !values[arr].payload.ArrayVal? {
        return false;
      }
      ok := GenNthRemove(arr, idx);
    }

    /** `eina_json_array_insert`. */
    method ArrayInsert(arr: Handle, idx: nat, v: Handle) returns (r: Handle)
      requires Valid() && arr in values && v in values
      modifies this
      ensures Valid() && next == old(next)
      ensures r != Nil <==>
        old(values)[arr].payload.ArrayVal? && !old(values)[v].payload.PairVal?
        && (idx < old(ArrayCount(arr)) || idx == 0) && old(values)[v].parent == Nil
      ensures r == Nil ==> values == old(values)
      ensures r != Nil ==>
        var vs := old(values)[arr := WithChildren(old(values)[arr], Inserted(old(values)[arr].payload.items, idx, v))];
        r == v && values == vs[v := vs[v].(parent := arr)]
        && values[arr].payload == ArrayVal(Inserted(old(values)[arr].payload.items, idx, v))
    {
      if !values[arr].payload.ArrayVal? || values[v].payload.PairVal? {
        return Nil;
      }
      r := GenInsert(arr, idx, v);
    }

    /** `eina_json_object_append`: wraps the value in a new pair named `key`
        and appends the pair. The value's own parent link is not set, so
        the same value can be appended again. */
    method ObjectAppend(obj: Handle, key: string, v: Handle) returns (r: Handle)
      requires Valid() && obj in values && v in values
      modifies this
      ensures Valid()
      ensures r != Nil <==>
        old(values)[obj].payload.ObjectVal? && !old(values)[v].payload.PairVal? && old(values)[v].parent == Nil
      ensures r == Nil ==> values == old(values) && next == old(next)
      ensures r != Nil ==>
        r !in old(values) && next == old(next) + 1
        && values == old(values)[obj := WithChildren(old(values)[obj], old(values)[obj].payload.items + [r])]
                                [r := Value(PairVal(key, v), obj)]
    {
      if !values[obj].payload.ObjectVal? || values[v].payload.PairVal? {
        return Nil;
      }
      if values[v].parent != Nil {
        return Nil;
      }
      var pr := NewValue(PairVal(key, v));
      var items := values[obj].payload.items;
      values := values[obj := values[obj].(payload := ObjectVal(items + [pr]))];
      values := values[pr := values[pr].(parent := obj)];
      r := pr;
    }

    /** `eina_json_object_insert`: like append, but the pair takes position
        `idx`, and here the value's parent is set to the new pair. */
    method ObjectInsert(obj: Handle, idx: nat, key: string, v: Handle) returns (r: Handle)
      requires Valid() && obj in values && v in values
      modifies this
      ensures Valid()
      ensures r != Nil <==>
        old(values)[obj].payload.ObjectVal? && !old(values)[v].payload.PairVal?
        && (idx < old(ObjectCount(obj)) || idx == 0) && old(values)[v].parent == Nil
      ensures r == Nil ==> values == old(values) && next == old(next)
      ensures r != Nil ==>
        var v1 := old(values)[v := old(values)[v].(parent := r)];
        r !in old(values) && next == old(next) + 1
        && values == v1[obj := WithChildren(v1[obj], Inserted(old(values)[obj].payload.items, idx, r))]
                       [r := Value(PairVal(key, v), obj)]
        && values[obj].payload == ObjectVal(Inserted(old(values)[obj].payload.items, idx, r))
    {
      if !values[obj].payload.ObjectVal? || values[v].payload.PairVal? {
        return Nil;
      }
      var items := values[obj].payload.items;
      assert Nil !in items by {
        assert items == values[obj].payload.Children();
      }
      var o := NthGet(items, idx);
      if idx < |items| {
        assert items[idx] in items;
      }
      if o == Nil && idx != 0 {
        return Nil;
      }
      if values[v].parent != Nil {
        return Nil;
      }
      var pr := NewValue(PairVal(key, v));
      values := values[v := values[v].(parent := pr)];
      PairInsertMap(old(values), obj, v, pr, key, Inserted(items, idx, pr));
      r := GenInsert(obj, idx, pr);
    }

    /** `eina_json_object_value_get`: follows the key path. */
    method ObjectValueGet(obj: Handle, keys: seq<string>) returns (r: Handle)
      requires Valid() && obj in values
      ensures r == ValueAt(values, obj, keys)
    {
      if !values[obj].payload.ObjectVal? {
        return Nil;
      }
      var cur := obj;
      var k := 0;
      while k < |keys|
        invariant 0 <= k <= |keys|
        invariant Walk(values, cur, keys[k..]) == Walk(values, obj, keys)
      {
        if cur !in values || !values[cur].payload.ObjectVal? {
          return Nil;
        }
        var items := values[cur].payload.items;
        if |items| == 0 {
          // The pair slot of an empty object's union reads as NULL: the
          // result is NULL, or a NULL dereference on the next key.
          return Nil;
        }
        var found := Nil;
        var i := 0;
        while i < |items|
          invariant 0 <= i <= |items|
          invariant FindPair(values, items, keys[k]) == FindPair(values, items[i..], keys[k])
        {
          var c := items[i];
          if c in values && values[c].payload.PairVal? && values[c].payload.name == keys[k] {
            found := c;
            break;
          }
          i := i + 1;
        }
        if found == Nil {
          assert FindPair(values, items, keys[k]).None?;
          return Nil;
        }
        cur := values[found].payload.val;
        assert keys[k..][1..] == keys[k + 1..];
        k := k + 1;
      }
      r := if cur == obj then Nil else cur;
    }

    /** `eina_json_format_string_get` on a printable tree. */
    function FormatStringGet(h: Handle, format: nat): (r: Option<string>)
      reads this
      requires Tree(values, h).Some?
      ensures format > 1 <==> r.None?
      ensures format <= 1 ==> r.value == DelimPrint(Tree(values, h).value, 0, 2 * format, format == 1)
    {
      FormatString(values, h, format)
    }
  }
}
