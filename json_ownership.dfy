/** What the tree builder owns. Every node that parsing adds to the store
    lies in the subtree of the context's root, and the root has no parent;
    so freeing the root, as `eina_json_context_reset` does for a document
    that was not taken, gives the store back exactly as it was. The
    invariant is carried through the syntax callbacks, the lexer and the
    character loop. */
module JsonOwnership {
  import opened JsonTypes
  import opened JsonValue
  import opened JsonMachine
  import opened JsonDom

  /** `hp` is the arena `v0` grown by the tree builder: the old nodes are
      untouched, and the new ones are exactly the subtree of `root`, which
      has no parent. With no root nothing was added. */
  ghost predicate Grown(v0: map<Handle, Value>, hp: Heap, root: Handle)
  {
    HeapOk(hp)
    && v0.Keys <= hp.values.Keys
    && (forall k :: k in v0 ==> hp.values[k] == v0[k])
    && (root == Nil ==> hp.values.Keys == v0.Keys)
    && (root != Nil ==>
          root in hp.values && root !in v0 && hp.values[root].parent == Nil
          && Subtree(hp.values, root, hp.values.Keys - v0.Keys))
  }

  /** With no root the arena is the one parsing started from. */
  lemma GrownWithoutRoot(v0: map<Handle, Value>, hp: Heap)
    requires Grown(v0, hp, Nil)
    ensures hp.values == v0
  {
  }

  /** Freeing the root's subtree gives back the arena parsing started
      from. */
  lemma FreeRootRestores(v0: map<Handle, Value>, hp: Heap, root: Handle, vs: map<Handle, Value>)
    requires Grown(v0, hp, root) && root != Nil
    requires vs.Keys <= hp.values.Keys && (forall k :: k in vs ==> vs[k] == hp.values[k])
    requires Subtree(hp.values, root, hp.values.Keys - vs.Keys)
    ensures vs == v0
  {
    SubtreeUnique(hp.values, root, hp.values.Keys - vs.Keys, hp.values.Keys - v0.Keys);
    assert vs.Keys == v0.Keys;
  }

  /** Freeing whatever root there is, when the context lets go of it,
      gives back the arena parsing started from. */
  lemma DiscardRestores(v0: map<Handle, Value>, built: Heap, root: Handle, vs: map<Handle, Value>)
    requires Grown(v0, built, root)
    requires vs.Keys <= built.values.Keys && (forall k :: k in vs ==> vs[k] == built.values[k])
    requires if root != Nil && root in built.values && built.values[root].parent == Nil
             then Subtree(built.values, root, built.values.Keys - vs.Keys)
             else vs == built.values
    ensures vs == v0
  {
    if root != Nil {
      FreeRootRestores(v0, built, root, vs);
    } else {
      GrownWithoutRoot(v0, built);
    }
  }

  // ---------------------------------------------------------------------
  // One new node

  /** Where the tree builder can hang a new node of type `kind` so that it
      stays reachable: an object's list, an array's list unless the node
      is a pair, or a pair's empty value slot. */
  predicate Takes(pv: Payload, kind: JsonType)
  {
    pv.ObjectVal? || (pv.ArrayVal? && kind != TPair) || (pv.PairVal? && pv.val == Nil)
  }

  /** A payload the tree builder allocates holds no node yet. */
  predicate Empty(pl: Payload)
  {
    pl.Children() == [] && (pl.PairVal? ==> pl.val == Nil)
  }

  lemma NewPayloadEmpty(atof: string -> real, kind: JsonType, text: string)
    ensures Empty(NewPayload(atof, kind, text)) && NewPayload(atof, kind, text).Type() == kind
  {
  }

  /** Every node of `a` is still in `b` with a payload of the same type. */
  ghost predicate SameTypes(a: Heap, b: Heap)
  {
    forall k :: k in a.values ==> k in b.values && b.values[k].payload.Type() == a.values[k].payload.Type()
  }

  /** How `Link` changes the parent when the link takes: a pair's value
      becomes the node, a list gets it at the end. */
  lemma LinkTakes(a: Heap, parent: Handle, h: Handle)
    requires HeapOk(a) && parent in a.values && h in a.values && h != Nil && parent != h
    requires a.values[h].parent == Nil && Takes(a.values[parent].payload, a.values[h].payload.Type())
    ensures var b := Link(a, parent, h);
      b.values.Keys == a.values.Keys
      && (forall k :: k in a.values && k != parent && k != h ==> b.values[k] == a.values[k])
      && b.values[h].payload == a.values[h].payload
      && b.values[parent].parent == a.values[parent].parent
      && b.values[parent].payload.Type() == a.values[parent].payload.Type()
      && Owned(b.values[parent]) ==
           (if a.values[parent].payload.PairVal? then [h] else Owned(a.values[parent]) + [h])
  {
  }

  /** A new leaf hung under a node of a subtree joins that subtree. */
  lemma SubtreeAddLeaf(a: map<Handle, Value>, b: map<Handle, Value>, root: Handle, d: set<Handle>,
                       parent: Handle, h: Handle)
    requires Subtree(a, root, d) && parent in d && h !in a
    requires b.Keys == a.Keys + {h}
    requires forall k :: k in a && k != parent ==> Owned(b[k]) == Owned(a[k])
    requires h in Owned(b[parent])
    requires forall c :: c in Owned(b[parent]) ==> c in Owned(a[parent]) || c == h
    requires forall c :: c in Owned(a[parent]) && c in a ==> c in Owned(b[parent])
    requires forall c :: c in Owned(b[h]) ==> c !in b
    ensures Subtree(b, root, d + {h})
  {
    forall s | root in s && Closed(b, s)
      ensures d + {h} <= s
    {
      assert Closed(a, s) by {
        forall k, c | k in s && k in a && c in Owned(a[k]) && c in a
          ensures c in s
        {
          assert c in Owned(b[k]);
        }
      }
    }
  }

  /** The first node: the root, alone in its subtree. */
  lemma GrowRoot(v0: map<Handle, Value>, hp: Heap, pl: Payload)
    requires Grown(v0, hp, Nil) && Empty(pl)
    ensures var (b, h) := Alloc(hp, pl);
      Grown(v0, b, h) && SameTypes(hp, b) && b.values[h].payload == pl
  {
    var (b, h) := Alloc(hp, pl);
    SubtreeOfLeaf(b.values, h);
    assert b.values.Keys - v0.Keys == {h};
  }

  /** `b` is `hp` with a new node `h` holding `pl` linked under `parent`,
      seen from the arena before the allocation. */
  ghost predicate LinkedUnder(hp: Heap, parent: Handle, pl: Payload, h: Handle, b: Heap)
    requires parent in hp.values
  {
    HeapOk(b) && h != Nil && h !in hp.values && b.values.Keys == hp.values.Keys + {h}
    && (forall k :: k in hp.values && k != parent ==> b.values[k] == hp.values[k])
    && b.values[h].payload == pl
    && b.values[parent].parent == hp.values[parent].parent
    && b.values[parent].payload.Type() == hp.values[parent].payload.Type()
    && Owned(b.values[parent]) ==
         (if hp.values[parent].payload.PairVal? then [h] else Owned(hp.values[parent]) + [h])
  }

  lemma AllocLink(hp: Heap, parent: Handle, pl: Payload)
    requires HeapOk(hp) && parent in hp.values && Empty(pl) && Takes(hp.values[parent].payload, pl.Type())
    ensures var (a, h) := Alloc(hp, pl);
      LinkedUnder(hp, parent, pl, h, Link(a, parent, h))
  {
    var (a, h) := Alloc(hp, pl);
    assert a.values[parent] == hp.values[parent];
    LinkTakes(a, parent, h);
    LinkKeepsHeapOk(a, parent, h);
  }

  /** A node linked under a new node that can take it joins the root's
      subtree. */
  lemma GrowUnder(v0: map<Handle, Value>, hp: Heap, root: Handle, parent: Handle, pl: Payload, h: Handle, b: Heap)
    requires Grown(v0, hp, root) && root != Nil
    requires parent in hp.values && parent !in v0
    requires Empty(pl) && Takes(hp.values[parent].payload, pl.Type()) && LinkedUnder(hp, parent, pl, h, b)
    ensures Grown(v0, b, root) && SameTypes(hp, b) && h in b.values && h !in v0
  {
    var d := hp.values.Keys - v0.Keys;
    assert parent in d;
    if hp.values[parent].payload.PairVal? {
      assert Owned(hp.values[parent]) == [Nil] && Nil !in hp.values;
    }
    assert forall c :: c in Owned(b.values[h]) ==> c == Nil;
    assert Nil !in b.values;
    SubtreeAddLeaf(hp.values, b.values, root, d, parent, h);
    assert forall k :: k in v0 ==> k != parent && k in hp.values && b.values[k] == hp.values[k];
    GrownByOne(v0, hp, b, root, h);
  }

  lemma GrownByOne(v0: map<Handle, Value>, hp: Heap, b: Heap, root: Handle, h: Handle)
    requires Grown(v0, hp, root) && root != Nil && HeapOk(b) && h !in hp.values
    requires b.values.Keys == hp.values.Keys + {h}
    requires forall k :: k in v0 ==> b.values[k] == hp.values[k]
    requires b.values[root].parent == Nil
    requires Subtree(b.values, root, (hp.values.Keys - v0.Keys) + {h})
    ensures Grown(v0, b, root)
  {
    assert b.values.Keys - v0.Keys == (hp.values.Keys - v0.Keys) + {h};
  }

  // ---------------------------------------------------------------------
  // The context's invariant

  /** A node the tree builder holds on to: one it allocated, of the type it
      recorded, and a container or a pair. */
  ghost predicate Holds(v0: map<Handle, Value>, hp: Heap, kind: JsonType, h: Handle)
  {
    h in hp.values && h !in v0 && hp.values[h].payload.Type() == kind
    && (kind == TObject || kind == TArray || kind == TPair)
  }

  /** The saved frames are held nodes, and a saved pair sits right above
      its object. */
  ghost predicate Saved(v0: map<Handle, Value>, hp: Heap, stack: seq<Frame>)
  {
    (forall i :: 0 <= i < |stack| ==> Holds(v0, hp, stack[i].kind, stack[i].handle))
    && (forall i :: 0 <= i < |stack| && stack[i].kind == TPair ==> 0 < i && stack[i - 1].kind == TObject)
  }

  /** Inside the root: the parent and the frames are held, and a pair
      parent sits right above its object. */
  ghost predicate Within(v0: map<Handle, Value>, p: Parser)
  {
    p.jobj != Nil && Holds(v0, p.heap, p.parentType, p.parent) && Saved(v0, p.heap, p.stack)
    && (p.parentType == TPair ==> |p.stack| > 0 && p.stack[|p.stack| - 1].kind == TObject)
  }

  /** Within the root, with a pair parent's value slot still empty. */
  ghost predicate Inside(v0: map<Handle, Value>, p: Parser)
  {
    Within(v0, p) && (p.parentType == TPair ==> p.heap.values[p.parent].payload.val == Nil)
  }

  /** The parent type each grammar state relies on. */
  predicate Fits(st: SynState, kind: JsonType)
  {
    (st == NewObject || st == NextObject || st == ObjectName ==> kind == TObject)
    && (st == ObjectColon ==> kind == TPair)
    && (st == NextArray ==> kind == TArray)
  }

  /** The tree builder's invariant: what it added to the store is the
      subtree of the root; before the first token there is no root, parent
      or frame; while the document is open the context is inside the root
      in the way its grammar state needs. */
  ghost predicate Building(v0: map<Handle, Value>, p: Parser)
  {
    Grown(v0, p.heap, p.jobj)
    && (p.syn.None? || p.syn == Some(End) || p.syn == Some(SynUnexpected)
        || (p.syn == Some(Entry) && p.jobj == Nil && p.parent == Nil && p.stack == [])
        || (p.syn.value != Entry && Inside(v0, p) && Fits(p.syn.value, p.parentType)))
  }

  lemma SavedKept(v0: map<Handle, Value>, a: Heap, b: Heap, stack: seq<Frame>)
    requires Saved(v0, a, stack) && SameTypes(a, b)
    ensures Saved(v0, b, stack)
  {
    forall i | 0 <= i < |stack|
      ensures Holds(v0, b, stack[i].kind, stack[i].handle)
    {
      assert Holds(v0, a, stack[i].kind, stack[i].handle);
    }
  }

  /** Saving a held frame; a pair is saved only right above its object. */
  lemma SavedPush(v0: map<Handle, Value>, hp: Heap, stack: seq<Frame>, f: Frame)
    requires Saved(v0, hp, stack) && Holds(v0, hp, f.kind, f.handle)
    requires f.kind == TPair ==> |stack| > 0 && stack[|stack| - 1].kind == TObject
    ensures Saved(v0, hp, stack + [f])
  {
  }

  /** A context inside the root, in a grammar state its parent fits. */
  lemma BuildingOpen(v0: map<Handle, Value>, p: Parser, st: SynState)
    requires Grown(v0, p.heap, p.jobj) && Inside(v0, p) && Fits(st, p.parentType) && st != Entry
    ensures Building(v0, p.(syn := Some(st)))
  {
  }

  /** A new node under the parent of a context inside the root: the
      context keeps its place, the frames and the parent stay held, and
      the node is new, of the type asked for, with an empty value slot if
      it is a pair. */
  lemma BuildInside(v0: map<Handle, Value>, atof: string -> real, p: Parser, kind: JsonType, text: string)
    requires Grown(v0, p.heap, p.jobj) && Inside(v0, p) && (kind == TPair ==> p.parentType == TObject)
    ensures var (q, h) := DomBuild(atof, p, kind, p.parent, text);
      Grown(v0, q.heap, q.jobj) && q == p.(heap := q.heap)
      && Saved(v0, q.heap, p.stack) && Holds(v0, q.heap, p.parentType, p.parent)
      && h in q.heap.values && h !in v0 && q.heap.values[h].payload.Type() == kind
      && (kind == TPair ==> q.heap.values[h].payload == PairVal(text, Nil))
  {
    var pl := NewPayload(atof, kind, text);
    NewPayloadEmpty(atof, kind, text);
    AllocLink(p.heap, p.parent, pl);
    var (a, h) := Alloc(p.heap, pl);
    GrowUnder(v0, p.heap, p.jobj, p.parent, pl, h, Link(a, p.parent, h));
    SavedKept(v0, p.heap, Link(a, p.parent, h), p.stack);
  }

  /** Leaving a finished value: a pair parent gives way to its object, and
      the grammar expects the object's or the array's continuation. */
  lemma FinishBuilds(v0: map<Handle, Value>, p: Parser)
    requires Grown(v0, p.heap, p.jobj) && Within(v0, p)
    ensures var (q, sw) := FinishValue(p);
      Building(v0, q.(syn := sw.next)) && !sw.retrans
  {
    if p.parentType == TPair {
      var n := |p.stack|;
      assert Holds(v0, p.heap, p.stack[n - 1].kind, p.stack[n - 1].handle);
      var q := PopParent(p);
      assert q.parentType == TObject && q.stack == p.stack[..n - 1];
    }
  }

  /** A closing bracket: the root is complete, or the saved parent comes
      back and the value it was is finished. */
  lemma CloseBuilds(v0: map<Handle, Value>, p: Parser)
    requires Grown(v0, p.heap, p.jobj) && Within(v0, p)
    ensures var (q, sw) := CloseValue(p);
      Building(v0, q.(syn := sw.next)) && !sw.retrans
  {
    if |p.stack| >= 1 {
      var n := |p.stack|;
      var q := PopParent(p);
      assert Holds(v0, p.heap, p.stack[n - 1].kind, p.stack[n - 1].handle);
      assert q.stack == p.stack[..n - 1];
      if q.parentType == TPair {
        assert 0 < n - 1 && p.stack[n - 2].kind == TObject;
      }
      FinishBuilds(v0, q);
    }
  }

  /** What an opening bracket does to a context with a parent, in terms
      of the tree builder's answer. */
  lemma OpenShape(atof: string -> real, p: Parser, kind: JsonType, next: SynState)
    requires HeapOk(p.heap) && p.parent != Nil
    ensures var (q, h) := DomBuild(atof, p, kind, p.parent, p.glue);
      var (r, sw) := OpenOrFail(DomMode(atof), p, kind, next);
      r.(syn := sw.next)
        == q.(stack := p.stack + [Frame(p.parentType, p.parent)], parent := h, parentType := kind, syn := Some(next))
      && !sw.retrans
  {
  }

  /** Saving a held parent and descending into a new held container, or
      into a new pair of an object, keeps the invariant. */
  lemma DescendIntro(v0: map<Handle, Value>, q: Parser, stack: seq<Frame>, parent: Handle, parentType: JsonType,
                  h: Handle, kind: JsonType, next: SynState)
    requires Grown(v0, q.heap, q.jobj) && q.jobj != Nil
    requires Saved(v0, q.heap, stack) && Holds(v0, q.heap, parentType, parent) && Holds(v0, q.heap, kind, h)
    requires parentType == TPair ==> |stack| > 0 && stack[|stack| - 1].kind == TObject
    requires (kind == TObject && next == NewObject) || (kind == TArray && next == InValue)
             || (kind == TPair && next == ObjectColon && parentType == TObject && q.heap.values[h].payload.PairVal?
                 && q.heap.values[h].payload.val == Nil)
    ensures Building(v0, q.(stack := stack + [Frame(parentType, parent)], parent := h, parentType := kind, syn := Some(next)))
  {
    SavedPush(v0, q.heap, stack, Frame(parentType, parent));
  }

  /** A new container or pair under the parent of a context inside the
      root, with the parent saved, keeps the invariant. */
  lemma DescendBuilds(v0: map<Handle, Value>, atof: string -> real, p: Parser, kind: JsonType, next: SynState)
    requires Grown(v0, p.heap, p.jobj) && Inside(v0, p)
    requires (kind == TObject && next == NewObject) || (kind == TArray && next == InValue)
             || (kind == TPair && next == ObjectColon && p.parentType == TObject)
    ensures var (q, h) := DomBuild(atof, p, kind, p.parent, p.glue);
      Building(v0, q.(stack := p.stack + [Frame(p.parentType, p.parent)], parent := h, parentType := kind,
                      syn := Some(next)))
  {
    BuildInside(v0, atof, p, kind, p.glue);
    var (q, h) := DomBuild(atof, p, kind, p.parent, p.glue);
    DescendIntro(v0, q, p.stack, p.parent, p.parentType, h, kind, next);
  }

  /** An opening bracket: the container hangs under the parent, which is
      saved, and becomes the parent. */
  lemma OpenBuilds(v0: map<Handle, Value>, atof: string -> real, p: Parser, kind: JsonType, next: SynState)
    requires Grown(v0, p.heap, p.jobj) && Inside(v0, p)
    requires (kind == TObject && next == NewObject) || (kind == TArray && next == InValue)
    ensures var (q, sw) := OpenOrFail(DomMode(atof), p, kind, next);
      Building(v0, q.(syn := sw.next)) && !sw.retrans
  {
    DescendBuilds(v0, atof, p, kind, next);
    OpenShape(atof, p, kind, next);
  }

  /** A scalar hangs under the parent, and the value is finished. */
  lemma ScalarBuilds(v0: map<Handle, Value>, atof: string -> real, p: Parser, kind: JsonType)
    requires Grown(v0, p.heap, p.jobj) && Inside(v0, p) && kind != TPair
    ensures var (q, sw) := Scalar(DomMode(atof), p, kind);
      Building(v0, q.(syn := sw.next)) && !sw.retrans
  {
    BuildInside(v0, atof, p, kind, p.glue);
    var (q, h) := DomBuild(atof, p, kind, p.parent, p.glue);
    assert Within(v0, q);
    FinishBuilds(v0, q);
  }

  /** What a key does to a context with a parent, in terms of the tree
      builder's answer. */
  lemma NameShape(atof: string -> real, p: Parser)
    requires HeapOk(p.heap) && p.parent != Nil
    ensures var (q, h) := DomBuild(atof, p, TPair, p.parent, p.glue);
      var (r, sw) := SynObjectName(DomMode(atof), p, TokString);
      r.(syn := sw.next)
        == q.(stack := p.stack + [Frame(p.parentType, p.parent)], parent := h, parentType := TPair, syn := Some(ObjectColon))
  {
    var q := p.(stack := p.stack + [Frame(p.parentType, p.parent)], parentType := TPair);
    var (r0, h) := DomBuild(atof, p, TPair, p.parent, p.glue);
    assert DomBuild(atof, q, TPair, p.parent, p.glue) == (q.(heap := r0.heap), h);
  }

  /** A key: the object is saved, and the new pair, hung in the object's
      list with an empty value slot, becomes the parent. */
  lemma KeyBuilds(v0: map<Handle, Value>, atof: string -> real, p: Parser)
    requires Grown(v0, p.heap, p.jobj) && Inside(v0, p) && p.parentType == TObject
    ensures var (q, sw) := SynObjectName(DomMode(atof), p, TokString);
      Building(v0, q.(syn := sw.next))
  {
    DescendBuilds(v0, atof, p, TPair, ObjectColon);
    NameShape(atof, p);
  }

  /** Anything but a key stops the grammar. */
  lemma NameBuilds(v0: map<Handle, Value>, atof: string -> real, p: Parser, tok: Token)
    requires Grown(v0, p.heap, p.jobj) && Inside(v0, p) && p.parentType == TObject
    ensures var (q, sw) := SynObjectName(DomMode(atof), p, tok);
      Building(v0, q.(syn := sw.next))
  {
    if tok == TokString {
      KeyBuilds(v0, atof, p);
    }
  }

  lemma ValueBuilds(v0: map<Handle, Value>, atof: string -> real, p: Parser, tok: Token)
    requires Grown(v0, p.heap, p.jobj) && Inside(v0, p)
    ensures var (q, sw) := SynValue(DomMode(atof), p, tok);
      Building(v0, q.(syn := sw.next))
  {
    match tok
    case ObjClose => CloseBuilds(v0, p);
    case ArrClose => CloseBuilds(v0, p);
    case ObjOpen => OpenBuilds(v0, atof, p, TObject, NewObject);
    case ArrOpen => OpenBuilds(v0, atof, p, TArray, InValue);
    case TokNumber => ScalarBuilds(v0, atof, p, TNumber);
    case TokString => ScalarBuilds(v0, atof, p, TString);
    case TokTrue => ScalarBuilds(v0, atof, p, TBoolean);
    case TokFalse => ScalarBuilds(v0, atof, p, TBoolean);
    case TokNull => ScalarBuilds(v0, atof, p, TNull);
    case Comma =>
    case Colon =>
  }

  /** The token-only callbacks move between states the parent fits. */
  lemma SimpleBuilds(v0: map<Handle, Value>, p: Parser, tok: Token)
    requires Building(v0, p) && p.syn.Some? && IsSimple(p.syn.value) && p.syn.value != Entry
    ensures Building(v0, p.(syn := SynSimple(p.syn.value, tok).next))
  {
    var next := SynSimple(p.syn.value, tok).next;
    if next.Some? {
      assert Fits(next.value, p.parentType) && next.value != Entry;
      BuildingOpen(v0, p, next.value);
    }
  }

  /** Each syntax callback past the entry state keeps the invariant. */
  lemma CallbackBuilds(v0: map<Handle, Value>, atof: string -> real, p: Parser, tok: Token)
    requires Building(v0, p) && p.syn.Some? && p.syn.value != Entry
    ensures var (q, sw) := SynCallback(DomMode(atof), p, p.syn.value, tok);
      Building(v0, q.(syn := sw.next))
  {
    var st := p.syn.value;
    if st == InValue {
      ValueBuilds(v0, atof, p, tok);
    } else if st == ObjectName {
      NameBuilds(v0, atof, p, tok);
    } else if IsSimple(st) {
      SimpleBuilds(v0, p, tok);
    }
  }

  /** What an opening bracket does to a context with no parent, in terms
      of the tree builder's answer. */
  lemma RootShape(atof: string -> real, p: Parser, tok: Token, kind: JsonType, next: SynState)
    requires HeapOk(p.heap) && p.parent == Nil && p.syn == Some(InValue)
    requires (tok == ObjOpen && kind == TObject && next == NewObject) || (tok == ArrOpen && kind == TArray && next == InValue)
    ensures var (q, h) := DomBuild(atof, p, kind, Nil, p.glue);
      SyntaxRun(DomMode(atof), p, tok) == q.(parent := h, parentType := kind, syn := Some(next))
  {
  }

  /** A new root, alone in its subtree, that becomes the parent. */
  lemma RootIntro(v0: map<Handle, Value>, q: Parser, h: Handle, kind: JsonType, next: SynState)
    requires Grown(v0, q.heap, h) && h != Nil && q.jobj == h && q.stack == []
    requires q.heap.values[h].payload.Type() == kind
    requires (kind == TObject && next == NewObject) || (kind == TArray && next == InValue)
    ensures Building(v0, q.(parent := h, parentType := kind, syn := Some(next)))
  {
  }

  /** The document's first token: an opening bracket creates the root,
      alone in its subtree; anything else stops the grammar. */
  lemma EntryBuilds(v0: map<Handle, Value>, atof: string -> real, p: Parser, tok: Token)
    requires Building(v0, p) && p.syn == Some(Entry)
    ensures Building(v0, SyntaxRun(DomMode(atof), p, tok))
  {
    var p1 := p.(syn := Some(InValue));
    if tok == ObjOpen || tok == ArrOpen {
      assert SyntaxRun(DomMode(atof), p, tok) == SyntaxRun(DomMode(atof), p1, tok);
      var kind := if tok == ObjOpen then TObject else TArray;
      var next := if tok == ObjOpen then NewObject else InValue;
      var pl := NewPayload(atof, kind, p.glue);
      NewPayloadEmpty(atof, kind, p.glue);
      GrowRoot(v0, p.heap, pl);
      RootShape(atof, p1, tok, kind, next);
      var (q, h) := DomBuild(atof, p1, kind, Nil, p.glue);
      RootIntro(v0, q, h, kind, next);
    } else {
      assert SyntaxRun(DomMode(atof), p, tok) == SyntaxRun(DomMode(atof), p.(syn := Some(SynUnexpected)), tok);
    }
  }

  lemma {:induction false} SyntaxRunBuilds(v0: map<Handle, Value>, atof: string -> real, p: Parser, tok: Token)
    requires Building(v0, p)
    ensures Building(v0, SyntaxRun(DomMode(atof), p, tok))
    decreases SynMeasure(p.syn)
  {
    if p.syn == Some(Entry) {
      EntryBuilds(v0, atof, p, tok);
    } else if p.syn.Some? {
      var (q, sw) := SynCallback(DomMode(atof), p, p.syn.value, tok);
      CallbackBuilds(v0, atof, p, tok);
      if sw.retrans && sw.next.Some? {
        SyntaxRunBuilds(v0, atof, q.(syn := sw.next), tok);
      }
    }
  }

  /** The lexer's side of the context plays no part in the invariant. */
  lemma BuildingKept(v0: map<Handle, Value>, p: Parser, q: Parser)
    requires Building(v0, p)
    requires q.syn == p.syn && q.heap == p.heap && q.jobj == p.jobj
    requires q.parent == p.parent && q.parentType == p.parentType && q.stack == p.stack
    ensures Building(v0, q)
  {
  }

  lemma {:induction false} LexRunBuilds(v0: map<Handle, Value>, atof: string -> real, p: Parser, c: char)
    requires Building(v0, p)
    ensures Building(v0, LexRun(DomMode(atof), p, c))
    decreases LexMeasure(p.lex)
  {
    if p.lex.Some? {
      var e := LexTransition(p.lex.value, c, p.glueOn, |p.glue|);
      var pre := LexPrelude(p, e);
      BuildingKept(v0, p, pre);
      var t := EmitToken(DomMode(atof), pre, e.emit);
      if e.emit.Some? {
        SyntaxRunBuilds(v0, atof, pre, e.emit.value);
      }
      var a := ApplyLex(DomMode(atof), p, e);
      BuildingKept(v0, t, a);
      var q := a.(lex := e.sw.next);
      BuildingKept(v0, a, q);
      if e.sw.retrans && e.sw.next.Some? {
        LexRunBuilds(v0, atof, q, c);
      }
    }
  }

  /** The character loop keeps the invariant. */
  lemma {:induction false} FeedBuilds(v0: map<Handle, Value>, atof: string -> real, p: Parser, s: string)
    requires Building(v0, p)
    ensures Building(v0, Feed(DomMode(atof), p, s).0)
    decreases |s|
  {
    if p.error == NoError && |s| > 0 {
      LexRunBuilds(v0, atof, p, s[0]);
      var q := LexRun(DomMode(atof), p, s[0]);
      var q2 := if q.glueOn then AppendGlue(q, s[0]) else q;
      BuildingKept(v0, q, q2);
      BuildingKept(v0, q2, Step(DomMode(atof), p, s[0]));
      FeedBuilds(v0, atof, Step(DomMode(atof), p, s[0]), s[1..]);
    }
  }

  /** Whatever text a fresh tree-building context reads, the nodes it added
      to the store are exactly the subtree of its root, the root has no
      parent, and the nodes that were there are untouched; with no root,
      the store is as it was. */
  lemma ParseGrows(hp: Heap, atof: string -> real, s: string)
    requires HeapOk(hp)
    ensures var p := Feed(DomMode(atof), Fresh(hp, []), s).0;
      Grown(hp.values, p.heap, p.jobj) && (p.jobj == Nil ==> p.heap.values == hp.values)
  {
    assert Building(hp.values, Fresh(hp, []));
    FeedBuilds(hp.values, atof, Fresh(hp, []), s);
  }
}
