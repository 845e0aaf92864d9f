/** The tree builder (`_eina_json_parser_dom_cb`) as a client of the
    syntax machine: how it links nodes, that it always has a root once a
    document has started, how `dom_tree_take` hands that root over, and
    what trees the unchecked closing brackets produce. */
module JsonDom {
  import opened JsonTypes
  import opened JsonValue
  import opened JsonMachine
  import opened JsonProperties
  import opened JsonCompletion

  /** Attaching a node keeps the arena well formed. */
  lemma LinkKeepsHeapOk(hp: Heap, parent: Handle, h: Handle)
    requires HeapOk(hp)
    ensures HeapOk(Link(hp, parent, h))
  {
    if parent in hp.values && h in hp.values && h != Nil {
      var r := Link(hp, parent, h);
      assert r.next == hp.next && r.values.Keys == hp.values.Keys;
      forall x | x in r.values
        ensures Nil !in r.values[x].payload.Children()
      {
        if x == parent {
          assert r.values[x].payload.Children() == hp.values[x].payload.Children()
            || r.values[x].payload.Children() == hp.values[x].payload.Children() + [h];
        } else {
          assert r.values[x].payload == hp.values[x].payload;
        }
      }
    }
  }

  lemma DomBuildKeepsHeapOk(atof: string -> real, p: Parser, kind: JsonType, parent: Handle, text: string)
    requires HeapOk(p.heap)
    ensures HeapOk(DomBuild(atof, p, kind, parent, text).0.heap)
  {
    var (hp, h) := Alloc(p.heap, NewPayload(atof, kind, text));
    if parent != Nil {
      LinkKeepsHeapOk(hp, parent, h);
    }
  }

  /** How the tree builder links a new node: an array parent takes it
      through `eina_json_array_append`, which sets its parent (and refuses
      a pair); a pair takes it as its value and an object appends it to its
      list, both leaving the node without a parent; with no parent the node
      becomes the root. */
  lemma DomParentLinks(atof: string -> real, p: Parser, kind: JsonType, parent: Handle, text: string)
    requires HeapOk(p.heap) && (parent == Nil || parent in p.heap.values)
    ensures var (q, h) := DomBuild(atof, p, kind, parent, text);
      h in q.heap.values && q.heap.values[h].payload == NewPayload(atof, kind, text)
      && (parent == Nil ==> q.jobj == h && q.heap.values[h].parent == Nil)
      && (parent != Nil ==>
            var pv := p.heap.values[parent].payload;
            parent in q.heap.values
            && (pv.ArrayVal? && kind != TPair ==>
                  q.heap.values[h].parent == parent
                  && q.heap.values[parent].payload == ArrayVal(pv.items + [h]))
            && (pv.ArrayVal? && kind == TPair ==>
                  q.heap.values[h].parent == Nil && q.heap.values[parent].payload == pv)
            && (pv.PairVal? ==>
                  q.heap.values[h].parent == Nil
                  && q.heap.values[parent].payload == PairVal(pv.name, h))
            && (pv.ObjectVal? ==>
                  q.heap.values[h].parent == Nil
                  && q.heap.values[parent].payload == ObjectVal(pv.items + [h])))
  {
    var (hp, h) := Alloc(p.heap, NewPayload(atof, kind, text));
    assert hp.values == p.heap.values[h := Value(NewPayload(atof, kind, text), Nil)];
    if parent != Nil {
      assert parent != h && hp.values[parent] == p.heap.values[parent];
    }
  }

  // ---------------------------------------------------------------------
  // The root

  /** The tree builder's invariant: the arena is well formed, and once the
      grammar has left its entry state a root has been set. */
  ghost predicate RootSet(p: Parser)
  {
    HeapOk(p.heap)
    && ((p.syn == Some(Entry) && p.parent == Nil) || p.syn.None? || p.jobj != Nil)
  }

  lemma CallbackKeepsRoot(atof: string -> real, p: Parser, kind: JsonType, parent: Handle, text: string)
    requires HeapOk(p.heap) && (p.jobj != Nil || parent == Nil)
    ensures var (q, h) := DomBuild(atof, p, kind, parent, text);
      HeapOk(q.heap) && h != Nil && q.jobj != Nil
  {
    DomBuildKeepsHeapOk(atof, p, kind, parent, text);
  }

  lemma ValueKeepsRoot(atof: string -> real, p: Parser, tok: Token)
    requires HeapOk(p.heap) && p.jobj != Nil
    ensures var q := SynValue(DomMode(atof), p, tok).0;
      HeapOk(q.heap) && q.jobj != Nil
  {
    match tok
    case ObjOpen => CallbackKeepsRoot(atof, p, TObject, p.parent, p.glue);
    case ArrOpen => CallbackKeepsRoot(atof, p, TArray, p.parent, p.glue);
    case TokNumber => CallbackKeepsRoot(atof, p, TNumber, p.parent, p.glue);
    case TokString => CallbackKeepsRoot(atof, p, TString, p.parent, p.glue);
    case TokTrue => CallbackKeepsRoot(atof, p, TBoolean, p.parent, p.glue);
    case TokFalse => CallbackKeepsRoot(atof, p, TBoolean, p.parent, p.glue);
    case TokNull => CallbackKeepsRoot(atof, p, TNull, p.parent, p.glue);
    case _ =>
  }

  lemma CallbackKeepsRootSet(atof: string -> real, p: Parser, st: SynState, tok: Token)
    requires HeapOk(p.heap) && p.jobj != Nil
    ensures var q := SynCallback(DomMode(atof), p, st, tok).0;
      HeapOk(q.heap) && q.jobj != Nil
  {
    if st == InValue {
      ValueKeepsRoot(atof, p, tok);
    } else if st == ObjectName && tok == TokString {
      var q := p.(stack := p.stack + [Frame(p.parentType, p.parent)], parentType := TPair);
      CallbackKeepsRoot(atof, q, TPair, p.parent, p.glue);
    }
  }

  /** The document's first token: an opening bracket creates the root. */
  lemma EntryKeepsRoot(atof: string -> real, p: Parser, tok: Token)
    requires HeapOk(p.heap) && p.syn == Some(Entry) && p.parent == Nil
    ensures RootSet(SyntaxRun(DomMode(atof), p, tok))
  {
    if tok == ObjOpen || tok == ArrOpen {
      var p1 := p.(syn := Some(InValue));
      assert SyntaxRun(DomMode(atof), p, tok) == SyntaxRun(DomMode(atof), p1, tok);
      var kind := if tok == ObjOpen then TObject else TArray;
      CallbackKeepsRoot(atof, p1, kind, Nil, p.glue);
      var (q, sw) := SynCallback(DomMode(atof), p1, InValue, tok);
      assert !sw.retrans && HeapOk(q.heap) && q.jobj != Nil;
    } else {
      assert SyntaxRun(DomMode(atof), p, tok).syn.None?;
    }
  }

  lemma {:induction false} SyntaxRunKeepsRoot(atof: string -> real, p: Parser, tok: Token)
    requires RootSet(p)
    ensures RootSet(SyntaxRun(DomMode(atof), p, tok))
    decreases SynMeasure(p.syn)
  {
    if p.syn == Some(Entry) && p.parent == Nil {
      EntryKeepsRoot(atof, p, tok);
    } else if p.syn.Some? {
      var (q, sw) := SynCallback(DomMode(atof), p, p.syn.value, tok);
      CallbackKeepsRootSet(atof, p, p.syn.value, tok);
      if sw.retrans && sw.next.Some? {
        SyntaxRunKeepsRoot(atof, q.(syn := sw.next), tok);
      }
    }
  }

  lemma {:induction false} LexRunKeepsRoot(atof: string -> real, p: Parser, c: char)
    requires RootSet(p)
    ensures RootSet(LexRun(DomMode(atof), p, c))
    decreases LexMeasure(p.lex)
  {
    if p.lex.Some? {
      var e := LexTransition(p.lex.value, c, p.glueOn, |p.glue|);
      var pre := LexPrelude(p, e);
      if e.emit.Some? {
        SyntaxRunKeepsRoot(atof, pre, e.emit.value);
      }
      var q := ApplyLex(DomMode(atof), p, e).(lex := e.sw.next);
      if e.sw.retrans && e.sw.next.Some? {
        LexRunKeepsRoot(atof, q, c);
      }
    }
  }

  lemma {:induction false} FeedKeepsRoot(atof: string -> real, p: Parser, s: string)
    requires RootSet(p)
    ensures RootSet(Feed(DomMode(atof), p, s).0)
    decreases |s|
  {
    if p.error == NoError && |s| > 0 {
      LexRunKeepsRoot(atof, p, s[0]);
      FeedKeepsRoot(atof, Step(DomMode(atof), p, s[0]), s[1..]);
    }
  }

  /** A fresh or reset tree-building context over a well-formed arena
      satisfies the invariant. */
  lemma ResetRootSet(p: Parser)
    requires HeapOk(p.heap)
    ensures RootSet(ResetState(p))
  {
  }

  /** `dom_tree_take`: a completed tree-building document always has a
      root to hand over; it is handed over once and the next take yields
      NULL. Before completion the take yields NULL and changes nothing. */
  lemma TakeOnce(atof: string -> real, p: Parser, s: string)
    requires RootSet(p)
    ensures var q := Feed(DomMode(atof), p, s).0;
      (Completed(q) ==> TreeTake(q).1 != Nil && TreeTake(q).1 == q.jobj)
      && (!Completed(q) ==> TreeTake(q) == (q, Nil))
      && TreeTake(TreeTake(q).0).1 == Nil
  {
    FeedKeepsRoot(atof, p, s);
  }

  // ---------------------------------------------------------------------
  // Closing brackets are not matched against the open container

  /** The root's opening bracket: the root is created and becomes the
      parent, with nothing saved on the stack. */
  lemma RootOpen(atof: string -> real, p: Parser, tok: Token)
    requires HeapOk(p.heap) && p.syn == Some(Entry) && p.stack == [] && p.parent == Nil
    requires tok == ObjOpen || tok == ArrOpen
    ensures var q := SyntaxRun(DomMode(atof), p, tok);
      q.syn == Some(if tok == ObjOpen then NewObject else InValue)
      && q.stack == [] && q.parent != Nil && q.parent in q.heap.values
      && q.parentType == (if tok == ObjOpen then TObject else TArray)
      && HeapOk(q.heap) && q.error == p.error
  {
    var p1 := p.(syn := Some(InValue));
    assert SyntaxRun(DomMode(atof), p, tok) == SyntaxRun(DomMode(atof), p1, tok);
    var kind := if tok == ObjOpen then TObject else TArray;
    DomBuildKeepsHeapOk(atof, p1, kind, Nil, p.glue);
    var (q, h) := DomBuild(atof, p1, kind, Nil, p.glue);
    assert OpenOrFail(DomMode(atof), p1, kind, if tok == ObjOpen then NewObject else InValue)
      == (q.(parent := h, parentType := kind), Switch(Some(if tok == ObjOpen then NewObject else InValue), false));
  }

  /** A scalar in an array: the item is created and the grammar expects
      a comma or the close. */
  lemma ArrayItem(atof: string -> real, p: Parser)
    requires HeapOk(p.heap) && p.syn == Some(InValue) && p.parentType == TArray
    ensures var q := SyntaxRun(DomMode(atof), p, TokNumber);
      q.syn == Some(NextArray) && q.stack == p.stack && HeapOk(q.heap) && q.error == p.error
  {
    DomBuildKeepsHeapOk(atof, p, TNumber, p.parent, p.glue);
    var (q, h) := DomBuild(atof, p, TNumber, p.parent, p.glue);
    assert h != Nil && q.parentType == TArray;
    assert SynValue(DomMode(atof), p, TokNumber) == FinishValue(q);
  }

  /** A comma after an array item, or the colon after a key, only
      moves the grammar to the value state. */
  lemma Separator(atof: string -> real, p: Parser, tok: Token)
    requires (p.syn == Some(NextArray) && tok == Comma) || (p.syn == Some(ObjectColon) && tok == Colon)
    ensures SyntaxRun(DomMode(atof), p, tok) == p.(syn := Some(InValue))
  {
    assert SynCallback(DomMode(atof), p, p.syn.value, tok) == (p, Switch(Some(InValue), false));
  }

  /** A key in a new object: the object is saved on the stack and the
      pair becomes the parent. */
  lemma ObjectKey(atof: string -> real, p: Parser)
    requires HeapOk(p.heap) && p.syn == Some(NewObject) && p.stack == [] && p.parentType == TObject
    ensures var q := SyntaxRun(DomMode(atof), p, TokString);
      q.syn == Some(ObjectColon) && q.stack == [Frame(TObject, p.parent)]
      && q.parentType == TPair && HeapOk(q.heap) && q.error == p.error
  {
    var p1 := p.(syn := Some(ObjectName));
    assert SyntaxRun(DomMode(atof), p, TokString) == SyntaxRun(DomMode(atof), p1, TokString);
    var p2 := p1.(stack := [Frame(TObject, p.parent)], parentType := TPair);
    assert p1.stack + [Frame(p1.parentType, p1.parent)] == [Frame(TObject, p.parent)];
    DomBuildKeepsHeapOk(atof, p2, TPair, p.parent, p.glue);
    var (r, h) := DomBuild(atof, p2, TPair, p.parent, p.glue);
    assert SynObjectName(DomMode(atof), p1, TokString) == (r.(parent := h), Switch(Some(ObjectColon), false));
  }

  /** A close in the value position of a pair: the pair's object comes
      back as the parent and the grammar expects a comma or the object's
      close. */
  lemma ClosePairValue(atof: string -> real, p: Parser, tok: Token)
    requires p.syn == Some(InValue) && |p.stack| == 1 && p.stack[0].kind == TObject && p.parentType == TPair
    requires tok == ObjClose || tok == ArrClose
    ensures var q := SyntaxRun(DomMode(atof), p, tok);
      q.syn == Some(NextObject) && q.stack == [] && q.error == p.error
  {
    var q := PopParent(p);
    assert q.parentType == TObject && q.stack == [];
    assert SynValue(DomMode(atof), p, tok) == FinishValue(q);
  }

  /** `[` then `}`: the root array is closed by a brace and the document
      is complete. */
  lemma MismatchedCloseCompletes(atof: string -> real, p: Parser)
    requires HeapOk(p.heap) && p.syn == Some(Entry) && p.stack == [] && p.parent == Nil
    ensures Completed(SyntaxRun(DomMode(atof), SyntaxRun(DomMode(atof), p, ArrOpen), ObjClose))
  {
    var q := SyntaxRun(DomMode(atof), p, ArrOpen);
    RootOpen(atof, p, ArrOpen);
    RootCloseCompletes(DomMode(atof), q, ObjClose);
  }

  /** `[1,]`: a trailing comma in an array is accepted and the document
      completes. */
  lemma TrailingCommaCompletes(atof: string -> real, p: Parser)
    requires HeapOk(p.heap) && p.syn == Some(Entry) && p.stack == [] && p.parent == Nil
    ensures var q1 := SyntaxRun(DomMode(atof), p, ArrOpen);
      var q2 := SyntaxRun(DomMode(atof), q1, TokNumber);
      var q3 := SyntaxRun(DomMode(atof), q2, Comma);
      Completed(SyntaxRun(DomMode(atof), q3, ArrClose))
  {
    var q1 := SyntaxRun(DomMode(atof), p, ArrOpen);
    RootOpen(atof, p, ArrOpen);
    var q2 := SyntaxRun(DomMode(atof), q1, TokNumber);
    ArrayItem(atof, q1);
    var q3 := SyntaxRun(DomMode(atof), q2, Comma);
    Separator(atof, q2, Comma);
    RootCloseCompletes(DomMode(atof), q3, ArrClose);
  }

  /** `{"a":}`: the `}` in the value position closes the pair, not the
      object, so the grammar then waits for the object's own close, and a
      second `}` completes the document. */
  lemma EmptyPairValue(atof: string -> real, p: Parser)
    requires HeapOk(p.heap) && p.syn == Some(Entry) && p.stack == [] && p.parent == Nil
    ensures var q1 := SyntaxRun(DomMode(atof), p, ObjOpen);
      var q2 := SyntaxRun(DomMode(atof), q1, TokString);
      var q3 := SyntaxRun(DomMode(atof), q2, Colon);
      var q4 := SyntaxRun(DomMode(atof), q3, ObjClose);
      q4.syn == Some(NextObject) && !Completed(q4) && q4.error == p.error
      && Completed(SyntaxRun(DomMode(atof), q4, ObjClose))
  {
    var q3 := SyntaxRun(DomMode(atof), SyntaxRun(DomMode(atof), SyntaxRun(DomMode(atof), p, ObjOpen), TokString), Colon);
    FirstKey(atof, p);
    var q4 := SyntaxRun(DomMode(atof), q3, ObjClose);
    ClosePairValue(atof, q3, ObjClose);
    RootCloseCompletes(DomMode(atof), q4, ObjClose);
  }

  /** `{"a":`: the grammar waits for the value of the root object's first
      pair. */
  lemma FirstKey(atof: string -> real, p: Parser)
    requires HeapOk(p.heap) && p.syn == Some(Entry) && p.stack == [] && p.parent == Nil
    ensures var q1 := SyntaxRun(DomMode(atof), p, ObjOpen);
      var q2 := SyntaxRun(DomMode(atof), q1, TokString);
      var q3 := SyntaxRun(DomMode(atof), q2, Colon);
      q3.syn == Some(InValue) && |q3.stack| == 1 && q3.stack[0].kind == TObject
      && q3.parentType == TPair && q3.error == p.error
  {
    var q1 := SyntaxRun(DomMode(atof), p, ObjOpen);
    RootOpen(atof, p, ObjOpen);
    var q2 := SyntaxRun(DomMode(atof), q1, TokString);
    ObjectKey(atof, q1);
    Separator(atof, q2, Colon);
  }
}
