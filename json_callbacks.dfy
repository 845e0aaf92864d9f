/** The protocol between the syntax machine and the parser callback:
    which tokens produce a call, with what kind, parent and text, and
    what a NULL answer does. Stated for a user callback (SAX mode), whose
    calls the context records in order. */
module JsonCallbacks {
  import opened JsonTypes
  import opened JsonValue
  import opened JsonMachine
  import opened JsonProperties

  /** A call the token may produce from context `p`: its parent is the
      current parent, its text the current glue, and its kind the value
      the token stands for, or a pair for a string in a key position. */
  predicate Announces(c: Call, p: Parser, tok: Token)
  {
    IsValueToken(tok) && c.parent == p.parent && c.text == p.glue
    && (c.kind == TokenKind(tok) || (tok == TokString && c.kind == TPair))
  }

  /** The calls of `q` are those of `p`, plus at most one that `tok`
      announces from `p`. */
  predicate AtMostOneCall(p: Parser, q: Parser, tok: Token)
  {
    q.calls == p.calls
    || (|q.calls| == |p.calls| + 1 && q.calls[..|p.calls|] == p.calls
        && Announces(q.calls[|p.calls|], p, tok))
  }

  /** One callback makes at most one call; and after making one it only
      goes on to the unexpected state. */
  lemma CallbackCalls(m: Mode, p: Parser, st: SynState, tok: Token)
    ensures AtMostOneCall(p, SynCallback(m, p, st, tok).0, tok)
    ensures var (q, sw) := SynCallback(m, p, st, tok);
      sw.retrans && sw.next.Some? && sw.next != Some(SynUnexpected) ==> q == p
  {
    match st
    case InValue => ValueCalls(m, p, tok);
    case ObjectName =>
      var (q, sw) := SynObjectName(m, p, tok);
      if q.calls != p.calls {
        assert q.calls[..|p.calls|] == p.calls;
      }
    case _ =>
  }

  lemma ValueCalls(m: Mode, p: Parser, tok: Token)
    ensures AtMostOneCall(p, SynValue(m, p, tok).0, tok)
  {
    match tok
    case ObjOpen => OpenCalls(m, p, TObject, NewObject, tok);
    case ArrOpen => OpenCalls(m, p, TArray, InValue, tok);
    case TokNumber => ScalarCalls(m, p, TNumber, tok);
    case TokString => ScalarCalls(m, p, TString, tok);
    case TokTrue => ScalarCalls(m, p, TBoolean, tok);
    case TokFalse => ScalarCalls(m, p, TBoolean, tok);
    case TokNull => ScalarCalls(m, p, TNull, tok);
    case _ =>
  }

  lemma OpenCalls(m: Mode, p: Parser, kind: JsonType, next: SynState, tok: Token)
    requires IsValueToken(tok) && kind == TokenKind(tok)
    ensures AtMostOneCall(p, OpenOrFail(m, p, kind, next).0, tok)
  {
    CallbackCall(m, p, kind, p.parent, p.glue, tok);
  }

  lemma ScalarCalls(m: Mode, p: Parser, kind: JsonType, tok: Token)
    requires IsValueToken(tok) && kind == TokenKind(tok)
    ensures AtMostOneCall(p, Scalar(m, p, kind).0, tok)
  {
    CallbackCall(m, p, kind, p.parent, p.glue, tok);
  }

  /** The parser callback for the value a token stands for is a call that
      token announces. */
  lemma CallbackCall(m: Mode, p: Parser, kind: JsonType, parent: Handle, text: string, tok: Token)
    requires IsValueToken(tok) && kind == TokenKind(tok) && parent == p.parent && text == p.glue
    ensures AtMostOneCall(p, Callback(m, p, kind, parent, text).0, tok)
  {
    var q := Callback(m, p, kind, parent, text).0;
    if q.calls != p.calls {
      assert q.calls[..|p.calls|] == p.calls;
    }
  }

  lemma UnexpectedNoCall(m: Mode, p: Parser, tok: Token)
    requires p.syn == Some(SynUnexpected)
    ensures SyntaxRun(m, p, tok).calls == p.calls
  {
  }

  /** Each token reaching the grammar causes at most one callback, with
      the current parent and glue; closing brackets and separators cause
      none. */
  lemma {:induction false} OneCallPerToken(m: Mode, p: Parser, tok: Token)
    ensures AtMostOneCall(p, SyntaxRun(m, p, tok), tok)
    ensures !IsValueToken(tok) ==> SyntaxRun(m, p, tok).calls == p.calls
    decreases SynMeasure(p.syn)
  {
    if p.syn.Some? {
      var (q, sw) := SynCallback(m, p, p.syn.value, tok);
      CallbackCalls(m, p, p.syn.value, tok);
      if sw.retrans && sw.next.Some? {
        var q2 := q.(syn := sw.next);
        if sw.next == Some(SynUnexpected) {
          UnexpectedNoCall(m, q2, tok);
        } else {
          OneCallPerToken(m, q2, tok);
        }
      }
    }
  }

  /** A value token in a value position makes exactly one call, with the
      token's kind, the current parent and the glue. */
  lemma ValueTokenCalls(m: Mode, p: Parser, tok: Token)
    requires m.SaxMode? && p.syn == Some(InValue) && IsValueToken(tok)
    ensures SyntaxRun(m, p, tok).calls == p.calls + [Call(TokenKind(tok), p.parent, p.glue)]
  {
    var (q, sw) := SynCallback(m, p, InValue, tok);
    assert q.calls == p.calls + [Call(TokenKind(tok), p.parent, p.glue)];
    if sw.retrans && sw.next.Some? {
      UnexpectedNoCall(m, q.(syn := sw.next), tok);
    }
  }

  /** The document's first token, `{` or `[`, makes exactly one call for
      the root container. */
  lemma RootOpenCalls(m: Mode, p: Parser, tok: Token)
    requires m.SaxMode? && p.syn == Some(Entry) && (tok == ObjOpen || tok == ArrOpen)
    ensures SyntaxRun(m, p, tok).calls == p.calls + [Call(TokenKind(tok), p.parent, p.glue)]
  {
    assert SyntaxRun(m, p, tok) == SyntaxRun(m, p.(syn := Some(InValue)), tok);
    ValueTokenCalls(m, p.(syn := Some(InValue)), tok);
  }

  /** A string in a key position makes exactly one call: a pair whose text
      is the key. */
  lemma KeyCalls(m: Mode, p: Parser)
    requires m.SaxMode? && (p.syn == Some(ObjectName) || p.syn == Some(NewObject))
    ensures SyntaxRun(m, p, TokString).calls == p.calls + [Call(TPair, p.parent, p.glue)]
  {
    var p1 := p.(syn := Some(ObjectName));
    assert SyntaxRun(m, p, TokString) == SyntaxRun(m, p1, TokString);
    var (q, sw) := SynCallback(m, p1, ObjectName, TokString);
    if sw.retrans && sw.next.Some? {
      UnexpectedNoCall(m, q.(syn := sw.next), TokString);
    }
  }

  /** A NULL answer to a value's call stops the grammar with a syntax
      error (unless an error was already set); a non-NULL answer keeps it
      going with the error untouched. */
  lemma NullAnswerFails(m: Mode, p: Parser, tok: Token)
    requires m.SaxMode? && p.syn == Some(InValue) && IsValueToken(tok)
    ensures var q := SyntaxRun(m, p, tok);
      var h := m.handler(p.calls + [Call(TokenKind(tok), p.parent, p.glue)]);
      (h == Nil ==> q.syn.None? && q.error == RaiseSyntax(p).error)
      && (h != Nil ==> q.syn.Some? && q.error == p.error)
  {
  }

  /** The same for a key: a NULL answer for the pair is a syntax error. */
  lemma NullPairFails(m: Mode, p: Parser)
    requires m.SaxMode? && p.syn == Some(ObjectName)
    ensures var q := SyntaxRun(m, p, TokString);
      var h := m.handler(p.calls + [Call(TPair, p.parent, p.glue)]);
      (h == Nil ==> q.syn.None? && q.error == RaiseSyntax(p).error)
      && (h != Nil ==> q.syn == Some(ObjectColon) && q.error == p.error && q.parent == h)
  {
  }

  // ---------------------------------------------------------------------
  // Parents are handles returned for containers and pairs

  predicate IsParentKind(k: JsonType)
  {
    k == TObject || k == TArray || k == TPair
  }

  /** `h` was returned by the user callback for one of the object, array
      or pair calls in `calls`. */
  predicate IssuedParent(m: Mode, calls: seq<Call>, h: Handle)
    requires m.SaxMode?
  {
    exists i :: 0 < i <= |calls| && IsParentKind(calls[i - 1].kind) && m.handler(calls[..i]) == h
  }

  /** Every call in the log names as parent NULL or a handle returned
      earlier for an object, array or pair. */
  predicate WellParented(m: Mode, calls: seq<Call>)
    requires m.SaxMode?
  {
    forall j :: 0 <= j < |calls| ==>
      calls[j].parent == Nil || IssuedParent(m, calls[..j], calls[j].parent)
  }

  predicate KnownHandle(m: Mode, calls: seq<Call>, h: Handle)
    requires m.SaxMode?
  {
    h == Nil || IssuedParent(m, calls, h)
  }

  /** The context's parent and every saved frame hold such handles, and
      the log so far is well parented. */
  predicate ParentsKnown(m: Mode, p: Parser)
    requires m.SaxMode?
  {
    WellParented(m, p.calls) && KnownHandle(m, p.calls, p.parent)
    && forall k :: 0 <= k < |p.stack| ==> KnownHandle(m, p.calls, p.stack[k].handle)
  }

  lemma IssuedGrows(m: Mode, calls: seq<Call>, c: Call, h: Handle)
    requires m.SaxMode? && IssuedParent(m, calls, h)
    ensures IssuedParent(m, calls + [c], h)
  {
    var i :| 0 < i <= |calls| && IsParentKind(calls[i - 1].kind) && m.handler(calls[..i]) == h;
    assert (calls + [c])[..i] == calls[..i];
    assert (calls + [c])[i - 1] == calls[i - 1];
  }

  /** Recording a call whose parent is the context's parent keeps every
      handle known and the log well parented. */
  lemma CallKeepsParents(m: Mode, p: Parser, kind: JsonType)
    requires m.SaxMode? && ParentsKnown(m, p)
    ensures var calls := p.calls + [Call(kind, p.parent, p.glue)];
      ParentsKnown(m, p.(calls := calls))
      && (IsParentKind(kind) ==> IssuedParent(m, calls, m.handler(calls)))
  {
    var c := Call(kind, p.parent, p.glue);
    var calls := p.calls + [c];
    forall j | 0 <= j < |calls|
      ensures calls[j].parent == Nil || IssuedParent(m, calls[..j], calls[j].parent)
    {
      if j < |p.calls| {
        assert calls[..j] == p.calls[..j];
      } else {
        assert calls[..j] == p.calls;
      }
    }
    if p.parent != Nil {
      IssuedGrows(m, p.calls, c, p.parent);
    }
    forall k | 0 <= k < |p.stack| && p.stack[k].handle != Nil
      ensures IssuedParent(m, calls, p.stack[k].handle)
    {
      IssuedGrows(m, p.calls, c, p.stack[k].handle);
    }
    if IsParentKind(kind) {
      assert calls[..|calls|] == calls;
    }
  }

  lemma PopKeepsParents(m: Mode, p: Parser)
    requires m.SaxMode? && ParentsKnown(m, p)
    ensures ParentsKnown(m, PopParent(p))
  {
  }

  lemma FinishKeepsParents(m: Mode, p: Parser)
    requires m.SaxMode? && ParentsKnown(m, p)
    ensures ParentsKnown(m, FinishValue(p).0)
  {
    if p.parentType == TPair {
      PopKeepsParents(m, p);
    }
  }

  lemma OpenKeepsParents(m: Mode, p: Parser, kind: JsonType, next: SynState)
    requires m.SaxMode? && ParentsKnown(m, p) && (kind == TObject || kind == TArray)
    ensures ParentsKnown(m, OpenOrFail(m, p, kind, next).0)
  {
    CallKeepsParents(m, p, kind);
    var (q, h) := Callback(m, p, kind, p.parent, p.glue);
    if h != Nil && q.parent != Nil {
      var q2 := q.(stack := q.stack + [Frame(q.parentType, q.parent)]);
      assert ParentsKnown(m, q2);
    }
  }

  lemma ValueKeepsParents(m: Mode, p: Parser, tok: Token)
    requires m.SaxMode? && ParentsKnown(m, p)
    ensures ParentsKnown(m, SynValue(m, p, tok).0)
  {
    match tok
    case ObjClose => CloseKeepsParents(m, p);
    case ArrClose => CloseKeepsParents(m, p);
    case ObjOpen => OpenKeepsParents(m, p, TObject, NewObject);
    case ArrOpen => OpenKeepsParents(m, p, TArray, InValue);
    case Comma =>
    case Colon =>
    case _ => ScalarKeepsParents(m, p, TokenKind(tok));
  }

  lemma CloseKeepsParents(m: Mode, p: Parser)
    requires m.SaxMode? && ParentsKnown(m, p)
    ensures ParentsKnown(m, CloseValue(p).0)
  {
    if |p.stack| >= 1 {
      PopKeepsParents(m, p);
      FinishKeepsParents(m, PopParent(p));
    }
  }

  lemma ScalarKeepsParents(m: Mode, p: Parser, kind: JsonType)
    requires m.SaxMode? && ParentsKnown(m, p)
    ensures ParentsKnown(m, Scalar(m, p, kind).0)
  {
    CallKeepsParents(m, p, kind);
    var (q, h) := Callback(m, p, kind, p.parent, p.glue);
    if h != Nil {
      FinishKeepsParents(m, q);
    }
  }

  lemma NameKeepsParents(m: Mode, p: Parser, tok: Token)
    requires m.SaxMode? && ParentsKnown(m, p)
    ensures ParentsKnown(m, SynObjectName(m, p, tok).0)
  {
    if tok == TokString {
      var q := p.(stack := p.stack + [Frame(p.parentType, p.parent)], parentType := TPair);
      assert ParentsKnown(m, q);
      CallKeepsParents(m, q, TPair);
    }
  }

  lemma {:induction false} SyntaxRunKeepsParents(m: Mode, p: Parser, tok: Token)
    requires m.SaxMode? && ParentsKnown(m, p)
    ensures ParentsKnown(m, SyntaxRun(m, p, tok))
    decreases SynMeasure(p.syn)
  {
    if p.syn.Some? {
      var (q, sw) := SynCallback(m, p, p.syn.value, tok);
      CallbackKeepsParents(m, p, p.syn.value, tok);
      if sw.retrans && sw.next.Some? {
        SyntaxRunKeepsParents(m, q.(syn := sw.next), tok);
      }
    }
  }

  lemma CallbackKeepsParents(m: Mode, p: Parser, st: SynState, tok: Token)
    requires m.SaxMode? && ParentsKnown(m, p)
    ensures ParentsKnown(m, SynCallback(m, p, st, tok).0)
  {
    match st
    case InValue => ValueKeepsParents(m, p, tok);
    case ObjectName => NameKeepsParents(m, p, tok);
    case _ =>
  }

  lemma {:induction false} LexRunKeepsParents(m: Mode, p: Parser, c: char)
    requires m.SaxMode? && ParentsKnown(m, p)
    ensures ParentsKnown(m, LexRun(m, p, c))
    decreases LexMeasure(p.lex)
  {
    if p.lex.Some? {
      var e := LexTransition(p.lex.value, c, p.glueOn, |p.glue|);
      ApplyLexKeepsParents(m, p, e);
      var q := ApplyLex(m, p, e).(lex := e.sw.next);
      assert ParentsKnown(m, q);
      if e.sw.retrans && e.sw.next.Some? {
        LexRunKeepsParents(m, q, c);
      }
    }
  }

  lemma ApplyLexKeepsParents(m: Mode, p: Parser, e: LexEffect)
    requires m.SaxMode? && ParentsKnown(m, p)
    ensures ParentsKnown(m, ApplyLex(m, p, e))
  {
    var pre := LexPrelude(p, e);
    assert ParentsKnown(m, pre);
    if e.emit.Some? {
      SyntaxRunKeepsParents(m, pre, e.emit.value);
    }
  }

  /** Whatever text a fresh or reset SAX context is fed, the parent of
      every call is NULL or a handle the callback returned earlier for an
      object, an array or a pair. */
  lemma {:induction false} FeedKeepsParents(m: Mode, p: Parser, s: string)
    requires m.SaxMode? && ParentsKnown(m, p)
    ensures ParentsKnown(m, Feed(m, p, s).0)
    ensures WellParented(m, Feed(m, p, s).0.calls)
    decreases |s|
  {
    if p.error == NoError && |s| > 0 {
      LexRunKeepsParents(m, p, s[0]);
      var q := LexRun(m, p, s[0]);
      assert ParentsKnown(m, Step(m, p, s[0])) by {
        assert Step(m, p, s[0]).calls == q.calls;
      }
      FeedKeepsParents(m, Step(m, p, s[0]), s[1..]);
    }
  }

  /** A fresh context starts with no parent, an empty stack and an empty
      log, so the root's call has a NULL parent. */
  lemma FreshParentsKnown(m: Mode, heap: Heap)
    requires m.SaxMode?
    ensures ParentsKnown(m, Fresh(heap, []))
    ensures Fresh(heap, []).parent == Nil
  {
  }
}
