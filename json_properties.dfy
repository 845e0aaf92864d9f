/** What the Eina JSON parser promises, proved over the pure model of its
    context: position counting, sticky errors, chunked input, the glue
    buffer, the parent stack, completion, the callback protocol and the
    text handed to the callback for each kind of lexeme. */
module JsonProperties {
  import opened JsonTypes
  import opened JsonValue
  import opened JsonMachine

  // ---------------------------------------------------------------------
  // Frames: which fields each machine touches

  /** The syntax machine never touches the lexer, the glue or the position. */
  lemma {:induction false} SyntaxRunFrame(m: Mode, p: Parser, tok: Token)
    ensures KeepsLexSide(p, SyntaxRun(m, p, tok))
    decreases SynMeasure(p.syn)
  {
    if p.syn.Some? {
      var (q, sw) := SynCallback(m, p, p.syn.value, tok);
      if sw.retrans && sw.next.Some? {
        SyntaxRunFrame(m, q.(syn := sw.next), tok);
      }
    }
  }

  /** With a user callback, parsing neither allocates values nor sets a
      root: the SAX context never has a tree to hand over. */
  lemma {:induction false} SaxSyntaxRunKeepsTree(m: Mode, p: Parser, tok: Token)
    requires m.SaxMode?
    ensures SyntaxRun(m, p, tok).heap == p.heap && SyntaxRun(m, p, tok).jobj == p.jobj
    decreases SynMeasure(p.syn)
  {
    if p.syn.Some? {
      var (q, sw) := SynCallback(m, p, p.syn.value, tok);
      SaxCallbackKeepsTree(m, p, p.syn.value, tok);
      if sw.retrans && sw.next.Some? {
        SaxSyntaxRunKeepsTree(m, q.(syn := sw.next), tok);
      }
    }
  }

  lemma SaxCallbackKeepsTree(m: Mode, p: Parser, st: SynState, tok: Token)
    requires m.SaxMode?
    ensures SynCallback(m, p, st, tok).0.heap == p.heap
    ensures SynCallback(m, p, st, tok).0.jobj == p.jobj
  {
  }

  lemma {:induction false} SaxLexRunKeepsTree(m: Mode, p: Parser, c: char)
    requires m.SaxMode?
    ensures LexRun(m, p, c).heap == p.heap && LexRun(m, p, c).jobj == p.jobj
    decreases LexMeasure(p.lex)
  {
    if p.lex.Some? {
      var e := LexTransition(p.lex.value, c, p.glueOn, |p.glue|);
      SaxApplyLexKeepsTree(m, p, e);
      var q := ApplyLex(m, p, e).(lex := e.sw.next);
      if e.sw.retrans && e.sw.next.Some? {
        SaxLexRunKeepsTree(m, q, c);
      }
    }
  }

  lemma SaxApplyLexKeepsTree(m: Mode, p: Parser, e: LexEffect)
    requires m.SaxMode?
    ensures ApplyLex(m, p, e).heap == p.heap && ApplyLex(m, p, e).jobj == p.jobj
  {
    if e.emit.Some? {
      SaxSyntaxRunKeepsTree(m, LexPrelude(p, e), e.emit.value);
    }
  }

  /** A SAX context fed any text still has no root, so taking the tree
      from it yields NULL. */
  lemma {:induction false} SaxFeedHasNoTree(m: Mode, p: Parser, s: string)
    requires m.SaxMode?
    ensures Feed(m, p, s).0.heap == p.heap && Feed(m, p, s).0.jobj == p.jobj
    ensures p.jobj == Nil ==> TreeTake(Feed(m, p, s).0).1 == Nil
    decreases |s|
  {
    if p.error == NoError && |s| > 0 {
      SaxLexRunKeepsTree(m, p, s[0]);
      SaxFeedHasNoTree(m, Step(m, p, s[0]), s[1..]);
    }
  }

  // ---------------------------------------------------------------------
  // Position tracking

  /** The lexer states in which a newline reaches the initial state: the
      initial state itself, and the number states, which end their token
      and hand the newline over. Everywhere else a newline is either part
      of a string or an error. */
  predicate CountsNewline(st: Option<LexState>, c: char)
  {
    c == '\n' && (st == Some(Initial) || st == Some(Int) || st == Some(Fraction) || st == Some(Exp))
  }

  /** Per transition: only the initial state counts a newline, and a
      newline reaches it from a counting state either directly or by
      retransmission from a number state. */
  lemma TransitionNewline(st: LexState, c: char, glueOn: bool, glueLen: nat)
    ensures var e := LexTransition(st, c, glueOn, glueLen);
      (e.newline <==> st == Initial && c == '\n')
      && !(e.newline && e.sw.retrans)
      && (CountsNewline(Some(st), c) <==> e.newline || (e.sw.retrans && CountsNewline(e.sw.next, c)))
  {
  }

  /** One callback moves the position only through its newline flag. */
  lemma ApplyLexPosition(m: Mode, p: Parser, e: LexEffect)
    ensures ApplyLex(m, p, e).line == p.line + (if e.newline then 1 else 0)
    ensures ApplyLex(m, p, e).col == (if e.newline then 0 else p.col)
  {
    if e.emit.Some? {
      SyntaxRunFrame(m, LexPrelude(p, e), e.emit.value);
    }
  }

  /** Lexing one character raises the line by one exactly for a newline
      that reaches the initial state, and then restarts the column at 0;
      otherwise line and column are untouched. */
  lemma {:induction false} NewlineCounting(m: Mode, p: Parser, c: char)
    ensures var q := LexRun(m, p, c);
      q.line == p.line + (if CountsNewline(p.lex, c) then 1 else 0)
      && q.col == (if CountsNewline(p.lex, c) then 0 else p.col)
    decreases LexMeasure(p.lex)
  {
    if p.lex.Some? {
      var e := LexTransition(p.lex.value, c, p.glueOn, |p.glue|);
      TransitionNewline(p.lex.value, c, p.glueOn, |p.glue|);
      ApplyLexPosition(m, p, e);
      var q := ApplyLex(m, p, e).(lex := e.sw.next);
      if e.sw.retrans && e.sw.next.Some? {
        NewlineCounting(m, q, c);
      }
    }
  }

  /** One iteration of the character loop: the line counts newlines read
      in the initial state (not inside strings), the column advances by
      one, and on an error the column is not advanced, so the position
      names the offending character. A newline that ends a number whose
      token is refused still moves to the next line, at column 0. */
  lemma StepPosition(m: Mode, p: Parser, c: char)
    ensures var q := Step(m, p, c);
      var nl := CountsNewline(p.lex, c);
      q.line == p.line + (if nl then 1 else 0)
      && q.col == (if nl then 0 else p.col) + (if q.error == NoError then 1 else 0)
  {
    NewlineCounting(m, p, c);
  }

  // ---------------------------------------------------------------------
  // Sticky errors and chunked input

  /** The loop's result is true exactly when no error is set at its end;
      with an error already set it changes nothing and returns false. */
  lemma {:induction false} FeedResult(m: Mode, p: Parser, s: string)
    ensures Feed(m, p, s).1 <==> Feed(m, p, s).0.error == NoError
    ensures p.error != NoError ==> Feed(m, p, s) == (p, false)
    decreases |s|
  {
    if p.error == NoError && |s| > 0 {
      FeedResult(m, Step(m, p, s[0]), s[1..]);
    }
  }

  /** Feeding a text in two consecutive pieces leaves the context exactly
      as feeding it whole, whether or not the first piece hits an error. */
  lemma {:induction false} FeedConcat(m: Mode, p: Parser, a: string, b: string)
    ensures Feed(m, p, a + b) == Feed(m, Feed(m, p, a).0, b)
    decreases |a|
  {
    if p.error != NoError {
    } else if |a| == 0 {
      assert a + b == b;
    } else {
      assert (a + b)[0] == a[0];
      assert (a + b)[1..] == a[1..] + b;
      FeedConcat(m, Step(m, p, a[0]), a[1..], b);
    }
  }

  lemma {:induction false} UpToNulOfClean(s: string)
    requires '\0' !in s
    ensures UpToNul(s) == s
    decreases |s|
  {
    if |s| > 0 {
      assert s[0] != '\0' && '\0' !in s[1..];
      UpToNulOfClean(s[1..]);
    }
  }

  /** `eina_json_context_parse` on the two halves of a text without NUL
      characters leaves the context as on the whole text. */
  lemma ChunkedParse(m: Mode, p: Parser, a: string, b: string)
    requires '\0' !in a + b
    ensures ContextParse(m, ContextParse(m, p, a).0, b) == ContextParse(m, p, a + b)
  {
    assert '\0' !in a && '\0' !in b by {
      forall i | 0 <= i < |a| ensures a[i] != '\0' { assert a[i] == (a + b)[i]; }
      forall i | 0 <= i < |b| ensures b[i] != '\0' { assert b[i] == (a + b)[|a| + i]; }
    }
    UpToNulOfClean(a);
    UpToNulOfClean(b);
    UpToNulOfClean(a + b);
    FeedConcat(m, p, a, b);
  }

  /** `eina_json_context_parse_n` reading a text in two length-limited
      pieces leaves the context as reading it at once. */
  lemma ChunkedParseN(m: Mode, p: Parser, text: string, n: nat)
    requires '\0' !in text && 0 < n < |text|
    ensures ContextParseN(m, ContextParseN(m, p, text, n).0, text[n..], |text| - n)
      == ContextParseN(m, p, text, |text|)
  {
    UpToNulOfClean(text);
    assert '\0' !in text[n..] by {
      forall i | 0 <= i < |text| - n ensures text[n..][i] != '\0' { assert text[n..][i] == text[n + i]; }
    }
    UpToNulOfClean(text[n..]);
    assert text[..n] + text[n..] == text;
    FeedConcat(m, p, text[..n], text[n..]);
  }

  /** `eina_json_context_parse_n` with length 0 reads nothing and answers
      true exactly when an error is set: the opposite of what
      `eina_json_context_parse` answers on an empty text. */
  lemma ZeroLengthParseN(m: Mode, p: Parser, text: string)
    ensures ContextParseN(m, p, text, 0).0 == p
    ensures ContextParseN(m, p, text, 0).1 <==> p.error != NoError
    ensures ContextParseN(m, p, text, 0).1 <==> !ContextParse(m, p, "").1
  {
  }

  // ---------------------------------------------------------------------
  // The glue buffer

  /** The glue fits its buffer with room for the NUL, and is empty
      whenever gluing is off. */
  predicate GlueOk(p: Parser)
  {
    |p.glue| < p.glueCap && (!p.glueOn ==> p.glue == [])
  }

  /** The lexer only ever keeps or empties the glue, never resizes the
      buffer, and leaves it empty when gluing ends. */
  lemma {:induction false} LexRunGlue(m: Mode, p: Parser, c: char)
    requires !p.glueOn ==> p.glue == []
    ensures var q := LexRun(m, p, c);
      q.glueCap == p.glueCap && (q.glue == p.glue || q.glue == [])
      && (!q.glueOn ==> q.glue == [])
    decreases LexMeasure(p.lex)
  {
    if p.lex.Some? {
      var e := LexTransition(p.lex.value, c, p.glueOn, |p.glue|);
      ApplyLexGlue(m, p, p.lex.value, c);
      var q := ApplyLex(m, p, e).(lex := e.sw.next);
      if e.sw.retrans && e.sw.next.Some? {
        LexRunGlue(m, q, c);
      }
    }
  }

  /** One lexer callback keeps the glue invariant, as the lexer sees it. */
  lemma ApplyLexGlue(m: Mode, p: Parser, st: LexState, c: char)
    requires !p.glueOn ==> p.glue == []
    ensures var q := ApplyLex(m, p, LexTransition(st, c, p.glueOn, |p.glue|));
      q.glueCap == p.glueCap && (q.glue == p.glue || q.glue == [])
      && (!q.glueOn ==> q.glue == [])
  {
    var e := LexTransition(st, c, p.glueOn, |p.glue|);
    if e.emit.Some? {
      SyntaxRunFrame(m, LexPrelude(p, e), e.emit.value);
    }
  }

  /** Every iteration of the character loop keeps the glue invariant. */
  lemma StepGlue(m: Mode, p: Parser, c: char)
    requires GlueOk(p)
    ensures GlueOk(Step(m, p, c))
  {
    LexRunGlue(m, p, c);
  }

  lemma {:induction false} FeedGlue(m: Mode, p: Parser, s: string)
    requires GlueOk(p)
    ensures GlueOk(Feed(m, p, s).0)
    decreases |s|
  {
    if p.error == NoError && |s| > 0 {
      StepGlue(m, p, s[0]);
      FeedGlue(m, Step(m, p, s[0]), s[1..]);
    }
  }

  // ---------------------------------------------------------------------
  // The parent stack

  /** While a document is open: a pair is always the child of a saved
      frame, and the bottom frame is never a pair. So every pop the value
      state performs finds a frame. */
  predicate StackCore(p: Parser)
  {
    (p.parentType == TPair ==> |p.stack| > 0)
    && (|p.stack| > 0 ==> p.stack[0].kind != TPair)
  }

  /** A context that has stopped, one waiting for its first token with no
      parent and an empty stack (the parent type may be stale after a
      reset), or one whose stack is in order. */
  predicate StackOk(p: Parser)
  {
    p.syn.None? || (p.syn == Some(Entry) && p.stack == [] && p.parent == Nil) || StackCore(p)
  }

  lemma PopStack(p: Parser)
    requires StackCore(p) && |p.stack| > 0
    ensures StackCore(PopParent(p))
  {
  }

  lemma FinishValueStack(p: Parser)
    requires StackCore(p)
    ensures StackCore(FinishValue(p).0)
  {
    if p.parentType == TPair {
      PopStack(p);
    }
  }

  /** Each syntax callback keeps the stack in order: pushes never put a
      pair at the bottom, and pops leave a frame under every pair. */
  lemma SynCallbackStack(m: Mode, p: Parser, st: SynState, tok: Token)
    requires StackCore(p)
    ensures StackCore(SynCallback(m, p, st, tok).0)
  {
    match st
    case InValue => ValueStack(m, p, tok);
    case ObjectName =>
      if tok == TokString {
        var q := p.(stack := p.stack + [Frame(p.parentType, p.parent)], parentType := TPair);
        assert StackCore(q);
      }
    case _ =>
  }

  lemma ValueStack(m: Mode, p: Parser, tok: Token)
    requires StackCore(p)
    ensures StackCore(SynValue(m, p, tok).0)
  {
    match tok
    case ObjClose => CloseStack(p);
    case ArrClose => CloseStack(p);
    case ObjOpen => OpenStack(m, p, TObject, NewObject);
    case ArrOpen => OpenStack(m, p, TArray, InValue);
    case TokNumber => ScalarStack(m, p, TNumber);
    case TokString => ScalarStack(m, p, TString);
    case TokTrue => ScalarStack(m, p, TBoolean);
    case TokFalse => ScalarStack(m, p, TBoolean);
    case TokNull => ScalarStack(m, p, TNull);
    case Comma =>
    case Colon =>
  }

  lemma CloseStack(p: Parser)
    requires StackCore(p)
    ensures StackCore(CloseValue(p).0)
  {
    if |p.stack| >= 1 {
      PopStack(p);
      FinishValueStack(PopParent(p));
    }
  }

  lemma OpenStack(m: Mode, p: Parser, kind: JsonType, next: SynState)
    requires StackCore(p) && kind != TPair
    ensures StackCore(OpenOrFail(m, p, kind, next).0)
  {
    var (q, h) := Callback(m, p, kind, p.parent, p.glue);
    assert q.stack == p.stack && q.parentType == p.parentType;
  }

  lemma ScalarStack(m: Mode, p: Parser, kind: JsonType)
    requires StackCore(p)
    ensures StackCore(Scalar(m, p, kind).0)
  {
    var (q, h) := Callback(m, p, kind, p.parent, p.glue);
    assert q.stack == p.stack && q.parentType == p.parentType;
    FinishValueStack(q);
  }

  lemma {:induction false} SyntaxRunStack(m: Mode, p: Parser, tok: Token)
    requires StackOk(p)
    ensures StackOk(SyntaxRun(m, p, tok))
    decreases SynMeasure(p.syn)
  {
    if p.syn.None? {
    } else if StackCore(p) {
      var (q, sw) := SynCallback(m, p, p.syn.value, tok);
      SynCallbackStack(m, p, p.syn.value, tok);
      if sw.retrans && sw.next.Some? {
        SyntaxRunStack(m, q.(syn := sw.next), tok);
      }
    } else {
      EntryStack(m, p, tok);
    }
  }

  /** Waiting for the first token: only an opening bracket gets past, and
      it leaves the stack in order. */
  lemma EntryStack(m: Mode, p: Parser, tok: Token)
    requires p.syn == Some(Entry) && p.stack == [] && p.parent == Nil
    ensures StackOk(SyntaxRun(m, p, tok))
  {
    if tok == ObjOpen || tok == ArrOpen {
      var p1 := p.(syn := Some(InValue));
      assert SyntaxRun(m, p, tok) == SyntaxRun(m, p1, tok);
      RootOpenStack(m, p1, tok);
    } else {
      assert SyntaxRun(m, p, tok) == SyntaxRun(m, p.(syn := Some(SynUnexpected)), tok);
    }
  }

  lemma RootOpenStack(m: Mode, p: Parser, tok: Token)
    requires p.syn == Some(InValue) && p.stack == [] && p.parent == Nil
    requires tok == ObjOpen || tok == ArrOpen
    ensures StackOk(SyntaxRun(m, p, tok))
  {
    var (q, sw) := SynValue(m, p, tok);
    if sw.retrans && sw.next.Some? {
      assert SyntaxRun(m, q.(syn := sw.next), tok).syn.None?;
    } else {
      assert StackCore(q);
    }
  }

  lemma {:induction false} LexRunStack(m: Mode, p: Parser, c: char)
    requires StackOk(p)
    ensures StackOk(LexRun(m, p, c))
    decreases LexMeasure(p.lex)
  {
    if p.lex.Some? {
      var e := LexTransition(p.lex.value, c, p.glueOn, |p.glue|);
      ApplyLexStack(m, p, e);
      var q := ApplyLex(m, p, e).(lex := e.sw.next);
      if e.sw.retrans && e.sw.next.Some? {
        LexRunStack(m, q, c);
      }
    }
  }

  lemma ApplyLexStack(m: Mode, p: Parser, e: LexEffect)
    requires StackOk(p)
    ensures StackOk(ApplyLex(m, p, e))
  {
    if e.emit.Some? {
      SyntaxRunStack(m, LexPrelude(p, e), e.emit.value);
    }
  }

  /** From a fresh or reset context, whatever text is fed, the stack stays
      in order. */
  lemma {:induction false} FeedStack(m: Mode, p: Parser, s: string)
    requires StackOk(p)
    ensures StackOk(Feed(m, p, s).0)
    decreases |s|
  {
    if p.error == NoError && |s| > 0 {
      LexRunStack(m, p, s[0]);
      FeedStack(m, Step(m, p, s[0]), s[1..]);
    }
  }

  lemma FreshIsSound(heap: Heap, calls: seq<Call>, p: Parser)
    ensures GlueOk(Fresh(heap, calls)) && StackOk(Fresh(heap, calls))
    ensures GlueOk(p) ==> GlueOk(ResetState(p))
    ensures StackOk(ResetState(p))
  {
  }
}
