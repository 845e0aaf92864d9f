/** The document-level grammar of the Eina JSON parser: what may start a
    document, when it is complete, and what the parser does with input
    that follows the end. */
module JsonCompletion {
  import opened JsonTypes
  import opened JsonValue
  import opened JsonMachine
  import opened JsonPrint
  import opened JsonProperties

  /** The characters the initial lexer state accepts as the start of a
      string, number or keyword lexeme. */
  predicate StartsLexeme(c: char)
  {
    c == '"' || IsDigit(c) || c == '-' || c == 't' || c == 'f' || c == 'n'
  }

  /** Between tokens exactly the four blanks of section 2 of RFC 8259 are
      skipped: in the initial state they emit nothing, glue nothing, raise
      nothing and keep the state, and every other character does one of
      those. */
  lemma InitialSkipsExactlyBlanks(c: char, glueOn: bool, n: nat)
    ensures var e := LexTransition(Initial, c, glueOn, n);
      (e.emit.None? && !e.raise && !e.glueOn && e.sw == Switch(Some(Initial), false)) <==> IsBlank(c)
  {
  }

  /** In the initial state a character that is neither a blank, nor a
      structural character, nor the start of a lexeme is a lexical error. */
  lemma InitialRejects(c: char, glueOn: bool, n: nat)
    requires !IsBlank(c) && !IsStructural(c) && !StartsLexeme(c)
    ensures LexTransition(Initial, c, glueOn, n).sw == LexFail
  {
  }

  /** Only `{` or `[` can start a document (section 2 of RFC 4627): any
      other first token stops the grammar with a syntax error, and nothing
      else changes. */
  lemma EntryNeedsContainer(m: Mode, p: Parser, tok: Token)
    requires p.syn == Some(Entry) && tok != ObjOpen && tok != ArrOpen
    ensures SyntaxRun(m, p, tok) == RaiseSyntax(p).(syn := None)
  {
    var q := p.(syn := Some(SynUnexpected));
    assert SyntaxRun(m, p, tok) == SyntaxRun(m, q, tok);
  }

  /** The states and tokens in which a closing bracket reaches the value
      state: directly, or after an object's `}` or an array's `]`. */
  predicate ClosesValue(s: Option<SynState>, tok: Token)
  {
    (s == Some(InValue) && (tok == ObjClose || tok == ArrClose))
    || ((s == Some(NewObject) || s == Some(NextObject)) && tok == ObjClose)
    || (s == Some(NextArray) && tok == ArrClose)
  }

  /** A single callback switches to the end state exactly for a closing
      bracket in the value state when no frame is saved. */
  lemma CallbackEnds(m: Mode, p: Parser, st: SynState, tok: Token)
    ensures SynCallback(m, p, st, tok).1.next == Some(End)
      <==> st == InValue && (tok == ObjClose || tok == ArrClose) && |p.stack| == 0
  {
    if st == InValue && (tok == ObjClose || tok == ArrClose) && |p.stack| > 0 {
      assert SynCallback(m, p, st, tok) == FinishValue(PopParent(p));
    }
  }

  /** A token handed over after a failed callback stops the grammar. */
  lemma UnexpectedStops(m: Mode, p: Parser, tok: Token)
    requires p.syn == Some(SynUnexpected)
    ensures SyntaxRun(m, p, tok).syn.None?
  {
  }

  lemma InValueCompletes(m: Mode, p: Parser, tok: Token)
    requires p.syn == Some(InValue)
    ensures Completed(SyntaxRun(m, p, tok)) <==> (tok == ObjClose || tok == ArrClose) && |p.stack| == 0
  {
    var (q, sw) := SynCallback(m, p, InValue, tok);
    CallbackEnds(m, p, InValue, tok);
    if sw.retrans && sw.next.Some? {
      UnexpectedStops(m, q.(syn := sw.next), tok);
    }
  }

  lemma ObjectNameNeverCompletes(m: Mode, p: Parser, tok: Token)
    requires p.syn == Some(ObjectName)
    ensures !Completed(SyntaxRun(m, p, tok))
  {
    var (q, sw) := SynCallback(m, p, ObjectName, tok);
    if sw.retrans && sw.next.Some? {
      UnexpectedStops(m, q.(syn := sw.next), tok);
    }
  }

  /** A token-only callback changes nothing but the state, then
      retransmits or stops there. */
  lemma SimpleRun(m: Mode, p: Parser, tok: Token)
    requires p.syn.Some? && IsSimple(p.syn.value)
    ensures var sw := SynSimple(p.syn.value, tok);
      var q := p.(syn := sw.next);
      SyntaxRun(m, p, tok) == if sw.retrans && sw.next.Some? then SyntaxRun(m, q, tok) else q
  {
  }

  /** The token-only callbacks never end the document themselves; they
      re-send a closing bracket to the value state exactly where it closes
      a value. */
  lemma SimpleSwitch(st: SynState, tok: Token)
    requires IsSimple(st)
    ensures var sw := SynSimple(st, tok);
      sw.next != Some(End)
      && (sw.retrans && sw.next.Some? ==> sw.next == Some(InValue) || sw.next == Some(ObjectName) || sw.next == Some(SynUnexpected))
      && (ClosesValue(Some(st), tok) <==> sw.retrans && sw.next == Some(InValue) && (tok == ObjClose || tok == ArrClose))
  {
  }

  lemma SimpleCompletes(m: Mode, p: Parser, tok: Token)
    requires p.syn.Some? && IsSimple(p.syn.value)
    ensures Completed(SyntaxRun(m, p, tok)) <==> ClosesValue(p.syn, tok) && |p.stack| == 0
  {
    var sw := SynSimple(p.syn.value, tok);
    var q := p.(syn := sw.next);
    SimpleRun(m, p, tok);
    SimpleSwitch(p.syn.value, tok);
    if sw.retrans && sw.next.Some? {
      if sw.next == Some(InValue) {
        InValueCompletes(m, q, tok);
      } else if sw.next == Some(ObjectName) {
        ObjectNameNeverCompletes(m, q, tok);
      } else {
        UnexpectedStops(m, q, tok);
      }
    }
  }

  /** A token completes the document exactly when it is a closing bracket
      that reaches the value state with no frame saved: the close of the
      root container. Which bracket it is is not checked, so `[1,]` and
      `[}` complete too. */
  lemma RootCloseCompletes(m: Mode, p: Parser, tok: Token)
    ensures Completed(SyntaxRun(m, p, tok)) <==> ClosesValue(p.syn, tok) && |p.stack| == 0
  {
    if p.syn == Some(InValue) {
      InValueCompletes(m, p, tok);
    } else if p.syn == Some(ObjectName) {
      ObjectNameNeverCompletes(m, p, tok);
    } else if p.syn.Some? && IsSimple(p.syn.value) {
      SimpleCompletes(m, p, tok);
    } else if p.syn.Some? {
      assert SyntaxRun(m, p, tok).syn == None;
    }
  }

  /** After the end, any token that reaches the grammar records PAST_END
      and stops the grammar: the context is no longer completed. The end
      state's callback does not look at the error field; the feed loop
      never runs it with an error set (`FeedResult`). */
  lemma TokenAfterEnd(m: Mode, p: Parser, tok: Token)
    requires Completed(p)
    ensures SyntaxRun(m, p, tok) == p.(syn := None, error := PastEnd)
    ensures !Completed(SyntaxRun(m, p, tok))
  {
  }

  /** Only the initial state emits closing brackets, and then it stays
      the initial state without retransmitting. */
  lemma CloseEmittedFromInitial(st: LexState, c: char, glueOn: bool, n: nat)
    requires var e := LexTransition(st, c, glueOn, n);
      e.emit == Some(ObjClose) || e.emit == Some(ArrClose)
    ensures st == Initial
    ensures LexTransition(st, c, glueOn, n).sw == Switch(Some(Initial), false)
  {
  }

  /** The character that completes the document leaves the lexer in its
      initial state, ready to skip trailing blanks. */
  lemma {:induction false} CompletingLexRun(m: Mode, p: Parser, c: char)
    requires !Completed(p) && Completed(LexRun(m, p, c))
    ensures LexRun(m, p, c).lex == Some(Initial)
    decreases LexMeasure(p.lex)
  {
    var st := p.lex.value;
    var e := LexTransition(st, c, p.glueOn, |p.glue|);
    var pre := LexPrelude(p, e);
    var mid := EmitToken(m, pre, e.emit);
    assert ApplyLex(m, p, e).syn == mid.syn;
    if e.emit.Some? {
      RootCloseCompletes(m, pre, e.emit.value);
    }
    if Completed(mid) {
      CloseEmittedFromInitial(st, c, p.glueOn, |p.glue|);
    } else {
      assert e.sw.retrans && e.sw.next.Some?;
      CompletingLexRun(m, ApplyLex(m, p, e).(lex := e.sw.next), c);
    }
  }

  /** The same for one iteration of the character loop. */
  lemma CompletingStep(m: Mode, p: Parser, c: char)
    requires !Completed(p) && Completed(Step(m, p, c))
    ensures Step(m, p, c).lex == Some(Initial)
  {
    CompletingLexRun(m, p, c);
  }

  /** One character after the end: a blank is accepted and the document
      stays complete; a structural character reaches the grammar and
      records PAST_END; a character that starts no lexeme is still a
      lexical error, since the lexer rejects it before the grammar sees
      anything, and the grammar stays at its end. */
  lemma StepAfterEnd(m: Mode, p: Parser, c: char)
    requires Completed(p) && p.error == NoError && p.lex == Some(Initial)
    ensures IsBlank(c) ==>
      var q := Step(m, p, c);
      Completed(q) && q.error == NoError && q.lex == Some(Initial)
    ensures IsStructural(c) ==>
      var q := Step(m, p, c);
      q.error == PastEnd && !Completed(q) && !Unfinished(q)
    ensures !IsBlank(c) && !IsStructural(c) && !StartsLexeme(c) ==>
      var q := Step(m, p, c);
      q.error == LexError && Completed(q) && !Unfinished(q)
  {
    if IsBlank(c) {
      BlankAfterEnd(m, p, c);
    } else if IsStructural(c) {
      StructuralAfterEnd(m, p, c);
    } else if !StartsLexeme(c) {
      StrayAfterEnd(m, p, c);
    }
  }

  lemma BlankAfterEnd(m: Mode, p: Parser, c: char)
    requires Completed(p) && p.error == NoError && p.lex == Some(Initial) && IsBlank(c)
    ensures var q := Step(m, p, c);
      Completed(q) && q.error == NoError && q.lex == Some(Initial)
  {
  }

  lemma StructuralAfterEnd(m: Mode, p: Parser, c: char)
    requires Completed(p) && p.error == NoError && p.lex == Some(Initial) && IsStructural(c)
    ensures var q := Step(m, p, c);
      q.error == PastEnd && !Completed(q) && !Unfinished(q)
  {
    var e := LexTransition(Initial, c, p.glueOn, |p.glue|);
    TokenAfterEnd(m, LexPrelude(p, e), StructuralToken(c));
  }

  lemma StrayAfterEnd(m: Mode, p: Parser, c: char)
    requires Completed(p) && p.error == NoError && p.lex == Some(Initial)
    requires !IsBlank(c) && !IsStructural(c) && !StartsLexeme(c)
    ensures var q := Step(m, p, c);
      q.error == LexError && Completed(q) && !Unfinished(q)
  {
    var e := LexTransition(Initial, c, p.glueOn, |p.glue|);
    InitialRejects(c, p.glueOn, |p.glue|);
    var q := ApplyLex(m, p, e).(lex := Some(LexUnexpected));
    assert q.syn == p.syn && q.error == NoError;
    assert LexRun(m, p, c) == LexRun(m, q, c);
    var f := LexTransition(LexUnexpected, c, q.glueOn, |q.glue|);
    assert LexRun(m, q, c) == RaiseLex(LexPrelude(q, f)).(lex := None);
  }

  /** Blanks after the end are accepted: the loop reports success and the
      document stays complete. */
  lemma {:induction false} TrailingBlanks(m: Mode, p: Parser, s: string)
    requires Completed(p) && p.error == NoError && p.lex == Some(Initial)
    requires forall i :: 0 <= i < |s| ==> IsBlank(s[i])
    ensures Feed(m, p, s).1 && Completed(Feed(m, p, s).0)
    decreases |s|
  {
    if |s| > 0 {
      StepAfterEnd(m, p, s[0]);
      TrailingBlanks(m, Step(m, p, s[0]), s[1..]);
    }
  }

  /** Once a character completes the document without error, any run of
      blanks after it keeps the parse successful and complete. */
  lemma BlanksAfterCompletion(m: Mode, p: Parser, c: char, s: string)
    requires !Completed(p) && Completed(Step(m, p, c)) && Step(m, p, c).error == NoError
    requires forall i :: 0 <= i < |s| ==> IsBlank(s[i])
    ensures Feed(m, Step(m, p, c), s).1 && Completed(Feed(m, Step(m, p, c), s).0)
  {
    CompletingStep(m, p, c);
    TrailingBlanks(m, Step(m, p, c), s);
  }
}
