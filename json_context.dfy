/** Eina_Json_Context: the parser object of eina_json.c, with the fields the
    parser updates in place, and the public parser API on it. Every method
    is proved to change the context exactly as the corresponding function
    of JsonMachine says, through `Abs()`, the snapshot of the fields. */
module JsonContext {
  import opened JsonTypes
  import opened JsonValue
  import opened JsonMachine
  import opened JsonOwnership

  class Context {
    /** The parser callback: the tree builder or a user callback. */
    const mode: Mode
    /** The value store the tree builder allocates into. */
    const store: Store

    var lex: Option<LexState>
    var syn: Option<SynState>
    var latestError: JsonError
    var jobj: Handle
    /** The parent stack; each frame stands for the two pushes of a type
        and a handle on the Eina_Array. */
    var jstack: seq<Frame>
    var jparent: Handle
    var jparentType: JsonType
    /** Every call made to a user callback, standing for what its user data
        can remember. */
    var calls: seq<Call>
    var glueOn: bool
    /** The NUL-terminated text of the lexeme being read. */
    var glueBuf: array<char>
    var glueLen: nat
    var line: nat
    var col: nat

    ghost predicate Valid()
      reads this, store, glueBuf
    {
      store.Valid() && glueLen < glueBuf.Length && glueBuf[glueLen] == '\0'
    }

    ghost function Abs(): Parser
      reads this, store, glueBuf
      requires Valid()
    {
      Parser(lex, syn, latestError, glueOn, glueBuf[..glueLen], glueBuf.Length, line, col,
             jstack, jparent, jparentType, jobj, calls, store.Snapshot())
    }

    /** `_eina_json_context_new` followed by its reset; the user data of the
        tree builder is the context itself, which here is the store. */
    constructor (mode: Mode, store: Store)
      requires store.Valid()
      ensures this.mode == mode && this.store == store
      ensures Valid() && Abs() == Fresh(store.Snapshot(), [])
      ensures fresh(glueBuf)
    {
      var buf := new char[GlueStep];
      buf[0] := '\0';
      this.mode := mode;
      this.store := store;
      lex := Some(Initial);
      syn := Some(Entry);
      latestError := NoError;
      jobj := Nil;
      jstack := [];
      jparent := Nil;
      jparentType := TNull;
      calls := [];
      glueOn := false;
      glueBuf := buf;
      glueLen := 0;
      line := 1;
      col := 1;
    }

    /** The attaching half of `_eina_json_parser_dom_cb`. */
    method LinkChild(parent: Handle, h: Handle)
      requires Valid()
      modifies this, store
      ensures Valid() && glueBuf == old(glueBuf)
      ensures Abs() == old(Abs()).(heap := Link(old(store.Snapshot()), parent, h))
    {
      ghost var p0 := Abs();
      if parent !in store.values || h !in store.values || h == Nil {
        return;
      }
      var pv := store.values[parent];
      match pv.payload {
        case PairVal(name, _) =>
          store.SetPairValue(parent, h);
        case ObjectVal(items) =>
          store.ListAppend(parent, h);
        case ArrayVal(_) =>
          var _ := store.ArrayAppend(parent, h);
        case _ =>
      }
      assert Abs() == p0.(heap := store.Snapshot());
    }

    /** `_eina_json_parser_dom_cb`: allocate, then attach or become the
        root. */
    method DomCallback(kind: JsonType, parent: Handle, text: string) returns (h: Handle)
      requires Valid() && mode.DomMode?
      modifies this, store
      ensures Valid() && glueBuf == old(glueBuf)
      ensures (Abs(), h) == DomBuild(mode.atof, old(Abs()), kind, parent, text)
    {
      ghost var p0 := Abs();
      h := store.NewValue(NewPayload(mode.atof, kind, text));
      ghost var hp := store.Snapshot();
      assert Abs() == p0.(heap := hp);
      if parent == Nil {
        jobj := h;
      } else {
        LinkChild(parent, h);
      }
    }

    /** `jsctx->parser_cb(type, parent, text, cb_data)`. */
    method ParserCallback(kind: JsonType, parent: Handle, text: string) returns (h: Handle)
      requires Valid()
      modifies this, store
      ensures Valid() && glueBuf == old(glueBuf)
      ensures (Abs(), h) == Callback(mode, old(Abs()), kind, parent, text)
    {
      if mode.SaxMode? {
        calls := calls + [Call(kind, parent, text)];
        h := mode.handler(calls);
      } else {
        h := DomCallback(kind, parent, text);
      }
    }

    /** Two `eina_array_pop` calls: the parent, then its type. */
    method PopFrame()
      requires Valid()
      modifies this
      ensures Valid() && glueBuf == old(glueBuf)
      ensures Abs() == PopParent(old(Abs()))
    {
      if |jstack| == 0 {
        jparent, jparentType := Nil, TNull;
      } else {
        var top := jstack[|jstack| - 1];
        jstack := jstack[..|jstack| - 1];
        jparent, jparentType := top.handle, top.kind;
      }
    }

    /** `_syntx_value_cb`. A closing bracket pops the saved parent and
        finishes the value; any other value token calls the parser
        callback; separators are unexpected. */
    method SyntaxValue(tok: Token) returns (sw: Switch<SynState>)
      requires Valid()
      modifies this, store
      ensures Valid() && glueBuf == old(glueBuf)
      ensures (Abs(), sw) == SynValue(mode, old(Abs()), tok)
    {
      match tok {
        case ObjClose =>
          sw := CloseCurrent();
        case ArrClose =>
          sw := CloseCurrent();
        case ObjOpen =>
          sw := ValueCall(TObject, Some(NewObject));
        case ArrOpen =>
          sw := ValueCall(TArray, Some(InValue));
        case TokNumber =>
          sw := ValueCall(TNumber, None);
        case TokString =>
          sw := ValueCall(TString, None);
        case TokTrue =>
          sw := ValueCall(TBoolean, None);
        case TokFalse =>
          sw := ValueCall(TBoolean, None);
        case TokNull =>
          sw := ValueCall(TNull, None);
        case Comma =>
          sw := SynFail;
        case Colon =>
          sw := SynFail;
      }
    }

    /** A closing bracket in `_syntx_value_cb`: with an empty stack the
        document ends, otherwise the saved parent comes back. */
    method CloseCurrent() returns (sw: Switch<SynState>)
      requires Valid()
      modifies this
      ensures Valid() && glueBuf == old(glueBuf)
      ensures (Abs(), sw) == CloseValue(old(Abs()))
    {
      if |jstack| < 1 {
        return Switch(Some(End), false);
      }
      PopFrame();
      sw := FinishCurrent();
    }

    /** The callback half of `_syntx_value_cb`: a NULL answer is
        unexpected; a container becomes the parent (the old one saved on
        the stack), a scalar finishes the value. */
    method ValueCall(kind: JsonType, next: Option<SynState>) returns (sw: Switch<SynState>)
      requires Valid()
      modifies this, store
      ensures Valid() && glueBuf == old(glueBuf)
      ensures (Abs(), sw) == if next.Some? then OpenOrFail(mode, old(Abs()), kind, next.value)
                             else Scalar(mode, old(Abs()), kind)
    {
      var h := ParserCallback(kind, jparent, glueBuf[..glueLen]);
      if h == Nil {
        return SynFail;
      }
      if next.Some? {
        if jparent != Nil {
          jstack := jstack + [Frame(jparentType, jparent)];
        }
        jparent, jparentType := h, kind;
        sw := Switch(next, false);
      } else {
        sw := FinishCurrent();
      }
    }

    /** The end of a value in `_syntx_value_cb`: leave the pair it was the
        value of, then expect the rest of the object or array. */
    method FinishCurrent() returns (sw: Switch<SynState>)
      requires Valid()
      modifies this
      ensures Valid() && glueBuf == old(glueBuf)
      ensures (Abs(), sw) == FinishValue(old(Abs()))
    {
      if jparentType == TPair {
        PopFrame();
      }
      sw := Switch(Some(if jparentType == TObject then NextObject else NextArray), false);
    }

    /** `_syntx_object_name_cb`. */
    method SyntaxObjectName(tok: Token) returns (sw: Switch<SynState>)
      requires Valid()
      modifies this, store
      ensures Valid() && glueBuf == old(glueBuf)
      ensures (Abs(), sw) == SynObjectName(mode, old(Abs()), tok)
    {
      if tok != TokString {
        return SynFail;
      }
      var parent := jparent;
      jstack := jstack + [Frame(jparentType, jparent)];
      jparentType := TPair;
      var h := ParserCallback(TPair, parent, glueBuf[..glueLen]);
      jparent := h;
      sw := if h != Nil then Switch(Some(ObjectColon), false) else SynFail;
    }

    /** The callback of the current syntax state. */
    method SyntaxCallback(st: SynState, tok: Token) returns (sw: Switch<SynState>)
      requires Valid()
      modifies this, store
      ensures Valid() && glueBuf == old(glueBuf)
      ensures (Abs(), sw) == SynCallback(mode, old(Abs()), st, tok)
    {
      match st {
        case InValue =>
          sw := SyntaxValue(tok);
        case ObjectName =>
          sw := SyntaxObjectName(tok);
        case End =>
          latestError := PastEnd;
          sw := Switch(None, false);
        case SynUnexpected =>
          if latestError == NoError {
            latestError := SyntaxError;
          }
          sw := Switch(None, false);
        case Entry =>
          sw := SynSimple(st, tok);
        case NewObject =>
          sw := SynSimple(st, tok);
        case ObjectColon =>
          sw := SynSimple(st, tok);
        case NextObject =>
          sw := SynSimple(st, tok);
        case NextArray =>
          sw := SynSimple(st, tok);
      }
    }

    /** `_syntax_token_process`: `_state_machine_feed` on the syntax
        machine. */
    method SyntaxFeed(tok: Token)
      requires Valid()
      modifies this, store
      ensures Valid() && glueBuf == old(glueBuf)
      ensures Abs() == SyntaxRun(mode, old(Abs()), tok)
    {
      while syn.Some?
        invariant Valid() && glueBuf == old(glueBuf)
        invariant SyntaxRun(mode, Abs(), tok) == SyntaxRun(mode, old(Abs()), tok)
        decreases SynMeasure(syn)
      {
        var sw := SyntaxCallback(syn.value, tok);
        syn := sw.next;
        if !sw.retrans {
          break;
        }
      }
    }

    /** Empty the glue buffer. */
    method ClearGlue()
      requires Valid()
      modifies this, glueBuf
      ensures Valid() && glueBuf == old(glueBuf)
      ensures Abs() == old(Abs()).(glue := [])
    {
      glueBuf[0] := '\0';
      glueLen := 0;
      assert glueBuf[..glueLen] == [];
    }

    /** The first effects of a lexer callback: the glue, the gluing flag
        and the line count. */
    method Prelude(e: LexEffect)
      requires Valid()
      modifies this, glueBuf
      ensures Valid() && glueBuf == old(glueBuf)
      ensures Abs() == LexPrelude(old(Abs()), e)
    {
      if e.clearGlue {
        ClearGlue();
      }
      glueOn := e.glueOn;
      if e.newline {
        line := line + 1;
        col := 0;
      }
    }

    /** What a lexer callback does to the context, in the order the C
        callbacks do it. */
    method ApplyEffect(e: LexEffect)
      requires Valid()
      modifies this, store, glueBuf
      ensures Valid() && glueBuf == old(glueBuf)
      ensures Abs() == ApplyLex(mode, old(Abs()), e)
    {
      Prelude(e);
      ghost var p3 := Abs();
      if e.emit.Some? {
        SyntaxFeed(e.emit.value);
      }
      ghost var q := EmitToken(mode, p3, e.emit);
      assert Abs() == q;
      if e.raise && latestError == NoError {
        latestError := LexError;
      }
      assert Abs() == if e.raise then RaiseLex(q) else q;
    }

    /** The callback of the current lexer state: the transition function
        chooses the effects and the next state. */
    method LexCallback(st: LexState, c: char) returns (sw: Switch<LexState>)
      requires Valid()
      modifies this, store, glueBuf
      ensures Valid() && glueBuf == old(glueBuf)
      ensures Abs() == ApplyLex(mode, old(Abs()), LexTransition(st, c, old(glueOn), old(glueLen)))
      ensures sw == LexTransition(st, c, old(glueOn), old(glueLen)).sw
    {
      var e := LexTransition(st, c, glueOn, glueLen);
      assert |old(Abs()).glue| == glueLen;
      ApplyEffect(e);
      sw := e.sw;
    }

    /** `_state_machine_feed` on the lexer. */
    method LexFeed(c: char)
      requires Valid()
      modifies this, store, glueBuf
      ensures Valid() && glueBuf == old(glueBuf)
      ensures Abs() == LexRun(mode, old(Abs()), c)
    {
      while lex.Some?
        invariant Valid() && glueBuf == old(glueBuf)
        invariant LexRun(mode, Abs(), c) == LexRun(mode, old(Abs()), c)
        decreases LexMeasure(lex)
      {
        var sw := LexCallback(lex.value, c);
        lex := sw.next;
        if !sw.retrans {
          break;
        }
      }
    }

    /** Glue a character, growing the buffer by one step when fewer than
        two bytes are free. */
    method GlueAppend(c: char)
      requires Valid()
      modifies this, glueBuf
      ensures Valid() && (glueBuf == old(glueBuf) || fresh(glueBuf))
      ensures Abs() == AppendGlue(old(Abs()), c)
    {
      if glueBuf.Length - glueLen < 2 {
        var grown := new char[glueBuf.Length + GlueStep];
        forall k | 0 <= k < glueBuf.Length {
          grown[k] := glueBuf[k];
        }
        glueBuf := grown;
      }
      glueBuf[glueLen] := c;
      glueLen := glueLen + 1;
      glueBuf[glueLen] := '\0';
    }

    /** One pass of the reading loop's body: the lexer, then the glue,
        then the column when no error was set. */
    method ReadChar(c: char)
      requires Valid()
      modifies this, store, glueBuf
      ensures Valid() && (glueBuf == old(glueBuf) || fresh(glueBuf))
      ensures Abs() == Step(mode, old(Abs()), c)
    {
      LexFeed(c);
      if glueOn {
        GlueAppend(c);
      }
      if latestError == NoError {
        col := col + 1;
      }
    }

    /** `_eina_json_context_parse`: the text ends at its first NUL or at the
        end of the sequence; a non-zero `textLen` reads at most that many
        characters. */
    method ParseText(text: string, textLen: nat) returns (ok: bool)
      requires Valid()
      modifies this, store, glueBuf
      ensures Valid() && (glueBuf == old(glueBuf) || fresh(glueBuf))
      ensures (Abs(), ok) == Feed(mode, old(Abs()), Cut(text, textLen))
    {
      var lencount := if textLen != 0 then textLen else 1;
      if latestError != NoError {
        return false;
      }
      ghost var s := Cut(text, textLen);
      var i := 0;
      while i < |text| && text[i] != '\0' && lencount != 0
        invariant Valid() && (glueBuf == old(glueBuf) || fresh(glueBuf))
        invariant 0 <= i <= |s|
        invariant latestError == NoError
        invariant lencount == (if textLen != 0 then textLen - i else 1)
        invariant Feed(mode, Abs(), s[i..]) == Feed(mode, old(Abs()), s)
        decreases |text| - i
      {
        var c := text[i];
        assert i < |s| && s[i] == c;
        assert s[i..][0] == c && s[i..][1..] == s[i + 1..];
        FeedFirst(mode, Abs(), s[i..]);
        ReadChar(c);
        if latestError != NoError {
          return false;
        }
        i := i + 1;
        if textLen != 0 {
          lencount := lencount - 1;
        }
      }
      assert s[i..] == [];
      ok := true;
    }

    /** `eina_json_context_parse`. */
    method Parse(text: string) returns (ok: bool)
      requires Valid()
      modifies this, store, glueBuf
      ensures Valid() && (glueBuf == old(glueBuf) || fresh(glueBuf))
      ensures (Abs(), ok) == ContextParse(mode, old(Abs()), text)
    {
      ok := ParseText(text, 0);
    }

    /** `eina_json_context_parse_n`. */
    method ParseN(text: string, textLen: nat) returns (ok: bool)
      requires Valid()
      modifies this, store, glueBuf
      ensures Valid() && (glueBuf == old(glueBuf) || fresh(glueBuf))
      ensures (Abs(), ok) == ContextParseN(mode, old(Abs()), text, textLen)
    {
      if textLen == 0 {
        return latestError != NoError;
      }
      ok := ParseText(text, textLen);
    }

    /** The first half of `eina_json_context_reset`: both machines back
        at their initial states, no error, an empty glue and stack. */
    method ResetMachines()
      requires Valid()
      modifies this, glueBuf
      ensures Valid() && glueBuf == old(glueBuf)
      ensures Abs() == old(Abs()).(lex := Some(Initial), syn := Some(Entry), error := NoError,
                                   glueOn := false, glue := [], stack := [])
    {
      lex := Some(Initial);
      syn := Some(Entry);
      latestError := NoError;
      glueLen := 0;
      glueBuf[0] := '\0';
      glueOn := false;
      jstack := [];
      assert glueBuf[..glueLen] == [];
    }

    /** `eina_json_context_reset`: an untaken root is freed from the store. */
    method Reset()
      requires Valid()
      modifies this, store, glueBuf
      ensures Valid() && glueBuf == old(glueBuf)
      ensures Abs() == ResetState(old(Abs())).(heap := store.Snapshot())
      ensures store.next == old(store.next) && store.values.Keys <= old(store.values).Keys
      ensures forall k :: k in store.values ==> store.values[k] == old(store.values)[k]
      ensures var r := old(jobj);
        if r != Nil && r in old(store.values) && old(store.values)[r].parent == Nil
        then Subtree(old(store.values), r, old(store.values).Keys - store.values.Keys)
        else store.values == old(store.values)
    {
      ResetMachines();
      store.Free(jobj);
      jobj := Nil;
      jparent := Nil;
      line, col := 1, 1;
    }

    /** `eina_json_context_free` on the model's state: the reset, which
        frees an untaken root; the rest releases memory. */
    method Release()
      requires Valid()
      modifies this, store, glueBuf
      ensures store.Valid()
      ensures store.next == old(store.next) && store.values.Keys <= old(store.values).Keys
      ensures forall k :: k in store.values ==> store.values[k] == old(store.values)[k]
      ensures var r := old(jobj);
        if r != Nil && r in old(store.values) && old(store.values)[r].parent == Nil
        then Subtree(old(store.values), r, old(store.values).Keys - store.values.Keys)
        else store.values == old(store.values)
    {
      Reset();
    }

    /** `eina_json_context_dom_tree_take`. */
    method DomTreeTake() returns (h: Handle)
      requires Valid()
      modifies this
      ensures Valid() && glueBuf == old(glueBuf)
      ensures (Abs(), h) == TreeTake(old(Abs()))
    {
      if syn != Some(End) || jobj == Nil {
        return Nil;
      }
      h := jobj;
      jobj := Nil;
    }
  }

  /** `_eina_json_parse`: a tree-building context reads the text; the root
      is returned only when the document is complete, and is then left in
      the store exactly as parsing built it: the old nodes untouched, the
      new ones the root's subtree. Otherwise whatever parsing built is
      freed with the context and the store is as it was. */
  method ParseDocument(store: Store, text: string, textLen: nat) returns (h: Handle)
    requires store.Valid()
    modifies store
    ensures store.Valid()
    ensures var p := Feed(DomMode(Atof), Fresh(old(store.Snapshot()), []), Cut(text, textLen)).0;
      h == (if Completed(p) then p.jobj else Nil)
      && (h != Nil ==> store.Snapshot() == p.heap)
    ensures h == Nil ==> store.values == old(store.values)
    ensures h != Nil ==> Grown(old(store.values), store.Snapshot(), h)
  {
    ghost var hp := store.Snapshot();
    ghost var p := Feed(DomMode(Atof), Fresh(hp, []), Cut(text, textLen)).0;
    var ctx := new Context(DomMode(Atof), store);
    var _ := ctx.ParseText(text, textLen);
    ParseGrows(hp, Atof, Cut(text, textLen));
    assert store.Snapshot() == p.heap && ctx.jobj == p.jobj;
    h := Nil;
    if ctx.syn == Some(End) {
      h := ctx.DomTreeTake();
    }
    ghost var root := ctx.jobj;
    ghost var built := store.Snapshot();
    ctx.Release();
    if h == Nil {
      DiscardRestores(hp.values, built, root, store.values);
    }
  }

  /** `eina_json_parse`. */
  method JsonParse(store: Store, text: string) returns (h: Handle)
    requires store.Valid()
    modifies store
    ensures store.Valid()
    ensures var p := Feed(DomMode(Atof), Fresh(old(store.Snapshot()), []), Cut(text, 0)).0;
      h == (if Completed(p) then p.jobj else Nil)
    ensures h == Nil ==> store.values == old(store.values)
    ensures h != Nil ==> Grown(old(store.values), store.Snapshot(), h)
  {
    h := ParseDocument(store, text, 0);
  }

  /** `eina_json_parse_n`: a zero length yields NULL without parsing. */
  method JsonParseN(store: Store, text: string, textLen: nat) returns (h: Handle)
    requires store.Valid()
    modifies store
    ensures store.Valid()
    ensures textLen == 0 ==> h == Nil && store.values == old(store.values)
    ensures textLen != 0 ==>
      var p := Feed(DomMode(Atof), Fresh(old(store.Snapshot()), []), Cut(text, textLen)).0;
      h == (if Completed(p) then p.jobj else Nil)
    ensures h == Nil ==> store.values == old(store.values)
    ensures h != Nil ==> Grown(old(store.values), store.Snapshot(), h)
  {
    if textLen == 0 {
      return Nil;
    }
    h := ParseDocument(store, text, textLen);
  }
}
