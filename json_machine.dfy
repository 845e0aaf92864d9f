/** The two state machines of the Eina JSON parser, stated as pure functions
    over a snapshot of the parser context.

    The lexer reads one character at a time; the syntax machine reads the
    tokens the lexer emits. Each machine is a current state plus a callback
    per state that returns the next state and whether the same input must
    be handed to that next state at once ("retransmission"). A NULL state
    stops the machine for good. `LexTransition` and `SynSimple` are the
    transition functions shared with the imperative context; `LexRun` and
    `SyntaxRun` are `_state_machine_feed` on each machine; `Step` is one
    iteration of the character loop and `Feed` the whole loop. */
module JsonMachine {
  import opened JsonTypes
  import opened JsonValue

  /** Lexer states; the three digit-entry states share one callback that
      needs a digit before moving to their target state. */
  datatype LexState =
    | Initial
    | IntEntry | Int
    | FractionEntry | Fraction
    | ExpSign | ExpEntry | Exp
    | InString | InStringEscape
    | KeywordTrue | KeywordFalse | KeywordNull
    | LexUnexpected

  datatype SynState =
    | Entry | InValue | NewObject | ObjectName | ObjectColon
    | NextObject | NextArray | End | SynUnexpected

  /** Stm_Switch: the next state (None is NULL) and the retransmit flag. */
  datatype Switch<S> = Switch(next: Option<S>, retrans: bool)

  /** What a lexer callback does besides choosing the next state, in the
      order the callbacks do it: drop the previous token's text, set the
      gluing flag, count a newline, emit a token to the syntax machine,
      record a lexical error. */
  datatype LexEffect = LexEffect(
    clearGlue: bool,
    glueOn: bool,
    newline: bool,
    emit: Option<Token>,
    raise: bool,
    sw: Switch<LexState>)

  /** JSON_GLUE_BUFF_STEP: initial size and growth step of the glue buffer. */
  const GlueStep: nat := 64

  const LexFail: Switch<LexState> := Switch(Some(LexUnexpected), true)
  const SynFail: Switch<SynState> := Switch(Some(SynUnexpected), true)

  predicate IsStructural(c: char)
  {
    c == '{' || c == '}' || c == '[' || c == ']' || c == ',' || c == ':'
  }

  /** The token value of a structural character (the token is the
      character itself in the C enum). */
  function StructuralToken(c: char): Token
    requires IsStructural(c)
  {
    match c
    case '{' => ObjOpen
    case '}' => ObjClose
    case '[' => ArrOpen
    case ']' => ArrClose
    case ',' => Comma
    case _ => Colon
  }

  predicate IsKeyword(st: LexState)
  {
    st == KeywordTrue || st == KeywordFalse || st == KeywordNull
  }

  /** The keyword parameter records: spelling and token. */
  function KeywordText(st: LexState): string
    requires IsKeyword(st)
  {
    match st
    case KeywordTrue => "true"
    case KeywordFalse => "false"
    case _ => "null"
  }

  function KeywordToken(st: LexState): Token
    requires IsKeyword(st)
  {
    match st
    case KeywordTrue => TokTrue
    case KeywordFalse => TokFalse
    case _ => TokNull
  }

  predicate IsDigitEntry(st: LexState)
  {
    st == IntEntry || st == FractionEntry || st == ExpEntry
  }

  /** The state a digit-entry state moves to on a digit. */
  function DigitTarget(st: LexState): LexState
    requires IsDigitEntry(st)
  {
    match st
    case IntEntry => Int
    case FractionEntry => Fraction
    case _ => Exp
  }

  /** A bound on the retransmission chain left from a lexer state. */
  function LexRank(st: LexState): nat
  {
    match st
    case LexUnexpected => 0
    case InString => 0
    case InStringEscape => 0
    case IntEntry => 1
    case FractionEntry => 1
    case ExpEntry => 1
    case KeywordTrue => 1
    case KeywordFalse => 1
    case KeywordNull => 1
    case Initial => 2
    case ExpSign => 2
    case Int => 3
    case Fraction => 3
    case Exp => 3
  }

  /** The lexer callbacks of eina_json.c as one transition function of the
      state, the character, the gluing flag and the glue length. A switch
      that retransmits always leads to a state of lower rank, so every
      `_state_machine_feed` on the lexer ends. */
  function LexTransition(st: LexState, c: char, glueOn: bool, glueLen: nat): (e: LexEffect)
    ensures e.sw.retrans && e.sw.next.Some? ==> LexRank(e.sw.next.value) < LexRank(st)
    ensures e.raise <==> st == LexUnexpected
    ensures e.clearGlue ==> st == Initial
  {
    var keep := LexEffect(false, glueOn, false, None, false, Switch(Some(st), false));
    match st
    case Initial =>
      var e := LexEffect(glueOn, false, false, None, false, Switch(Some(Initial), false));
      if IsStructural(c) then e.(emit := Some(StructuralToken(c)))
      else if c == '\n' then e.(newline := true)
      else if c == '\r' || c == '\t' || c == ' ' then e
      else if c == '"' then e.(sw := Switch(Some(InString), false))
      else if IsDigit(c) then e.(sw := Switch(Some(IntEntry), true))
      else if c == '-' then e.(glueOn := true, sw := Switch(Some(IntEntry), false))
      else if c == 't' then e.(sw := Switch(Some(KeywordTrue), true))
      else if c == 'f' then e.(sw := Switch(Some(KeywordFalse), true))
      else if c == 'n' then e.(sw := Switch(Some(KeywordNull), true))
      else e.(sw := LexFail)
    case IntEntry => DigitEntry(st, c, keep)
    case FractionEntry => DigitEntry(st, c, keep)
    case ExpEntry => DigitEntry(st, c, keep)
    case Int =>
      if IsDigit(c) then keep
      else if c == 'e' || c == 'E' then keep.(sw := Switch(Some(ExpSign), false))
      else if c == '.' then keep.(sw := Switch(Some(FractionEntry), false))
      else keep.(emit := Some(TokNumber), sw := Switch(Some(Initial), true))
    case Fraction =>
      if IsDigit(c) then keep
      else if c == 'e' || c == 'E' then keep.(sw := Switch(Some(ExpSign), false))
      else keep.(emit := Some(TokNumber), sw := Switch(Some(Initial), true))
    case ExpSign =>
      if IsDigit(c) then keep.(sw := Switch(Some(ExpEntry), true))
      else if c == '-' || c == '+' then keep.(sw := Switch(Some(ExpEntry), false))
      else keep.(sw := LexFail)
    case Exp =>
      if IsDigit(c) then keep
      else keep.(emit := Some(TokNumber), sw := Switch(Some(Initial), true))
    case InString =>
      var e := keep.(glueOn := true);
      if c == '\\' then e.(sw := Switch(Some(InStringEscape), false))
      else if c == '"' then e.(emit := Some(TokString), sw := Switch(Some(Initial), false))
      else e
    case InStringEscape => keep.(sw := Switch(Some(InString), false))
    case KeywordTrue => Keyword(st, c, glueLen, keep)
    case KeywordFalse => Keyword(st, c, glueLen, keep)
    case KeywordNull => Keyword(st, c, glueLen, keep)
    case LexUnexpected => keep.(raise := true, sw := Switch(None, false))
  }

  /** `_lex_digit_cb`: start gluing; a digit moves on, anything else is a
      lexical error. */
  function DigitEntry(st: LexState, c: char, keep: LexEffect): LexEffect
    requires IsDigitEntry(st)
  {
    var e := keep.(glueOn := true);
    if IsDigit(c) then e.(sw := Switch(Some(DigitTarget(st)), false)) else e.(sw := LexFail)
  }

  /** `_lex_keyword_cb`: the glue so far must be a prefix of the keyword and
      the character the next letter. The token is emitted on the last
      letter, before that letter has been glued, so its text lacks it. */
  function Keyword(st: LexState, c: char, glueLen: nat, keep: LexEffect): LexEffect
    requires IsKeyword(st)
  {
    var kw := KeywordText(st);
    var maxlen := |kw| - 1;
    var e := keep.(glueOn := true);
    if glueLen > maxlen || kw[glueLen] != c then e.(sw := LexFail)
    else if glueLen == maxlen then e.(emit := Some(KeywordToken(st)), sw := Switch(Some(Initial), false))
    else e
  }

  function SynRank(st: SynState): nat
  {
    match st
    case SynUnexpected => 0
    case End => 0
    case InValue => 1
    case ObjectName => 1
    case ObjectColon => 1
    case Entry => 2
    case NewObject => 2
    case NextObject => 2
    case NextArray => 2
  }

  /** The syntax states whose callbacks only choose the next state. */
  predicate IsSimple(st: SynState)
  {
    st == Entry || st == NewObject || st == ObjectColon || st == NextObject || st == NextArray
  }

  /** The token-only syntax callbacks: only `{` or `[` start a document, an
      object opens with `}` or a key, a key is followed by `:`, members and
      items are separated by `,` and ended by the matching bracket. */
  function SynSimple(st: SynState, tok: Token): (sw: Switch<SynState>)
    requires IsSimple(st)
    ensures sw.retrans && sw.next.Some? ==> SynRank(sw.next.value) < SynRank(st)
  {
    match st
    case Entry =>
      if tok == ObjOpen || tok == ArrOpen then Switch(Some(InValue), true) else SynFail
    case NewObject =>
      if tok == ObjClose then Switch(Some(InValue), true)
      else if tok == TokString then Switch(Some(ObjectName), true)
      else SynFail
    case ObjectColon =>
      if tok == Colon then Switch(Some(InValue), false) else SynFail
    case NextObject =>
      if tok == Comma then Switch(Some(ObjectName), false)
      else if tok == ObjClose then Switch(Some(InValue), true)
      else SynFail
    case NextArray =>
      if tok == Comma then Switch(Some(InValue), false)
      else if tok == ArrClose then Switch(Some(InValue), true)
      else SynFail
  }

  /** Who receives the parsed values: the built-in tree builder, or a user
      callback. The user callback is a function of every call made so far
      (its user data is free to remember them). The tree builder carries
      the C library's `atof`; the parse entry points give it `Atof`. */
  datatype Mode = DomMode(atof: string -> real) | SaxMode(handler: seq<Call> -> Handle)

  /** A snapshot of Eina_Json_Context. The glue buffer appears as its text
      and its size; `calls` is the history seen by a user callback and
      `heap` the value store the tree builder allocates into. */
  datatype Parser = Parser(
    lex: Option<LexState>,
    syn: Option<SynState>,
    error: JsonError,
    glueOn: bool,
    glue: string,
    glueCap: nat,
    line: nat,
    col: nat,
    stack: seq<Frame>,
    parent: Handle,
    parentType: JsonType,
    jobj: Handle,
    calls: seq<Call>,
    heap: Heap)

  /** A context as `_eina_json_context_new` leaves it after its reset: both
      machines at their start, no error, empty glue in a 64-byte buffer,
      position 1:1, no parent, and the zeroed parent type. */
  function Fresh(heap: Heap, calls: seq<Call>): Parser
  {
    Parser(Some(Initial), Some(Entry), NoError, false, [], GlueStep, 1, 1, [], Nil, TNull, Nil, calls, heap)
  }

  /** `eina_json_context_completed_get`: the syntax machine has closed the
      root value. */
  predicate Completed(p: Parser)
  {
    p.syn == Some(End)
  }

  /** `eina_json_context_unfinished_get`. */
  predicate Unfinished(p: Parser)
  {
    !Completed(p) && p.error == NoError
  }

  /** Payload of a node the tree builder creates: numbers through `atof`,
      booleans from the first letter of the glue, keys from the glue. */
  function NewPayload(atof: string -> real, kind: JsonType, text: string): Payload
  {
    match kind
    case TNull => NullVal
    case TNumber => NumberVal(atof(text))
    case TString => StringVal(text)
    case TBoolean => BooleanVal(|text| > 0 && text[0] == 't')
    case TPair => PairVal(text, Nil)
    case TObject => ObjectVal([])
    case TArray => ArrayVal([])
  }

  /** How the tree builder attaches a new node to its parent: a pair takes
      it as its value, an object's list gets it appended, both without
      setting the node's parent; an array goes through
      `eina_json_array_append`, which does set it (and refuses pairs). A
      parent that is not a live node is left as it is. */
  function Link(hp: Heap, parent: Handle, h: Handle): Heap
  {
    if parent !in hp.values || h !in hp.values || h == Nil then hp
    else
      var pv := hp.values[parent];
      match pv.payload
      case PairVal(name, _) => hp.(values := hp.values[parent := pv.(payload := PairVal(name, h))])
      case ObjectVal(items) => hp.(values := hp.values[parent := pv.(payload := ObjectVal(items + [h]))])
      case ArrayVal(_) => ArrayAppendOn(hp, parent, h).0
      case _ => hp
  }

  /** `_eina_json_parser_dom_cb`: allocate the node, attach it to its parent,
      or make it the context's root when there is no parent. */
  function DomBuild(atof: string -> real, p: Parser, kind: JsonType, parent: Handle, text: string): (r: (Parser, Handle))
    ensures HeapOk(p.heap) ==> r.1 != Nil && r.1 !in p.heap.values && r.1 in r.0.heap.values
    ensures r.0.(heap := p.heap, jobj := p.jobj) == p
    ensures r.0.jobj == (if parent == Nil then r.1 else p.jobj)
  {
    var (hp, h) := Alloc(p.heap, NewPayload(atof, kind, text));
    if parent == Nil then (p.(heap := hp, jobj := h), h)
    else (p.(heap := Link(hp, parent, h)), h)
  }

  /** The parser callback: the tree builder, or one more call to the user
      callback. Nothing but the client's state changes. */
  function Callback(m: Mode, p: Parser, kind: JsonType, parent: Handle, text: string): (r: (Parser, Handle))
    ensures r.0.(heap := p.heap, jobj := p.jobj, calls := p.calls) == p
    ensures m.SaxMode? ==> r.0.calls == p.calls + [Call(kind, parent, text)] && r.0.heap == p.heap && r.0.jobj == p.jobj
    ensures m.DomMode? ==> r.0.calls == p.calls
  {
    match m
    case DomMode(atof) => DomBuild(atof, p, kind, parent, text)
    case SaxMode(handler) =>
      var log := p.calls + [Call(kind, parent, text)];
      (p.(calls := log), handler(log))
  }

  /** `q` agrees with `p` on the lexer, the glue and the position: the
      part of the context the syntax machine never touches. */
  predicate KeepsLexSide(p: Parser, q: Parser)
  {
    q.lex == p.lex && q.glueOn == p.glueOn && q.glue == p.glue && q.glueCap == p.glueCap
    && q.line == p.line && q.col == p.col
  }

  /** Two `eina_array_pop` calls: the parent handle, then its type. An
      empty stack yields NULL for both, that is `Nil` and type 0. */
  function PopParent(p: Parser): (r: Parser)
    ensures KeepsLexSide(p, r)
  {
    if |p.stack| == 0 then p.(parent := Nil, parentType := TNull)
    else
      var top := p.stack[|p.stack| - 1];
      p.(stack := p.stack[..|p.stack| - 1], parent := top.handle, parentType := top.kind)
  }

  /** After a value is complete: leave the pair it was the value of, and
      expect the continuation of the enclosing object or array. */
  function FinishValue(p: Parser): (r: (Parser, Switch<SynState>))
    ensures !r.1.retrans
    ensures KeepsLexSide(p, r.0)
  {
    var q := if p.parentType == TPair then PopParent(p) else p;
    (q, Switch(Some(if q.parentType == TObject then NextObject else NextArray), false))
  }

  /** Tokens that stand for a value: everything but the closing brackets
      and the separators. */
  predicate IsValueToken(tok: Token)
  {
    tok != ObjClose && tok != ArrClose && tok != Comma && tok != Colon
  }

  /** The value type `_syntx_value_cb` announces for a value token. */
  function TokenKind(tok: Token): (k: JsonType)
    requires IsValueToken(tok)
    ensures k != TPair
    ensures (k == TObject || k == TArray) <==> (tok == ObjOpen || tok == ArrOpen)
  {
    match tok
    case ObjOpen => TObject
    case ArrOpen => TArray
    case TokNumber => TNumber
    case TokString => TString
    case TokNull => TNull
    case _ => TBoolean
  }

  /** `_syntx_value_cb`. */
  function SynValue(m: Mode, p: Parser, tok: Token): (r: (Parser, Switch<SynState>))
    ensures r.1.retrans && r.1.next.Some? ==> r.1.next == Some(SynUnexpected)
    ensures KeepsLexSide(p, r.0)
  {
    match tok
    case ObjClose => CloseValue(p)
    case ArrClose => CloseValue(p)
    case ObjOpen => OpenOrFail(m, p, TObject, NewObject)
    case ArrOpen => OpenOrFail(m, p, TArray, InValue)
    case TokNumber => Scalar(m, p, TNumber)
    case TokString => Scalar(m, p, TString)
    case TokTrue => Scalar(m, p, TBoolean)
    case TokFalse => Scalar(m, p, TBoolean)
    case TokNull => Scalar(m, p, TNull)
    case Comma => (p, SynFail)
    case Colon => (p, SynFail)
  }

  /** A closing bracket in a value position: with an empty stack the root
      is complete; otherwise the enclosing parent comes back and the value
      it was is complete. Which bracket it is is not checked here. */
  function CloseValue(p: Parser): (r: (Parser, Switch<SynState>))
    ensures KeepsLexSide(p, r.0)
  {
    if |p.stack| < 1 then (p, Switch(Some(End), false))
    else FinishValue(PopParent(p))
  }

  /** `{` or `[` in a value position: announce the container, save the
      current parent (if any) on the stack and make the container the
      parent. */
  function OpenOrFail(m: Mode, p: Parser, kind: JsonType, next: SynState): (r: (Parser, Switch<SynState>))
    ensures KeepsLexSide(p, r.0)
  {
    var (q, h) := Callback(m, p, kind, p.parent, p.glue);
    if h == Nil then (q, SynFail)
    else
      var q2 := if q.parent != Nil then q.(stack := q.stack + [Frame(q.parentType, q.parent)]) else q;
      (q2.(parent := h, parentType := kind), Switch(Some(next), false))
  }

  function Scalar(m: Mode, p: Parser, kind: JsonType): (r: (Parser, Switch<SynState>))
    ensures KeepsLexSide(p, r.0)
  {
    var (q, h) := Callback(m, p, kind, p.parent, p.glue);
    if h == Nil then (q, SynFail) else FinishValue(q)
  }

  /** `_syntx_object_name_cb`: on a string, save the object on the stack,
      announce the pair with the key as text, and make the pair the
      parent (even when the callback answers NULL). */
  function SynObjectName(m: Mode, p: Parser, tok: Token): (r: (Parser, Switch<SynState>))
    ensures r.1.retrans && r.1.next.Some? ==> r.1.next == Some(SynUnexpected)
    ensures KeepsLexSide(p, r.0)
  {
    if tok != TokString then (p, SynFail)
    else
      var q := p.(stack := p.stack + [Frame(p.parentType, p.parent)], parentType := TPair);
      var (r, h) := Callback(m, q, TPair, p.parent, p.glue);
      (r.(parent := h), if h != Nil then Switch(Some(ObjectColon), false) else SynFail)
  }

  /** A syntax error is recorded only when no error is set yet. */
  function RaiseSyntax(p: Parser): Parser
  {
    p.(error := if p.error == NoError then SyntaxError else p.error)
  }

  /** The syntax callbacks, one per state. */
  function SynCallback(m: Mode, p: Parser, st: SynState, tok: Token): (r: (Parser, Switch<SynState>))
    ensures r.1.retrans && r.1.next.Some? ==> SynRank(r.1.next.value) < SynRank(st)
    ensures KeepsLexSide(p, r.0)
  {
    match st
    case InValue => SynValue(m, p, tok)
    case ObjectName => SynObjectName(m, p, tok)
    case End => (p.(error := PastEnd), Switch(None, false))
    case SynUnexpected => (RaiseSyntax(p), Switch(None, false))
    case Entry => (p, SynSimple(st, tok))
    case NewObject => (p, SynSimple(st, tok))
    case ObjectColon => (p, SynSimple(st, tok))
    case NextObject => (p, SynSimple(st, tok))
    case NextArray => (p, SynSimple(st, tok))
  }

  function SynMeasure(s: Option<SynState>): nat
  {
    if s.Some? then SynRank(s.value) + 1 else 0
  }

  function LexMeasure(s: Option<LexState>): nat
  {
    if s.Some? then LexRank(s.value) + 1 else 0
  }

  /** `_state_machine_feed` on the syntax machine: run callbacks while they
      ask for the token to be retransmitted. */
  function SyntaxRun(m: Mode, p: Parser, tok: Token): Parser
    decreases SynMeasure(p.syn)
  {
    if p.syn.None? then p
    else
      var (q, sw) := SynCallback(m, p, p.syn.value, tok);
      var q2 := q.(syn := sw.next);
      if sw.retrans && sw.next.Some? then SyntaxRun(m, q2, tok) else q2
  }

  /** The first effects of a lexer callback: drop the previous token's
      text, set the gluing flag, count a newline (the column restarts at
      0 and the loop's increment makes it 1). */
  function LexPrelude(p: Parser, e: LexEffect): Parser
  {
    var p1 := if e.clearGlue then p.(glue := []) else p;
    var p2 := p1.(glueOn := e.glueOn);
    if e.newline then p2.(line := p2.line + 1, col := 0) else p2
  }

  /** Hand the emitted token, if any, to the syntax machine. */
  function EmitToken(m: Mode, p: Parser, emit: Option<Token>): Parser
  {
    if emit.Some? then SyntaxRun(m, p, emit.value) else p
  }

  /** A lexical error is recorded only when no error is set yet. */
  function RaiseLex(p: Parser): Parser
  {
    p.(error := if p.error == NoError then LexError else p.error)
  }

  /** The effect of one lexer callback on the context. */
  function ApplyLex(m: Mode, p: Parser, e: LexEffect): Parser
  {
    var q := EmitToken(m, LexPrelude(p, e), e.emit);
    if e.raise then RaiseLex(q) else q
  }

  /** `_state_machine_feed` on the lexer. */
  function LexRun(m: Mode, p: Parser, c: char): Parser
    decreases LexMeasure(p.lex)
  {
    if p.lex.None? then p
    else
      var e := LexTransition(p.lex.value, c, p.glueOn, |p.glue|);
      var q := ApplyLex(m, p, e).(lex := e.sw.next);
      if e.sw.retrans && e.sw.next.Some? then LexRun(m, q, c) else q
  }

  /** Glue a character: grow the buffer by one step when fewer than two
      bytes are free, then store the character (and the NUL after it). */
  function AppendGlue(p: Parser, c: char): Parser
  {
    var cap := if p.glueCap - |p.glue| < 2 then p.glueCap + GlueStep else p.glueCap;
    p.(glue := p.glue + [c], glueCap := cap)
  }

  /** One iteration of the loop in `_eina_json_context_parse`: lex the
      character, glue it if gluing is on, and advance the column unless an
      error is now set (the loop then returns at once). */
  function Step(m: Mode, p: Parser, c: char): Parser
  {
    var q := LexRun(m, p, c);
    var q2 := if q.glueOn then AppendGlue(q, c) else q;
    if q2.error != NoError then q2 else q2.(col := q2.col + 1)
  }

  /** `_eina_json_context_parse` on the characters it reads: refuses to
      start when an error is set, and stops at the first character that
      sets one. The flag is the function's return value. */
  function Feed(m: Mode, p: Parser, s: string): (Parser, bool)
    decreases |s|, 1
  {
    if p.error != NoError then (p, false)
    else if |s| == 0 then (p, true)
    else FeedChar(m, p, s)
  }

  /** One more character of the loop, then the rest of the text. */
  function FeedChar(m: Mode, p: Parser, s: string): (Parser, bool)
    requires |s| > 0
    decreases |s|, 0
  {
    Feed(m, Step(m, p, s[0]), s[1..])
  }

  /** The loop without an error reads the first character, then the rest. */
  lemma FeedFirst(m: Mode, p: Parser, s: string)
    requires p.error == NoError && |s| > 0
    ensures Feed(m, p, s) == Feed(m, Step(m, p, s[0]), s[1..])
  {
  }

  /** Two characters read without an error, then the rest. */
  lemma FeedTwo(m: Mode, p: Parser, s: string)
    requires p.error == NoError && |s| >= 2 && Step(m, p, s[0]).error == NoError
    ensures Feed(m, p, s) == Feed(m, Step(m, Step(m, p, s[0]), s[1]), s[2..])
  {
    FeedFirst(m, p, s);
    assert s[1..][0] == s[1] && s[1..][1..] == s[2..];
    FeedFirst(m, Step(m, p, s[0]), s[1..]);
  }

  /** The text before the first NUL (or all of it). */
  function UpToNul(s: string): (r: string)
    ensures |r| <= |s| && r == s[..|r|]
    ensures '\0' !in r
    ensures |r| < |s| ==> s[|r|] == '\0'
    decreases |s|
  {
    if |s| == 0 || s[0] == '\0' then [] else [s[0]] + UpToNul(s[1..])
  }

  /** The characters `_eina_json_context_parse` reads: up to the first NUL,
      and no more than `len` of them when `len` is not zero. */
  function Cut(text: string, len: nat): (r: string)
    ensures |r| <= |text| && r == text[..|r|]
    ensures '\0' !in r
    ensures len != 0 ==> |r| <= len
    ensures |r| < |text| && text[|r|] != '\0' ==> len != 0 && |r| == len
  {
    var t := UpToNul(text);
    if len == 0 || len >= |t| then t else t[..len]
  }

  /** `eina_json_context_reset` on everything but the value store: both
      machines restart, the error, glue, stack, parent and root are
      cleared and the position is 1:1. The glue buffer keeps its size and
      the parent type is left as it was. */
  function ResetState(p: Parser): Parser
  {
    p.(lex := Some(Initial), syn := Some(Entry), error := NoError, glueOn := false, glue := [],
       stack := [], jobj := Nil, parent := Nil, line := 1, col := 1)
  }

  /** `eina_json_context_parse_n`: a zero length only reports whether an
      error is set; otherwise the text is fed. `eina_json_context_parse`
      is this with the length 0 handed straight to the loop. */
  function ContextParseN(m: Mode, p: Parser, text: string, len: nat): (Parser, bool)
  {
    if len == 0 then (p, p.error != NoError) else Feed(m, p, Cut(text, len))
  }

  function ContextParse(m: Mode, p: Parser, text: string): (Parser, bool)
  {
    Feed(m, p, Cut(text, 0))
  }

  /** `eina_json_context_dom_tree_take` on the snapshot: the root once the
      document is complete, and the context forgets it. */
  function TreeTake(p: Parser): (Parser, Handle)
  {
    if !Completed(p) || p.jobj == Nil then (p, Nil) else (p.(jobj := Nil), p.jobj)
  }

  /** Decimal value of a digit string. */
  function DigitsValue(s: string): nat
    requires forall i :: 0 <= i < |s| ==> IsDigit(s[i])
    decreases |s|
  {
    if |s| == 0 then 0
    else
      assert IsDigit(s[|s| - 1]);
      DigitsValue(s[..|s| - 1]) * 10 + (s[|s| - 1] as int - '0' as int)
  }

  /** Length of the run of digits at the start of `s`. */
  function LeadingDigits(s: string): (n: nat)
    ensures n <= |s| && forall i :: 0 <= i < n ==> IsDigit(s[i])
    ensures n < |s| ==> !IsDigit(s[n])
    decreases |s|
  {
    if |s| == 0 || !IsDigit(s[0]) then 0 else 1 + LeadingDigits(s[1..])
  }

  function Pow10(n: nat): (r: real)
    ensures r >= 1.0
    decreases n
  {
    if n == 0 then 1.0 else 10.0 * Pow10(n - 1)
  }

  /** `atof` on decimal text, exactly: an optional sign, digits, an optional
      fraction and an optional exponent; what follows the longest such
      prefix is ignored. */
  function Atof(s: string): real
  {
    var neg := |s| > 0 && s[0] == '-';
    var t := if |s| > 0 && (s[0] == '-' || s[0] == '+') then s[1..] else s;
    var v := UnsignedValue(t);
    if neg then -v else v
  }

  /** The digits, fraction and exponent that start `t`, without a sign. */
  function UnsignedValue(t: string): real
  {
    var n := LeadingDigits(t);
    var (frac, rest) := FractionPart(t[n..]);
    Scaled(DigitsValue(t[..n]) as real + frac, rest)
  }

  /** A `.` followed by at least one digit, and the text after it. */
  function FractionPart(rest: string): (real, string)
  {
    if |rest| > 0 && rest[0] == '.' then
      var k := LeadingDigits(rest[1..]);
      if k > 0 then (DigitsValue(rest[1..1 + k]) as real / Pow10(k), rest[1 + k..])
      else (0.0, rest)
    else (0.0, rest)
  }

  /** `mant` scaled by the exponent `e`/`E` with an optional sign and at
      least one digit that starts `rest`, if there is one. */
  function Scaled(mant: real, rest: string): real
  {
    if |rest| > 0 && (rest[0] == 'e' || rest[0] == 'E') then
      var esign := if |rest| > 1 && (rest[1] == '-' || rest[1] == '+') then 1 else 0;
      var ed := LeadingDigits(rest[1 + esign..]);
      if ed == 0 then mant
      else
        var expo := DigitsValue(rest[1 + esign..1 + esign + ed]);
        if esign == 1 && rest[1] == '-' then mant / Pow10(expo) else mant * Pow10(expo)
    else mant
  }
}
