/** The text the parser callback receives with each lexeme: strings
    without their quotes and with escapes as written, numbers exactly as
    written, keywords without their last letter. Also the number shape
    the lexer accepts (section 6 of RFC 8259, plus leading zeros). */
module JsonLexemes {
  import opened JsonTypes
  import opened JsonValue
  import opened JsonMachine
  import opened JsonProperties
  import opened JsonCallbacks

  /** `q` agrees with `p` on everything the lexer does not touch and on
      the line: the grammar, the error, the stack, the parent, the tree,
      the callback log. */
  predicate KeepsSyntaxSide(p: Parser, q: Parser)
  {
    q.syn == p.syn && q.error == p.error && q.stack == p.stack && q.parent == p.parent
    && q.parentType == p.parentType && q.jobj == p.jobj && q.calls == p.calls && q.heap == p.heap
    && q.line == p.line
  }

  /** A transition that only glues the character and moves on. */
  predicate GluesOnly(q: Parser, c: char)
    requires q.lex.Some?
  {
    var e := LexTransition(q.lex.value, c, q.glueOn, |q.glue|);
    e.emit.None? && !e.raise && !e.newline && !e.clearGlue && e.glueOn
    && !e.sw.retrans && e.sw.next.Some?
  }

  lemma QuietStep(m: Mode, q: Parser, c: char)
    requires q.lex.Some? && q.error == NoError && GluesOnly(q, c)
    ensures var r := Step(m, q, c);
      r.lex == LexTransition(q.lex.value, c, q.glueOn, |q.glue|).sw.next
      && r.glue == q.glue + [c] && r.glueOn && r.col == q.col + 1
      && KeepsSyntaxSide(q, r)
  {
  }

  /** The initial state on the first character of a string, number or
      keyword: the previous token's text is dropped. An opening quote
      only switches to the string state, without gluing. */
  lemma OpeningQuote(m: Mode, p: Parser)
    requires p.lex == Some(Initial) && p.error == NoError && (!p.glueOn ==> p.glue == [])
    ensures var r := Step(m, p, '"');
      KeepsSyntaxSide(p, r) && r.col == p.col + 1 && r.error == NoError
      && r.lex == Some(InString) && r.glue == [] && !r.glueOn
  {
  }

  /** A minus sign starts gluing a number in the state expecting a digit. */
  lemma OpeningMinus(m: Mode, p: Parser)
    requires p.lex == Some(Initial) && p.error == NoError && (!p.glueOn ==> p.glue == [])
    ensures var r := Step(m, p, '-');
      KeepsSyntaxSide(p, r) && r.col == p.col + 1 && r.error == NoError
      && r.lex == Some(IntEntry) && r.glue == ['-'] && r.glueOn
  {
  }

  /** A digit or a keyword's first letter is handed on to the state that
      reads it, which starts gluing. */
  lemma OpeningRetrans(m: Mode, p: Parser, c: char)
    requires p.lex == Some(Initial) && p.error == NoError && (!p.glueOn ==> p.glue == [])
    requires IsDigit(c) || c == 't' || c == 'f' || c == 'n'
    ensures var r := Step(m, p, c);
      KeepsSyntaxSide(p, r) && r.col == p.col + 1 && r.error == NoError && r.glue == [c] && r.glueOn
      && r.lex == Some(if IsDigit(c) then Int else if c == 't' then KeywordTrue
                       else if c == 'f' then KeywordFalse else KeywordNull)
  {
    var target := if IsDigit(c) then Int else if c == 't' then KeywordTrue
                  else if c == 'f' then KeywordFalse else KeywordNull;
    var first := if IsDigit(c) then IntEntry else target;
    var q := p.(glue := [], glueOn := false, lex := Some(first));
    InitialHandsOn(m, p, c, first);
    FirstLetterGlues(m, q, c, target);
    assert Step(m, p, c) == AppendGlue(q.(glueOn := true, lex := Some(target)), c).(col := p.col + 1);
  }

  /** The initial state drops the previous token's text and retransmits
      the character to the state that reads the lexeme. */
  lemma InitialHandsOn(m: Mode, p: Parser, c: char, first: LexState)
    requires p.lex == Some(Initial) && p.error == NoError && (!p.glueOn ==> p.glue == [])
    requires first == (if IsDigit(c) then IntEntry else if c == 't' then KeywordTrue
                       else if c == 'f' then KeywordFalse else KeywordNull)
    requires IsDigit(c) || c == 't' || c == 'f' || c == 'n'
    ensures LexRun(m, p, c) == LexRun(m, p.(glue := [], glueOn := false, lex := Some(first)), c)
  {
    var e := LexTransition(Initial, c, p.glueOn, |p.glue|);
    assert e.sw == Switch(Some(first), true);
    assert ApplyLex(m, p, e).(lex := e.sw.next) == p.(glue := [], glueOn := false, lex := Some(first));
  }

  /** The state reading a lexeme's first character starts gluing. */
  lemma FirstLetterGlues(m: Mode, q: Parser, c: char, target: LexState)
    requires IsDigit(c) || c == 't' || c == 'f' || c == 'n'
    requires target == (if IsDigit(c) then Int else if c == 't' then KeywordTrue
                        else if c == 'f' then KeywordFalse else KeywordNull)
    requires q.lex == Some(if IsDigit(c) then IntEntry else target) && q.glue == [] && !q.glueOn
    ensures LexRun(m, q, c) == q.(glueOn := true, lex := Some(target))
  {
    var f := LexTransition(q.lex.value, c, false, 0);
    assert !f.sw.retrans && f.sw.next == Some(target);
    assert ApplyLex(m, q, f).(lex := f.sw.next) == q.(glueOn := true, lex := Some(target));
  }

  // ---------------------------------------------------------------------
  // Strings

  /** The body of a string as the lexer scans it: any characters (control
      characters included) except an unescaped quote, and every backslash
      followed by one more character, which is kept as it is. */
  predicate StringBody(s: string)
    decreases |s|
  {
    |s| == 0
    || (s[0] == '\\' && |s| >= 2 && StringBody(s[2..]))
    || (s[0] != '\\' && s[0] != '"' && StringBody(s[1..]))
  }

  /** An escape inside a string: the backslash and the character after
      it are both glued, and the lexer is back in the string. */
  lemma EscapeSteps(m: Mode, q: Parser, x: char)
    requires q.lex == Some(InString) && q.error == NoError
    ensures Step(m, q, '\\').error == NoError
    ensures var r := Step(m, Step(m, q, '\\'), x);
      r.lex == Some(InString) && r.glue == q.glue + ['\\', x] && r.glueOn
      && r.col == q.col + 2 && KeepsSyntaxSide(q, r)
  {
    QuietStep(m, q, '\\');
    var q1 := Step(m, q, '\\');
    QuietStep(m, q1, x);
  }

  /** Inside a string, a body is glued verbatim, escapes included, and
      nothing else changes but the column. */
  lemma {:induction false} StringBodyFeed(m: Mode, q: Parser, body: string)
    requires q.lex == Some(InString) && q.error == NoError && StringBody(body)
    ensures var r := Feed(m, q, body).0;
      Feed(m, q, body).1 && r.lex == Some(InString) && r.glue == q.glue + body
      && (r.glueOn <==> q.glueOn || |body| > 0) && r.col == q.col + |body|
      && KeepsSyntaxSide(q, r)
    decreases |body|, 1
  {
    if |body| > 0 {
      if body[0] == '\\' {
        EscapedBodyFeed(m, q, body);
      } else {
        PlainBodyFeed(m, q, body);
      }
    }
  }

  lemma {:induction false} EscapedBodyFeed(m: Mode, q: Parser, body: string)
    requires q.lex == Some(InString) && q.error == NoError && StringBody(body)
    requires |body| > 0 && body[0] == '\\'
    ensures var r := Feed(m, q, body).0;
      Feed(m, q, body).1 && r.lex == Some(InString) && r.glue == q.glue + body
      && r.glueOn && r.col == q.col + |body| && KeepsSyntaxSide(q, r)
    decreases |body|, 0
  {
    EscapeSteps(m, q, body[1]);
    var q2 := Step(m, Step(m, q, body[0]), body[1]);
    FeedTwo(m, q, body);
    StringBodyFeed(m, q2, body[2..]);
    TwoThenRest(q.glue, body);
  }

  /** Text glued one character and then the rest is the text. */
  lemma OneThenRest(g: string, s: string)
    requires |s| >= 1
    ensures g + [s[0]] + s[1..] == g + s
  {
    assert s == [s[0]] + s[1..];
  }

  /** A prefix of a text grown by the text's next character. */
  lemma PrefixGrows(s: string, i: nat)
    requires i < |s|
    ensures s[..i] + [s[i]] == s[..i + 1]
  {
  }

  /** The head and the tail of a slice of a text. */
  lemma SliceHead(s: string, i: nat, j: nat)
    requires i < j <= |s|
    ensures s[i..j][0] == s[i] && s[i..j][1..] == s[i + 1..j] && s[0..j] == s[..j]
  {
  }

  /** Text glued two characters at a time and then the rest is the text. */
  lemma TwoThenRest(g: string, s: string)
    requires |s| >= 2
    ensures g + [s[0], s[1]] + s[2..] == g + s
  {
    assert s == [s[0], s[1]] + s[2..];
  }

  lemma {:induction false} PlainBodyFeed(m: Mode, q: Parser, body: string)
    requires q.lex == Some(InString) && q.error == NoError && StringBody(body)
    requires |body| > 0 && body[0] != '\\'
    ensures var r := Feed(m, q, body).0;
      Feed(m, q, body).1 && r.lex == Some(InString) && r.glue == q.glue + body
      && r.glueOn && r.col == q.col + |body| && KeepsSyntaxSide(q, r)
    decreases |body|, 0
  {
    QuietStep(m, q, body[0]);
    var q1 := Step(m, q, body[0]);
    StringBodyFeed(m, q1, body[1..]);
    FeedFirst(m, q, body);
    OneThenRest(q.glue, body);
  }

  /** After an opening quote and a body, the glue is the body: no quote,
      escapes as written; the closing quote then hands a string token to
      the grammar with exactly that text. */
  lemma StringLexeme(m: Mode, p: Parser, body: string)
    requires p.lex == Some(Initial) && p.error == NoError && (!p.glueOn ==> p.glue == [])
    requires StringBody(body)
    ensures var r := Feed(m, p, "\"" + body).0;
      Feed(m, p, "\"" + body).1 && r.lex == Some(InString) && r.glue == body
      && KeepsSyntaxSide(p, r)
      && LexRun(m, r, '"') == SyntaxRun(m, r.(glueOn := true), TokString).(lex := Some(Initial))
  {
    OpeningQuote(m, p);
    var q := Step(m, p, '"');
    assert ("\"" + body)[0] == '"' && ("\"" + body)[1..] == body;
    StringBodyFeed(m, q, body);
  }

  /** A string in a value position reaches a user callback as its body. */
  lemma StringValueText(m: Mode, p: Parser, body: string)
    requires m.SaxMode? && p.syn == Some(InValue)
    requires p.lex == Some(Initial) && p.error == NoError && (!p.glueOn ==> p.glue == [])
    requires StringBody(body)
    ensures LexRun(m, Feed(m, p, "\"" + body).0, '"').calls == p.calls + [Call(TString, p.parent, body)]
  {
    StringLexeme(m, p, body);
    var r := Feed(m, p, "\"" + body).0;
    ValueTokenCalls(m, r.(glueOn := true), TokString);
  }

  // ---------------------------------------------------------------------
  // Numbers

  predicate IsNumberState(st: LexState)
  {
    st == IntEntry || st == Int || st == FractionEntry || st == Fraction
    || st == ExpSign || st == ExpEntry || st == Exp
  }

  /** The number grammar of section 6 of RFC 8259 as a state machine, with
      leading zeros allowed: the state reached on one more character of a
      number, or None when the character cannot continue it. Only `Int`,
      `Fraction` and `Exp` are states where a number may end. */
  function NumMove(st: LexState, c: char): (r: Option<LexState>)
    ensures r.Some? ==> IsNumberState(r.value)
  {
    match st
    case Initial => if IsDigit(c) then Some(Int) else if c == '-' then Some(IntEntry) else None
    case IntEntry => if IsDigit(c) then Some(Int) else None
    case Int =>
      if IsDigit(c) then Some(Int)
      else if c == '.' then Some(FractionEntry)
      else if c == 'e' || c == 'E' then Some(ExpSign)
      else None
    case FractionEntry => if IsDigit(c) then Some(Fraction) else None
    case Fraction =>
      if IsDigit(c) then Some(Fraction)
      else if c == 'e' || c == 'E' then Some(ExpSign)
      else None
    case ExpSign =>
      if IsDigit(c) then Some(Exp)
      else if c == '-' || c == '+' then Some(ExpEntry)
      else None
    case ExpEntry => if IsDigit(c) then Some(Exp) else None
    case Exp => if IsDigit(c) then Some(Exp) else None
    case _ => None
  }

  function NumPath(st: LexState, s: string): Option<LexState>
    decreases |s|
  {
    if |s| == 0 then Some(st)
    else
      var n := NumMove(st, s[0]);
      if n.None? then None else NumPath(n.value, s[1..])
  }

  predicate CanEndNumber(st: LexState)
  {
    st == Int || st == Fraction || st == Exp
  }

  lemma NumberExamples()
    ensures NumPath(Initial, "-4.67e2") == Some(Exp)
    ensures NumPath(Initial, "007") == Some(Int)
    ensures NumPath(Initial, "1.") == Some(FractionEntry)
    ensures NumPath(Initial, ".5") == None
    ensures NumPath(Initial, "+1") == None
  {
  }

  /** Inside a number, the lexer follows the grammar: a character that
      continues the number is glued and moves to the grammar's state. */
  lemma NumberContinues(m: Mode, q: Parser, c: char)
    requires q.lex.Some? && IsNumberState(q.lex.value) && q.glueOn && q.error == NoError
    requires NumMove(q.lex.value, c).Some?
    ensures var r := Step(m, q, c);
      r.lex == NumMove(q.lex.value, c) && r.glue == q.glue + [c] && r.glueOn
      && r.col == q.col + 1 && KeepsSyntaxSide(q, r)
  {
    var st := q.lex.value;
    if st == ExpSign && IsDigit(c) {
      var e := LexTransition(st, c, q.glueOn, |q.glue|);
      var q1 := ApplyLex(m, q, e).(lex := Some(ExpEntry));
      assert q1 == q.(lex := Some(ExpEntry));
      assert LexRun(m, q, c) == LexRun(m, q1, c);
    } else {
      QuietStep(m, q, c);
    }
  }

  /** Reading a number prefix: the glue is the prefix exactly as written
      and the lexer is in the grammar's state. */
  lemma {:induction false} NumberFeed(m: Mode, q: Parser, s: string)
    requires q.lex.Some? && IsNumberState(q.lex.value) && q.glueOn && q.error == NoError
    requires NumPath(q.lex.value, s).Some?
    ensures var r := Feed(m, q, s).0;
      Feed(m, q, s).1 && r.lex == NumPath(q.lex.value, s) && r.glue == q.glue + s
      && r.glueOn && r.col == q.col + |s| && KeepsSyntaxSide(q, r)
    decreases |s|
  {
    if |s| > 0 {
      var c := s[0];
      NumberContinues(m, q, c);
      var q1 := Step(m, q, c);
      assert NumPath(q.lex.value, s) == NumPath(q1.lex.value, s[1..]);
      NumberFeed(m, q1, s[1..]);
      FeedFirst(m, q, s);
      OneThenRest(q.glue, s);
    }
  }

  /** A whole number lexeme read from the initial state leaves it, as
      written, in the glue. */
  lemma NumberLexeme(m: Mode, p: Parser, s: string)
    requires p.lex == Some(Initial) && p.error == NoError && (!p.glueOn ==> p.glue == [])
    requires |s| > 0 && NumPath(Initial, s).Some?
    ensures var r := Feed(m, p, s).0;
      Feed(m, p, s).1 && r.lex == NumPath(Initial, s) && r.glue == s && r.glueOn
      && KeepsSyntaxSide(p, r)
  {
    if s[0] == '-' {
      OpeningMinus(m, p);
    } else {
      OpeningRetrans(m, p, s[0]);
    }
    var q := Step(m, p, s[0]);
    NumberFeed(m, q, s[1..]);
    assert [s[0]] + s[1..] == s;
  }

  /** A character that cannot continue a complete number hands a number
      token to the grammar, with the lexeme as its text, and is then read
      again from the initial state. */
  lemma NumberEnds(m: Mode, q: Parser, c: char)
    requires q.lex.Some? && CanEndNumber(q.lex.value) && NumMove(q.lex.value, c).None?
    ensures LexRun(m, q, c) == LexRun(m, SyntaxRun(m, q, TokNumber).(lex := Some(Initial)), c)
  {
    var e := LexTransition(q.lex.value, c, q.glueOn, |q.glue|);
    assert LexPrelude(q, e) == q;
  }

  /** A character that cannot continue an incomplete number (a lone `-`,
      `1.`, `1e`, `1e+`) is a lexical error; the grammar sees nothing. */
  lemma NumberBroken(m: Mode, q: Parser, c: char)
    requires q.lex.Some? && IsNumberState(q.lex.value) && !CanEndNumber(q.lex.value)
    requires NumMove(q.lex.value, c).None? && q.error == NoError
    ensures var r := LexRun(m, q, c);
      r.error == LexError && r.syn == q.syn && r.calls == q.calls && r.lex.None?
  {
    var e := LexTransition(q.lex.value, c, q.glueOn, |q.glue|);
    var q1 := ApplyLex(m, q, e).(lex := Some(LexUnexpected));
    assert q1.syn == q.syn && q1.calls == q.calls && q1.error == NoError;
    assert LexRun(m, q, c) == LexRun(m, q1, c);
  }

  /** A number in a value position reaches a user callback exactly as
      written, for instance `-4.67e2`. */
  lemma NumberValueText(m: Mode, p: Parser, s: string, c: char)
    requires m.SaxMode? && p.syn == Some(InValue)
    requires p.lex == Some(Initial) && p.error == NoError && (!p.glueOn ==> p.glue == [])
    requires |s| > 0 && NumPath(Initial, s).Some? && CanEndNumber(NumPath(Initial, s).value)
    requires NumMove(NumPath(Initial, s).value, c).None?
    ensures var r := Feed(m, p, s).0;
      LexRun(m, r, c) == LexRun(m, SyntaxRun(m, r, TokNumber).(lex := Some(Initial)), c)
      && SyntaxRun(m, r, TokNumber).calls == p.calls + [Call(TNumber, p.parent, s)]
  {
    NumberLexeme(m, p, s);
    var r := Feed(m, p, s).0;
    NumberEnds(m, r, c);
    ValueTokenCalls(m, r, TokNumber);
  }

  // ---------------------------------------------------------------------
  // Keywords

  /** Inside a keyword, each expected letter is glued. */
  lemma {:induction false} KeywordFeed(m: Mode, q: Parser, st: LexState, i: nat, j: nat)
    requires IsKeyword(st) && q.lex == Some(st) && q.glueOn && q.error == NoError
    requires 0 < i <= j < |KeywordText(st)| && q.glue == KeywordText(st)[..i]
    ensures var r := Feed(m, q, KeywordText(st)[i..j]).0;
      Feed(m, q, KeywordText(st)[i..j]).1 && r.lex == Some(st)
      && r.glue == KeywordText(st)[..j] && r.glueOn && KeepsSyntaxSide(q, r)
    decreases j - i
  {
    var kw := KeywordText(st);
    if i < j {
      QuietStep(m, q, kw[i]);
      var q1 := Step(m, q, kw[i]);
      PrefixGrows(kw, i);
      KeywordFeed(m, q1, st, i + 1, j);
      SliceHead(kw, i, j);
      FeedFirst(m, q, kw[i..j]);
    }
  }

  /** A keyword read from the initial state: after all but its last
      letter the glue holds those letters, and the last letter hands the
      keyword's token to the grammar before it is glued, so the token's
      text lacks its last letter (`tru`, `fals`, `nul`). */
  lemma KeywordLexeme(m: Mode, p: Parser, st: LexState)
    requires IsKeyword(st)
    requires p.lex == Some(Initial) && p.error == NoError && (!p.glueOn ==> p.glue == [])
    ensures var kw := KeywordText(st);
      var r := Feed(m, p, kw[..|kw| - 1]).0;
      Feed(m, p, kw[..|kw| - 1]).1 && r.lex == Some(st) && r.glue == kw[..|kw| - 1]
      && KeepsSyntaxSide(p, r)
      && LexRun(m, r, kw[|kw| - 1]) == SyntaxRun(m, r, KeywordToken(st)).(lex := Some(Initial))
  {
    var kw := KeywordText(st);
    var n := |kw| - 1;
    OpeningRetrans(m, p, kw[0]);
    var q := Step(m, p, kw[0]);
    PrefixGrows(kw, 0);
    KeywordFeed(m, q, st, 1, n);
    SliceHead(kw, 0, n);
    FeedFirst(m, p, kw[..n]);
    KeywordLastLetter(m, Feed(m, p, kw[..n]).0, st);
  }

  /** With all but the last letter glued, the last one hands the keyword's
      token to the grammar and leaves the glue to it. */
  lemma KeywordLastLetter(m: Mode, r: Parser, st: LexState)
    requires IsKeyword(st) && r.lex == Some(st) && r.error == NoError
    requires r.glueOn && r.glue == KeywordText(st)[..|KeywordText(st)| - 1]
    ensures var kw := KeywordText(st);
      LexRun(m, r, kw[|kw| - 1]) == SyntaxRun(m, r, KeywordToken(st)).(lex := Some(Initial))
  {
    var kw := KeywordText(st);
    var e := LexTransition(st, kw[|kw| - 1], r.glueOn, |r.glue|);
    assert LexPrelude(r, e) == r;
  }

  /** `true` in a value position reaches a user callback as `tru`. */
  lemma TrueValueText(m: Mode, p: Parser)
    requires m.SaxMode? && p.syn == Some(InValue)
    requires p.lex == Some(Initial) && p.error == NoError && (!p.glueOn ==> p.glue == [])
    ensures LexRun(m, Feed(m, p, "tru").0, 'e').calls == p.calls + [Call(TBoolean, p.parent, "tru")]
  {
    KeywordLexeme(m, p, KeywordTrue);
    assert KeywordText(KeywordTrue)[..3] == "tru";
    ValueTokenCalls(m, Feed(m, p, "tru").0, TokTrue);
  }

  /** A letter that does not continue the keyword is a lexical error. */
  lemma KeywordMismatch(m: Mode, q: Parser, st: LexState, c: char)
    requires IsKeyword(st) && q.lex == Some(st) && q.error == NoError
    requires |q.glue| >= |KeywordText(st)| || KeywordText(st)[|q.glue|] != c
    ensures var r := LexRun(m, q, c);
      r.error == LexError && r.syn == q.syn && r.calls == q.calls && r.lex.None?
  {
    var e := LexTransition(st, c, q.glueOn, |q.glue|);
    var q1 := ApplyLex(m, q, e).(lex := Some(LexUnexpected));
    assert q1.syn == q.syn && q1.calls == q.calls && q1.error == NoError;
    assert LexRun(m, q, c) == LexRun(m, q1, c);
  }
}
