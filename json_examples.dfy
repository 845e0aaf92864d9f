/** Worked instances of the parser and the writer on the texts the
    library's own test suite uses: numbers as `atof` reads them and the
    writer prints them, and a one-member object read and printed back. */
module JsonExamples {
  import opened JsonTypes
  import opened JsonValue
  import opened JsonMachine
  import opened JsonPrint
  import opened JsonProperties

  /** Integral numbers print without a fraction, the others with two
      decimals. */
  lemma NumberTexts()
    ensures NumberText(2.0) == "2"
    ensures NumberText(3.45) == "3.45"
    ensures NumberText(-1.0) == "-1"
    ensures NumberText(0.5) == "0.50"
  {
    assert IntText(2) == "2";
    assert RoundHalfEven(345.0) == 345;
    assert NatText(3) == "3";
    assert FixedTwo(3.45) == "3.45";
    assert NatText(1) == "1";
    assert RoundHalfEven(50.0) == 50;
    assert NatText(0) == "0";
    assert FixedTwo(0.5) == "0.50";
  }

  /** The digit runs `atof` finds in `4.67e2`. */
  lemma ExponentDigits()
    ensures LeadingDigits("4.67e2") == 1 && DigitsValue("4") == 4
    ensures LeadingDigits("67e2") == 2 && DigitsValue("67") == 67
    ensures LeadingDigits("2") == 1 && DigitsValue("2") == 2
  {
    assert LeadingDigits(".67e2") == 0;
    assert LeadingDigits("e2") == 0;
    assert LeadingDigits("7e2") == 1;
    assert LeadingDigits("") == 0;
  }

  /** `-4.67e2` reads as -467 and prints back as `-467`. */
  lemma ExponentNumber()
    ensures Atof("-4.67e2") == -467.0
    ensures NumberText(Atof("-4.67e2")) == "-467"
  {
    ExponentDigits();
    var t := "4.67e2";
    assert t[..1] == "4" && t[1..] == ".67e2";
    assert t[1..][1..] == "67e2" && t[1..][1..3] == "67" && t[1..][3..] == "e2";
    assert FractionPart(t[1..]) == (67.0 / 100.0, "e2");
    assert "e2"[1..] == "2" && "e2"[1..2] == "2";
    assert Scaled(4.0 + 67.0 / 100.0, "e2") == 467.0;
    assert UnsignedValue(t) == 467.0;
    assert "-4.67e2"[1..] == t;
    assert NatText(467) == "467";
  }

  // ---------------------------------------------------------------------
  // `{"a":1}` read into an empty store and printed back

  /** The context state after each character of `{"a":1}`, read by the
      tree builder into an empty store: the object takes handle 1, the
      pair 2 and the number 3. */
  function Empty(): Heap { Heap(map[], 1) }

  function Obj(items: seq<Handle>): Value { Value(ObjectVal(items), Nil) }

  function AfterOpen(): Parser
  {
    Parser(Some(Initial), Some(NewObject), NoError, false, [], GlueStep, 1, 2, [], 1, TObject, 1, [],
           Heap(map[1 := Obj([])], 2))
  }

  function AfterQuote(): Parser { AfterOpen().(lex := Some(InString), col := 3) }

  function AfterLetter(): Parser { AfterQuote().(glueOn := true, glue := "a", col := 4) }

  function WithPair(): Heap
  {
    Heap(map[1 := Obj([2]), 2 := Value(PairVal("a", Nil), Nil)], 3)
  }

  function AfterKey(): Parser
  {
    Parser(Some(Initial), Some(ObjectColon), NoError, true, "a\"", GlueStep, 1, 5, [Frame(TObject, 1)], 2, TPair, 1,
           [], WithPair())
  }

  function AfterColon(): Parser
  {
    AfterKey().(syn := Some(InValue), glueOn := false, glue := [], col := 6)
  }

  function AfterDigit(): Parser
  {
    AfterColon().(lex := Some(Int), glueOn := true, glue := "1", col := 7)
  }

  function Built(): Heap
  {
    Heap(map[1 := Obj([2]), 2 := Value(PairVal("a", 3), Nil), 3 := Value(NumberVal(1.0), Nil)], 4)
  }

  function AfterClose(): Parser
  {
    Parser(Some(Initial), Some(End), NoError, false, [], GlueStep, 1, 8, [], 1, TObject, 1, [], Built())
  }

  lemma AtofOne()
    ensures Atof("1") == 1.0
  {
    assert LeadingDigits("") == 0;
    assert LeadingDigits("1") == 1;
    assert DigitsValue("1") == 1;
  }

  lemma ReadOpen()
    ensures Step(DomMode(Atof), Fresh(Empty(), []), '{') == AfterOpen()
  {
  }

  lemma ReadQuote()
    ensures Step(DomMode(Atof), AfterOpen(), '"') == AfterQuote()
    ensures Step(DomMode(Atof), AfterQuote(), 'a') == AfterLetter()
  {
  }

  /** The pair for key `a`, allocated as handle 2 and appended to the
      object's list. */
  lemma PairLinked(q: Parser)
    requires q.heap == AfterOpen().heap
    ensures DomBuild(Atof, q, TPair, 1, "a") == (q.(heap := WithPair()), 2)
  {
    var pair := Value(PairVal("a", Nil), Nil);
    assert Alloc(q.heap, PairVal("a", Nil)) == (Heap(map[1 := Obj([]), 2 := pair], 3), 2);
    assert [] + [2] == [2];
    assert map[1 := Obj([]), 2 := pair][1 := Obj([2])] == map[1 := Obj([2]), 2 := pair];
    assert Link(Heap(map[1 := Obj([]), 2 := pair], 3), 1, 2) == WithPair();
  }

  /** The key's closing quote: the object is saved and the pair, hung in
      its list, becomes the parent. */
  lemma KeySyntax()
    ensures SyntaxRun(DomMode(Atof), AfterLetter(), TokString)
      == AfterLetter().(syn := Some(ObjectColon), stack := [Frame(TObject, 1)], parentType := TPair,
                        parent := 2, heap := WithPair())
  {
    var m := DomMode(Atof);
    var p := AfterLetter();
    var p1 := p.(syn := Some(ObjectName));
    assert SyntaxRun(m, p, TokString) == SyntaxRun(m, p1, TokString);
    var q := p1.(stack := [Frame(TObject, 1)], parentType := TPair);
    PairLinked(q);
  }

  lemma ReadKeyEnd()
    ensures Step(DomMode(Atof), AfterLetter(), '"') == AfterKey()
  {
    var m := DomMode(Atof);
    var p := AfterLetter();
    var e := LexTransition(InString, '"', true, 1);
    assert e == LexEffect(false, true, false, Some(TokString), false, Switch(Some(Initial), false));
    assert LexPrelude(p, e) == p;
    KeySyntax();
    assert LexRun(m, p, '"') == AfterKey().(glue := "a", col := 4);
  }

  lemma ReadColon()
    ensures Step(DomMode(Atof), AfterKey(), ':') == AfterColon()
    ensures Step(DomMode(Atof), AfterColon(), '1') == AfterDigit()
  {
  }

  /** The store with the number allocated as handle 3, not yet linked. */
  function WithNumber(): Heap
  {
    Heap(map[1 := Obj([2]), 2 := Value(PairVal("a", Nil), Nil), 3 := Value(NumberVal(1.0), Nil)], 4)
  }

  lemma NumberAllocated()
    ensures Alloc(WithPair(), NewPayload(Atof, TNumber, "1")) == (WithNumber(), 3)
  {
    AtofOne();
    assert NewPayload(Atof, TNumber, "1") == NumberVal(1.0);
  }

  lemma NumberHung()
    ensures Link(WithNumber(), 2, 3) == Built()
  {
    assert WithNumber().values[2 := Value(PairVal("a", 3), Nil)] == Built().values;
  }

  /** The number, allocated as handle 3 and made the pair's value. */
  lemma NumberLinked(q: Parser)
    requires q.heap == WithPair()
    ensures DomBuild(Atof, q, TNumber, 2, "1") == (q.(heap := Built()), 3)
  {
    NumberAllocated();
    NumberHung();
  }

  /** The number token: the number hangs in the pair, which is finished,
      and the object comes back as the parent. */
  lemma NumberSyntax()
    ensures SyntaxRun(DomMode(Atof), AfterDigit(), TokNumber)
      == AfterDigit().(syn := Some(NextObject), stack := [], parent := 1, parentType := TObject, heap := Built())
  {
    var p := AfterDigit();
    NumberLinked(p);
    assert Scalar(DomMode(Atof), p, TNumber) == FinishValue(p.(heap := Built()));
  }

  /** The object's close with nothing saved completes the document. */
  lemma CloseSyntax(p: Parser)
    requires p.syn == Some(NextObject) && p.stack == []
    ensures SyntaxRun(DomMode(Atof), p, ObjClose) == p.(syn := Some(End))
  {
    assert SyntaxRun(DomMode(Atof), p, ObjClose) == SyntaxRun(DomMode(Atof), p.(syn := Some(InValue)), ObjClose);
  }

  lemma ReadClose()
    ensures Step(DomMode(Atof), AfterDigit(), '}') == AfterClose()
  {
    var m := DomMode(Atof);
    var p := AfterDigit();
    var e := LexTransition(Int, '}', true, 1);
    assert e == LexEffect(false, true, false, Some(TokNumber), false, Switch(Some(Initial), true));
    assert LexPrelude(p, e) == p;
    NumberSyntax();
    var q := SyntaxRun(m, p, TokNumber).(lex := Some(Initial));
    assert LexRun(m, p, '}') == LexRun(m, q, '}');
    var e2 := LexTransition(Initial, '}', true, 1);
    assert e2 == LexEffect(true, false, false, Some(ObjClose), false, Switch(Some(Initial), false));
    var q1 := LexPrelude(q, e2);
    assert q1 == q.(glue := [], glueOn := false);
    CloseSyntax(q1);
    assert LexRun(m, q, '}') == AfterClose().(col := 7);
  }

  /** The colon and the digit: the number stays pending in the glue. */
  lemma FeedValue()
    ensures Feed(DomMode(Atof), AfterKey(), ":1") == (AfterDigit(), true)
  {
    var m := DomMode(Atof);
    ReadColon();
    assert ":1"[1..] == "1" && "1"[1..] == "";
    FeedFirst(m, AfterKey(), ":1");
    FeedFirst(m, AfterColon(), "1");
  }

  /** The key. */
  lemma FeedKey()
    ensures Feed(DomMode(Atof), AfterOpen(), "\"a\":1") == Feed(DomMode(Atof), AfterKey(), ":1")
  {
    var m := DomMode(Atof);
    ReadQuote();
    ReadKeyEnd();
    var s := "\"a\":1";
    assert s[1..] == "a\":1" && s[1..][1..] == "\":1" && s[1..][1..][1..] == ":1";
    FeedFirst(m, AfterOpen(), s);
    FeedFirst(m, AfterQuote(), "a\":1");
    FeedFirst(m, AfterLetter(), "\":1");
  }

  /** The text without its closing brace, character by character. */
  lemma FeedOpenObject()
    ensures Feed(DomMode(Atof), Fresh(Empty(), []), "{\"a\":1") == (AfterDigit(), true)
  {
    var s := "{\"a\":1";
    ReadOpen();
    assert s[1..] == "\"a\":1";
    FeedFirst(DomMode(Atof), Fresh(Empty(), []), s);
    FeedKey();
    FeedValue();
  }

  /** The closing brace ends the pending number and the object. */
  lemma FeedClose()
    ensures Feed(DomMode(Atof), AfterDigit(), "}") == (AfterClose(), true)
  {
    ReadClose();
    assert "}"[1..] == "";
    FeedFirst(DomMode(Atof), AfterDigit(), "}");
  }

  /** The whole text at once. */
  lemma FeedSmallObject()
    ensures Feed(DomMode(Atof), Fresh(Empty(), []), "{\"a\":1}") == (AfterClose(), true)
  {
    assert "{\"a\":1}" == "{\"a\":1" + "}";
    FeedConcat(DomMode(Atof), Fresh(Empty(), []), "{\"a\":1", "}");
    FeedOpenObject();
    FeedClose();
  }

  /** `eina_json_context_parse` on `{"a":1` leaves the context unfinished
      at column 7 with no error; the chunk `}` then completes it, one
      column further on. */
  lemma ChunkedSmallObject()
    ensures var (p, ok) := ContextParse(DomMode(Atof), Fresh(Empty(), []), "{\"a\":1");
      ok && Unfinished(p) && p.line == 1 && p.col == 7
      && var (q, ok2) := ContextParse(DomMode(Atof), p, "}");
      ok2 && Completed(q) && q.line == 1 && q.col == p.col + 1
  {
    UpToNulOfClean("{\"a\":1");
    UpToNulOfClean("}");
    FeedOpenObject();
    FeedClose();
  }

  /** The tree under the root, and its packed text. */
  lemma PrintSmallObject()
    ensures Tree(Built().values, 1) == Some(JObject([JPair("a", JNumber(1.0))]))
    ensures FormatString(Built().values, 1, 0) == Some("{\"a\":1}")
  {
    var vs := Built().values;
    var pair := JPair("a", JNumber(1.0));
    assert |vs| == 3;
    assert ToJson(vs, 3, 1) == Some(JNumber(1.0));
    assert ToJson(vs, 2, 2) == Some(pair);
    assert [2][1..] == [] && [pair] + [] == [pair];
    assert ToJsonList(vs, [2], 2) == Some([pair]);
    assert ToJson(vs, 1, 3) == Some(JObject([pair]));
    PrintMember(pair);
  }

  /** A one-member object prints packed as its member in braces. */
  lemma PrintMember(pair: Json)
    requires pair == JPair("a", JNumber(1.0))
    ensures DelimPrint(JObject([pair]), 0, 0, false) == "{\"a\":1}"
  {
    assert NumberText(1.0) == "1";
    assert DelimPrint(pair, 0, 0, false) == "\"a\":1";
    assert "" + DelimPrint(pair, 0, 0, false) == "\"a\":1";
  }

  /** `{"a":1}` read into an empty store completes with the object as its
      root, and the packed text of that root is the text read. */
  lemma SmallObjectRoundTrip()
    ensures var (p, ok) := Feed(DomMode(Atof), Fresh(Empty(), []), "{\"a\":1}");
      ok && Completed(p) && TreeTake(p).1 == 1
      && Tree(p.heap.values, 1).Some? && FormatString(p.heap.values, 1, 0) == Some("{\"a\":1}")
  {
    FeedSmallObject();
    PrintSmallObject();
  }
}
