/** The JSON text writer of eina_json.c (`_eina_json_delim_print` and the
    number rendering it uses), stated over a value tree read out of the
    store. */
module JsonPrint {
  import opened JsonTypes

  /** A value tree as the printer walks it: pairs carry their value, objects
      and arrays their children in list order. */
  datatype Json =
    | JNull
    | JNumber(num: real)
    | JString(text: string)
    | JBoolean(b: bool)
    | JPair(name: string, val: Json)
    | JObject(members: seq<Json>)
    | JArray(items: seq<Json>)

  /** `ceil(x) == x`: the number has no fractional part. */
  predicate Integral(r: real)
  {
    r.Floor as real == r
  }

  function DigitChar(d: nat): (c: char)
    requires d < 10
    ensures IsDigit(c)
  {
    ('0' as int + d) as char
  }

  /** Decimal digits of a natural number, without leading zeros. */
  function NatText(n: nat): (s: string)
    ensures |s| > 0 && forall i :: 0 <= i < |s| ==> IsDigit(s[i])
    decreases n
  {
    if n < 10 then [DigitChar(n)] else NatText(n / 10) + [DigitChar(n % 10)]
  }

  /** `%ld`: optional minus sign and the decimal digits. */
  function IntText(i: int): string
  {
    if i < 0 then "-" + NatText(-i) else NatText(i)
  }

  /** Nearest integer to a non-negative real, ties to the even neighbour
      (the rounding glibc's printf applies to exact halves). */
  function RoundHalfEven(x: real): (n: nat)
    requires x >= 0.0
    ensures x - 1.0 / 2.0 <= n as real <= x + 1.0 / 2.0
  {
    var f := x.Floor;
    var d := x - f as real;
    if d < 1.0 / 2.0 then f
    else if d > 1.0 / 2.0 then f + 1
    else if f % 2 == 0 then f else f + 1
  }

  /** `%.2f`: sign, integer part, a point and exactly two decimals. */
  function FixedTwo(r: real): string
  {
    var hundredths := RoundHalfEven((if r < 0.0 then -r else r) * 100.0);
    var frac := hundredths % 100;
    (if r < 0.0 then "-" else "") + NatText(hundredths / 100) + "."
      + [DigitChar(frac / 10), DigitChar(frac % 10)]
  }

  /** The number branch of the writer: integral values print as `%ld`,
      all others as `%.2f`. */
  function NumberText(r: real): string
  {
    if Integral(r) then IntText(r.Floor) else FixedTwo(r)
  }

  /** `"\n%*s"` with a single blank argument: a newline and the blank
      right-aligned in the given width, so never fewer than one blank. */
  function Break(width: nat): string
  {
    "\n" + seq(if width == 0 then 1 else width, _ => ' ')
  }

  function Join(parts: seq<string>, sep: string): string
  {
    if |parts| == 0 then ""
    else if |parts| == 1 then parts[0]
    else parts[0] + sep + Join(parts[1..], sep)
  }

  /** `_eina_json_delim_print`: `ident0` is the current indentation, `identV`
      the step added inside an object, `objbreak` selects line breaks. */
  function DelimPrint(j: Json, ident0: nat, identV: nat, objbreak: bool): string
    decreases j
  {
    match j
    case JNull => "null"
    case JNumber(r) => NumberText(r)
    case JString(s) => "\"" + s + "\""
    case JBoolean(b) => if b then "true" else "false"
    case JPair(name, v) =>
      "\"" + name + "\"" + ":"
        + (if objbreak && v.JObject? then Break(ident0) else "")
        + DelimPrint(v, ident0, identV, objbreak)
    case JArray(items) =>
      "[" + Join(seq(|items|, i requires 0 <= i < |items| =>
                       DelimPrint(items[i], ident0, identV, objbreak)),
                 if objbreak then ", " else ",") + "]"
    case JObject(ms) =>
      if |ms| == 0 then "{}"
      else
        var inner := ident0 + identV;
        "{" + Join(seq(|ms|, i requires 0 <= i < |ms| =>
                         (if objbreak then Break(inner) else "")
                         + DelimPrint(ms[i], inner, identV, objbreak)), ",")
          + (if objbreak then Break(ident0) else "") + "}"
  }

  predicate IsBlank(c: char)
  {
    c == ' ' || c == '\t' || c == '\n' || c == '\r'
  }

  predicate NoBlank(s: string)
  {
    forall i :: 0 <= i < |s| ==> !IsBlank(s[i])
  }

  /** No string or key anywhere in the tree contains a blank. */
  predicate BlankFreeTexts(j: Json)
    decreases j
  {
    match j
    case JString(s) => NoBlank(s)
    case JPair(name, v) => NoBlank(name) && BlankFreeTexts(v)
    case JArray(items) => forall i :: 0 <= i < |items| ==> BlankFreeTexts(items[i])
    case JObject(ms) => forall i :: 0 <= i < |ms| ==> BlankFreeTexts(ms[i])
    case _ => true
  }

  lemma NatTextNoBlank(n: nat)
    ensures NoBlank(NatText(n))
  {
  }

  /** A number renders as `%ld` exactly when it is integral: digits with an
      optional sign and no point; otherwise a point followed by exactly two
      digits ends the text. */
  lemma NumberTextShape(r: real)
    ensures Integral(r) ==> '.' !in NumberText(r)
    ensures !Integral(r) ==>
      var s := NumberText(r);
      |s| >= 4 && s[|s| - 3] == '.' && IsDigit(s[|s| - 2]) && IsDigit(s[|s| - 1])
    ensures NoBlank(NumberText(r))
  {
    var s := NumberText(r);
    if Integral(r) {
      var i := r.Floor;
      var d := NatText(if i < 0 then -i else i);
      assert s == (if i < 0 then "-" + d else d);
      assert forall k :: 0 <= k < |s| ==> s[k] == '-' || IsDigit(s[k]);
    }
  }

  lemma JoinNoBlank(parts: seq<string>, sep: string)
    requires forall i :: 0 <= i < |parts| ==> NoBlank(parts[i])
    requires NoBlank(sep)
    ensures NoBlank(Join(parts, sep))
    decreases |parts|
  {
    if |parts| > 1 {
      JoinNoBlank(parts[1..], sep);
    }
  }

  /** Packed output (no line breaks) contains no blank outside the texts of
      strings and keys. */
  lemma {:induction false} PackedHasNoBlank(j: Json, ident0: nat, identV: nat)
    requires BlankFreeTexts(j)
    ensures NoBlank(DelimPrint(j, ident0, identV, false))
    decreases j
  {
    match j
    case JNull =>
    case JNumber(r) => NumberTextShape(r);
    case JString(s) =>
    case JBoolean(b) =>
    case JPair(name, v) =>
      PackedHasNoBlank(v, ident0, identV);
    case JArray(items) =>
      var parts := seq(|items|, i requires 0 <= i < |items| => DelimPrint(items[i], ident0, identV, false));
      forall i | 0 <= i < |items|
        ensures NoBlank(parts[i])
      {
        PackedHasNoBlank(items[i], ident0, identV);
      }
      JoinNoBlank(parts, ",");
    case JObject(ms) =>
      if |ms| > 0 {
        var inner := ident0 + identV;
        var parts := seq(|ms|, i requires 0 <= i < |ms| => "" + DelimPrint(ms[i], inner, identV, false));
        forall i | 0 <= i < |ms|
          ensures NoBlank(parts[i])
        {
          PackedHasNoBlank(ms[i], inner, identV);
        }
        JoinNoBlank(parts, ",");
      }
  }

  /** Without line breaks the indentation arguments have no effect. */
  lemma {:induction false} PackedIgnoresIndent(j: Json, ident0: nat, identV: nat)
    ensures DelimPrint(j, ident0, identV, false) == DelimPrint(j, 0, 0, false)
    decreases j
  {
    match j
    case JNull =>
    case JNumber(r) =>
    case JString(s) =>
    case JBoolean(b) =>
    case JPair(name, v) =>
      PackedIgnoresIndent(v, ident0, identV);
    case JArray(items) =>
      var a := seq(|items|, i requires 0 <= i < |items| => DelimPrint(items[i], ident0, identV, false));
      var b := seq(|items|, i requires 0 <= i < |items| => DelimPrint(items[i], 0, 0, false));
      forall i | 0 <= i < |items|
        ensures a[i] == b[i]
      {
        PackedIgnoresIndent(items[i], ident0, identV);
      }
      assert a == b;
    case JObject(ms) =>
      if |ms| > 0 {
        var a := seq(|ms|, i requires 0 <= i < |ms| => "" + DelimPrint(ms[i], ident0 + identV, identV, false));
        var b := seq(|ms|, i requires 0 <= i < |ms| => "" + DelimPrint(ms[i], 0 + 0, 0, false));
        forall i | 0 <= i < |ms|
          ensures a[i] == b[i]
        {
          PackedIgnoresIndent(ms[i], ident0 + identV, identV);
        }
        assert a == b;
      }
  }

  /** A join starts with its first part. */
  lemma JoinHead(parts: seq<string>, sep: string)
    requires |parts| > 0
    ensures |parts[0]| <= |Join(parts, sep)| && Join(parts, sep)[..|parts[0]|] == parts[0]
  {
    if |parts| > 1 {
      assert Join(parts, sep) == parts[0] + (sep + Join(parts[1..], sep));
    }
  }

  /** In the line-broken format the closing brace of a non-empty object sits
      on its own line at the object's own indentation, and every member
      starts a line indented one step further. */
  lemma BasicObjectLayout(ms: seq<Json>, ident0: nat, identV: nat)
    requires |ms| > 0
    ensures var out := DelimPrint(JObject(ms), ident0, identV, true);
      out[0] == '{' && out[|out| - 1] == '}'
      && out[|out| - 1 - |Break(ident0)|..|out| - 1] == Break(ident0)
      && out[1..1 + |Break(ident0 + identV)|] == Break(ident0 + identV)
  {
    var inner := ident0 + identV;
    var parts := seq(|ms|, i requires 0 <= i < |ms| => Break(inner) + DelimPrint(ms[i], inner, identV, true));
    var body := Join(parts, ",");
    JoinHead(parts, ",");
    assert body[..|Break(inner)|] == parts[0][..|Break(inner)|] == Break(inner);
    var out := DelimPrint(JObject(ms), ident0, identV, true);
    assert out == "{" + body + Break(ident0) + "}";
  }
}
