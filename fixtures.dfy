/** The expected results of tests/test_stepfile_tokenizer.py, stated about
    the model. Each lemma names the rule the test exercises and the text it
    feeds that rule. Short texts are written as literals; for the longer
    ones the lemma is stated for every `s` that spells the test's text
    (`Is(s, text)`), which is the same statement, and the proof walks the
    grammar one token at a time. */
module Fixtures {
  import opened Results
  import opened Numerals
  import opened BinaryCodec
  import opened StringCodec
  import opened Lexer
  import opened Values
  import opened Grammar
  import opened Printer
  import opened FilePrinter

  /** s spells t. */
  predicate Is(s: seq<char>, t: seq<char>) {
    |s| == |t| && TextAt(s, 0, t)
  }

  lemma {:induction false} TextAtSub(s: seq<char>, t: seq<char>, i: nat, u: seq<char>)
    requires TextAt(s, 0, t) && i + |u| <= |t| && t[i..i + |u|] == u
    ensures TextAt(s, i, u)
  {
    forall k | 0 <= k < |u| ensures s[i + k] == u[k] {
      assert u[k] == t[i + k];
    }
  }

  /** A numeral spelled at i has the value it has on its own. */
  lemma {:induction false} NumeralAt(s: seq<char>, i: nat, g: string, r: Radix, v: nat)
    requires TextAt(s, i, g) && NumeralValue(g, 0, |g|, r) == Some(v)
    ensures NumeralValue(s, i, i + |g|, r) == Some(v)
  {
    TextAtSlice(s, i, g);
    NumeralValueLocal(s, i, i + |g|, g, r);
  }

  // -------------------------------------------------------------- strings

  lemma DoubledApostrophe()
    ensures ParseString("''''", 0) == Success(("'", 4))
    ensures ParseString("'x''x'", 0) == Success(("x'x", 6))
  {
    assert ParseString("''''", 0).value.0 == "'";
    assert ParseString("'x''x'", 0).value.0 == "x'x";
  }

  lemma QuoteInString()
    ensures ParseString("'\"'", 0) == Success(("\"", 3))
    ensures ParseString("'x\"x'", 0) == Success(("x\"x", 5))
  {
    assert ParseString("'\"'", 0).value.0 == "\"";
    assert ParseString("'x\"x'", 0).value.0 == "x\"x";
  }

  lemma DoubledBackslash()
    ensures ParseString("'\\\\'", 0) == Success(("\\", 4))
    ensures ParseString("'x\\\\x'", 0) == Success(("x\\x", 6))
  {
    assert ParseString("'\\\\'", 0).value.0 == "\\";
    assert ParseString("'x\\\\x'", 0).value.0 == "x\\x";
  }

  /** A string literal standing alone whose body has no apostrophe. */
  lemma {:induction false} ParseBody(s: seq<char>, x: string)
    requires |s| >= 2 && s[0] == '\'' && s[|s| - 1] == '\''
    requires forall k :: 1 <= k < |s| - 1 ==> s[k] != '\''
    requires DecodeFrom(s, 1, |s| - 1, Plain) == Success(x)
    ensures ParseString(s, 0) == Success((x, |s|))
  {
    SkipNonApostrophes(s, 1, |s| - 1);
    NoLayoutAt(s, 0);
  }

  /** A string literal standing alone whose body is a single `\X2\` or
      `\X4\` run. */
  lemma {:induction false} ParseRun(s: seq<char>, x: string, m: Mode)
    requires !m.Plain? && |s| == 10 + GroupWidth(m) * |x| && s[0] == '\'' && s[|s| - 1] == '\''
    requires forall k :: 1 <= k < |s| - 1 ==> s[k] != '\''
    requires Directive(s, 1, |s| - 1, if m == Wide16 then '2' else '4')
    requires GroupsAt(s, 5, x, GroupWidth(m)) && Directive(s, 5 + GroupWidth(m) * |x|, |s| - 1, '0')
    ensures ParseString(s, 0) == Success((x, |s|))
  {
    var q := |s| - 1;
    DecodeWideRun(x, m, s, 1, q);
    assert DecodeFrom(s, q, q, Plain) == Success([]);
    assert x + [] == x;
    ParseBody(s, x);
  }

  /** The frame of a one-run string: its apostrophes, its opening
      directive and its closing `\X0\`. */
  lemma {:induction false} RunFrame(s: seq<char>, t: string, d: char)
    requires Is(s, t) && |t| >= 10 && t[0] == '\'' && t[|t| - 1] == '\''
    requires '\'' !in t[1..|t| - 1]
    requires t[1..5] == ['\\', 'X', d, '\\'] && t[|t| - 5..|t| - 1] == "\\X0\\"
    ensures s[0] == '\'' && s[|s| - 1] == '\'' && forall k :: 1 <= k < |s| - 1 ==> s[k] != '\''
    ensures Directive(s, 1, |s| - 1, d) && Directive(s, |s| - 5, |s| - 1, '0')
  {
    var n := |t|;
    forall k | 1 <= k < n - 1 ensures s[k] != '\'' {
      assert s[k] == t[1..n - 1][k - 1];
    }
    TextAtChar(s, 0, t, 0);
    TextAtChar(s, 0, t, n - 1);
    assert t[1] == t[1..5][0] && t[2] == t[1..5][1] && t[3] == t[1..5][2] && t[4] == t[1..5][3];
    TextAtChar(s, 0, t, 1);
    TextAtChar(s, 0, t, 2);
    TextAtChar(s, 0, t, 3);
    TextAtChar(s, 0, t, 4);
    var e := t[n - 5..n - 1];
    assert t[n - 5] == e[0] && t[n - 4] == e[1] && t[n - 3] == e[2] && t[n - 2] == e[3];
    TextAtChar(s, 0, t, n - 5);
    TextAtChar(s, 0, t, n - 4);
    TextAtChar(s, 0, t, n - 3);
    TextAtChar(s, 0, t, n - 2);
  }

  /** `'\X2\00E4\X0\'` is the one character U+00E4. */
  lemma {:induction false} ExtendedX2(s: seq<char>)
    requires Is(s, "'\\X2\\00E4\\X0\\'")
    ensures ParseString(s, 0) == Success(("\U{E4}", 14))
  {
    var t := "'\\X2\\00E4\\X0\\'";
    assert '\'' !in t[1..13];
    RunFrame(s, t, '2');
    TextAtSub(s, t, 5, "00E4");
    assert NumeralValue("00E4", 0, 4, Hex) == Some(0xE4);
    NumeralAt(s, 5, "00E4", Hex, 0xE4);
    assert GroupsAt(s, 9, [], 4);
    ParseRun(s, "\U{E4}", Wide16);
  }

  /** `'\X2\00E400E4\X0\'` is two U+00E4 characters. */
  lemma {:induction false} ExtendedX2Twice(s: seq<char>)
    requires Is(s, "'\\X2\\00E400E4\\X0\\'")
    ensures ParseString(s, 0) == Success(("\U{E4}\U{E4}", 18))
  {
    var t := "'\\X2\\00E400E4\\X0\\'";
    assert '\'' !in t[1..17];
    RunFrame(s, t, '2');
    X2TwiceGroups(s);
    ParseRun(s, "\U{E4}\U{E4}", Wide16);
  }

  lemma {:induction false} X2TwiceGroups(s: seq<char>)
    requires Is(s, "'\\X2\\00E400E4\\X0\\'")
    ensures GroupsAt(s, 5, "\U{E4}\U{E4}", 4)
  {
    var t := "'\\X2\\00E400E4\\X0\\'";
    TextAtSub(s, t, 5, "00E4");
    TextAtSub(s, t, 9, "00E4");
    assert NumeralValue("00E4", 0, 4, Hex) == Some(0xE4);
    NumeralAt(s, 5, "00E4", Hex, 0xE4);
    NumeralAt(s, 9, "00E4", Hex, 0xE4);
    assert GroupsAt(s, 9, "\U{E4}", 4);
  }

  /** `'\X4\000000E4\X0\'` is the one character U+00E4. */
  lemma {:induction false} ExtendedX4(s: seq<char>)
    requires Is(s, "'\\X4\\000000E4\\X0\\'")
    ensures ParseString(s, 0) == Success(("\U{E4}", 18))
  {
    var t := "'\\X4\\000000E4\\X0\\'";
    assert '\'' !in t[1..17];
    RunFrame(s, t, '4');
    TextAtSub(s, t, 5, "000000E4");
    WideGroupE4();
    NumeralAt(s, 5, "000000E4", Hex, 0xE4);
    assert GroupsAt(s, 13, [], 8);
    ParseRun(s, "\U{E4}", Wide32);
  }

  lemma WideGroupE4()
    ensures NumeralValue("000000E4", 0, 8, Hex) == Some(0xE4)
  {
    assert NumeralValue("000000E4", 0, 4, Hex) == Some(0);
  }

  // --------------------------------------------------------------- binary

  lemma BinaryFF()
    ensures ParseBinary("\"0FF\"", 0) == Success((BitString(255, 8), 5))
  {
  }

  // ---------------------------------------------------------------- lists

  lemma EmptyList()
    ensures ParseList("()", 0) == Success(([], 2))
  {
    assert ParseList("()", 0).value.0 == [];
  }

  lemma {:induction false} ListOfOneString(s: seq<char>)
    requires Is(s, "('IFC2X3')")
    ensures ParseList(s, 0) == Success(([Str("IFC2X3")], 10))
  {
    var t := "('IFC2X3')";
    TextAtChar(s, 0, t, 0);
    TextAtChar(s, 0, t, 1);
    TextAtChar(s, 0, t, 9);
    OneString(s);
    SingleAt(s, 0, Str("IFC2X3"), 9);
  }

  /** The string `'IFC2X3'` inside `('IFC2X3')`. */
  lemma {:induction false} OneString(s: seq<char>)
    requires Is(s, "('IFC2X3')")
    ensures ValueParsed(s, 1, Str("IFC2X3"), 9)
  {
    var t := "('IFC2X3')";
    TextAtChar(s, 0, t, 1);
    TextAtChar(s, 0, t, 8);
    TextAtChar(s, 0, t, 9);
    TextAtSub(s, t, 2, "IFC2X3");
    assert Encode("IFC2X3") == "IFC2X3";
    ScanEncodedString("IFC2X3", s, 1, 8);
    NoLayoutAt(s, 1);
    StringValueAt(s, 1, "IFC2X3", 9);
  }

  // ------------------------------------------------------- token by token

  /** A space before the next token. */
  lemma {:induction false} SpaceThen(s: seq<char>, k: nat)
    requires k + 1 < |s| && s[k] == ' ' && !IsSpace(s[k + 1]) && s[k + 1] != '/'
    ensures SkipLayout(s, k) == k + 1
  {
    NoLayoutAt(s, k + 1);
  }

  /** An unsigned integer spelled g at i, followed by neither a digit nor
      a dot. */
  lemma {:induction false} IntegerAt(s: seq<char>, i: nat, g: string, v: nat, e: nat)
    requires g != [] && TextAt(s, i, g) && NumeralValue(g, 0, |g|, Decimal) == Some(v)
    requires e == i + |g| && (e < |s| ==> !IsDigit(s[e]) && s[e] != '.')
    ensures ScanNumber(s, i) == Success((IntegerLit(v), e))
  {
    assert "" + g == g;
    ScanIntegerText(s, i, "", g, e);
  }

  /** `(a, b)`: two items after `(`, the second after a space. */
  lemma {:induction false} PairAt(s: seq<char>, pos: nat, a: Value, b: Value, k: nat, e: nat)
    requires pos + 1 < |s| && s[pos] == '(' && s[pos + 1] != ')' && !IsSpace(s[pos + 1]) && s[pos + 1] != '/'
    requires ValueParsed(s, pos + 1, a, k) && k < |s| && s[k] == ','
    requires ValueParsed(s, k + 1, b, e) && e < |s| && s[e] == ')'
    ensures ParseList(s, pos) == Success(([a, b], e + 1))
  {
    NoLayoutAt(s, pos);
    NoLayoutAt(s, pos + 1);
    PairItemsAt(s, pos + 1, a, b, k, e);
    ListItemsAt(s, pos, [a, b], e + 1);
  }

  lemma {:induction false} PairItemsAt(s: seq<char>, pos: nat, a: Value, b: Value, k: nat, e: nat)
    requires ValueParsed(s, pos, a, k) && k < |s| && s[k] == ','
    requires ValueParsed(s, k + 1, b, e) && e < |s| && s[e] == ')'
    ensures ParseItems(s, pos) == Success(([a, b], e + 1))
  {
    NoLayoutAt(s, k);
    NoLayoutAt(s, e);
    LastItemAt(s, k + 1, b, e, e + 1);
    PairItemsStep(s, pos, a, b, k, e);
  }

  lemma {:induction false} PairItemsStep(s: seq<char>, pos: nat, a: Value, b: Value, k: nat, e: nat)
    requires ValueParsed(s, pos, a, k)
    requires k < |s| && SkipLayout(s, k) == k && s[k] == ','
    requires ItemsParsed(s, k + 1, [b], e + 1)
    ensures ParseItems(s, pos) == Success(([a, b], e + 1))
  {
    MoreItemsAt(s, pos, a, [b], k, e + 1);
    SplitFirst(ParseItems(s, pos), [a, b], e + 1);
  }

  /** `(v)`: a single item between parentheses. */
  lemma {:induction false} SingleAt(s: seq<char>, pos: nat, v: Value, e: nat)
    requires pos + 1 < |s| && s[pos] == '(' && s[pos + 1] != ')' && !IsSpace(s[pos + 1]) && s[pos + 1] != '/'
    requires ValueParsed(s, pos + 1, v, e) && e < |s| && s[e] == ')'
    ensures ParseList(s, pos) == Success(([v], e + 1))
  {
    NoLayoutAt(s, pos);
    NoLayoutAt(s, pos + 1);
    NoLayoutAt(s, e);
    LastItemAt(s, pos + 1, v, e, e + 1);
    ListItemsAt(s, pos, [v], e + 1);
  }

  /** `(1, 3.1415)` is the list of the integer 1 and the real 31415e-4. */
  lemma {:induction false} ListOfIntegerAndReal(s: seq<char>)
    requires Is(s, "(1, 3.1415)")
    ensures ParseList(s, 0) == Success(([Integer(1), Real(31415, -4)], 11))
  {
    var t := "(1, 3.1415)";
    TextAtChar(s, 0, t, 0);
    TextAtChar(s, 0, t, 1);
    TextAtChar(s, 0, t, 2);
    TextAtChar(s, 0, t, 10);
    FirstIntegerOne(s);
    SecondReal(s);
    PairAt(s, 0, Integer(1), Real(31415, -4), 2, 10);
  }

  lemma {:induction false} FirstIntegerOne(s: seq<char>)
    requires Is(s, "(1, 3.1415)")
    ensures ValueParsed(s, 1, Integer(1), 2)
  {
    var t := "(1, 3.1415)";
    TextAtChar(s, 0, t, 1);
    TextAtChar(s, 0, t, 2);
    TextAtSub(s, t, 1, "1");
    IntegerAt(s, 1, "1", 1, 2);
    NoLayoutAt(s, 1);
    NumberValueAt(s, 1, 1, IntegerLit(1), 2);
  }

  lemma {:induction false} SecondReal(s: seq<char>)
    requires Is(s, "(1, 3.1415)")
    ensures ValueParsed(s, 3, Real(31415, -4), 10)
  {
    var t := "(1, 3.1415)";
    TextAtChar(s, 0, t, 3);
    TextAtChar(s, 0, t, 4);
    SecondRealNumber(s);
    SpaceThen(s, 3);
    NumberValueAt(s, 3, 4, RealLit(31415, -4), 10);
  }

  /** The number token `3.1415` is the real 31415e-4. */
  lemma {:induction false} SecondRealNumber(s: seq<char>)
    requires Is(s, "(1, 3.1415)")
    ensures ScanNumber(s, 4) == Success((RealLit(31415, -4), 10))
  {
    var t := "(1, 3.1415)";
    TextAtChar(s, 0, t, 10);
    TextAtSub(s, t, 4, "3.1415");
    assert "" + "3" + "." + "1415" + "" == "3.1415";
    assert NumeralValue("3", 0, 1, Decimal) == Some(3);
    assert NumeralValue("1415", 0, 4, Decimal) == Some(1415);
    ScanRealText(s, 4, "", "3", "1415", "", "", "", 10);
    assert NumeralValue("", 0, 0, Decimal) == Some(0);
    assert 3 * Pow(10, 4) + 1415 == 31415;
  }

  /** `TEST(100)` is the type name TEST around the integer 100. */
  lemma {:induction false} TypedInteger(s: seq<char>)
    requires Is(s, "TEST(100)")
    ensures ParseTypedParameter(s, 0) == Success((Typed("TEST", Integer(100)), 9))
  {
    var t := "TEST(100)";
    TextAtChar(s, 0, t, 0);
    TextAtChar(s, 0, t, 4);
    TextAtChar(s, 0, t, 5);
    TextAtChar(s, 0, t, 8);
    KeywordAt(s, t, "TEST");
    TextAtSub(s, t, 5, "100");
    assert NumeralValue("100", 0, 3, Decimal) == Some(100);
    IntegerAt(s, 5, "100", 100, 8);
    NoLayoutAt(s, 0);
    NoLayoutAt(s, 4);
    NoLayoutAt(s, 5);
    NoLayoutAt(s, 8);
    NumberValueAt(s, 5, 5, IntegerLit(100), 8);
    TypedParameterAt(s, 0, Typed("TEST", Integer(100)), 4, 8, 9);
  }

  /** A keyword k spelled at the start of t, followed by a character that
      cannot continue it. */
  lemma {:induction false} KeywordAt(s: seq<char>, t: string, k: string)
    requires Is(s, t) && IsKeyword(k) && |k| < |t| && t[..|k|] == k && !IsKeywordChar(t[|k|])
    ensures ScanKeyword(s, 0) == Success((k, |k|))
  {
    TextAtSub(s, t, 0, k);
    TextAtChar(s, 0, t, |k|);
    ScanKeywordAt(k, s, 0);
  }

  /** `TEST((100, 200))` is the type name TEST around the list of 100 and
      200. */
  lemma {:induction false} TypedList(s: seq<char>)
    requires Is(s, "TEST((100, 200))")
    ensures ParseTypedParameter(s, 0) == Success((Typed("TEST", List([Integer(100), Integer(200)])), 16))
  {
    var t := "TEST((100, 200))";
    TextAtChar(s, 0, t, 0);
    TextAtChar(s, 0, t, 4);
    TextAtChar(s, 0, t, 5);
    TextAtChar(s, 0, t, 15);
    KeywordAt(s, t, "TEST");
    NoLayoutAt(s, 0);
    NoLayoutAt(s, 4);
    NoLayoutAt(s, 5);
    NoLayoutAt(s, 15);
    TypedListItems(s);
    ListValueAt(s, 5, [Integer(100), Integer(200)], 15);
    TypedParameterAt(s, 0, Typed("TEST", List([Integer(100), Integer(200)])), 4, 15, 16);
  }

  lemma {:induction false} TypedListItems(s: seq<char>)
    requires Is(s, "TEST((100, 200))")
    ensures ParseList(s, 5) == Success(([Integer(100), Integer(200)], 15))
  {
    var t := "TEST((100, 200))";
    TextAtChar(s, 0, t, 5);
    TextAtChar(s, 0, t, 6);
    TextAtChar(s, 0, t, 9);
    TextAtChar(s, 0, t, 14);
    TypedListFirst(s);
    TypedListSecond(s);
    PairAt(s, 5, Integer(100), Integer(200), 9, 14);
  }

  lemma {:induction false} TypedListFirst(s: seq<char>)
    requires Is(s, "TEST((100, 200))")
    ensures ValueParsed(s, 6, Integer(100), 9)
  {
    var t := "TEST((100, 200))";
    TextAtChar(s, 0, t, 6);
    TextAtChar(s, 0, t, 9);
    TextAtSub(s, t, 6, "100");
    assert NumeralValue("100", 0, 3, Decimal) == Some(100);
    IntegerAt(s, 6, "100", 100, 9);
    NoLayoutAt(s, 6);
    NumberValueAt(s, 6, 6, IntegerLit(100), 9);
  }

  lemma {:induction false} TypedListSecond(s: seq<char>)
    requires Is(s, "TEST((100, 200))")
    ensures ValueParsed(s, 10, Integer(200), 14)
  {
    var t := "TEST((100, 200))";
    TextAtChar(s, 0, t, 10);
    TextAtChar(s, 0, t, 11);
    TextAtChar(s, 0, t, 14);
    TextAtSub(s, t, 11, "200");
    assert NumeralValue("200", 0, 3, Decimal) == Some(200);
    IntegerAt(s, 11, "200", 200, 14);
    SpaceThen(s, 10);
    NumberValueAt(s, 10, 11, IntegerLit(200), 14);
  }

  /** `FILE_SCHEMA(('IFC2X3'));` is the header entity FILE_SCHEMA with one
      parameter, the list of the one string IFC2X3. */
  lemma {:induction false} HeaderEntityFileSchema(s: seq<char>)
    requires Is(s, "FILE_SCHEMA(('IFC2X3'));")
    ensures ParseHeaderEntity(s, 0) == Success((HeaderEntity("FILE_SCHEMA", [List([Str("IFC2X3")])]), 24))
  {
    var t := "FILE_SCHEMA(('IFC2X3'));";
    TextAtChar(s, 0, t, 0);
    TextAtChar(s, 0, t, 11);
    TextAtChar(s, 0, t, 12);
    TextAtChar(s, 0, t, 22);
    TextAtChar(s, 0, t, 23);
    KeywordAt(s, t, "FILE_SCHEMA");
    NoLayoutAt(s, 0);
    NoLayoutAt(s, 23);
    SchemaList(s);
    SingleAt(s, 11, List([Str("IFC2X3")]), 22);
    HeaderEntityAt(s, 0, HeaderEntity("FILE_SCHEMA", [List([Str("IFC2X3")])]), 11, 23, 24);
  }

  lemma {:induction false} SchemaList(s: seq<char>)
    requires Is(s, "FILE_SCHEMA(('IFC2X3'));")
    ensures ValueParsed(s, 12, List([Str("IFC2X3")]), 22)
  {
    var t := "FILE_SCHEMA(('IFC2X3'));";
    TextAtChar(s, 0, t, 12);
    TextAtChar(s, 0, t, 13);
    TextAtChar(s, 0, t, 21);
    SchemaString(s);
    NoLayoutAt(s, 12);
    SingleAt(s, 12, Str("IFC2X3"), 21);
    ListValueAt(s, 12, [Str("IFC2X3")], 22);
  }

  /** The string `'IFC2X3'` inside the FILE_SCHEMA statement. */
  lemma {:induction false} SchemaString(s: seq<char>)
    requires Is(s, "FILE_SCHEMA(('IFC2X3'));")
    ensures ValueParsed(s, 13, Str("IFC2X3"), 21)
  {
    SchemaStringScan(s);
    NoLayoutAt(s, 13);
    StringValueAt(s, 13, "IFC2X3", 21);
  }

  /** The string literal `'IFC2X3'` is scanned up to offset 21. */
  lemma {:induction false} SchemaStringScan(s: seq<char>)
    requires Is(s, "FILE_SCHEMA(('IFC2X3'));")
    ensures 13 < |s| && s[13] == '\'' && ScanString(s, 13) == Success(("IFC2X3", 21))
  {
    var t := "FILE_SCHEMA(('IFC2X3'));";
    TextAtChar(s, 0, t, 13);
    TextAtChar(s, 0, t, 20);
    TextAtChar(s, 0, t, 21);
    TextAtSub(s, t, 14, "IFC2X3");
    assert Encode("IFC2X3") == "IFC2X3";
    ScanEncodedString("IFC2X3", s, 13, 20);
  }

  // ------------------------------------------------------------- keywords

  lemma ValidKeyword()
    ensures ParseKeyword("KEYWORD", 0) == Success(("KEYWORD", 7))
    ensures Whole("KEYWORD", ParseKeyword("KEYWORD", 0)) == Success("KEYWORD")
  {
    KeywordAlone("KEYWORD");
  }

  lemma ValidKeywordWithDigit()
    ensures ParseKeyword("KEYWORD_0", 0) == Success(("KEYWORD_0", 9))
    ensures Whole("KEYWORD_0", ParseKeyword("KEYWORD_0", 0)) == Success("KEYWORD_0")
  {
    KeywordAlone("KEYWORD_0");
  }

  lemma ValidKeywordWithUnderscore()
    ensures ParseKeyword("_KEYWORD_0", 0) == Success(("_KEYWORD_0", 10))
    ensures Whole("_KEYWORD_0", ParseKeyword("_KEYWORD_0", 0)) == Success("_KEYWORD_0")
  {
    KeywordAlone("_KEYWORD_0");
  }

  lemma ValidUserKeyword()
    ensures ParseKeyword("!USER_KEYWORD", 0) == Success(("!USER_KEYWORD", 13))
    ensures Whole("!USER_KEYWORD", ParseKeyword("!USER_KEYWORD", 0)) == Success("!USER_KEYWORD")
  {
    KeywordAlone("!USER_KEYWORD");
  }

  lemma ValidUserKeywordWithUnderscore()
    ensures ParseKeyword("!_USER_KEYWORD", 0) == Success(("!_USER_KEYWORD", 14))
    ensures Whole("!_USER_KEYWORD", ParseKeyword("!_USER_KEYWORD", 0)) == Success("!_USER_KEYWORD")
  {
    KeywordAlone("!_USER_KEYWORD");
  }

  /** A keyword in which no layout can open is read as itself, alone or as
      the whole input. */
  lemma {:induction false} KeywordAlone(k: string)
    requires IsKeyword(k) && NoLayoutChars(k)
    ensures ParseKeyword(k, 0) == Success((k, |k|))
    ensures Whole(k, ParseKeyword(k, 0)) == Success(k)
  {
    KeywordIff(k);
    NoLayoutAt(k, 0);
    WholeKeyword(k);
  }

  /** Read as the whole input, none of these is a keyword: a digit cannot
      open one, and `.`, `!` and lower-case letters cannot continue one. */
  lemma InvalidKeywordStart()
    ensures Whole("0KEYWORD", ParseKeyword("0KEYWORD", 0)).Failure?
  {
    assert !IsKeywordStart("0KEYWORD"[0]);
    WholeKeyword("0KEYWORD");
  }

  lemma InvalidKeywordDot()
    ensures Whole("KEYWORD.", ParseKeyword("KEYWORD.", 0)).Failure?
  {
    assert !IsKeywordChar("KEYWORD."[7]);
    WholeKeyword("KEYWORD.");
  }

  lemma InvalidKeywordBang()
    ensures Whole("KEYWORD!", ParseKeyword("KEYWORD!", 0)).Failure?
  {
    assert !IsKeywordChar("KEYWORD!"[7]);
    WholeKeyword("KEYWORD!");
  }

  lemma InvalidKeywordLowerCase()
    ensures Whole("Keyword", ParseKeyword("Keyword", 0)).Failure?
  {
    assert !IsKeywordChar("Keyword"[1]);
    WholeKeyword("Keyword");
  }

  // ------------------------------------------------------- the short file

  /** The statements of the short file of the tests: three header entities
      and four instances, the instance #5 naming #1 as its first
      parameter. */
  const ShortFile: StepFile := StepFile(
    [ HeaderEntity("FILE_DESCRIPTION",
        [ List([ Str("ViewDefinition [CoordinationView, SpaceBoundary2ndLevelAddOnView, QuantityTakeOffAddOnView]"),
                 Str("Option [Filter: ]") ]),
          Str("2;1") ]),
      HeaderEntity("FILE_NAME",
        [ Str("S:\\[IFC]\\[COMPLETE-BUILDINGS]\\xyz.ifc"), Str("2011-01-17T09:42:14"),
          List([Str("Architect")]), List([Str("Building Designer Office")]),
          Str("PreProc - EDM 5.0"),
          Str("ArchiCAD 14.00 Release 1. Windows Build Number of the Ifc 2x3 interface: 3427"),
          Str("The authorising person") ]),
      HeaderEntity("FILE_SCHEMA", [List([Str("IFC2X3")])]) ],
    [ Instance(1, "IFCORGANIZATION", [Str("GS"), Str("Graphisoft"), Str("Graphisoft"), Omitted, Omitted]),
      Instance(5, "IFCAPPLICATION", [Ref(1), Str("14.0"), Str("ArchiCAD 14.0"), Str("ArchiCAD")]),
      Instance(6, "IFCPERSON", [Str(""), Str("Nicht definiert"), Str(""), Omitted, Omitted, Omitted, Omitted, Omitted]),
      Instance(8, "IFCORGANIZATION", [Str(""), Str("Nicht definiert"), Str(""), Omitted, Omitted]) ])

  /** Written out without layout, the short file is read back by the
      step_file rule as exactly its statements: a non-empty result with
      three header entities and four instances. */
  lemma ShortStepFile()
    ensures ParseStepFile(PrintFile(ShortFile), 0).Success?
    ensures ParseStepFile(PrintFile(ShortFile), 0).value.0 == ShortFile
    ensures |ShortFile.header| == 3 && |ShortFile.data| == 4
  {
    ShortFileWellFormed();
    ParsePrintedFile(ShortFile);
  }

  lemma ShortFileWellFormed()
    ensures WellFormedFile(ShortFile)
  {
    ShortHeaderWellFormed();
    ShortDataWellFormed();
  }

  lemma ShortHeaderWellFormed()
    ensures HeadersWellFormed(ShortFile.header)
  {
    var h := ShortFile.header;
    KeywordName("FILE_DESCRIPTION");
    KeywordName("FILE_NAME");
    KeywordName("FILE_SCHEMA");
    assert WellFormedHeader(h[0]) by { StringsWellFormed(h[0].params); }
    assert WellFormedHeader(h[1]) by { StringsWellFormed(h[1].params); }
    assert WellFormedHeader(h[2]) by { StringsWellFormed(h[2].params); }
  }

  lemma ShortDataWellFormed()
    ensures InstancesWellFormed(ShortFile.data)
  {
    var d := ShortFile.data;
    KeywordName("IFCORGANIZATION");
    KeywordName("IFCAPPLICATION");
    KeywordName("IFCPERSON");
    assert WellFormedInstance(d[0]) by { StringsWellFormed(d[0].params); }
    assert WellFormedInstance(d[1]) by { StringsWellFormed(d[1].params); }
    assert WellFormedInstance(d[2]) by { StringsWellFormed(d[2].params); }
    assert WellFormedInstance(d[3]) by { StringsWellFormed(d[3].params); }
  }

  /** An upper-case name is a keyword. */
  lemma KeywordName(k: string)
    requires |k| > 0 && IsUpper(k[0]) && forall i :: 0 <= i < |k| ==> IsKeywordChar(k[i])
    ensures IsKeyword(k)
  {
  }

  /** A string, a reference, `$`, or a list of strings. */
  predicate Simple(v: Value) {
    v.Str? || v.Ref? || v.Omitted? || (v.List? && forall k :: 0 <= k < |v.items| ==> v.items[k].Str?)
  }

  /** Parameters made of simple values. */
  lemma StringsWellFormed(vs: seq<Value>)
    requires forall i :: 0 <= i < |vs| ==> Simple(vs[i])
    ensures AllWellFormed(vs)
  {
  }
}
