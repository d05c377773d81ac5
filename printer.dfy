/** The partner of the grammar: a printer that writes a value back as STEP
    text (strings through the encoder, binaries with padding digit 0, reals
    as `<mantissa>.E<exponent>`), and the proof that the grammar reads every
    printed well-formed value back as exactly that value. */
module Printer {
  import opened Results
  import opened Numerals
  import opened StringCodec
  import opened BinaryCodec
  import opened Lexer
  import opened Values
  import opened Grammar

  function IntegerText(n: int): (t: string)
    ensures |t| >= 1 && (IsDigit(t[0]) || t[0] == '-')
  {
    if n < 0 then "-" + DecimalText(-n) else DecimalText(n)
  }

  function Print(v: Value): (t: string)
    decreases v, 0
  {
    match v
    case Integer(n) => IntegerText(n)
    case Real(m, e) => IntegerText(m) + ".E" + IntegerText(e)
    case Str(x) => "'" + Encode(x) + "'"
    case Binary(b) => "\"" + EncodeBinary(b) + "\""
    case Ref(id) => "#" + DecimalText(id)
    case Omitted => "$"
    case Inherited => "*"
    case Enumeration(n) => "." + n + "."
    case Atom(w) => w
    case List(items) => "(" + PrintItems(items) + ")"
    case Typed(name, p) => name + "(" + Print(p) + ")"
  }

  /** The items of a list, separated by commas. */
  function PrintItems(vs: seq<Value>): string
    decreases vs, 1
  {
    if vs == [] then ""
    else if |vs| == 1 then Print(vs[0])
    else Print(vs[0]) + "," + PrintItems(vs[1..])
  }

  // ------------------------------------------------------- text positions

  /** A text between two one-character delimiters, such as a string
      literal's body between its apostrophes. */
  lemma {:induction false} EnclosedTextAt(s: seq<char>, pos: nat, open: string, body: string, close: string)
    requires |open| == 1 && |close| == 1 && TextAt(s, pos, (open + body) + close)
    ensures pos < |s| && s[pos] == open[0] && TextAt(s, pos + 1, body)
    ensures s[pos + 1 + |body|] == close[0] && |(open + body) + close| == |body| + 2
  {
    TextAtConcat(s, pos, open + body, close);
    TextAtConcat(s, pos, open, body);
    TextAtChar(s, pos, open, 0);
    TextAtChar(s, pos + 1 + |body|, close, 0);
  }

  /** What may follow a printed value: the end of the text, a comma, a
      closing parenthesis or a semicolon. */
  predicate Delimited(s: seq<char>, k: nat) {
    k == |s| || (k < |s| && (s[k] == ',' || s[k] == ')' || s[k] == ';'))
  }

  lemma {:induction false} NoLayoutAt(s: seq<char>, k: nat)
    requires k < |s| && !IsSpace(s[k]) && s[k] != '/'
    ensures SkipLayout(s, k) == k
  {
  }

  // --------------------------------------------------------------- numbers

  /** The digit run of a printed natural number, read from where it stands. */
  lemma {:induction false} DigitRunAt(a: nat, s: seq<char>, d0: nat, stop: nat)
    requires TextAt(s, d0, DecimalText(a)) && stop == d0 + |DecimalText(a)|
    requires stop < |s| ==> !IsDigit(s[stop])
    ensures d0 < stop && DigitsEnd(s, d0) == stop && AllDigits(s, d0, stop, Decimal)
    ensures DecimalValue(s, d0, stop) == a
  {
    TextAtSlice(s, d0, DecimalText(a));
    DecimalTextValue(a, s, d0);
    DigitsEndAt(s, d0, stop);
  }

  /** A printed integer, read from where it stands: sign and digit run. */
  lemma {:induction false} SignedDigitsAt(n: int, s: seq<char>, pos: nat, d0: nat, stop: nat)
    requires TextAt(s, pos, IntegerText(n)) && stop == pos + |IntegerText(n)|
    requires d0 == if n < 0 then pos + 1 else pos
    requires stop < |s| ==> !IsDigit(s[stop])
    ensures pos < |s| && (s[pos] == '-') == (n < 0) && s[pos] != '+'
    ensures d0 < stop && DigitsEnd(s, d0) == stop && AllDigits(s, d0, stop, Decimal)
    ensures DecimalValue(s, d0, stop) == if n < 0 then -n else n
  {
    TextAtChar(s, pos, IntegerText(n), 0);
    if n < 0 {
      TextAtConcat(s, pos, "-", DecimalText(-n));
      DigitRunAt(-n, s, d0, stop);
    } else {
      DigitRunAt(n, s, d0, stop);
    }
  }

  lemma {:induction false} ScanPrintedSigned(n: int, s: seq<char>, pos: nat, stop: nat)
    requires TextAt(s, pos, IntegerText(n)) && stop == pos + |IntegerText(n)|
    requires stop < |s| ==> !IsDigit(s[stop])
    ensures ScanSignedDigits(s, pos) == Success((n < 0, if n < 0 then -n else n, stop))
  {
    SignedDigitsAt(n, s, pos, if n < 0 then pos + 1 else pos, stop);
  }

  lemma {:induction false} ScanPrintedInteger(n: int, s: seq<char>, pos: nat)
    requires TextAt(s, pos, IntegerText(n)) && Delimited(s, pos + |IntegerText(n)|)
    ensures ScanNumber(s, pos) == Success((IntegerLit(n), pos + |IntegerText(n)|))
  {
    ScanPrintedSigned(n, s, pos, pos + |IntegerText(n)|);
  }

  /** A real printed as its three parts: mantissa, `.E`, exponent. */
  lemma {:induction false} ScanRealParts(m: int, x: int, s: seq<char>, pos: nat, d1: nat, e1: nat)
    requires TextAt(s, pos, IntegerText(m)) && d1 == pos + |IntegerText(m)|
    requires TextAt(s, d1, ".E") && TextAt(s, d1 + 2, IntegerText(x)) && e1 == d1 + 2 + |IntegerText(x)|
    requires e1 < |s| ==> !IsDigit(s[e1])
    ensures ScanNumber(s, pos) == Success((RealLit(m, x), e1))
  {
    TextAtChar(s, d1, ".E", 0);
    TextAtChar(s, d1, ".E", 1);
    ScanPrintedSigned(m, s, pos, d1);
    ScanPrintedSigned(x, s, d1 + 2, e1);
    assert ScanExponent(s, d1 + 1) == Success((x, e1));
    ScanNumberNoFraction(s, pos, m < 0, if m < 0 then -m else m, d1, x, e1);
  }

  lemma {:induction false} ScanPrintedReal(m: int, x: int, s: seq<char>, pos: nat)
    requires TextAt(s, pos, Print(Real(m, x))) && Delimited(s, pos + |Print(Real(m, x))|)
    ensures ScanNumber(s, pos) == Success((RealLit(m, x), pos + |Print(Real(m, x))|))
  {
    var mt, et := IntegerText(m), IntegerText(x);
    assert Print(Real(m, x)) == (mt + ".E") + et;
    TextAtConcat(s, pos, mt + ".E", et);
    TextAtConcat(s, pos, mt, ".E");
    ScanRealParts(m, x, s, pos, pos + |mt|, pos + |mt| + 2 + |et|);
  }

  // --------------------------------------------------------------- strings

  lemma {:induction false} EncodeCharNoApostrophe(c: char)
    requires c != '\''
    ensures forall k :: 0 <= k < |EncodeChar(c)| ==> EncodeChar(c)[k] != '\''
  {
    if !(c == '\\' || IsPrintable(c)) {
      var w := if c as int < 0x1_0000 then 4 else 8;
      var n := NumeralText(c as int, w, Hex);
      var e := EncodeChar(c);
      assert e == (if w == 4 then "\\X2\\" else "\\X4\\") + n + "\\X0\\";
      forall k | 0 <= k < |e| ensures e[k] != '\'' {
        if 4 <= k < 4 + w { assert e[k] == n[k - 4]; assert IsDigitOf(n[k - 4], Hex); }
      }
    }
  }

  lemma {:induction false} SkipNonApostrophes(s: seq<char>, i: nat, j: nat)
    requires i <= j <= |s| && forall k :: i <= k < j ==> s[k] != '\''
    ensures ClosingApostrophe(s, i) == ClosingApostrophe(s, j)
    decreases j - i
  {
    if i < j { SkipNonApostrophes(s, i + 1, j); }
  }

  /** The closing apostrophe lies beyond one encoded character. */
  lemma {:induction false} SkipEncodedChar(c: char, s: seq<char>, i: nat)
    requires TextAt(s, i, EncodeChar(c))
    ensures ClosingApostrophe(s, i) == ClosingApostrophe(s, i + |EncodeChar(c)|)
  {
    var e := EncodeChar(c);
    if c == '\'' {
      TextAtChar(s, i, e, 0);
      TextAtChar(s, i, e, 1);
    } else {
      EncodeCharNoApostrophe(c);
      forall t | i <= t < i + |e| ensures s[t] != '\'' { TextAtChar(s, i, e, t - i); }
      SkipNonApostrophes(s, i, i + |e|);
    }
  }

  lemma {:induction false} EncodeCons(x: seq<char>)
    requires x != []
    ensures Encode(x) == EncodeChar(x[0]) + Encode(x[1..])
  {
  }

  /** In an encoded text every apostrophe is one of a doubled pair, so the
      literal's closing apostrophe is the one just after it. */
  lemma {:induction false} ClosingAfterEncoded(x: seq<char>, s: seq<char>, i: nat, j: nat)
    requires TextAt(s, i, Encode(x)) && j == i + |Encode(x)|
    requires j < |s| && s[j] == '\'' && (j + 1 == |s| || s[j + 1] != '\'')
    ensures ClosingApostrophe(s, i) == Some(j)
    decreases |x|
  {
    if x == [] {
      assert i == j;
    } else {
      EncodedSplit(x, s, i);
      SkipEncodedChar(x[0], s, i);
      ClosingAfterEncoded(x[1..], s, i + |EncodeChar(x[0])|, j);
    }
  }

  /** An encoded text starts with its first character's encoding. */
  lemma {:induction false} EncodedSplit(x: seq<char>, s: seq<char>, i: nat)
    requires x != [] && TextAt(s, i, Encode(x))
    ensures TextAt(s, i, EncodeChar(x[0])) && TextAt(s, i + |EncodeChar(x[0])|, Encode(x[1..]))
    ensures |Encode(x)| == |EncodeChar(x[0])| + |Encode(x[1..])|
  {
    EncodeCons(x);
    TextAtConcat(s, i, EncodeChar(x[0]), Encode(x[1..]));
  }

  /** Where the parts of a printed string stand. */
  lemma {:induction false} StringTextAt(x: string, s: seq<char>, pos: nat)
    requires TextAt(s, pos, Print(Str(x)))
    ensures TextAt(s, pos + 1, Encode(x)) && |Print(Str(x))| == |Encode(x)| + 2
    ensures s[pos] == '\'' && s[pos + 1 + |Encode(x)|] == '\''
  {
    EnclosedTextAt(s, pos, "'", Encode(x), "'");
  }

  /** An encoded text between apostrophes, followed by a delimiter, is
      scanned as the text it encodes. */
  lemma {:induction false} ScanEncodedString(x: string, s: seq<char>, pos: nat, j: nat)
    requires pos < |s| && s[pos] == '\'' && TextAt(s, pos + 1, Encode(x)) && j == pos + 1 + |Encode(x)|
    requires j < |s| && s[j] == '\'' && Delimited(s, j + 1)
    ensures ScanString(s, pos) == Success((x, j + 1))
  {
    ClosingAfterEncoded(x, s, pos + 1, j);
    DecodeEncodedAt(x, s, pos + 1, j);
    ScanStringAt(x, s, pos, j);
  }

  /** A string literal from its closing apostrophe and its decoded text. */
  lemma {:induction false} ScanStringAt(x: string, s: seq<char>, pos: nat, j: nat)
    requires pos < |s| && s[pos] == '\'' && ClosingApostrophe(s, pos + 1) == Some(j)
    requires DecodeFrom(s, pos + 1, j, Plain) == Success(x)
    ensures ScanString(s, pos) == Success((x, j + 1))
  {
  }

  /** An encoded text is decoded as the text it encodes where it stands. */
  lemma {:induction false} DecodeEncodedAt(x: string, s: seq<char>, i: nat, j: nat)
    requires TextAt(s, i, Encode(x)) && j == i + |Encode(x)|
    ensures DecodeFrom(s, i, j, Plain) == Success(x)
  {
    TextAtSlice(s, i, Encode(x));
    DecodeEncode(x, s, i, j);
  }

  lemma {:induction false} ScanPrintedString(x: string, s: seq<char>, pos: nat)
    requires TextAt(s, pos, Print(Str(x))) && Delimited(s, pos + |Print(Str(x))|)
    ensures pos < |s| && s[pos] == '\'' && ScanString(s, pos) == Success((x, pos + |Print(Str(x))|))
  {
    StringTextAt(x, s, pos);
    ScanEncodedString(x, s, pos, pos + 1 + |Encode(x)|);
  }

  // ---------------------------------------------------------------- binary

  lemma {:induction false} NoDoubleQuoteBefore(s: seq<char>, i: nat, j: nat)
    requires i <= j < |s| && s[j] == '"' && forall k :: i <= k < j ==> s[k] != '"'
    ensures NextDoubleQuote(s, i) == Some(j)
    decreases j - i
  {
    if i < j { NoDoubleQuoteBefore(s, i + 1, j); }
  }

  lemma {:induction false} ScanPrintedBinary(b: BitString, s: seq<char>, pos: nat)
    requires Encodable(b)
    requires TextAt(s, pos, Print(Binary(b)))
    ensures pos < |s| && s[pos] == '"' && ScanBinary(s, pos) == Success((b, pos + |Print(Binary(b))|))
  {
    var body := EncodeBinary(b);
    var j := pos + 1 + |body|;
    EnclosedTextAt(s, pos, "\"", body, "\"");
    forall k | pos + 1 <= k < j ensures s[k] != '"' {
      TextAtChar(s, pos + 1, body, k - pos - 1);
      if k > pos + 1 { assert body[k - pos - 1] == NumeralText(b.value, b.bits / 4, Hex)[k - pos - 2]; }
    }
    NoDoubleQuoteBefore(s, pos + 1, j);
    DecodeBinaryAt(b, s, pos + 1, j);
  }

  /** A printed bit string is decoded as that bit string where it stands. */
  lemma {:induction false} DecodeBinaryAt(b: BitString, s: seq<char>, i: nat, j: nat)
    requires Encodable(b) && TextAt(s, i, EncodeBinary(b)) && j == i + |EncodeBinary(b)|
    ensures DecodeBinaryFrom(s, i, j) == Success(b)
  {
    TextAtSlice(s, i, EncodeBinary(b));
    DecodeEncodeBinary(b, s, i, j);
  }

  // ------------------------------------------------------ entity instances

  lemma {:induction false} ScanPrintedRef(id: nat, s: seq<char>, pos: nat)
    requires TextAt(s, pos, "#" + DecimalText(id))
    requires pos + 1 + |DecimalText(id)| < |s| ==> !IsDigit(s[pos + 1 + |DecimalText(id)|])
    ensures pos < |s| && s[pos] == '#' && ScanEntityName(s, pos) == Success((id, pos + 1 + |DecimalText(id)|))
  {
    TextAtConcat(s, pos, "#", DecimalText(id));
    TextAtChar(s, pos, "#", 0);
    DigitRunAt(id, s, pos + 1, pos + 1 + |DecimalText(id)|);
  }

  // ---------------------------------------------------------------- values

  /** Every printed well-formed value opens with a character that selects
      its own rule. */
  lemma {:induction false} PrintStart(v: Value)
    requires WellFormed(v)
    ensures |Print(v)| >= 1 && StartsValue(Print(v)[0])
    ensures v.Integer? || v.Real? ==> IsDigit(Print(v)[0]) || Print(v)[0] == '-'
    ensures v.Typed? ==> Print(v)[0] == v.typeName[0]
  {
  }

  /** The value rule at a printed value's first character, with no layout
      in front of it. */
  lemma {:induction false} NoLayoutBefore(v: Value, s: seq<char>, pos: nat)
    requires WellFormed(v) && TextAt(s, pos, Print(v))
    ensures pos < |s| && SkipLayout(s, pos) == pos && s[pos] == Print(v)[0]
    ensures StartsValue(s[pos])
    ensures v.Integer? || v.Real? ==> IsDigit(s[pos]) || s[pos] == '-'
    ensures v.Typed? ==> s[pos] == v.typeName[0]
  {
    PrintStart(v);
    TextAtChar(s, pos, Print(v), 0);
    NoLayoutAt(s, pos);
  }

  // ------------------------------------------ the value rule, one step

  /** A number token, read as a value. */
  lemma {:induction false} NumberValueAt(s: seq<char>, pos: nat, q: nat, n: Number, e: nat)
    requires pos <= q < |s| && SkipLayout(s, pos) == q && (IsDigit(s[q]) || s[q] == '-')
    requires ScanNumber(s, q) == Success((n, e))
    ensures ParseValue(s, pos) == Success((FromNumber(n), e))
  {
  }

  /** A string token, read as a value. */
  lemma {:induction false} StringValueAt(s: seq<char>, pos: nat, x: string, e: nat)
    requires pos < |s| && SkipLayout(s, pos) == pos && s[pos] == '\''
    requires ScanString(s, pos) == Success((x, e))
    ensures ParseValue(s, pos) == Success((Str(x), e))
  {
  }

  /** A binary token, read as a value. */
  lemma {:induction false} BinaryValueAt(s: seq<char>, pos: nat, b: BitString, e: nat)
    requires pos < |s| && SkipLayout(s, pos) == pos && s[pos] == '"'
    requires ScanBinary(s, pos) == Success((b, e))
    ensures ParseValue(s, pos) == Success((Binary(b), e))
  {
  }

  /** An entity instance name, read as a value. */
  lemma {:induction false} RefValueAt(s: seq<char>, pos: nat, id: nat, e: nat)
    requires pos < |s| && SkipLayout(s, pos) == pos && s[pos] == '#'
    requires ScanEntityName(s, pos) == Success((id, e))
    ensures ParseValue(s, pos) == Success((Ref(id), e))
  {
  }

  /** An enumeration value, read as a value. */
  lemma {:induction false} EnumerationValueAt(s: seq<char>, pos: nat, n: string, e: nat)
    requires pos < |s| && SkipLayout(s, pos) == pos && s[pos] == '.'
    requires ScanEnumeration(s, pos) == Success((n, e))
    ensures ParseValue(s, pos) == Success((Enumeration(n), e))
  {
  }

  /** A keyword that no `(` follows, read as a value. */
  lemma {:induction false} AtomValueAt(s: seq<char>, pos: nat, w: string, e: nat)
    requires pos < |s| && SkipLayout(s, pos) == pos && (s[pos] == '!' || IsKeywordStart(s[pos]))
    requires ScanKeyword(s, pos) == Success((w, e)) && SkipLayout(s, e) == e && (e < |s| ==> s[e] != '(')
    ensures ParseValue(s, pos) == Success((Atom(w), e))
  {
  }

  /** A list, read as a value. */
  lemma {:induction false} ListValueAt(s: seq<char>, pos: nat, vs: seq<Value>, e: nat)
    requires pos < |s| && SkipLayout(s, pos) == pos && s[pos] == '('
    requires ParseList(s, pos) == Success((vs, e))
    ensures ParseValue(s, pos) == Success((List(vs), e))
  {
  }

  /** A typed parameter, read as a value. */
  lemma {:induction false} TypedValueAt(s: seq<char>, pos: nat, v: Value, e: nat)
    requires pos < |s| && SkipLayout(s, pos) == pos && (s[pos] == '!' || IsKeywordStart(s[pos]))
    requires ParseTypedParameter(s, pos) == Success((v, e))
    ensures ParseValue(s, pos) == Success((v, e))
  {
  }

  // ------------------------------------------ printed values, read back

  lemma {:induction false} ParsePrintedInteger(v: Value, s: seq<char>, pos: nat, e: nat)
    requires v.Integer? && TextAt(s, pos, Print(v)) && e == pos + |Print(v)| && Delimited(s, e)
    ensures ParseValue(s, pos) == Success((v, e))
  {
    var t := IntegerText(v.n);
    assert Print(v) == t;
    NoLayoutBefore(v, s, pos);
    ScanPrintedInteger(v.n, s, pos);
    NumberValueAt(s, pos, pos, IntegerLit(v.n), e);
    assert FromNumber(IntegerLit(v.n)) == v;
  }

  lemma {:induction false} ParsePrintedReal(v: Value, s: seq<char>, pos: nat, e: nat)
    requires v.Real? && TextAt(s, pos, Print(v)) && e == pos + |Print(v)| && Delimited(s, e)
    ensures ParseValue(s, pos) == Success((v, e))
  {
    NoLayoutBefore(v, s, pos);
    ScanPrintedReal(v.mantissa, v.exponent, s, pos);
    NumberValueAt(s, pos, pos, RealLit(v.mantissa, v.exponent), e);
  }

  lemma {:induction false} ParsePrintedString(v: Value, s: seq<char>, pos: nat, e: nat)
    requires v.Str? && TextAt(s, pos, Print(v)) && e == pos + |Print(v)| && Delimited(s, e)
    ensures ParseValue(s, pos) == Success((v, e))
  {
    NoLayoutBefore(v, s, pos);
    ScanPrintedString(v.text, s, pos);
    StringValueAt(s, pos, v.text, e);
  }

  lemma {:induction false} ParsePrintedBinary(v: Value, s: seq<char>, pos: nat, e: nat)
    requires v.Binary? && Encodable(v.bits) && TextAt(s, pos, Print(v)) && e == pos + |Print(v)|
    ensures ParseValue(s, pos) == Success((v, e))
  {
    NoLayoutBefore(v, s, pos);
    ScanPrintedBinary(v.bits, s, pos);
    BinaryValueAt(s, pos, v.bits, e);
  }

  lemma {:induction false} ParsePrintedRef(v: Value, s: seq<char>, pos: nat, e: nat)
    requires v.Ref? && TextAt(s, pos, Print(v)) && e == pos + |Print(v)| && Delimited(s, e)
    ensures ParseValue(s, pos) == Success((v, e))
  {
    NoLayoutBefore(v, s, pos);
    ScanPrintedRef(v.id, s, pos);
    RefValueAt(s, pos, v.id, e);
  }

  lemma {:induction false} ParsePrintedEnumeration(v: Value, s: seq<char>, pos: nat, e: nat)
    requires v.Enumeration? && IsEnumerationName(v.name) && TextAt(s, pos, Print(v)) && e == pos + |Print(v)|
    ensures ParseValue(s, pos) == Success((v, e))
  {
    NoLayoutBefore(v, s, pos);
    ScanEnumerationAt(v.name, s, pos);
    EnumerationValueAt(s, pos, v.name, e);
  }

  lemma {:induction false} ParsePrintedAtom(v: Value, s: seq<char>, pos: nat, e: nat)
    requires v.Atom? && IsKeyword(v.word) && TextAt(s, pos, Print(v)) && e == pos + |Print(v)| && Delimited(s, e)
    ensures ParseValue(s, pos) == Success((v, e))
  {
    NoLayoutBefore(v, s, pos);
    ScanKeywordAt(v.word, s, pos);
    if e < |s| { NoLayoutAt(s, e); }
    AtomValueAt(s, pos, v.word, e);
  }

  lemma {:induction false} ParsePrintedMarker(v: Value, s: seq<char>, pos: nat, e: nat)
    requires v.Omitted? || v.Inherited?
    requires TextAt(s, pos, Print(v)) && e == pos + |Print(v)|
    ensures ParseValue(s, pos) == Success((v, e))
  {
    NoLayoutBefore(v, s, pos);
  }

  /** The round trip: the grammar reads a printed well-formed value, followed
      by a delimiter, back as that value, ending at e, just past its text. */
  lemma {:induction false} ParsePrinted(v: Value, s: seq<char>, pos: nat, e: nat)
    requires WellFormed(v)
    requires TextAt(s, pos, Print(v)) && e == pos + |Print(v)| && Delimited(s, e)
    ensures ParseValue(s, pos) == Success((v, e))
    decreases v, 3
  {
    match v
    case Integer(_) => ParsePrintedInteger(v, s, pos, e);
    case Real(_, _) => ParsePrintedReal(v, s, pos, e);
    case Str(_) => ParsePrintedString(v, s, pos, e);
    case Binary(_) => ParsePrintedBinary(v, s, pos, e);
    case Ref(_) => ParsePrintedRef(v, s, pos, e);
    case Omitted => ParsePrintedMarker(v, s, pos, e);
    case Inherited => ParsePrintedMarker(v, s, pos, e);
    case Enumeration(_) => ParsePrintedEnumeration(v, s, pos, e);
    case Atom(_) => ParsePrintedAtom(v, s, pos, e);
    case List(_) => ParsePrintedListValue(v, s, pos, e);
    case Typed(_, _) => ParsePrintedTypedValue(v, s, pos, e);
  }

  lemma {:induction false} ParsePrintedListValue(v: Value, s: seq<char>, pos: nat, e: nat)
    requires v.List? && WellFormed(v) && TextAt(s, pos, Print(v)) && e == pos + |Print(v)|
    ensures ParseValue(s, pos) == Success((v, e))
    decreases v, 2
  {
    NoLayoutBefore(v, s, pos);
    ParsePrintedList(v.items, s, pos, e);
    ListValueAt(s, pos, v.items, e);
  }

  lemma {:induction false} ParsePrintedTypedValue(v: Value, s: seq<char>, pos: nat, e: nat)
    requires v.Typed? && WellFormed(v) && TextAt(s, pos, Print(v)) && e == pos + |Print(v)|
    ensures ParseValue(s, pos) == Success((v, e))
    decreases v, 2
  {
    NoLayoutBefore(v, s, pos);
    ParsePrintedTyped(v, s, pos, e);
    TypedValueAt(s, pos, v, e);
  }

  // ------------------------------------------ the grammar rules, one step

  lemma {:induction false} TypedParameterAt(s: seq<char>, pos: nat, v: Value, o: nat, c: nat, e: nat)
    requires v.Typed? && pos <= |s| && SkipLayout(s, pos) == pos
    requires ScanKeyword(s, pos) == Success((v.typeName, o))
    requires o < |s| && SkipLayout(s, o) == o && s[o] == '('
    requires ParseValue(s, o + 1) == Success((v.param, c)) && c < |s| && SkipLayout(s, c) == c && s[c] == ')'
    requires e == c + 1
    ensures ParseTypedParameter(s, pos) == Success((v, e))
  {
  }

  /** The last item of a list and its closing parenthesis. */
  lemma {:induction false} LastItemAt(s: seq<char>, pos: nat, v: Value, k: nat, e: nat)
    requires pos <= |s| && ParseValue(s, pos) == Success((v, k))
    requires k < |s| && SkipLayout(s, k) == k && s[k] == ')' && e == k + 1
    ensures ParseItems(s, pos) == Success(([v], e))
  {
  }

  /** An item, a comma and the items after it. */
  lemma {:induction false} MoreItemsAt(s: seq<char>, pos: nat, v: Value, rest: seq<Value>, k: nat, e: nat)
    requires pos <= |s| && ParseValue(s, pos) == Success((v, k))
    requires k < |s| && SkipLayout(s, k) == k && s[k] == ','
    requires ParseItems(s, k + 1) == Success((rest, e))
    ensures ParseItems(s, pos) == Success(([v] + rest, e))
  {
    ItemsRule(s, pos, v, k, ParseItems(s, k + 1));
    ConsResult(ParseItems(s, k + 1), v, rest, e);
  }

  /** value `,` items, once the first value and the comma have been read. */
  lemma {:induction false} ItemsRule(s: seq<char>, pos: nat, v: Value, k: nat, r: Result<(seq<Value>, nat)>)
    requires pos <= |s| && ParseValue(s, pos) == Success((v, k))
    requires k < |s| && SkipLayout(s, k) == k && s[k] == ',' && r == ParseItems(s, k + 1)
    ensures ParseItems(s, pos) == match r
                                  case Failure(err) => Failure(err)
                                  case Success(x) => Success(([v] + x.0, x.1))
  {
  }

  lemma ConsResult(r: Result<(seq<Value>, nat)>, v: Value, rest: seq<Value>, e: nat)
    requires r == Success((rest, e))
    ensures (match r
             case Failure(err) => Failure(err)
             case Success(x) => Success(([v] + x.0, x.1))) == Success(([v] + rest, e))
  {
  }

  /** The items of a list after its opening parenthesis. */
  lemma {:induction false} ListItemsAt(s: seq<char>, pos: nat, vs: seq<Value>, e: nat)
    requires pos < |s| && SkipLayout(s, pos) == pos && s[pos] == '('
    requires pos + 1 < |s| && SkipLayout(s, pos + 1) == pos + 1 && s[pos + 1] != ')'
    requires ParseItems(s, pos + 1) == Success((vs, e))
    ensures ParseList(s, pos) == Success((vs, e))
  {
  }

  /** The empty list `()`. */
  lemma {:induction false} EmptyListAt(s: seq<char>, pos: nat, e: nat)
    requires pos + 1 < |s| && SkipLayout(s, pos) == pos && s[pos] == '('
    requires SkipLayout(s, pos + 1) == pos + 1 && s[pos + 1] == ')' && e == pos + 2
    ensures ParseList(s, pos) == Success(([], e))
  {
  }

  lemma {:induction false} ItemsSingle(r: Result<(seq<Value>, nat)>, vs: seq<Value>, e: nat)
    requires |vs| == 1 && r == Success(([vs[0]], e))
    ensures r == Success((vs, e))
  {
    assert [vs[0]] == vs;
  }

  /** Where the parts of a printed typed parameter stand. */
  lemma {:induction false} TypedTextAt(name: string, p: Value, s: seq<char>, pos: nat)
    requires TextAt(s, pos, Print(Typed(name, p)))
    ensures TextAt(s, pos, name) && TextAt(s, pos + |name| + 1, Print(p))
    ensures s[pos + |name|] == '(' && s[pos + |name| + 1 + |Print(p)|] == ')'
    ensures |Print(Typed(name, p))| == |name| + |Print(p)| + 2
  {
    var o := pos + |name|;
    assert Print(Typed(name, p)) == ((name + "(") + Print(p)) + ")";
    TextAtConcat(s, pos, (name + "(") + Print(p), ")");
    TextAtConcat(s, pos, name + "(", Print(p));
    TextAtConcat(s, pos, name, "(");
    TextAtChar(s, o, "(", 0);
    TextAtChar(s, o + 1 + |Print(p)|, ")", 0);
  }

  /** The tokens of a printed typed parameter around its inner value. */
  lemma {:induction false} TypedTokensAt(v: Value, s: seq<char>, pos: nat, o: nat, c: nat)
    requires v.Typed? && WellFormed(v) && TextAt(s, pos, Print(v))
    requires o == pos + |v.typeName| && c == o + 1 + |Print(v.param)|
    ensures pos <= |s| && SkipLayout(s, pos) == pos && ScanKeyword(s, pos) == Success((v.typeName, o))
    ensures o < |s| && SkipLayout(s, o) == o && s[o] == '('
    ensures TextAt(s, o + 1, Print(v.param))
    ensures c < |s| && SkipLayout(s, c) == c && s[c] == ')' && Delimited(s, c)
    ensures |Print(v)| == c + 1 - pos
  {
    var name := v.typeName;
    TypedTextAt(name, v.param, s, pos);
    TextAtChar(s, pos, name, 0);
    NoLayoutAt(s, pos);
    ScanKeywordAt(name, s, pos);
    NoLayoutAt(s, o);
    NoLayoutAt(s, c);
  }

  lemma {:induction false} ParsePrintedTyped(v: Value, s: seq<char>, pos: nat, e: nat)
    requires v.Typed? && WellFormed(v) && TextAt(s, pos, Print(v)) && e == pos + |Print(v)|
    ensures ParseTypedParameter(s, pos) == Success((v, e))
    decreases v, 1
  {
    var o := pos + |v.typeName|;
    var c := o + 1 + |Print(v.param)|;
    TypedTokensAt(v, s, pos, o, c);
    ParsePrinted(v.param, s, o + 1, c);
    TypedParameterAt(s, pos, v, o, c, e);
  }

  /** Where the parts of a printed list stand. */
  lemma {:induction false} ListTextAt(vs: seq<Value>, s: seq<char>, pos: nat)
    requires TextAt(s, pos, Print(List(vs)))
    ensures pos < |s| && s[pos] == '(' && TextAt(s, pos + 1, PrintItems(vs) + ")")
    ensures |Print(List(vs))| == |PrintItems(vs)| + 2
  {
    assert Print(List(vs)) == "(" + (PrintItems(vs) + ")");
    TextAtConcat(s, pos, "(", PrintItems(vs) + ")");
    TextAtChar(s, pos, "(", 0);
  }

  /** A printed list, read back by the list rule. */
  lemma {:induction false} ParsePrintedList(vs: seq<Value>, s: seq<char>, pos: nat, e: nat)
    requires AllWellFormed(vs)
    requires TextAt(s, pos, Print(List(vs))) && e == pos + |Print(List(vs))|
    ensures ParseList(s, pos) == Success((vs, e))
    decreases vs, 3
  {
    ListTextAt(vs, s, pos);
    NoLayoutAt(s, pos);
    if vs == [] {
      assert PrintItems(vs) + ")" == ")";
      TextAtChar(s, pos + 1, ")", 0);
      NoLayoutAt(s, pos + 1);
      EmptyListAt(s, pos, e);
    } else {
      PrintItemsStart(vs);
      TextAtChar(s, pos + 1, PrintItems(vs) + ")", 0);
      NoLayoutAt(s, pos + 1);
      ParsePrintedItems(vs, s, pos + 1, e);
      ListItemsAt(s, pos, vs, e);
    }
  }

  /** A non-empty item list opens with its first item's text. */
  lemma {:induction false} PrintItemsStart(vs: seq<Value>)
    requires vs != [] && AllWellFormed(vs)
    ensures |PrintItems(vs)| >= 1 && StartsValue(PrintItems(vs)[0])
  {
    PrintStart(vs[0]);
    if |vs| > 1 {
      assert PrintItems(vs) == Print(vs[0]) + ("," + PrintItems(vs[1..]));
    }
  }

  /** Where the parts of printed items stand: one item, then the closing
      parenthesis. */
  lemma {:induction false} LastItemTextAt(vs: seq<Value>, s: seq<char>, pos: nat)
    requires |vs| == 1 && TextAt(s, pos, PrintItems(vs) + ")")
    ensures TextAt(s, pos, Print(vs[0])) && |PrintItems(vs)| == |Print(vs[0])|
    ensures s[pos + |Print(vs[0])|] == ')'
  {
    var p0 := Print(vs[0]);
    assert PrintItems(vs) == p0;
    TextAtConcat(s, pos, p0, ")");
    TextAtChar(s, pos + |p0|, ")", 0);
  }

  /** Where the parts of printed items stand: the first item, a comma and
      the remaining items with the closing parenthesis. */
  lemma {:induction false} ItemsTextAt(vs: seq<Value>, s: seq<char>, pos: nat)
    requires |vs| > 1 && TextAt(s, pos, PrintItems(vs) + ")")
    ensures TextAt(s, pos, Print(vs[0])) && s[pos + |Print(vs[0])|] == ','
    ensures TextAt(s, pos + |Print(vs[0])| + 1, PrintItems(vs[1..]) + ")")
    ensures |PrintItems(vs)| == |Print(vs[0])| + 1 + |PrintItems(vs[1..])|
  {
    var p0, tail := Print(vs[0]), PrintItems(vs[1..]) + ")";
    assert PrintItems(vs) == p0 + "," + PrintItems(vs[1..]);
    assert PrintItems(vs) + ")" == p0 + ("," + tail);
    TextAtConcat(s, pos, p0, "," + tail);
    TextAtConcat(s, pos + |p0|, ",", tail);
    TextAtChar(s, pos + |p0|, ",", 0);
  }

  /** The first of several printed items, read back, then the rest. */
  lemma {:induction false} FirstItemThenMore(v: Value, rest: seq<Value>, s: seq<char>, pos: nat, k: nat, e: nat)
    requires WellFormed(v) && TextAt(s, pos, Print(v)) && k == pos + |Print(v)|
    requires k < |s| && s[k] == ','
    requires ItemsParsed(s, k + 1, rest, e)
    ensures ParseItems(s, pos) == Success(([v] + rest, e))
    decreases v, 4
  {
    NoLayoutAt(s, k);
    ParsePrinted(v, s, pos, k);
    MoreItemsAt(s, pos, v, rest, k, e);
  }

  /** The only printed item, read back, then the closing parenthesis. */
  lemma {:induction false} LastItemThenClose(v: Value, s: seq<char>, pos: nat, k: nat, e: nat)
    requires WellFormed(v) && TextAt(s, pos, Print(v)) && k == pos + |Print(v)|
    requires k < |s| && s[k] == ')' && e == k + 1
    ensures ParseItems(s, pos) == Success(([v], e))
    decreases v, 4
  {
    NoLayoutAt(s, k);
    ParsePrinted(v, s, pos, k);
    LastItemAt(s, pos, v, k, e);
  }

  /** Several printed items: the first, a comma and the rest, read back. */
  lemma {:induction false} ParsePrintedMoreItems(vs: seq<Value>, s: seq<char>, pos: nat, k: nat, e: nat)
    requires |vs| > 1 && AllWellFormed(vs)
    requires TextAt(s, pos, Print(vs[0])) && k == pos + |Print(vs[0])| && k < |s| && s[k] == ','
    requires TextAt(s, k + 1, PrintItems(vs[1..]) + ")") && e == k + 1 + |PrintItems(vs[1..])| + 1
    ensures ItemsParsed(s, pos, vs, e)
    decreases vs, 1
  {
    var rest := vs[1..];
    assert AllWellFormed(rest) by {
      assert forall i :: 0 <= i < |rest| ==> rest[i] == vs[i + 1];
    }
    ParsePrintedItems(rest, s, k + 1, e);
    FirstItemThenMore(vs[0], rest, s, pos, k, e);
    SplitFirst(ParseItems(s, pos), vs, e);
  }

  /** The items of a printed list and its closing parenthesis, read back. */
  lemma {:induction false} ParsePrintedItems(vs: seq<Value>, s: seq<char>, pos: nat, e: nat)
    requires vs != [] && AllWellFormed(vs)
    requires TextAt(s, pos, PrintItems(vs) + ")") && e == pos + |PrintItems(vs)| + 1
    ensures ItemsParsed(s, pos, vs, e)
    decreases vs, 2
  {
    var k := pos + |Print(vs[0])|;
    if |vs| == 1 {
      LastItemTextAt(vs, s, pos);
      LastItemThenClose(vs[0], s, pos, k, e);
      ItemsSingle(ParseItems(s, pos), vs, e);
    } else {
      ItemsTextAt(vs, s, pos);
      ParsePrintedMoreItems(vs, s, pos, k, e);
    }
  }
}
