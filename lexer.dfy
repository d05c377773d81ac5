/** The lexical classes of a STEP physical file, scanned directly on the
    buffered text: layout (white space and remarks, which open with
    slash-star and close with star-slash) between tokens, keywords, string and binary literals, numbers and entity
    instance names. Every scanner takes the offset of the token's first
    character and returns the token's value with the offset just past it. */
module Lexer {
  import opened Results
  import opened Numerals
  import opened StringCodec
  import opened BinaryCodec

  // ---------------------------------------------------------------- layout

  predicate IsSpace(c: char) { c == ' ' || c == '\t' || c == '\n' || c == '\r' }

  /** s[t..t+2] is the star-slash that closes a remark. */
  predicate ClosesAt(s: seq<char>, t: nat) {
    t + 1 < |s| && s[t] == '*' && s[t + 1] == '/'
  }

  /** s[i..k] is one closed remark: slash-star, then text without a
      star-slash, then the star-slash that closes it. */
  predicate Remark(s: seq<char>, i: nat, k: nat) {
    i + 4 <= k <= |s| && s[i] == '/' && s[i + 1] == '*' && ClosesAt(s, k - 2) &&
    forall t :: i + 2 <= t < k - 2 ==> !ClosesAt(s, t)
  }

  /** s[i..j] is layout: white space characters and closed remarks only. */
  predicate Layout(s: seq<char>, i: nat, j: nat)
    requires i <= j <= |s|
    decreases j - i
  {
    i == j ||
    (IsSpace(s[i]) && Layout(s, i + 1, j)) ||
    (exists k :: i < k <= j && Remark(s, i, k) && Layout(s, k, j))
  }

  /** The offset just past the first star-slash from i on. */
  function RemarkEnd(s: seq<char>, i: nat): (r: Option<nat>)
    requires i <= |s|
    ensures r.Some? ==> i + 2 <= r.value <= |s| && ClosesAt(s, r.value - 2)
    decreases |s| - i
  {
    if i + 1 >= |s| then None
    else if s[i] == '*' && s[i + 1] == '/' then Some(i + 2)
    else RemarkEnd(s, i + 1)
  }

  /** The star-slash RemarkEnd finds is the first one from i on, and when
      it finds none there is none. */
  lemma {:induction false} RemarkEndFirst(s: seq<char>, i: nat)
    requires i <= |s|
    ensures RemarkEnd(s, i).Some? ==> forall t :: i <= t < RemarkEnd(s, i).value - 2 ==> !ClosesAt(s, t)
    ensures RemarkEnd(s, i).None? ==> forall t :: i <= t ==> !ClosesAt(s, t)
    decreases |s| - i
  {
    if i + 1 < |s| && !(s[i] == '*' && s[i + 1] == '/') {
      RemarkEndFirst(s, i + 1);
    }
  }

  /** The first offset from i on that is not white space and does not open
      a closed remark. An unclosed remark is left for the next token to refuse. */
  function SkipLayout(s: seq<char>, i: nat): (j: nat)
    requires i <= |s|
    ensures i <= j <= |s|
    ensures j < |s| ==> !IsSpace(s[j])
    decreases |s| - i
  {
    if i < |s| && IsSpace(s[i]) then SkipLayout(s, i + 1)
    else if i + 1 < |s| && s[i] == '/' && s[i + 1] == '*' then
      match RemarkEnd(s, i + 2)
      case Some(k) => SkipLayout(s, k)
      case None => i
    else i
  }

  /** Layout cannot go on at j: neither a white space character nor a closed
      remark starts there. */
  predicate LayoutEnds(s: seq<char>, j: nat) {
    j <= |s| && (j < |s| ==> !IsSpace(s[j])) && forall k :: j < k <= |s| ==> !Remark(s, j, k)
  }

  /** SkipLayout stops exactly where the layout that starts at i ends:
      SkipLayout(s, i) == j if and only if s[i..j] is layout and layout
      cannot go on at j. */
  lemma SkipLayoutIff(s: seq<char>, i: nat, j: nat)
    requires i <= j <= |s|
    ensures SkipLayout(s, i) == j <==> Layout(s, i, j) && LayoutEnds(s, j)
  {
    SkipLayoutIsLayout(s, i);
    if Layout(s, i, j) && LayoutEnds(s, j) {
      LayoutUnique(s, i, j);
    }
  }

  lemma {:induction false} SkipLayoutIsLayout(s: seq<char>, i: nat)
    requires i <= |s|
    ensures Layout(s, i, SkipLayout(s, i)) && LayoutEnds(s, SkipLayout(s, i))
    decreases |s| - i
  {
    if i + 2 <= |s| { RemarkEndFirst(s, i + 2); }
    if i < |s| && IsSpace(s[i]) {
      SkipLayoutIsLayout(s, i + 1);
    } else if i + 1 < |s| && s[i] == '/' && s[i + 1] == '*' && RemarkEnd(s, i + 2).Some? {
      var k := RemarkEnd(s, i + 2).value;
      SkipLayoutIsLayout(s, k);
      assert Remark(s, i, k);
    }
  }

  /** A slash-star whose remark is found closed opens a closed remark. */
  lemma RemarkEndIsRemark(s: seq<char>, i: nat)
    requires i <= |s|
    ensures i + 1 < |s| && s[i] == '/' && s[i + 1] == '*' && RemarkEnd(s, i + 2).Some? ==>
      Remark(s, i, RemarkEnd(s, i + 2).value)
  {
    if i + 2 <= |s| { RemarkEndFirst(s, i + 2); }
  }

  /** Of two closed remarks that start at the same offset, neither is longer. */
  lemma RemarkAt(s: seq<char>, i: nat, k: nat)
    requires Remark(s, i, k)
    ensures RemarkEnd(s, i + 2) == Some(k)
  {
    RemarkEndFirst(s, i + 2);
    assert ClosesAt(s, k - 2);
  }

  lemma {:induction false} LayoutUnique(s: seq<char>, i: nat, j: nat)
    requires i <= j <= |s| && Layout(s, i, j) && LayoutEnds(s, j)
    ensures SkipLayout(s, i) == j
    decreases j - i
  {
    if i == j {
      RemarkEndIsRemark(s, i);
    } else if IsSpace(s[i]) {
      assert Layout(s, i + 1, j);
      LayoutUnique(s, i + 1, j);
    } else {
      var k :| i < k <= j && Remark(s, i, k) && Layout(s, k, j);
      RemarkAt(s, i, k);
      LayoutUnique(s, k, j);
    }
  }

  /** s holds t at offset pos, as a keyword's text stands where the keyword
      token is, or the special token `HEADER;` where the header section
      opens. */
  predicate TextAt(s: seq<char>, pos: nat, t: seq<char>) {
    pos + |t| <= |s| && forall k {:trigger t[k]} :: 0 <= k < |t| ==> s[pos + k] == t[k]
  }

  lemma {:induction false} TextAtSlice(s: seq<char>, pos: nat, t: seq<char>)
    requires TextAt(s, pos, t)
    ensures s[pos..pos + |t|] == t
  {
    assert forall k :: 0 <= k < |t| ==> s[pos..pos + |t|][k] == t[k];
  }

  lemma {:induction false} TextAtConcat(s: seq<char>, pos: nat, a: seq<char>, b: seq<char>)
    requires TextAt(s, pos, a + b)
    ensures TextAt(s, pos, a) && TextAt(s, pos + |a|, b)
  {
    assert forall k :: 0 <= k < |a| ==> (a + b)[k] == a[k];
    assert forall k :: 0 <= k < |b| ==> (a + b)[|a| + k] == b[k];
  }

  lemma {:induction false} TextAtChar(s: seq<char>, pos: nat, t: seq<char>, k: nat)
    requires TextAt(s, pos, t) && k < |t|
    ensures s[pos + k] == t[k]
  {
  }

  // -------------------------------------------------------------- keywords

  predicate IsUpper(c: char) { 'A' <= c <= 'Z' }
  predicate IsKeywordStart(c: char) { IsUpper(c) || c == '_' }
  predicate IsKeywordChar(c: char) { IsUpper(c) || IsDigit(c) || c == '_' }

  /** The KEYWORD class: an optional `!` marking a user-defined keyword, then
      an upper-case letter or `_`, then upper-case letters, digits and `_`. */
  predicate IsKeyword(k: seq<char>) {
    var b := if |k| > 0 && k[0] == '!' then 1 else 0;
    b < |k| && IsKeywordStart(k[b]) && forall i :: b < i < |k| ==> IsKeywordChar(k[i])
  }

  /** The end of the run of keyword characters that starts at i. */
  function KeywordEnd(s: seq<char>, i: nat): (j: nat)
    requires i <= |s|
    ensures i <= j <= |s| && forall k {:trigger IsKeywordChar(s[k])} :: i <= k < j ==> IsKeywordChar(s[k])
    ensures j < |s| ==> !IsKeywordChar(s[j])
    decreases |s| - i
  {
    if i < |s| && IsKeywordChar(s[i]) then KeywordEnd(s, i + 1) else i
  }

  /** Scans the longest keyword that starts at p. */
  function ScanKeyword(s: seq<char>, p: nat): (r: Result<(string, nat)>)
    requires p <= |s|
    ensures r.Success? ==> p < r.value.1 == p + |r.value.0| && TextAt(s, p, r.value.0) && IsKeyword(r.value.0)
    ensures r.Success? ==> r.value.1 < |s| ==> !IsKeywordChar(s[r.value.1])
    ensures r.Success? <==> p < |s| && (IsKeywordStart(s[p]) || (s[p] == '!' && p + 1 < |s| && IsKeywordStart(s[p + 1])))
  {
    var b := if p < |s| && s[p] == '!' then p + 1 else p;
    if b < |s| && IsKeywordStart(s[b]) then
      var e := KeywordEnd(s, b + 1);
      var k := s[p..e];
      assert forall i :: 0 <= i < e - p ==> k[i] == s[p + i];
      Success((k, e))
    else Failure(LexError(p, "keyword"))
  }

  lemma KeywordEndAt(s: seq<char>, i: nat, j: nat)
    requires i <= j <= |s| && forall k :: i <= k < j ==> IsKeywordChar(s[k])
    requires j < |s| ==> !IsKeywordChar(s[j])
    ensures KeywordEnd(s, i) == j
    decreases j - i
  {
    if i < j { KeywordEndAt(s, i + 1, j); }
  }

  /** A keyword standing at pos, followed by something that cannot extend
      it, is scanned as exactly that keyword. */
  lemma ScanKeywordAt(k: string, s: seq<char>, pos: nat)
    requires IsKeyword(k) && TextAt(s, pos, k)
    requires pos + |k| < |s| ==> !IsKeywordChar(s[pos + |k|])
    ensures ScanKeyword(s, pos) == Success((k, pos + |k|))
  {
    var b := if k[0] == '!' then 1 else 0;
    assert s[pos] == k[0] && s[pos + b] == k[b];
    forall j | pos + b + 1 <= j < pos + |k| ensures IsKeywordChar(s[j]) {
      assert s[j] == k[j - pos];
    }
    KeywordEndAt(s, pos + b + 1, pos + |k|);
    assert s[pos..pos + |k|] == k by {
      forall i | 0 <= i < |k| ensures s[pos..pos + |k|][i] == k[i] { assert s[pos + i] == k[i]; }
    }
  }

  /** The scanner and the KEYWORD class agree: a text is read whole as a
      keyword exactly when it is one. */
  lemma KeywordIff(k: string)
    ensures ScanKeyword(k, 0) == Success((k, |k|)) <==> IsKeyword(k)
  {
    if IsKeyword(k) {
      ScanKeywordAt(k, k, 0);
    }
  }

  // ---------------------------------------------------------- enumerations

  /** The name of an enumeration value: an upper-case letter or `_`, then
      upper-case letters, digits and `_` (a standard keyword's letters). */
  predicate IsEnumerationName(n: seq<char>) {
    |n| > 0 && IsKeywordStart(n[0]) && forall i :: 0 < i < |n| ==> IsKeywordChar(n[i])
  }

  /** Scans an enumeration value `.NAME.` starting at p: its name and the
      offset just past the closing dot. */
  function ScanEnumeration(s: seq<char>, p: nat): (r: Result<(string, nat)>)
    requires p <= |s|
    ensures r.Success? ==> p + 3 <= r.value.1 == p + |r.value.0| + 2 <= |s|
    ensures r.Success? ==> IsEnumerationName(r.value.0) && s[p] == '.' && TextAt(s, p + 1, r.value.0) && s[r.value.1 - 1] == '.'
    ensures r.Success? <==> p + 1 < |s| && s[p] == '.' && IsKeywordStart(s[p + 1]) &&
                            KeywordEnd(s, p + 2) < |s| && s[KeywordEnd(s, p + 2)] == '.'
  {
    if p + 1 < |s| && s[p] == '.' && IsKeywordStart(s[p + 1]) then
      var e := KeywordEnd(s, p + 2);
      if e < |s| && s[e] == '.' then
        var n := s[p + 1..e];
        assert forall i :: 0 <= i < e - p - 1 ==> n[i] == s[p + 1 + i];
        Success((n, e + 1))
      else Failure(LexError(e, "closing dot of enumeration"))
    else Failure(LexError(p, "enumeration"))
  }

  /** An enumeration value written out at pos is scanned as exactly its
      name, up to just past its closing dot. */
  lemma {:induction false} ScanEnumerationAt(n: string, s: seq<char>, pos: nat)
    requires IsEnumerationName(n) && TextAt(s, pos, "." + n + ".")
    ensures ScanEnumeration(s, pos) == Success((n, pos + |n| + 2))
  {
    TextAtConcat(s, pos, "." + n, ".");
    TextAtConcat(s, pos, ".", n);
    TextAtChar(s, pos, ".", 0);
    TextAtChar(s, pos + 1 + |n|, ".", 0);
    TextAtChar(s, pos + 1, n, 0);
    forall j | pos + 2 <= j < pos + 1 + |n| ensures IsKeywordChar(s[j]) {
      TextAtChar(s, pos + 1, n, j - pos - 1);
    }
    KeywordEndAt(s, pos + 2, pos + 1 + |n|);
    TextAtSlice(s, pos + 1, n);
  }

  /** The scanner and the enumeration class agree: `.n.` is read whole as
      an enumeration value exactly when n is an enumeration name. */
  lemma {:induction false} EnumerationIff(n: string)
    ensures ScanEnumeration("." + n + ".", 0) == Success((n, |n| + 2)) <==> IsEnumerationName(n)
  {
    if IsEnumerationName(n) {
      ScanEnumerationAt(n, "." + n + ".", 0);
    }
  }

  // --------------------------------------------------------------- strings

  /** s[i..j] is made of characters other than an apostrophe and of
      doubled apostrophes `''`, paired from the left. */
  predicate Paired(s: seq<char>, i: nat, j: nat)
    requires i <= j <= |s|
    decreases j - i
  {
    i == j ||
    (s[i] != '\'' && Paired(s, i + 1, j)) ||
    (i + 2 <= j && s[i] == '\'' && s[i + 1] == '\'' && Paired(s, i + 2, j))
  }

  /** An apostrophe at j that is not the first of a doubled pair. */
  predicate LoneApostrophe(s: seq<char>, j: nat) {
    j < |s| && s[j] == '\'' && (j + 1 == |s| || s[j + 1] != '\'')
  }

  /** The offset of the apostrophe that closes a string literal whose body
      starts at i: the first apostrophe that is not one of a doubled pair.
      When there is none, the rest of the text is paired. */
  function ClosingApostrophe(s: seq<char>, i: nat): (r: Option<nat>)
    requires i <= |s|
    ensures r.Some? ==> i <= r.value < |s| && s[r.value] == '\''
    ensures r.Some? ==> r.value + 1 == |s| || s[r.value + 1] != '\''
    ensures r.Some? ==> Paired(s, i, r.value)
    ensures r.None? ==> Paired(s, i, |s|)
    decreases |s| - i
  {
    if i == |s| then None
    else if s[i] == '\'' then
      if i + 1 < |s| && s[i + 1] == '\'' then ClosingApostrophe(s, i + 2) else Some(i)
    else ClosingApostrophe(s, i + 1)
  }

  /** ClosingApostrophe finds exactly the first lone apostrophe: it returns
      j if and only if the body before j is paired and the apostrophe at j
      is lone. */
  lemma {:induction false} ClosingApostropheIff(s: seq<char>, i: nat, j: nat)
    requires i <= j < |s|
    ensures ClosingApostrophe(s, i) == Some(j) <==> Paired(s, i, j) && LoneApostrophe(s, j)
    decreases j - i
  {
    if Paired(s, i, j) && LoneApostrophe(s, j) && i < j {
      if s[i] != '\'' {
        ClosingApostropheIff(s, i + 1, j);
      } else {
        ClosingApostropheIff(s, i + 2, j);
      }
    }
  }

  /** Scans the string literal whose opening apostrophe is at p and decodes
      its body. */
  function ScanString(s: seq<char>, p: nat): (r: Result<(string, nat)>)
    requires p < |s| && s[p] == '\''
    ensures r.Success? ==> p + 2 <= r.value.1 <= |s| && s[r.value.1 - 1] == '\''
    ensures r.Success? ==> |r.value.0| <= r.value.1 - p - 2
  {
    match ClosingApostrophe(s, p + 1)
    case None => Failure(LexError(p, "unterminated string"))
    case Some(q) =>
      var t :- DecodeFrom(s, p + 1, q, Plain);
      Success((t, q + 1))
  }

  // ---------------------------------------------------------------- binary

  /** The offset of the first double quote from i on. */
  function NextDoubleQuote(s: seq<char>, i: nat): (r: Option<nat>)
    requires i <= |s|
    ensures r.Some? ==> i <= r.value < |s| && s[r.value] == '"'
    ensures r.Some? ==> forall k :: i <= k < r.value ==> s[k] != '"'
    decreases |s| - i
  {
    if i == |s| then None
    else if s[i] == '"' then Some(i)
    else NextDoubleQuote(s, i + 1)
  }

  /** Scans the binary literal whose opening double quote is at p. */
  function ScanBinary(s: seq<char>, p: nat): (r: Result<(BitString, nat)>)
    requires p < |s| && s[p] == '"'
    ensures r.Success? ==> p + 3 <= r.value.1 <= |s| && s[r.value.1 - 1] == '"'
    ensures r.Success? ==> r.value.0.value < Pow(2, r.value.0.bits)
    ensures r.Success? ==> r.value.0.bits == 4 * (r.value.1 - p - 3)
  {
    match NextDoubleQuote(s, p + 1)
    case None => Failure(LexError(p, "unterminated binary"))
    case Some(q) =>
      var b :- DecodeBinaryFrom(s, p + 1, q);
      Success((b, q + 1))
  }

  // --------------------------------------------------------------- numbers

  /** A number token: an integer, or a real kept exact as
      mantissa * 10^exponent. */
  datatype Number = IntegerLit(n: int) | RealLit(mantissa: int, exponent: int)

  function Signed(negative: bool, n: nat): int {
    if negative then -(n as int) else n
  }

  /** The offset of the first digit of a run that may open with a sign. */
  function DigitsStart(s: seq<char>, p: nat): nat {
    if p < |s| && (s[p] == '+' || s[p] == '-') then p + 1 else p
  }

  /** Scans `[+-]digit{digit}` starting at p: whether it is negative, the
      magnitude its digits spell, and the end of the digit run. */
  function ScanSignedDigits(s: seq<char>, p: nat): (r: Result<(bool, nat, nat)>)
    requires p <= |s|
    ensures r.Success? ==> DigitsStart(s, p) < r.value.2 <= |s|
    ensures r.Success? ==> AllDigits(s, DigitsStart(s, p), r.value.2, Decimal)
    ensures r.Success? ==> r.value.1 == DecimalValue(s, DigitsStart(s, p), r.value.2)
    ensures r.Success? ==> r.value.0 == (s[p] == '-')
    ensures r.Success? ==> r.value.2 < |s| ==> !IsDigit(s[r.value.2])
    ensures r.Success? <==> DigitsStart(s, p) < |s| && IsDigit(s[DigitsStart(s, p)])
  {
    var d0 := DigitsStart(s, p);
    var d1 := DigitsEnd(s, d0);
    if d1 == d0 then Failure(LexError(d0, "digit"))
    else Success((p < |s| && s[p] == '-', DecimalValue(s, d0, d1), d1))
  }

  /** Scans the optional exponent `E[+-]digit{digit}` of a real starting at
      f: its value (0 when there is none) and the offset past it. */
  function ScanExponent(s: seq<char>, f: nat): (r: Result<(int, nat)>)
    requires f <= |s|
    ensures r.Success? ==> f <= r.value.1 <= |s|
    ensures r.Success? && f < r.value.1 < |s| ==> !IsDigit(s[r.value.1])
    ensures r.Success? && r.value.1 == f ==> r.value.0 == 0 && (f == |s| || s[f] != 'E')
  {
    if f < |s| && s[f] == 'E' then
      var e :- ScanSignedDigits(s, f + 1);
      Success((Signed(e.0, e.1), e.2))
    else Success((0, f))
  }

  /** Scans an integer `[+-]digit{digit}` or a real
      `[+-]digit{digit}.{digit}[E[+-]digit{digit}]` starting at p. */
  function ScanNumber(s: seq<char>, p: nat): (r: Result<(Number, nat)>)
    requires p <= |s|
    ensures r.Success? ==> p < r.value.1 <= |s|
    ensures r.Success? && r.value.0.IntegerLit? && r.value.0.n < 0 ==> s[p] == '-'
    ensures r.Success? ==> r.value.1 < |s| ==> !IsDigit(s[r.value.1])
  {
    var w :- ScanSignedDigits(s, p);
    var d1 := w.2;
    if d1 == |s| || s[d1] != '.' then
      Success((IntegerLit(Signed(w.0, w.1)), d1))
    else
      var f1 := DigitsEnd(s, d1 + 1);
      var fraction := f1 - d1 - 1;
      var mantissa := Signed(w.0, Shift(w.1, fraction) + DecimalValue(s, d1 + 1, f1));
      var x :- ScanExponent(s, f1);
      Success((RealLit(mantissa, x.0 - fraction), x.1))
  }

  /** A sign as it may open a number: none, `+` or `-`. */
  predicate IsSign(t: string) { t == "" || t == "+" || t == "-" }

  /** A digit string g standing at i and followed by a non-digit is the run
      the scanner reads there, and it spells the same number in s as on its
      own. */
  lemma {:induction false} DigitsText(s: seq<char>, i: nat, g: string, e: nat)
    requires AllDigits(g, 0, |g|, Decimal) && TextAt(s, i, g) && e == i + |g|
    requires e < |s| ==> !IsDigit(s[e])
    ensures AllDigits(s, i, e, Decimal)
    ensures DigitsEnd(s, i) == e && DecimalValue(s, i, e) == DecimalValue(g, 0, |g|)
  {
    forall k | i <= k < e ensures IsDigitOf(s[k], Decimal) {
      assert s[k] == g[k - i] && IsDigitOf(g[k - i], Decimal);
    }
    TextAtSlice(s, i, g);
    NumeralValueLocal(s, i, e, g, Decimal);
    DigitsEndAt(s, i, e);
  }

  /** `[+-]g` at p: the sign and the number g spells, up to the end of g. */
  lemma {:induction false} SignedDigitsText(s: seq<char>, p: nat, sg: string, g: string, e: nat)
    requires IsSign(sg) && g != [] && AllDigits(g, 0, |g|, Decimal)
    requires TextAt(s, p, sg + g) && e == p + |sg| + |g|
    requires e < |s| ==> !IsDigit(s[e])
    ensures ScanSignedDigits(s, p) == Success((sg == "-", DecimalValue(g, 0, |g|), e))
  {
    TextAtConcat(s, p, sg, g);
    TextAtChar(s, p + |sg|, g, 0);
    assert IsDigitOf(g[0], Decimal);
    if sg != "" { TextAtChar(s, p, sg, 0); }
    DigitsText(s, p + |sg|, g, e);
  }

  /** An integer `[+-]a` at p, followed by neither a digit nor a dot, is
      scanned as plus or minus the number a spells. */
  lemma {:induction false} ScanIntegerText(s: seq<char>, p: nat, sg: string, a: string, e: nat)
    requires IsSign(sg) && a != [] && AllDigits(a, 0, |a|, Decimal)
    requires TextAt(s, p, sg + a) && e == p + |sg| + |a|
    requires e < |s| ==> !IsDigit(s[e]) && s[e] != '.'
    ensures ScanNumber(s, p) == Success((IntegerLit(Signed(sg == "-", DecimalValue(a, 0, |a|))), e))
  {
    SignedDigitsText(s, p, sg, a, e);
  }

  /** A real `[+-]a.b[E[+-]c]` at p, followed by a character that cannot
      extend it, is scanned with mantissa plus or minus a * 10^|b| + b and
      exponent c - |b| (just -|b| without an exponent part): the value
      +-(a * 10^|b| + b) * 10^(c - |b|) that the digits spell. The exponent
      part x is either empty or `E`, a sign and the digits c. */
  lemma {:induction false} ScanRealText(s: seq<char>, p: nat, sg: string, a: string, b: string,
                                        x: string, esg: string, c: string, e: nat)
    requires IsSign(sg) && a != [] && AllDigits(a, 0, |a|, Decimal) && AllDigits(b, 0, |b|, Decimal)
    requires ExponentPart(x, esg, c)
    requires TextAt(s, p, sg + a + "." + b + x) && e == p + |sg| + |a| + 1 + |b| + |x|
    requires e < |s| ==> !IsDigit(s[e]) && (x == "" ==> s[e] != 'E')
    ensures ScanNumber(s, p) == Success((RealLit(
      Signed(sg == "-", DecimalValue(a, 0, |a|) * Pow(10, |b|) + DecimalValue(b, 0, |b|)),
      Signed(esg == "-", DecimalValue(c, 0, |c|)) - |b|), e))
  {
    var d1, n := p + |sg| + |a|, |b|;
    RealPieces(s, p, sg, a, b, x, esg, c, d1, d1 + 1 + n, e);
    RealFromParts(s, p, sg == "-", DecimalValue(a, 0, |a|), d1, n, DecimalValue(b, 0, |b|), d1 + 1 + n,
                  Signed(esg == "-", DecimalValue(c, 0, |c|)), e);
    MantissaScale(sg == "-", DecimalValue(a, 0, |a|), n, DecimalValue(b, 0, |b|));
  }

  /** What the scanner meets in the text of a real: the sign and whole
      part up to the dot at d1, the fraction digits up to f1, the exponent
      part up to e. */
  lemma {:induction false} RealPieces(s: seq<char>, p: nat, sg: string, a: string, b: string,
                                      x: string, esg: string, c: string, d1: nat, f1: nat, e: nat)
    requires IsSign(sg) && a != [] && AllDigits(a, 0, |a|, Decimal) && AllDigits(b, 0, |b|, Decimal)
    requires ExponentPart(x, esg, c)
    requires TextAt(s, p, sg + a + "." + b + x) && d1 == p + |sg| + |a| && f1 == d1 + 1 + |b| && e == f1 + |x|
    requires e < |s| ==> !IsDigit(s[e]) && (x == "" ==> s[e] != 'E')
    ensures ScanSignedDigits(s, p) == Success((sg == "-", DecimalValue(a, 0, |a|), d1))
    ensures d1 < |s| && s[d1] == '.' && f1 <= |s| && DigitsEnd(s, d1 + 1) == f1 && AllDigits(s, d1 + 1, f1, Decimal)
    ensures DecimalValue(s, d1 + 1, f1) == DecimalValue(b, 0, |b|)
    ensures ScanExponent(s, f1) == Success((Signed(esg == "-", DecimalValue(c, 0, |c|)), e))
  {
    RealTextParts(s, p, sg + a, b, x);
    SignedDigitsText(s, p, sg, a, d1);
    ExponentText(s, f1, x, esg, c, e);
    DigitsText(s, d1 + 1, b, f1);
  }

  /** The parts of a real's text `w.bx`: w, the dot, b and x. */
  lemma {:induction false} RealTextParts(s: seq<char>, p: nat, w: string, b: string, x: string)
    requires TextAt(s, p, w + "." + b + x)
    ensures TextAt(s, p, w) && p + |w| < |s| && s[p + |w|] == '.'
    ensures TextAt(s, p + |w| + 1, b) && TextAt(s, p + |w| + 1 + |b|, x)
  {
    TextAtConcat(s, p, w + "." + b, x);
    TextAtConcat(s, p, w + ".", b);
    TextAtConcat(s, p, w, ".");
    TextAtChar(s, p + |w|, ".", 0);
  }

  /** x is the exponent part of a real: nothing at all, or `E`, a sign and
      a nonempty run of digits c. */
  predicate ExponentPart(x: string, esg: string, c: string) {
    (x == "" && esg == "" && c == "") ||
    (x == "E" + (esg + c) && IsSign(esg) && c != [] && AllDigits(c, 0, |c|, Decimal))
  }

  /** The exponent part's value, the offset past it. */
  lemma {:induction false} ExponentText(s: seq<char>, f: nat, x: string, esg: string, c: string, e: nat)
    requires ExponentPart(x, esg, c) && TextAt(s, f, x) && e == f + |x|
    requires e < |s| ==> !IsDigit(s[e]) && (x == "" ==> s[e] != 'E')
    ensures f < |s| ==> !IsDigit(s[f])
    ensures ScanExponent(s, f) == Success((Signed(esg == "-", DecimalValue(c, 0, |c|)), e))
  {
    if x == "" {
      assert NumeralValue(c, 0, 0, Decimal) == Some(0);
    } else {
      TextAtConcat(s, f, "E", esg + c);
      ExponentPartText(s, f, esg, c, e);
    }
  }

  lemma {:induction false} ExponentPartText(s: seq<char>, f: nat, esg: string, c: string, e: nat)
    requires IsSign(esg) && c != [] && AllDigits(c, 0, |c|, Decimal)
    requires TextAt(s, f, "E") && TextAt(s, f + 1, esg + c) && e == f + 1 + |esg| + |c|
    requires e < |s| ==> !IsDigit(s[e])
    ensures f < |s| && s[f] == 'E'
    ensures ScanExponent(s, f) == Success((Signed(esg == "-", DecimalValue(c, 0, |c|)), e))
  {
    TextAtChar(s, f, "E", 0);
    SignedDigitsText(s, f + 1, esg, c, e);
  }

  /** A real from its scanned parts: sign and whole part up to the dot at
      d1, fraction digits up to f1, exponent part up to e. */
  lemma {:induction false} RealFromParts(s: seq<char>, p: nat, negative: bool, whole: nat, d1: nat,
                                         digits: nat, fraction: nat, f1: nat, x: int, e: nat)
    requires p <= |s| && ScanSignedDigits(s, p) == Success((negative, whole, d1))
    requires d1 < |s| && s[d1] == '.' && f1 == d1 + 1 + digits <= |s| && DigitsEnd(s, d1 + 1) == f1
    requires DecimalValue(s, d1 + 1, f1) == fraction
    requires ScanExponent(s, f1) == Success((x, e))
    ensures ScanNumber(s, p) == Success((RealLit(Signed(negative, Shift(whole, digits) + fraction), x - digits), e))
  {
  }

  /** The mantissa a real's digits spell, with the shift written as a power. */
  lemma {:induction false} MantissaScale(negative: bool, whole: nat, digits: nat, fraction: nat)
    ensures Signed(negative, Shift(whole, digits) + fraction) == Signed(negative, whole * Pow(10, digits) + fraction)
  {
    ShiftIsScale(whole, digits);
  }

  /** A number token is a real exactly when a dot occurs in its text. */
  lemma {:induction false} RealIffDot(s: seq<char>, p: nat)
    requires p <= |s| && ScanNumber(s, p).Success?
    ensures ScanNumber(s, p).value.0.RealLit? <==>
      exists k :: p <= k < ScanNumber(s, p).value.1 && s[k] == '.'
  {
    var w := ScanSignedDigits(s, p).value;
    var d0 := DigitsStart(s, p);
    var e := ScanNumber(s, p).value.1;
    if ScanNumber(s, p).value.0.RealLit? {
      assert s[w.2] == '.';
    } else {
      assert e == w.2;
      forall k | p <= k < e ensures s[k] != '.' {
        if k >= d0 { assert IsDigitOf(s[k], Decimal); }
      }
    }
  }

  /** A real with an empty fraction, read from its parts. */
  lemma ScanNumberNoFraction(s: seq<char>, p: nat, negative: bool, whole: nat, d1: nat, x: int, e1: nat)
    requires p <= |s| && ScanSignedDigits(s, p) == Success((negative, whole, d1))
    requires d1 + 1 < |s| && s[d1] == '.' && !IsDigit(s[d1 + 1])
    requires ScanExponent(s, d1 + 1) == Success((x, e1))
    ensures ScanNumber(s, p) == Success((RealLit(Signed(negative, whole), x), e1))
  {
    assert DigitsEnd(s, d1 + 1) == d1 + 1;
    assert NumeralValue(s, d1 + 1, d1 + 1, Decimal) == Some(0);
  }

  // ------------------------------------------------------ entity instances

  /** Scans an entity instance name `#digit{digit}` starting at p. */
  function ScanEntityName(s: seq<char>, p: nat): (r: Result<(nat, nat)>)
    requires p < |s| && s[p] == '#'
    ensures r.Success? ==> p + 2 <= r.value.1 <= |s| && AllDigits(s, p + 1, r.value.1, Decimal)
    ensures r.Success? ==> r.value.1 < |s| ==> !IsDigit(s[r.value.1])
    ensures r.Success? ==> r.value.0 == DecimalValue(s, p + 1, r.value.1)
  {
    var e := DigitsEnd(s, p + 1);
    if e == p + 1 then Failure(LexError(p + 1, "digit"))
    else Success((DecimalValue(s, p + 1, e), e))
  }
}
