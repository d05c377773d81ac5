/** The length of a parsed list, read off its text: a list holds one value
    more than the commas that separate its items, where the commas counted
    are those outside nested parentheses, string literals and remarks. */
module Separators {
  import opened Results
  import opened Numerals
  import opened BinaryCodec
  import opened Lexer
  import opened Values
  import opened Grammar

  /** The number of commas in s[i..j] at nesting depth zero, reading from i
      at depth d (the parentheses opened and not yet closed). A string
      literal and a remark are passed over whole, as the lexer passes over
      them; the count stops at one that does not close before j. */
  function TopCommas(s: seq<char>, i: nat, j: nat, d: int): nat
    requires j <= |s|
    decreases j - i
  {
    if j <= i then 0
    else if s[i] == '\'' then
      match ClosingApostrophe(s, i + 1)
      case Some(q) => if q < j then TopCommas(s, q + 1, j, d) else 0
      case None => 0
    else if s[i] == '/' && i + 1 < j && s[i + 1] == '*' then
      match RemarkEnd(s, i + 2)
      case Some(q) => if q <= j then TopCommas(s, q, j, d) else 0
      case None => 0
    else if s[i] == '(' then TopCommas(s, i + 1, j, d + 1)
    else if s[i] == ')' then TopCommas(s, i + 1, j, d - 1)
    else if s[i] == ',' then (if d == 0 then 1 else 0) + TopCommas(s, i + 1, j, d)
    else TopCommas(s, i + 1, j, d)
  }

  /** A character the count passes over without effect. */
  predicate Neutral(c: char) {
    c != '\'' && c != '/' && c != '(' && c != ')' && c != ','
  }

  // ------------------------------------------------------ one character

  lemma NeutralStep(s: seq<char>, i: nat, j: nat, d: int)
    requires i < j <= |s| && Neutral(s[i])
    ensures TopCommas(s, i, j, d) == TopCommas(s, i + 1, j, d)
  {
  }

  /** A run of neutral characters is passed over. */
  lemma {:induction false} NeutralRun(s: seq<char>, i: nat, k: nat, j: nat, d: int)
    requires i <= k <= j <= |s|
    requires forall t :: i <= t < k ==> Neutral(s[t])
    ensures TopCommas(s, i, j, d) == TopCommas(s, k, j, d)
    decreases k - i
  {
    if i < k {
      NeutralStep(s, i, j, d);
      NeutralRun(s, i + 1, k, j, d);
    }
  }

  lemma OpenStep(s: seq<char>, i: nat, j: nat, d: int)
    requires i < j <= |s| && s[i] == '('
    ensures TopCommas(s, i, j, d) == TopCommas(s, i + 1, j, d + 1)
  {
  }

  lemma CloseStep(s: seq<char>, i: nat, j: nat, d: int)
    requires i < j <= |s| && s[i] == ')'
    ensures TopCommas(s, i, j, d) == TopCommas(s, i + 1, j, d - 1)
  {
  }

  lemma CommaStep(s: seq<char>, i: nat, j: nat, d: int)
    requires i < j <= |s| && s[i] == ','
    ensures TopCommas(s, i, j, d) == (if d == 0 then 1 else 0) + TopCommas(s, i + 1, j, d)
  {
  }

  // ------------------------------------------------------------- layout

  /** Layout holds no counted comma and leaves the depth as it was. */
  lemma {:induction false} LayoutCommas(s: seq<char>, i: nat, j: nat, d: int)
    requires i <= |s| && SkipLayout(s, i) <= j <= |s|
    ensures TopCommas(s, i, j, d) == TopCommas(s, SkipLayout(s, i), j, d)
    decreases |s| - i
  {
    if i < |s| && IsSpace(s[i]) {
      NeutralStep(s, i, j, d);
      LayoutCommas(s, i + 1, j, d);
    } else if i + 1 < |s| && s[i] == '/' && s[i + 1] == '*' {
      match RemarkEnd(s, i + 2)
      case Some(k) =>
        LayoutCommas(s, k, j, d);
      case None =>
    }
  }

  // ------------------------------------------------------------- tokens

  predicate IsNumberChar(c: char) {
    IsDigit(c) || c == '+' || c == '-' || c == '.' || c == 'E'
  }

  lemma {:induction false} DigitsNeutral(s: seq<char>, i: nat, j: nat)
    requires i <= j <= |s| && AllDigits(s, i, j, Decimal)
    ensures forall t :: i <= t < j ==> IsNumberChar(s[t])
  {
    forall t | i <= t < j ensures IsNumberChar(s[t]) {
      assert IsDigitOf(s[t], Decimal);
    }
  }

  lemma {:induction false} SignedDigitsChars(s: seq<char>, p: nat, r: (bool, nat, nat))
    requires p <= |s| && ScanSignedDigits(s, p) == Success(r)
    ensures p < r.2 <= |s| && forall t :: p <= t < r.2 ==> IsNumberChar(s[t])
  {
    DigitsNeutral(s, DigitsStart(s, p), r.2);
  }

  /** A number token is made of digits, signs, the dot and `E` alone. */
  lemma {:induction false} NumberChars(s: seq<char>, p: nat, n: Number, k: nat)
    requires p <= |s| && ScanNumber(s, p) == Success((n, k))
    ensures forall t :: p <= t < k ==> IsNumberChar(s[t])
  {
    var w := ScanSignedDigits(s, p).value;
    SignedDigitsChars(s, p, w);
    var d1 := w.2;
    if d1 < |s| && s[d1] == '.' {
      var f1 := DigitsEnd(s, d1 + 1);
      DigitsNeutral(s, d1 + 1, f1);
      if f1 < |s| && s[f1] == 'E' {
        SignedDigitsChars(s, f1 + 1, ScanSignedDigits(s, f1 + 1).value);
      }
    }
  }

  lemma {:induction false} NumberCommas(s: seq<char>, q: nat, n: Number, k: nat, j: nat, d: int)
    requires q <= |s| && ScanNumber(s, q) == Success((n, k)) && k <= j <= |s|
    ensures TopCommas(s, q, j, d) == TopCommas(s, k, j, d)
  {
    NumberChars(s, q, n, k);
    NeutralRun(s, q, k, j, d);
  }

  lemma {:induction false} StringCommas(s: seq<char>, q: nat, x: string, k: nat, j: nat, d: int)
    requires q < |s| && s[q] == '\'' && ScanString(s, q) == Success((x, k)) && k <= j <= |s|
    ensures TopCommas(s, q, j, d) == TopCommas(s, k, j, d)
  {
    assert ClosingApostrophe(s, q + 1) == Some(k - 1);
  }

  lemma {:induction false} BinaryCommas(s: seq<char>, q: nat, b: BitString, k: nat, j: nat, d: int)
    requires q < |s| && s[q] == '"' && ScanBinary(s, q) == Success((b, k)) && k <= j <= |s|
    ensures TopCommas(s, q, j, d) == TopCommas(s, k, j, d)
  {
    var c := NextDoubleQuote(s, q + 1).value;
    assert c == k - 1;
    assert DecodeBinaryFrom(s, q + 1, c).Success?;
    forall t | q <= t < k ensures Neutral(s[t]) {
      if q + 1 < t < c { assert IsDigitOf(s[t], Hex); }
    }
    NeutralRun(s, q, k, j, d);
  }

  lemma {:induction false} RefCommas(s: seq<char>, q: nat, id: nat, k: nat, j: nat, d: int)
    requires q < |s| && s[q] == '#' && ScanEntityName(s, q) == Success((id, k)) && k <= j <= |s|
    ensures TopCommas(s, q, j, d) == TopCommas(s, k, j, d)
  {
    forall t | q <= t < k ensures Neutral(s[t]) {
      if t > q { assert IsDigitOf(s[t], Decimal); }
    }
    NeutralRun(s, q, k, j, d);
  }

  lemma {:induction false} KeywordCommas(s: seq<char>, q: nat, name: string, k: nat, j: nat, d: int)
    requires q <= |s| && ScanKeyword(s, q) == Success((name, k)) && k <= j <= |s|
    ensures TopCommas(s, q, j, d) == TopCommas(s, k, j, d)
  {
    forall t | q <= t < k ensures Neutral(s[t]) {
      assert s[t] == name[t - q];
      if t > q { assert name[t - q] == '!' || IsKeywordChar(name[t - q]); }
    }
    NeutralRun(s, q, k, j, d);
  }

  lemma {:induction false} EnumerationCommas(s: seq<char>, q: nat, name: string, k: nat, j: nat, d: int)
    requires q <= |s| && ScanEnumeration(s, q) == Success((name, k)) && k <= j <= |s|
    ensures TopCommas(s, q, j, d) == TopCommas(s, k, j, d)
  {
    forall t | q <= t < k ensures Neutral(s[t]) {
      if q < t < k - 1 {
        assert s[t] == name[t - q - 1];
        assert IsKeywordChar(name[t - q - 1]) || IsKeywordStart(name[t - q - 1]);
      }
    }
    NeutralRun(s, q, k, j, d);
  }

  // ------------------------------------------------------------ grammar

  /** A value holds no comma at its own depth and leaves the depth as it
      found it: whatever follows it is counted as if it were not there. */
  lemma {:induction false} ValueCommas(s: seq<char>, p: nat, v: Value, k: nat, j: nat, d: nat)
    requires ValueParsed(s, p, v, k) && k <= j <= |s|
    ensures TopCommas(s, p, j, d) == TopCommas(s, k, j, d)
    decreases |s| - p, 3
  {
    var q := SkipLayout(s, p);
    LayoutCommas(s, p, j, d);
    ValueTokenCommas(s, q, v, k, j, d);
  }

  lemma {:induction false} ValueTokenCommas(s: seq<char>, q: nat, v: Value, k: nat, j: nat, d: nat)
    requires q < |s| && ParseValueToken(s, q) == Success((v, k)) && k <= j <= |s|
    ensures TopCommas(s, q, j, d) == TopCommas(s, k, j, d)
    decreases |s| - q, 2
  {
    var c := s[q];
    if c == '(' {
      var l := ParseList(s, q).value;
      ListCommas(s, q, l.0, l.1, j, d);
    } else if c == '\'' {
      var t := ScanString(s, q).value;
      StringCommas(s, q, t.0, t.1, j, d);
    } else if c == '"' {
      var b := ScanBinary(s, q).value;
      BinaryCommas(s, q, b.0, b.1, j, d);
    } else if c == '#' {
      var n := ScanEntityName(s, q).value;
      RefCommas(s, q, n.0, n.1, j, d);
    } else if c == '$' || c == '*' {
      NeutralStep(s, q, j, d);
    } else if c == '.' {
      var n := ScanEnumeration(s, q).value;
      EnumerationCommas(s, q, n.0, n.1, j, d);
    } else if IsDigit(c) || c == '+' || c == '-' {
      var n := ScanNumber(s, q).value;
      NumberCommas(s, q, n.0, n.1, j, d);
    } else {
      var w := ScanKeyword(s, q).value;
      var o := SkipLayout(s, w.1);
      if o < |s| && s[o] == '(' {
        TypedCommas(s, q, v, k, j, d);
      } else {
        KeywordCommas(s, q, w.0, w.1, j, d);
      }
    }
  }

  /** A parsed list: `(`, then either layout and `)` or its items. */
  lemma {:induction false} ListParts(s: seq<char>, pos: nat, vs: seq<Value>, e: nat)
    requires pos <= |s| && ParseList(s, pos) == Success((vs, e))
    ensures SkipLayout(s, pos) < |s| && s[SkipLayout(s, pos)] == '('
    ensures SkipLayout(s, SkipLayout(s, pos) + 1) < |s| && s[SkipLayout(s, SkipLayout(s, pos) + 1)] == ')' ==>
      vs == [] && e == SkipLayout(s, SkipLayout(s, pos) + 1) + 1
    ensures !(SkipLayout(s, SkipLayout(s, pos) + 1) < |s| && s[SkipLayout(s, SkipLayout(s, pos) + 1)] == ')') ==>
      ItemsParsed(s, SkipLayout(s, pos) + 1, vs, e)
  {
  }

  /** A list, as a value: its own commas lie one level deeper. */
  lemma {:induction false} ListCommas(s: seq<char>, pos: nat, vs: seq<Value>, e: nat, j: nat, d: nat)
    requires pos <= |s| && ParseList(s, pos) == Success((vs, e)) && e <= j <= |s|
    ensures TopCommas(s, pos, j, d) == TopCommas(s, e, j, d)
    decreases |s| - pos, 1
  {
    ListParts(s, pos, vs, e);
    LayoutCommas(s, pos, j, d);
    ListBodyCommas(s, SkipLayout(s, pos), SkipLayout(s, SkipLayout(s, pos) + 1), vs, e, j, d);
  }

  /** A list from its opening parenthesis at q; p is where the first item
      or the closing parenthesis stands. */
  lemma {:induction false} ListBodyCommas(s: seq<char>, q: nat, p: nat, vs: seq<Value>, e: nat, j: nat, d: nat)
    requires q < |s| && s[q] == '(' && p == SkipLayout(s, q + 1) && e <= j <= |s|
    requires p < |s| && s[p] == ')' ==> e == p + 1
    requires !(p < |s| && s[p] == ')') ==> ItemsParsed(s, q + 1, vs, e)
    ensures TopCommas(s, q, j, d) == TopCommas(s, e, j, d)
    decreases |s| - q, 0
  {
    if p < |s| && s[p] == ')' {
      EmptyListCommas(s, q, p, j, d);
    } else {
      OpenStep(s, q, j, d);
      ItemsCommas(s, q + 1, vs, e, j, d + 1);
    }
  }

  /** `(`, layout and `)` hold no comma and leave the depth as it was. */
  lemma {:induction false} EmptyListCommas(s: seq<char>, q: nat, p: nat, j: nat, d: int)
    requires q < |s| && s[q] == '(' && p == SkipLayout(s, q + 1) && p < j <= |s| && s[p] == ')'
    ensures TopCommas(s, q, j, d) == TopCommas(s, p + 1, j, d)
  {
    OpenStep(s, q, j, d);
    LayoutCommas(s, q + 1, j, d + 1);
    CloseStep(s, p, j, d + 1);
  }

  /** The items of a list and its closing parenthesis, read at depth d: at
      depth zero the commas between the items are counted, one fewer than
      the items; the closing parenthesis takes the depth one level up. */
  lemma {:induction false} ItemsCommas(s: seq<char>, pos: nat, vs: seq<Value>, e: nat, j: nat, d: nat)
    requires ItemsParsed(s, pos, vs, e) && e <= j <= |s|
    ensures TopCommas(s, pos, j, d) == (if d == 0 then |vs| - 1 else 0) + TopCommas(s, e, j, d - 1)
    decreases |s| - pos, 4
  {
    var v, k := ItemsFirst(s, pos, vs, e);
    var q := SkipLayout(s, k);
    var rest := ItemsRest(s, pos, vs, e, v, k, q);
    ValueCommas(s, pos, v, k, j, d);
    LayoutCommas(s, k, j, d);
    if s[q] == ',' {
      CommaStep(s, q, j, d);
      ItemsCommas(s, q + 1, rest, e, j, d);
    } else {
      CloseStep(s, q, j, d);
    }
  }

  /** The first item of a parsed item list. */
  lemma {:induction false} ItemsFirst(s: seq<char>, pos: nat, vs: seq<Value>, e: nat) returns (v: Value, k: nat)
    requires ItemsParsed(s, pos, vs, e)
    ensures ValueParsed(s, pos, v, k)
  {
    v, k := ParseValue(s, pos).value.0, ParseValue(s, pos).value.1;
  }

  /** After the first item of a parsed item list: `,` and the items rest,
      or `)` and the end of the list. */
  lemma {:induction false} ItemsRest(s: seq<char>, pos: nat, vs: seq<Value>, e: nat, v: Value, k: nat, q: nat)
    returns (rest: seq<Value>)
    requires ItemsParsed(s, pos, vs, e)
    requires ValueParsed(s, pos, v, k) && q == SkipLayout(s, k)
    ensures q < |s| && (s[q] == ',' || s[q] == ')')
    ensures s[q] == ',' ==> ItemsParsed(s, q + 1, rest, e) && |vs| == 1 + |rest|
    ensures s[q] == ')' ==> |vs| == 1 && e == q + 1
  {
    rest := [];
    if s[q] == ',' {
      var r := ParseItems(s, q + 1).value;
      ItemsLength(ParseItems(s, pos), v, r.0, vs, e, r.1);
      rest := r.0;
    }
  }

  lemma ItemsLength(r: Result<(seq<Value>, nat)>, v: Value, rest: seq<Value>, vs: seq<Value>, e: nat, e': nat)
    requires r == Success(([v] + rest, e')) && r == Success((vs, e))
    ensures |vs| == 1 + |rest| && e == e'
  {
  }

  /** A typed parameter, as a value: its inner value lies one level deeper. */
  lemma {:induction false} TypedCommas(s: seq<char>, pos: nat, v: Value, k: nat, j: nat, d: nat)
    requires pos <= |s| && ParseTypedParameter(s, pos) == Success((v, k)) && k <= j <= |s|
    ensures TopCommas(s, pos, j, d) == TopCommas(s, k, j, d)
    decreases |s| - pos, 1
  {
    var q, name, n1, o, inner, i1 := TypedParts(s, pos, v, k);
    TypedBodyCommas(s, pos, q, name, n1, o, inner, i1, k, j, d);
  }

  /** A typed parameter from its parts: the name, `(`, the inner value one
      level deeper and `)`. */
  lemma {:induction false} TypedBodyCommas(s: seq<char>, pos: nat, q: nat, name: string, n1: nat, o: nat,
                                           inner: Value, i1: nat, k: nat, j: nat, d: nat)
    requires pos <= |s| && q == SkipLayout(s, pos) && ScanKeyword(s, q) == Success((name, n1))
    requires o == SkipLayout(s, n1) && o < |s| && s[o] == '('
    requires ValueParsed(s, o + 1, inner, i1)
    requires SkipLayout(s, i1) < |s| && s[SkipLayout(s, i1)] == ')' && k == SkipLayout(s, i1) + 1 && k <= j <= |s|
    ensures TopCommas(s, pos, j, d) == TopCommas(s, k, j, d)
    decreases |s| - pos, 0
  {
    var c := SkipLayout(s, i1);
    LayoutCommas(s, pos, j, d);
    KeywordCommas(s, q, name, n1, j, d);
    LayoutCommas(s, n1, j, d);
    OpenStep(s, o, j, d);
    ValueCommas(s, o + 1, inner, i1, j, d + 1);
    LayoutCommas(s, i1, j, d + 1);
    CloseStep(s, c, j, d + 1);
  }

  /** Where the tokens of a parsed typed parameter stand: its name from q
      to n1, `(` at o, the inner value up to i1 and `)` after layout. */
  lemma {:induction false} TypedParts(s: seq<char>, pos: nat, v: Value, k: nat)
    returns (q: nat, name: string, n1: nat, o: nat, inner: Value, i1: nat)
    requires pos <= |s| && ParseTypedParameter(s, pos) == Success((v, k))
    ensures q == SkipLayout(s, pos) && ScanKeyword(s, q) == Success((name, n1))
    ensures o == SkipLayout(s, n1) && o < |s| && s[o] == '('
    ensures ValueParsed(s, o + 1, inner, i1)
    ensures SkipLayout(s, i1) < |s| && s[SkipLayout(s, i1)] == ')' && k == SkipLayout(s, i1) + 1
  {
    q := SkipLayout(s, pos);
    name, n1 := ScanKeyword(s, q).value.0, ScanKeyword(s, q).value.1;
    o := SkipLayout(s, n1);
    inner, i1 := ParseValue(s, o + 1).value.0, ParseValue(s, o + 1).value.1;
  }

  /** The length of a parsed list: `(` followed by layout and `)` is the
      empty list, and any other list holds one value more than the commas
      at its top level. */
  lemma {:induction false} ListLength(s: seq<char>, pos: nat, vs: seq<Value>, e: nat)
    requires pos <= |s| && ParseList(s, pos) == Success((vs, e))
    ensures SkipLayout(s, pos) < |s| && s[SkipLayout(s, pos)] == '('
    ensures SkipLayout(s, SkipLayout(s, pos) + 1) < |s|
    ensures |vs| == if s[SkipLayout(s, SkipLayout(s, pos) + 1)] == ')' then 0
                    else TopCommas(s, SkipLayout(s, pos) + 1, e, 0) + 1
  {
    var q := SkipLayout(s, pos);
    var p := SkipLayout(s, q + 1);
    if !(p < |s| && s[p] == ')') {
      ItemsCommas(s, q + 1, vs, e, e, 0);
      assert p < |s| by {
        assert ParseValue(s, q + 1).Success?;
      }
    }
  }
}
