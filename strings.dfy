/** The body of a STEP string literal (ISO 10303-21:2002, clause 6.4.3): the
    text between the delimiting apostrophes, decoded left to right into
    Unicode characters. `''` stands for one apostrophe, `\\` for one
    backslash, `\X2\` opens a run of four-hex-digit groups and `\X4\` a run
    of eight-hex-digit groups, each group one character, and `\X0\` closes
    either run. Every other character stands for itself. */
module StringCodec {
  import opened Results
  import opened Numerals

  /** Where the decoder is: outside an extended-character run, inside a
      `\X2\` run, or inside a `\X4\` run. */
  datatype Mode = Plain | Wide16 | Wide32

  function GroupWidth(m: Mode): (w: nat)
    requires !m.Plain?
    ensures w == 4 || w == 8
  {
    if m == Wide16 then 4 else 8
  }

  /** A code point Dafny's `char` can hold: a Unicode scalar value. */
  predicate IsScalarValue(n: nat) {
    n < 0xD800 || 0xE000 <= n < 0x11_0000
  }

  /** s[i..i+4] is the directive `\X<c>\`. */
  predicate Directive(s: seq<char>, i: nat, end: nat, c: char)
    requires end <= |s|
  {
    i + 4 <= end && s[i] == '\\' && s[i + 1] == 'X' && s[i + 2] == c && s[i + 3] == '\\'
  }

  /** s[i..] opens one of the escapes `\X\hh`, `\S\c` or `\P…\` that are
      outside this model. */
  predicate OutsideModelEscape(s: seq<char>, i: nat, end: nat)
    requires end <= |s|
  {
    i + 2 <= end && s[i] == '\\' &&
    (s[i + 1] == 'P' || (i + 3 <= end && (s[i + 1] == 'X' || s[i + 1] == 'S') && s[i + 2] == '\\'))
  }

  function Prepend(c: char, r: Result<seq<char>>): Result<seq<char>> {
    match r
    case Success(t) => Success([c] + t)
    case Failure(e) => Failure(e)
  }

  /** Decodes s[i..end] in the given mode. Errors carry the offset in s of
      the offending escape or group. */
  function DecodeFrom(s: seq<char>, i: nat, end: nat, mode: Mode): (r: Result<seq<char>>)
    requires i <= end <= |s|
    ensures r.Success? ==> |r.value| <= end - i
    ensures r.Failure? ==> i <= r.error.pos <= end
    decreases end - i
  {
    if i == end then
      if mode.Plain? then Success([])
      else Failure(DecodeError(i, "extended character run without \\X0\\"))
    else if !mode.Plain? then
      var w := GroupWidth(mode);
      if Directive(s, i, end, '0') then DecodeFrom(s, i + 4, end, Plain)
      else if i + w <= end && NumeralValue(s, i, i + w, Hex).Some? then
        var cp := NumeralValue(s, i, i + w, Hex).value;
        if IsScalarValue(cp) then Prepend(cp as char, DecodeFrom(s, i + w, end, mode))
        else Failure(DecodeError(i, "group is not a Unicode scalar value"))
      else Failure(DecodeError(i, "malformed hex group"))
    else if s[i] == '\'' then
      if i + 1 < end && s[i + 1] == '\'' then Prepend('\'', DecodeFrom(s, i + 2, end, Plain))
      else Failure(DecodeError(i, "apostrophe not doubled"))
    else if s[i] == '\\' then
      if i + 1 < end && s[i + 1] == '\\' then Prepend('\\', DecodeFrom(s, i + 2, end, Plain))
      else if Directive(s, i, end, '2') then DecodeFrom(s, i + 4, end, Wide16)
      else if Directive(s, i, end, '4') then DecodeFrom(s, i + 4, end, Wide32)
      else if OutsideModelEscape(s, i, end) then Failure(Unsupported(i, "escape"))
      else Failure(DecodeError(i, "unrecognised escape"))
    else Prepend(s[i], DecodeFrom(s, i + 1, end, Plain))
  }

  /** The decoder's contract: the raw text between the two delimiting
      apostrophes in, the decoded characters out. */
  function DecodeBody(body: seq<char>): Result<seq<char>> {
    DecodeFrom(body, 0, |body|, Plain)
  }

  /** Text in which neither an apostrophe nor a backslash occurs. */
  predicate Unescaped(s: seq<char>, i: nat, end: nat)
    requires i <= end <= |s|
  {
    forall k :: i <= k < end ==> s[k] != '\'' && s[k] != '\\'
  }

  /** Decoding text without apostrophes or backslashes is the identity. */
  lemma {:induction false} DecodeUnescaped(s: seq<char>, i: nat, end: nat)
    requires i <= end <= |s| && Unescaped(s, i, end)
    ensures DecodeFrom(s, i, end, Plain) == Success(s[i..end])
    decreases end - i
  {
    if i < end {
      assert s[i] != '\'' && s[i] != '\\';
      DecodeUnescaped(s, i + 1, end);
      assert s[i..end] == [s[i]] + s[i + 1..end];
    }
  }

  // The encoder: the partner of the decoder. Printable ASCII other than
  // apostrophe and backslash stands for itself; every other character is
  // written as one `\X2\` group, or one `\X4\` group beyond the BMP.

  predicate IsPrintable(c: char) { ' ' <= c <= '~' }

  function EncodeChar(c: char): (t: seq<char>)
    ensures |t| >= 1
  {
    if c == '\'' then "''"
    else if c == '\\' then "\\\\"
    else if IsPrintable(c) then [c]
    else if c as int < 0x1_0000 then "\\X2\\" + NumeralText(c as int, 4, Hex) + "\\X0\\"
    else "\\X4\\" + NumeralText(c as int, 8, Hex) + "\\X0\\"
  }

  function Encode(x: seq<char>): (t: seq<char>)
    ensures |t| >= |x|
  {
    if x == [] then [] else EncodeChar(x[0]) + Encode(x[1..])
  }

  /** Decoding one encoded character at i yields that character, followed by
      whatever the text after it decodes to. */
  lemma {:induction false} DecodeEncodedChar(c: char, s: seq<char>, i: nat, end: nat)
    requires i + |EncodeChar(c)| <= end <= |s|
    requires s[i..i + |EncodeChar(c)|] == EncodeChar(c)
    ensures DecodeFrom(s, i, end, Plain) == Prepend(c, DecodeFrom(s, i + |EncodeChar(c)|, end, Plain))
  {
    var e := EncodeChar(c);
    assert s[i] == e[0] by { assert s[i] == s[i..i + |e|][0]; }
    if c == '\'' || c == '\\' {
      assert s[i + 1] == e[1] by { assert s[i + 1] == s[i..i + |e|][1]; }
      DecodeDoubledAt(c, s, i, end);
    } else if IsPrintable(c) {
      DecodeSelfAt(s, i, end);
    } else {
      DecodeWideChar(c, s, i, end);
    }
  }

  /** `''` and `\\` stand for one apostrophe and one backslash. */
  lemma {:induction false} DecodeDoubledAt(q: char, s: seq<char>, i: nat, end: nat)
    requires q == '\'' || q == '\\'
    requires i + 2 <= end <= |s| && s[i] == q && s[i + 1] == q
    ensures DecodeFrom(s, i, end, Plain) == Prepend(q, DecodeFrom(s, i + 2, end, Plain))
  {
  }

  /** n copies of c. */
  function Repeat(c: char, n: nat): (t: seq<char>)
    ensures |t| == n && forall k :: 0 <= k < n ==> t[k] == c
  {
    if n == 0 then [] else [c] + Repeat(c, n - 1)
  }

  /** A run of n doubled apostrophes (or n doubled backslashes) decodes to n
      apostrophes (backslashes); a run of odd length is refused, since its
      last character has no partner. */
  lemma {:induction false} DecodeDoubledRun(q: char, s: seq<char>, i: nat, end: nat)
    requires q == '\'' || q == '\\'
    requires i <= end <= |s| && forall k :: i <= k < end ==> s[k] == q
    ensures (end - i) % 2 == 0 ==> DecodeFrom(s, i, end, Plain) == Success(Repeat(q, (end - i) / 2))
    ensures (end - i) % 2 == 1 ==> DecodeFrom(s, i, end, Plain).Failure?
    decreases end - i
  {
    if i + 1 == end {
      assert s[i] == q;
    } else if i + 2 <= end {
      assert s[i] == q && s[i + 1] == q;
      DecodeDoubledAt(q, s, i, end);
      DecodeDoubledRun(q, s, i + 2, end);
      assert (end - i) / 2 == (end - i - 2) / 2 + 1;
    }
  }

  /** Any other character stands for itself. */
  lemma {:induction false} DecodeSelfAt(s: seq<char>, i: nat, end: nat)
    requires i < end <= |s| && s[i] != '\'' && s[i] != '\\'
    ensures DecodeFrom(s, i, end, Plain) == Prepend(s[i], DecodeFrom(s, i + 1, end, Plain))
  {
  }

  /** A character written as a `\X2\` or `\X4\` group of its own. */
  lemma {:induction false} DecodeWideChar(c: char, s: seq<char>, i: nat, end: nat)
    requires !(c == '\'' || c == '\\' || IsPrintable(c))
    requires i + |EncodeChar(c)| <= end <= |s|
    requires s[i..i + |EncodeChar(c)|] == EncodeChar(c)
    ensures DecodeFrom(s, i, end, Plain) == Prepend(c, DecodeFrom(s, i + |EncodeChar(c)|, end, Plain))
  {
    var w := if c as int < 0x1_0000 then 4 else 8;
    var m := if w == 4 then Wide16 else Wide32;
    var d := if w == 4 then '2' else '4';
    var n := NumeralText(c as int, w, Hex);
    assert EncodeChar(c) == ['\\', 'X', d, '\\'] + n + "\\X0\\";
    SliceParts(s, i, ['\\', 'X', d, '\\'], n, "\\X0\\");
    DirectiveAt(s, i, end, d);
    DirectiveAt(s, i + 4 + w, end, '0');
    assert Pow(16, 4) == 0x1_0000 && Pow(16, 8) == 0x1_0000_0000;
    DecodeWideGroup(c, w, m, s, i, end);
  }

  /** The three consecutive parts of a slice. */
  lemma {:induction false} SliceParts(s: seq<char>, i: nat, a: seq<char>, b: seq<char>, c: seq<char>)
    requires i + |a| + |b| + |c| <= |s| && s[i..i + |a| + |b| + |c|] == a + b + c
    ensures s[i..i + |a|] == a && s[i + |a|..i + |a| + |b|] == b
    ensures s[i + |a| + |b|..i + |a| + |b| + |c|] == c
  {
    var t := s[i..i + |a| + |b| + |c|];
    forall k | 0 <= k < |a| ensures s[i..i + |a|][k] == a[k] {
      assert s[i + k] == t[k];
    }
    forall k | 0 <= k < |b| ensures s[i + |a|..i + |a| + |b|][k] == b[k] {
      assert s[i + |a| + k] == t[|a| + k];
    }
    forall k | 0 <= k < |c| ensures s[i + |a| + |b|..i + |a| + |b| + |c|][k] == c[k] {
      assert s[i + |a| + |b| + k] == t[|a| + |b| + k];
    }
  }

  lemma {:induction false} DirectiveAt(s: seq<char>, i: nat, end: nat, d: char)
    requires i + 4 <= end <= |s| && s[i..i + 4] == ['\\', 'X', d, '\\']
    ensures Directive(s, i, end, d)
  {
    assert s[i] == s[i..i + 4][0] && s[i + 1] == s[i..i + 4][1];
    assert s[i + 2] == s[i..i + 4][2] && s[i + 3] == s[i..i + 4][3];
  }

  /** `\X2\` and `\X4\` open a run in their mode. */
  lemma {:induction false} OpenRunAt(m: Mode, s: seq<char>, i: nat, end: nat)
    requires !m.Plain? && end <= |s| && Directive(s, i, end, if m == Wide16 then '2' else '4')
    ensures DecodeFrom(s, i, end, Plain) == DecodeFrom(s, i + 4, end, m)
  {
  }

  /** `\X0\` closes a run. */
  lemma {:induction false} CloseRunAt(m: Mode, s: seq<char>, i: nat, end: nat)
    requires !m.Plain? && end <= |s| && Directive(s, i, end, '0')
    ensures DecodeFrom(s, i, end, m) == DecodeFrom(s, i + 4, end, Plain)
  {
  }

  lemma {:induction false} DecodeWideGroup(c: char, w: nat, m: Mode, s: seq<char>, i: nat, end: nat)
    requires !m.Plain? && w == GroupWidth(m)
    requires c as int < Pow(16, w)
    requires i + w + 8 <= end <= |s|
    requires Directive(s, i, end, if m == Wide16 then '2' else '4')
    requires s[i + 4..i + 4 + w] == NumeralText(c as int, w, Hex)
    requires Directive(s, i + 4 + w, end, '0')
    ensures DecodeFrom(s, i, end, Plain) == Prepend(c, DecodeFrom(s, i + w + 8, end, Plain))
  {
    OpenRunAt(m, s, i, end);
    NumeralRoundTrip(c as int, w, Hex, s, i + 4);
    DecodeGroup(c, m, s, i + 4, end);
    CloseRunAt(m, s, i + 4 + w, end);
  }

  // Runs of several groups, as in `\\X2\\00E400E4\\X0\\`.

  /** s holds, from i on, w-digit hex groups spelling the characters of x. */
  predicate GroupsAt(s: seq<char>, i: nat, x: seq<char>, w: nat)
    decreases |x|
  {
    x == [] ||
    (i + w <= |s| && NumeralValue(s, i, i + w, Hex) == Some(x[0] as int) && GroupsAt(s, i + w, x[1..], w))
  }

  function PrependAll(x: seq<char>, r: Result<seq<char>>): Result<seq<char>> {
    match r
    case Success(t) => Success(x + t)
    case Failure(e) => Failure(e)
  }

  lemma PrependAllCons(x: seq<char>, r: Result<seq<char>>)
    requires x != []
    ensures Prepend(x[0], PrependAll(x[1..], r)) == PrependAll(x, r)
  {
    match r
    case Success(t) => assert [x[0]] + (x[1..] + t) == x + t;
    case Failure(_) =>
  }

  /** Inside a run, one group whose value is c decodes to c. */
  lemma {:induction false} DecodeGroup(c: char, m: Mode, s: seq<char>, i: nat, end: nat)
    requires !m.Plain? && i + GroupWidth(m) <= end <= |s|
    requires NumeralValue(s, i, i + GroupWidth(m), Hex) == Some(c as int)
    ensures DecodeFrom(s, i, end, m) == Prepend(c, DecodeFrom(s, i + GroupWidth(m), end, m))
  {
    assert IsDigitOf(s[i], Hex);
    assert !Directive(s, i, end, '0');
    assert IsScalarValue(c as int);
  }

  /** Inside a run, groups spelling x decode to x. */
  lemma {:induction false} DecodeGroups(x: seq<char>, m: Mode, s: seq<char>, i: nat, end: nat)
    requires !m.Plain? && i + GroupWidth(m) * |x| <= end <= |s|
    requires GroupsAt(s, i, x, GroupWidth(m))
    ensures DecodeFrom(s, i, end, m) == PrependAll(x, DecodeFrom(s, i + GroupWidth(m) * |x|, end, m))
    decreases |x|
  {
    var w := GroupWidth(m);
    if x == [] {
      match DecodeFrom(s, i, end, m)
      case Success(t) => assert [] + t == t;
      case Failure(_) =>
    } else {
      var n := w * |x|;
      assert n == w + w * |x[1..]|;
      DecodeGroup(x[0], m, s, i, end);
      DecodeGroups(x[1..], m, s, i + w, end);
      PrependAllCons(x, DecodeFrom(s, i + n, end, m));
    }
  }

  /** A whole run spelling x, from its opening directive to its `\\X0\\`,
      decodes to x, and decoding resumes in plain mode after it. */
  lemma {:induction false} DecodeWideRun(x: seq<char>, m: Mode, s: seq<char>, i: nat, end: nat)
    requires !m.Plain? && end <= |s|
    requires Directive(s, i, end, if m == Wide16 then '2' else '4')
    requires i + 4 + GroupWidth(m) * |x| <= end && GroupsAt(s, i + 4, x, GroupWidth(m))
    requires Directive(s, i + 4 + GroupWidth(m) * |x|, end, '0')
    ensures DecodeFrom(s, i, end, Plain) == PrependAll(x, DecodeFrom(s, i + 8 + GroupWidth(m) * |x|, end, Plain))
  {
    OpenRunAt(m, s, i, end);
    RunThenClose(x, m, s, i + 4, i + 4 + GroupWidth(m) * |x|, end);
  }

  /** Groups spelling x and the `\X0\` after them. */
  lemma {:induction false} RunThenClose(x: seq<char>, m: Mode, s: seq<char>, i: nat, j: nat, end: nat)
    requires !m.Plain? && j == i + GroupWidth(m) * |x| && j <= end <= |s|
    requires GroupsAt(s, i, x, GroupWidth(m)) && Directive(s, j, end, '0')
    ensures DecodeFrom(s, i, end, m) == PrependAll(x, DecodeFrom(s, j + 4, end, Plain))
  {
    DecodeGroups(x, m, s, i, end);
    CloseRunAt(m, s, j, end);
  }

  /** The round trip: decoding an encoded text gives the text back. */
  lemma {:induction false} DecodeEncode(x: seq<char>, s: seq<char>, i: nat, end: nat)
    requires i <= end <= |s| && s[i..end] == Encode(x)
    ensures DecodeFrom(s, i, end, Plain) == Success(x)
    decreases |x|
  {
    if x != [] {
      var k := |EncodeChar(x[0])|;
      EncodeSplit(x, s, i, end);
      DecodeEncode(x[1..], s, i + k, end);
      DecodeEncodedChar(x[0], s, i, end);
      PrependSplit(DecodeFrom(s, i, end, Plain), x);
    }
  }

  lemma {:induction false} EncodeSplit(x: seq<char>, s: seq<char>, i: nat, end: nat)
    requires x != [] && i <= end <= |s| && s[i..end] == Encode(x)
    ensures i + |EncodeChar(x[0])| <= end
    ensures s[i..i + |EncodeChar(x[0])|] == EncodeChar(x[0])
    ensures s[i + |EncodeChar(x[0])|..end] == Encode(x[1..])
  {
    var k := |EncodeChar(x[0])|;
    assert Encode(x) == EncodeChar(x[0]) + Encode(x[1..]);
    assert s[i..i + k] == s[i..end][..k];
    assert s[i + k..end] == s[i..end][k..];
  }

  lemma {:induction false} PrependSplit(r: Result<seq<char>>, x: seq<char>)
    requires x != [] && r == Prepend(x[0], Success(x[1..]))
    ensures r == Success(x)
  {
    assert [x[0]] + x[1..] == x;
  }

  /** The round trip for a bare string body. */
  lemma DecodeBodyEncode(x: seq<char>)
    ensures DecodeBody(Encode(x)) == Success(x)
  {
    DecodeEncode(x, Encode(x), 0, |Encode(x)|);
  }
}
