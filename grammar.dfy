/** The recursive grammar of a STEP physical file, composed directly over
    the text. Each rule takes the offset where it starts, passes over the
    layout in front of every token, and returns what it built with the
    offset just past its last token; the first mismatch aborts the parse
    with a SyntaxError (no recovery, no partial results). */
module Grammar {
  import opened Results
  import opened Numerals
  import opened BinaryCodec
  import opened Lexer
  import opened Values

  /** The characters that can open a value. */
  predicate StartsValue(c: char) {
    c == '(' || c == '\'' || c == '"' || c == '#' || c == '$' || c == '*' || c == '.' ||
    IsDigit(c) || c == '+' || c == '-' || c == '!' || IsKeywordStart(c)
  }

  function FromNumber(n: Number): Value {
    match n
    case IntegerLit(i) => Integer(i)
    case RealLit(m, e) => Real(m, e)
  }

  /** value := number | string | binary | entity name | `$` | `*` |
      enumeration | list | typed parameter | keyword, after layout. */
  function ParseValue(s: seq<char>, pos: nat): (r: Result<(Value, nat)>)
    requires pos <= |s|
    ensures r.Success? ==> pos < r.value.1 <= |s| && WellFormed(r.value.0)
    ensures r.Success? ==> SkipLayout(s, pos) < |s| && StartsValue(s[SkipLayout(s, pos)])
    decreases |s| - pos, 3
  {
    var q := SkipLayout(s, pos);
    if q == |s| then Failure(SyntaxError(q, "value")) else ParseValueToken(s, q)
  }

  /** The value whose first token opens at q: its first character selects
      the rule, and after a keyword one more token decides between a typed
      parameter (a `(` follows) and the keyword alone. */
  function ParseValueToken(s: seq<char>, q: nat): (r: Result<(Value, nat)>)
    requires q < |s|
    ensures r.Success? ==> q < r.value.1 <= |s| && WellFormed(r.value.0) && StartsValue(s[q])
    decreases |s| - q, 2
  {
    var c := s[q];
    if c == '(' then
      match ParseList(s, q)
      case Failure(e) => Failure(e)
      case Success(l) => Success((List(l.0), l.1))
    else if c == '\'' then
      match ScanString(s, q)
      case Failure(e) => Failure(e)
      case Success(t) => Success((Str(t.0), t.1))
    else if c == '"' then
      match ScanBinary(s, q)
      case Failure(e) => Failure(e)
      case Success(b) =>
        HexDigitsAreNibbles(b.0.bits / 4);
        Success((Binary(b.0), b.1))
    else if c == '#' then
      match ScanEntityName(s, q)
      case Failure(e) => Failure(e)
      case Success(n) => Success((Ref(n.0), n.1))
    else if c == '$' then Success((Omitted, q + 1))
    else if c == '*' then Success((Inherited, q + 1))
    else if c == '.' then
      match ScanEnumeration(s, q)
      case Failure(e) => Failure(e)
      case Success(n) => Success((Enumeration(n.0), n.1))
    else if IsDigit(c) || c == '+' || c == '-' then
      match ScanNumber(s, q)
      case Failure(e) => Failure(e)
      case Success(n) => Success((FromNumber(n.0), n.1))
    else if c == '!' || IsKeywordStart(c) then
      match ScanKeyword(s, q)
      case Failure(e) => Failure(e)
      case Success(k) =>
        var o := SkipLayout(s, k.1);
        if o < |s| && s[o] == '(' then ParseTypedParameter(s, q) else Success((Atom(k.0), k.1))
    else Failure(SyntaxError(q, "value"))
  }

  /** list := `(` [ value { `,` value } ] `)`. */
  function ParseList(s: seq<char>, pos: nat): (r: Result<(seq<Value>, nat)>)
    requires pos <= |s|
    ensures r.Success? ==> pos < r.value.1 <= |s| && s[r.value.1 - 1] == ')'
    ensures r.Success? ==> AllWellFormed(r.value.0)
    decreases |s| - pos, 1
  {
    var q := SkipLayout(s, pos);
    if q < |s| && s[q] == '(' then
      var p := SkipLayout(s, q + 1);
      if p < |s| && s[p] == ')' then Success(([], p + 1))
      else ParseItems(s, q + 1)
    else Failure(SyntaxError(q, "'('"))
  }

  /** The items of a non-empty list and its closing parenthesis:
      value { `,` value } `)`. */
  function ParseItems(s: seq<char>, pos: nat): (r: Result<(seq<Value>, nat)>)
    requires pos <= |s|
    ensures r.Success? ==> pos < r.value.1 <= |s| && s[r.value.1 - 1] == ')'
    ensures r.Success? ==> |r.value.0| >= 1 && AllWellFormed(r.value.0)
    decreases |s| - pos, 4
  {
    match ParseValue(s, pos)
    case Failure(e) => Failure(e)
    case Success(v) =>
      var q := SkipLayout(s, v.1);
      if q < |s| && s[q] == ',' then
        match ParseItems(s, q + 1)
        case Failure(e) => Failure(e)
        case Success(rest) =>
          ValuesCons(v.0, rest.0);
          Success(([v.0] + rest.0, rest.1))
      else if q < |s| && s[q] == ')' then Success(([v.0], q + 1))
      else Failure(SyntaxError(q, "',' or ')'"))
  }

  /** ParseHeaderEntity(s, pos) == Success((h, e)), under a name of its own. */
  predicate EntityParsed(s: seq<char>, pos: nat, h: HeaderEntity, e: nat) {
    pos <= |s| && ParseHeaderEntity(s, pos) == Success((h, e))
  }

  /** ParseValue(s, pos) == Success((v, e)), under a name of its own. */
  predicate ValueParsed(s: seq<char>, pos: nat, v: Value, e: nat) {
    pos <= |s| && ParseValue(s, pos) == Success((v, e))
  }

  /** ParseItems(s, pos) == Success((vs, e)), under a name of its own. */
  predicate ItemsParsed(s: seq<char>, pos: nat, vs: seq<Value>, e: nat) {
    pos <= |s| && ParseItems(s, pos) == Success((vs, e))
  }

  /** typed_parameter := KEYWORD `(` value `)`. */
  function ParseTypedParameter(s: seq<char>, pos: nat): (r: Result<(Value, nat)>)
    requires pos <= |s|
    ensures r.Success? ==> pos < r.value.1 <= |s| && s[r.value.1 - 1] == ')'
    ensures r.Success? ==> r.value.0.Typed? && IsKeyword(r.value.0.typeName) && WellFormed(r.value.0)
    decreases |s| - pos, 1
  {
    var q := SkipLayout(s, pos);
    match ScanKeyword(s, q)
    case Failure(e) => Failure(e)
    case Success(k) =>
      var o := SkipLayout(s, k.1);
      if o < |s| && s[o] == '(' then
        match ParseValue(s, o + 1)
        case Failure(e) => Failure(e)
        case Success(v) =>
          var c := SkipLayout(s, v.1);
          if c < |s| && s[c] == ')' then Success((Typed(k.0, v.0), c + 1))
          else Failure(SyntaxError(c, "')'"))
      else Failure(SyntaxError(o, "'('"))
  }

  /** A string literal on its own, after layout: its decoded text. */
  function ParseString(s: seq<char>, pos: nat): (r: Result<(string, nat)>)
    requires pos <= |s|
    ensures r.Success? ==> pos + 2 <= r.value.1 <= |s| && s[r.value.1 - 1] == '\''
  {
    var q := SkipLayout(s, pos);
    if q < |s| && s[q] == '\'' then ScanString(s, q) else Failure(SyntaxError(q, "string"))
  }

  /** A binary literal on its own, after layout. */
  function ParseBinary(s: seq<char>, pos: nat): (r: Result<(BitString, nat)>)
    requires pos <= |s|
    ensures r.Success? ==> pos + 3 <= r.value.1 <= |s| && r.value.0.value < Pow(2, r.value.0.bits)
  {
    var q := SkipLayout(s, pos);
    if q < |s| && s[q] == '"' then ScanBinary(s, q) else Failure(SyntaxError(q, "binary"))
  }

  /** KEYWORD on its own, after layout. */
  function ParseKeyword(s: seq<char>, pos: nat): (r: Result<(string, nat)>)
    requires pos <= |s|
    ensures r.Success? ==> pos < r.value.1 <= |s| && IsKeyword(r.value.0)
  {
    ScanKeyword(s, SkipLayout(s, pos))
  }

  /** header_entity := KEYWORD list `;`. */
  function ParseHeaderEntity(s: seq<char>, pos: nat): (r: Result<(HeaderEntity, nat)>)
    requires pos <= |s|
    ensures r.Success? ==> pos < r.value.1 <= |s| && s[r.value.1 - 1] == ';'
    ensures r.Success? ==> WellFormedHeader(r.value.0)
  {
    match ParseKeyword(s, pos)
    case Failure(e) => Failure(e)
    case Success(k) =>
      match ParseList(s, k.1)
      case Failure(e) => Failure(e)
      case Success(l) =>
        var c := SkipLayout(s, l.1);
        if c < |s| && s[c] == ';' then Success((HeaderEntity(k.0, l.0), c + 1))
        else Failure(SyntaxError(c, "';'"))
  }

  /** simple_entity_instance := `#`digits `=` KEYWORD list `;`; what follows
      the `=` has the shape of a header entity. */
  function ParseInstance(s: seq<char>, pos: nat): (r: Result<(Instance, nat)>)
    requires pos <= |s|
    ensures r.Success? ==> pos < r.value.1 <= |s| && s[r.value.1 - 1] == ';'
    ensures r.Success? ==> WellFormedInstance(r.value.0)
  {
    var q := SkipLayout(s, pos);
    if q < |s| && s[q] == '#' then
      match ScanEntityName(s, q)
      case Failure(err) => Failure(err)
      case Success(n) =>
        var e := SkipLayout(s, n.1);
        if e < |s| && s[e] == '=' then
          match ParseHeaderEntity(s, e + 1)
          case Failure(err) => Failure(err)
          case Success(h) => Success((Instance(n.0, h.0.name, h.0.params), h.1))
        else Failure(SyntaxError(e, "'='"))
    else Failure(SyntaxError(q, "'#'"))
  }

  /** The special token `lit`, after layout. */
  function Expect(s: seq<char>, pos: nat, lit: string): (r: Result<nat>)
    requires pos <= |s|
    ensures r.Success? ==> pos + |lit| <= r.value <= |s| && TextAt(s, r.value - |lit|, lit)
  {
    var q := SkipLayout(s, pos);
    if TextAt(s, q, lit) then Success(q + |lit|) else Failure(SyntaxError(q, lit))
  }

  /** header_entity* `ENDSEC;`. */
  function ParseHeaderEntities(s: seq<char>, pos: nat): (r: Result<(seq<HeaderEntity>, nat)>)
    requires pos <= |s|
    ensures r.Success? ==> pos < r.value.1 <= |s|
    ensures r.Success? ==> HeadersWellFormed(r.value.0)
    decreases |s| - pos
  {
    var q := SkipLayout(s, pos);
    if TextAt(s, q, "ENDSEC;") then Success(([], q + 7))
    else
      match ParseHeaderEntity(s, q)
      case Failure(e) => Failure(e)
      case Success(h) =>
        match ParseHeaderEntities(s, h.1)
        case Failure(e) => Failure(e)
        case Success(rest) =>
          HeadersCons(h.0, rest.0);
          Success(([h.0] + rest.0, rest.1))
  }

  /** simple_entity_instance* `ENDSEC;`. */
  function ParseInstances(s: seq<char>, pos: nat): (r: Result<(seq<Instance>, nat)>)
    requires pos <= |s|
    ensures r.Success? ==> pos < r.value.1 <= |s|
    ensures r.Success? ==> InstancesWellFormed(r.value.0)
    decreases |s| - pos
  {
    var q := SkipLayout(s, pos);
    if TextAt(s, q, "ENDSEC;") then Success(([], q + 7))
    else
      match ParseInstance(s, q)
      case Failure(e) => Failure(e)
      case Success(d) =>
        match ParseInstances(s, d.1)
        case Failure(e) => Failure(e)
        case Success(rest) =>
          InstancesCons(d.0, rest.0);
          Success(([d.0] + rest.0, rest.1))
  }

  /** step_file := `ISO-10303-21;` `HEADER;` header_entity* `ENDSEC;`
      `DATA;` simple_entity_instance* `ENDSEC;` `END-ISO-10303-21;`, read
      from pos, up to just past `END-ISO-10303-21;`. Like every other rule
      it leaves what follows to its caller; `Whole` asks for nothing but
      layout after it. */
  function ParseStepFile(s: seq<char>, pos: nat): (r: Result<(StepFile, nat)>)
    requires pos <= |s|
    ensures r.Success? ==> WellFormedFile(r.value.0)
    ensures r.Success? ==> pos + 17 <= r.value.1 <= |s| && TextAt(s, r.value.1 - 17, "END-ISO-10303-21;")
  {
    var p0 :- Expect(s, pos, "ISO-10303-21;");
    var p1 :- Expect(s, p0, "HEADER;");
    var h :- ParseHeaderEntities(s, p1);
    var p2 :- Expect(s, h.1, "DATA;");
    var d :- ParseInstances(s, p2);
    var p3 :- Expect(s, d.1, "END-ISO-10303-21;");
    Success((StepFile(h.0, d.0), p3))
  }

  /** A rule applied to the whole input, as when only layout may follow
      what it matched. */
  function Whole<T>(s: seq<char>, r: Result<(T, nat)>): (w: Result<T>)
    requires r.Success? ==> r.value.1 <= |s|
    ensures w.Success? <==> r.Success? && SkipLayout(s, r.value.1) == |s|
    ensures w.Success? ==> w.value == r.value.0
  {
    match r
    case Failure(e) => Failure(e)
    case Success(x) =>
      if SkipLayout(s, x.1) == |s| then Success(x.0)
      else Failure(SyntaxError(SkipLayout(s, x.1), "end of input"))
  }

  /** No character of s is white space or a slash, so no layout can open
      anywhere in s. */
  predicate NoLayoutChars(s: seq<char>) {
    forall k :: 0 <= k < |s| ==> !IsSpace(s[k]) && s[k] != '/'
  }

  /** KEYWORD read as the whole input: a text in which no layout can open
      is accepted exactly when it is a keyword, and then as itself. */
  lemma {:induction false} WholeKeyword(s: seq<char>)
    requires NoLayoutChars(s)
    ensures Whole(s, ParseKeyword(s, 0)).Success? <==> IsKeyword(s)
    ensures Whole(s, ParseKeyword(s, 0)).Success? ==> Whole(s, ParseKeyword(s, 0)).value == s
  {
    if |s| > 0 { assert !IsSpace(s[0]) && s[0] != '/'; }
    assert SkipLayout(s, 0) == 0;
    KeywordIff(s);
    var r := ScanKeyword(s, 0);
    if r.Success? {
      var e := r.value.1;
      if e < |s| {
        assert !IsSpace(s[e]) && s[e] != '/';
        assert SkipLayout(s, e) == e;
      } else {
        assert r.value.0 == s by {
          forall i | 0 <= i < |s| ensures r.value.0[i] == s[i] { assert s[0 + i] == r.value.0[i]; }
        }
      }
    }
  }
}
