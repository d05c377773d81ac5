/** The printer extended to whole statements and files: a header entity
    as `NAME(params);`, an instance as `#id=NAME(params);`, and a file as
    its fixed section keywords around them, with no layout anywhere; and
    the proof that the grammar reads every printed well-formed file back
    as exactly that file. */
module FilePrinter {
  import opened Results
  import opened Numerals
  import opened Lexer
  import opened Values
  import opened Grammar
  import opened Printer

  function PrintHeader(h: HeaderEntity): string {
    h.name + Print(List(h.params)) + ";"
  }

  function PrintHeaders(hs: seq<HeaderEntity>): string {
    if hs == [] then "" else PrintHeader(hs[0]) + PrintHeaders(hs[1..])
  }

  function PrintInstance(d: Instance): string {
    "#" + DecimalText(d.id) + "=" + PrintHeader(HeaderEntity(d.name, d.params))
  }

  function PrintInstances(ds: seq<Instance>): string {
    if ds == [] then "" else PrintInstance(ds[0]) + PrintInstances(ds[1..])
  }

  function PrintFile(f: StepFile): string {
    "ISO-10303-21;" + ("HEADER;" + ((PrintHeaders(f.header) + "ENDSEC;") +
      ("DATA;" + ((PrintInstances(f.data) + "ENDSEC;") + "END-ISO-10303-21;"))))
  }

  // ------------------------------------------------------ header entities

  /** The grammar reads the header entities `hs` and `ENDSEC;` from pos to e. */
  predicate HeadersParsed(s: seq<char>, pos: nat, hs: seq<HeaderEntity>, e: nat) {
    pos <= |s| && ParseHeaderEntities(s, pos) == Success((hs, e))
  }

  /** Where the parts of a printed header entity stand. */
  lemma {:induction false} HeaderTextAt(h: HeaderEntity, s: seq<char>, pos: nat)
    requires TextAt(s, pos, PrintHeader(h))
    ensures TextAt(s, pos, h.name) && TextAt(s, pos + |h.name|, Print(List(h.params)))
    ensures |PrintHeader(h)| == |h.name| + |Print(List(h.params))| + 1
    ensures s[pos + |h.name|] == '(' && s[pos + |PrintHeader(h)| - 1] == ';'
  {
    var l := Print(List(h.params));
    assert PrintHeader(h) == (h.name + l) + ";";
    TextAtConcat(s, pos, h.name + l, ";");
    TextAtConcat(s, pos, h.name, l);
    assert l == "(" + PrintItems(h.params) + ")";
    TextAtChar(s, pos + |h.name|, l, 0);
    TextAtChar(s, pos + |h.name| + |l|, ";", 0);
  }

  /** One header entity, from its parts. */
  lemma {:induction false} HeaderEntityAt(s: seq<char>, pos: nat, h: HeaderEntity, o: nat, c: nat, e: nat)
    requires pos <= |s| && ParseKeyword(s, pos) == Success((h.name, o))
    requires ParseList(s, o) == Success((h.params, c))
    requires c < |s| && SkipLayout(s, c) == c && s[c] == ';' && e == c + 1
    ensures ParseHeaderEntity(s, pos) == Success((h, e))
  {
  }

  /** A header entity and the entities after it, from their parts. */
  lemma {:induction false} HeadersAt(s: seq<char>, pos: nat, h: HeaderEntity, rest: seq<HeaderEntity>, k: nat, e: nat)
    requires pos <= |s| && SkipLayout(s, pos) == pos && !TextAt(s, pos, "ENDSEC;")
    requires ParseHeaderEntity(s, pos) == Success((h, k))
    requires ParseHeaderEntities(s, k) == Success((rest, e))
    ensures ParseHeaderEntities(s, pos) == Success(([h] + rest, e))
  {
  }

  lemma {:induction false} EndsecAt(s: seq<char>, pos: nat)
    requires TextAt(s, pos, "ENDSEC;")
    ensures pos <= |s| && SkipLayout(s, pos) == pos && TextAt(s, pos, "ENDSEC;")
  {
    TextAtChar(s, pos, "ENDSEC;", 0);
    NoLayoutAt(s, pos);
    TextAtSlice(s, pos, "ENDSEC;");
  }

  lemma {:induction false} HeadersEnd(s: seq<char>, pos: nat, e: nat)
    requires TextAt(s, pos, PrintHeaders([]) + "ENDSEC;") && e == pos + |PrintHeaders([])| + 7
    ensures HeadersParsed(s, pos, [], e)
  {
    assert PrintHeaders([]) + "ENDSEC;" == "ENDSEC;";
    EndsecAt(s, pos);
  }

  /** The grammar reads a printed header entity back. */
  lemma {:induction false} ParsePrintedHeader(h: HeaderEntity, s: seq<char>, pos: nat, e: nat)
    requires WellFormedHeader(h) && TextAt(s, pos, PrintHeader(h)) && e == pos + |PrintHeader(h)|
    ensures ParseHeaderEntity(s, pos) == Success((h, e))
  {
    var o := pos + |h.name|;
    var c := o + |Print(List(h.params))|;
    HeaderTextAt(h, s, pos);
    TextAtChar(s, pos, h.name, 0);
    NoLayoutAt(s, pos);
    ScanKeywordAt(h.name, s, pos);
    ParsePrintedList(h.params, s, o, c);
    NoLayoutAt(s, c);
    HeaderEntityAt(s, pos, h, o, c, e);
  }

  /** A printed header entity never starts with `ENDSEC;`: a name shorter
      than seven characters is followed by `(`, a longer one has a keyword
      character where the `;` would be. */
  lemma {:induction false} HeaderIsNotEndsec(h: HeaderEntity, s: seq<char>, pos: nat)
    requires WellFormedHeader(h) && TextAt(s, pos, PrintHeader(h))
    ensures !TextAt(s, pos, "ENDSEC;")
  {
    HeaderTextAt(h, s, pos);
    var e := "ENDSEC;";
    var i := if |h.name| >= 7 then 6 else |h.name|;
    if |h.name| >= 7 {
      TextAtChar(s, pos, h.name, 6);
      assert IsKeywordChar(h.name[6]);
    }
    assert s[pos + i] != e[i];
  }

  /** The header entities of a printed header section and its `ENDSEC;`,
      read back: the grammar returns exactly `hs` and stops at e, just past
      the `ENDSEC;`. */
  lemma {:induction false} ParsePrintedHeaders(hs: seq<HeaderEntity>, s: seq<char>, pos: nat, e: nat)
    requires HeadersWellFormed(hs) && TextAt(s, pos, PrintHeaders(hs) + "ENDSEC;")
    requires e == pos + |PrintHeaders(hs)| + 7
    ensures HeadersParsed(s, pos, hs, e)
    decreases |hs|
  {
    if hs == [] {
      HeadersEnd(s, pos, e);
    } else {
      HeadersConsText(hs, s, pos);
      var k := pos + |PrintHeader(hs[0])|;
      ParsePrintedHeaders(hs[1..], s, k, e);
      HeadersStep(hs, s, pos, k, e);
    }
  }

  /** The first printed header entity in front of entities already read back. */
  lemma {:induction false} HeadersStep(hs: seq<HeaderEntity>, s: seq<char>, pos: nat, k: nat, e: nat)
    requires hs != [] && WellFormedHeader(hs[0]) && TextAt(s, pos, PrintHeader(hs[0]))
    requires k == pos + |PrintHeader(hs[0])| && HeadersParsed(s, k, hs[1..], e)
    ensures HeadersParsed(s, pos, hs, e)
  {
    FirstHeaderThenMore(hs[0], hs[1..], s, pos, k, e);
    SplitFirst(ParseHeaderEntities(s, pos), hs, e);
  }

  lemma {:induction false} HeadersConsText(hs: seq<HeaderEntity>, s: seq<char>, pos: nat)
    requires hs != [] && HeadersWellFormed(hs) && TextAt(s, pos, PrintHeaders(hs) + "ENDSEC;")
    ensures WellFormedHeader(hs[0]) && HeadersWellFormed(hs[1..])
    ensures TextAt(s, pos, PrintHeader(hs[0]))
    ensures TextAt(s, pos + |PrintHeader(hs[0])|, PrintHeaders(hs[1..]) + "ENDSEC;")
    ensures |PrintHeaders(hs)| == |PrintHeader(hs[0])| + |PrintHeaders(hs[1..])|
  {
    var rest := hs[1..];
    assert WellFormedHeader(hs[0]);
    forall k | 0 <= k < |rest| ensures WellFormedHeader(rest[k]) { assert rest[k] == hs[k + 1]; }
    assert PrintHeaders(hs) + "ENDSEC;" == PrintHeader(hs[0]) + (PrintHeaders(rest) + "ENDSEC;");
    TextAtConcat(s, pos, PrintHeader(hs[0]), PrintHeaders(rest) + "ENDSEC;");
  }

  /** A printed header entity opens with its name: no layout, and not `ENDSEC;`. */
  lemma {:induction false} HeaderStart(h: HeaderEntity, s: seq<char>, pos: nat)
    requires WellFormedHeader(h) && TextAt(s, pos, PrintHeader(h))
    ensures pos <= |s| && SkipLayout(s, pos) == pos && !TextAt(s, pos, "ENDSEC;")
  {
    HeaderTextAt(h, s, pos);
    TextAtChar(s, pos, h.name, 0);
    NoLayoutAt(s, pos);
    HeaderIsNotEndsec(h, s, pos);
  }

  /** A printed header entity, then entities the grammar already reads. */
  lemma {:induction false} FirstHeaderThenMore(h: HeaderEntity, rest: seq<HeaderEntity>, s: seq<char>, pos: nat, k: nat, e: nat)
    requires WellFormedHeader(h) && TextAt(s, pos, PrintHeader(h)) && k == pos + |PrintHeader(h)|
    requires ParseHeaderEntities(s, k) == Success((rest, e))
    ensures ParseHeaderEntities(s, pos) == Success(([h] + rest, e))
  {
    HeaderStart(h, s, pos);
    ParsePrintedHeader(h, s, pos, k);
    HeadersAt(s, pos, h, rest, k, e);
  }

  // ------------------------------------------------------------ instances

  /** The grammar reads the instances `ds` and `ENDSEC;` from pos to e. */
  predicate InstancesParsed(s: seq<char>, pos: nat, ds: seq<Instance>, e: nat) {
    pos <= |s| && ParseInstances(s, pos) == Success((ds, e))
  }

  /** Where the parts of a printed instance stand. */
  lemma {:induction false} InstanceTextAt(d: Instance, s: seq<char>, pos: nat)
    requires TextAt(s, pos, PrintInstance(d))
    ensures TextAt(s, pos, "#" + DecimalText(d.id))
    ensures s[pos + 1 + |DecimalText(d.id)|] == '='
    ensures TextAt(s, pos + 2 + |DecimalText(d.id)|, PrintHeader(HeaderEntity(d.name, d.params)))
    ensures |PrintInstance(d)| == 2 + |DecimalText(d.id)| + |PrintHeader(HeaderEntity(d.name, d.params))|
  {
    var r := "#" + DecimalText(d.id);
    var h := PrintHeader(HeaderEntity(d.name, d.params));
    assert PrintInstance(d) == (r + "=") + h;
    TextAtConcat(s, pos, r + "=", h);
    TextAtConcat(s, pos, r, "=");
    TextAtChar(s, pos + |r|, "=", 0);
  }

  /** One instance, from its parts. */
  lemma {:induction false} InstanceAt(s: seq<char>, pos: nat, d: Instance, n: nat, e: nat)
    requires pos < |s| && s[pos] == '#' && SkipLayout(s, pos) == pos
    requires ScanEntityName(s, pos) == Success((d.id, n))
    requires n < |s| && SkipLayout(s, n) == n && s[n] == '='
    requires EntityParsed(s, n + 1, HeaderEntity(d.name, d.params), e)
    ensures ParseInstance(s, pos) == Success((d, e))
  {
    InstanceRule(s, pos, d.id, n, ParseHeaderEntity(s, n + 1));
    InstanceFromHeader(ParseHeaderEntity(s, n + 1), d, e);
  }

  /** simple_entity_instance once its number and `=` have been read. */
  lemma {:induction false} InstanceRule(s: seq<char>, pos: nat, id: nat, n: nat, r: Result<(HeaderEntity, nat)>)
    requires pos < |s| && s[pos] == '#' && SkipLayout(s, pos) == pos
    requires ScanEntityName(s, pos) == Success((id, n))
    requires n < |s| && SkipLayout(s, n) == n && s[n] == '=' && r == ParseHeaderEntity(s, n + 1)
    ensures ParseInstance(s, pos) == match r
                                     case Failure(err) => Failure(err)
                                     case Success(h) => Success((Instance(id, h.0.name, h.0.params), h.1))
  {
  }

  lemma InstanceFromHeader(r: Result<(HeaderEntity, nat)>, d: Instance, e: nat)
    requires r == Success((HeaderEntity(d.name, d.params), e))
    ensures (match r
             case Failure(err) => Failure(err)
             case Success(h) => Success((Instance(d.id, h.0.name, h.0.params), h.1))) == Success((d, e))
  {
  }

  /** The grammar reads a printed instance back. */
  lemma {:induction false} ParsePrintedInstance(d: Instance, s: seq<char>, pos: nat, e: nat)
    requires WellFormedInstance(d) && TextAt(s, pos, PrintInstance(d))
    requires e == pos + |PrintInstance(d)|
    ensures ParseInstance(s, pos) == Success((d, e))
  {
    var n := pos + 1 + |DecimalText(d.id)|;
    InstanceTokensAt(d, s, pos, n);
    ParsePrintedHeader(HeaderEntity(d.name, d.params), s, n + 1, e);
    InstanceAt(s, pos, d, n, e);
  }

  /** The tokens of a printed instance before its header-entity part. */
  lemma {:induction false} InstanceTokensAt(d: Instance, s: seq<char>, pos: nat, n: nat)
    requires TextAt(s, pos, PrintInstance(d)) && n == pos + 1 + |DecimalText(d.id)|
    ensures pos < |s| && s[pos] == '#' && SkipLayout(s, pos) == pos
    ensures ScanEntityName(s, pos) == Success((d.id, n))
    ensures n < |s| && SkipLayout(s, n) == n && s[n] == '='
    ensures TextAt(s, n + 1, PrintHeader(HeaderEntity(d.name, d.params)))
    ensures pos + |PrintInstance(d)| == n + 1 + |PrintHeader(HeaderEntity(d.name, d.params))|
  {
    InstanceTextAt(d, s, pos);
    ScanPrintedRef(d.id, s, pos);
    NoLayoutAt(s, pos);
    NoLayoutAt(s, n);
  }

  /** A printed instance opens with `#`: no layout, and not `ENDSEC;`. */
  lemma {:induction false} InstanceStart(d: Instance, s: seq<char>, pos: nat)
    requires TextAt(s, pos, PrintInstance(d))
    ensures pos <= |s| && SkipLayout(s, pos) == pos && !TextAt(s, pos, "ENDSEC;")
  {
    InstanceTextAt(d, s, pos);
    TextAtChar(s, pos, "#" + DecimalText(d.id), 0);
    NoLayoutAt(s, pos);
    assert s[pos] != "ENDSEC;"[0];
  }

  /** An instance and the instances after it, from their parts. */
  lemma {:induction false} InstancesAt(s: seq<char>, pos: nat, d: Instance, rest: seq<Instance>, k: nat, e: nat)
    requires pos <= |s| && SkipLayout(s, pos) == pos && !TextAt(s, pos, "ENDSEC;")
    requires ParseInstance(s, pos) == Success((d, k))
    requires ParseInstances(s, k) == Success((rest, e))
    ensures ParseInstances(s, pos) == Success(([d] + rest, e))
  {
  }

  /** A printed instance, then instances the grammar already reads. */
  lemma {:induction false} FirstInstanceThenMore(d: Instance, rest: seq<Instance>, s: seq<char>, pos: nat, k: nat, e: nat)
    requires WellFormedInstance(d) && TextAt(s, pos, PrintInstance(d)) && k == pos + |PrintInstance(d)|
    requires ParseInstances(s, k) == Success((rest, e))
    ensures ParseInstances(s, pos) == Success(([d] + rest, e))
  {
    InstanceStart(d, s, pos);
    ParsePrintedInstance(d, s, pos, k);
    InstancesAt(s, pos, d, rest, k, e);
  }

  lemma {:induction false} InstancesEnd(s: seq<char>, pos: nat, e: nat)
    requires TextAt(s, pos, PrintInstances([]) + "ENDSEC;") && e == pos + |PrintInstances([])| + 7
    ensures InstancesParsed(s, pos, [], e)
  {
    assert PrintInstances([]) + "ENDSEC;" == "ENDSEC;";
    EndsecAt(s, pos);
  }

  lemma {:induction false} InstancesConsText(ds: seq<Instance>, s: seq<char>, pos: nat)
    requires ds != [] && InstancesWellFormed(ds) && TextAt(s, pos, PrintInstances(ds) + "ENDSEC;")
    ensures WellFormedInstance(ds[0]) && InstancesWellFormed(ds[1..])
    ensures TextAt(s, pos, PrintInstance(ds[0]))
    ensures TextAt(s, pos + |PrintInstance(ds[0])|, PrintInstances(ds[1..]) + "ENDSEC;")
    ensures |PrintInstances(ds)| == |PrintInstance(ds[0])| + |PrintInstances(ds[1..])|
  {
    var rest := ds[1..];
    assert WellFormedInstance(ds[0]);
    forall k | 0 <= k < |rest| ensures WellFormedInstance(rest[k]) { assert rest[k] == ds[k + 1]; }
    assert PrintInstances(ds) + "ENDSEC;" == PrintInstance(ds[0]) + (PrintInstances(rest) + "ENDSEC;");
    TextAtConcat(s, pos, PrintInstance(ds[0]), PrintInstances(rest) + "ENDSEC;");
  }

  /** The first printed instance in front of instances already read back. */
  lemma {:induction false} InstancesStep(ds: seq<Instance>, s: seq<char>, pos: nat, k: nat, e: nat)
    requires ds != [] && WellFormedInstance(ds[0]) && TextAt(s, pos, PrintInstance(ds[0]))
    requires k == pos + |PrintInstance(ds[0])| && InstancesParsed(s, k, ds[1..], e)
    ensures InstancesParsed(s, pos, ds, e)
  {
    FirstInstanceThenMore(ds[0], ds[1..], s, pos, k, e);
    SplitFirst(ParseInstances(s, pos), ds, e);
  }

  /** The instances of a printed data section and its `ENDSEC;`, read back:
      the grammar returns exactly `ds` and stops at e, just past the
      `ENDSEC;`. */
  lemma {:induction false} ParsePrintedInstances(ds: seq<Instance>, s: seq<char>, pos: nat, e: nat)
    requires InstancesWellFormed(ds) && TextAt(s, pos, PrintInstances(ds) + "ENDSEC;")
    requires e == pos + |PrintInstances(ds)| + 7
    ensures InstancesParsed(s, pos, ds, e)
    decreases |ds|
  {
    if ds == [] {
      InstancesEnd(s, pos, e);
    } else {
      InstancesConsText(ds, s, pos);
      var k := pos + |PrintInstance(ds[0])|;
      ParsePrintedInstances(ds[1..], s, k, e);
      InstancesStep(ds, s, pos, k, e);
    }
  }

  // ---------------------------------------------------------------- files

  /** A special token printed at pos, read back. */
  lemma {:induction false} ExpectAt(s: seq<char>, pos: nat, lit: string, e: nat)
    requires TextAt(s, pos, lit) && |lit| > 0 && !IsSpace(lit[0]) && lit[0] != '/'
    requires e == pos + |lit|
    ensures Expect(s, pos, lit) == Success(e)
  {
    TextAtChar(s, pos, lit, 0);
    NoLayoutAt(s, pos);
  }

  lemma {:induction false} TextAtWhole(s: seq<char>)
    ensures TextAt(s, 0, s)
  {
  }

  /** Where the sections of a printed file stand, whatever the printed
      header entities hs and instances ds. */
  lemma {:induction false} SectionsAt(s: seq<char>, hs: string, ds: string, e1: nat, e2: nat)
    requires TextAt(s, 0, "ISO-10303-21;" + ("HEADER;" + ((hs + "ENDSEC;") +
      ("DATA;" + ((ds + "ENDSEC;") + "END-ISO-10303-21;")))))
    requires e1 == 20 + |hs| + 7 && e2 == e1 + 5 + |ds| + 7 && |s| == e2 + 17
    ensures TextAt(s, 0, "ISO-10303-21;") && TextAt(s, 13, "HEADER;")
    ensures TextAt(s, 20, hs + "ENDSEC;") && TextAt(s, e1, "DATA;")
    ensures TextAt(s, e1 + 5, ds + "ENDSEC;") && TextAt(s, e2, "END-ISO-10303-21;")
  {
    var hd := hs + "ENDSEC;";
    var dt := ds + "ENDSEC;";
    var tail := "DATA;" + (dt + "END-ISO-10303-21;");
    TextAtConcat(s, 0, "ISO-10303-21;", "HEADER;" + (hd + tail));
    TextAtConcat(s, 13, "HEADER;", hd + tail);
    TextAtConcat(s, 20, hd, tail);
    TextAtConcat(s, e1, "DATA;", dt + "END-ISO-10303-21;");
    TextAtConcat(s, e1 + 5, dt, "END-ISO-10303-21;");
  }

  /** The opening keywords and the header section of a printed file. */
  lemma {:induction false} HeaderSectionAt(hs: seq<HeaderEntity>, s: seq<char>, e1: nat)
    requires HeadersWellFormed(hs) && TextAt(s, 0, "ISO-10303-21;") && TextAt(s, 13, "HEADER;")
    requires TextAt(s, 20, PrintHeaders(hs) + "ENDSEC;") && e1 == 20 + |PrintHeaders(hs)| + 7
    ensures Expect(s, 0, "ISO-10303-21;") == Success(13) && 13 <= |s|
    ensures Expect(s, 13, "HEADER;") == Success(20) && ParseHeaderEntities(s, 20) == Success((hs, e1))
  {
    ExpectAt(s, 0, "ISO-10303-21;", 13);
    ExpectAt(s, 13, "HEADER;", 20);
    ParsePrintedHeaders(hs, s, 20, e1);
  }

  /** The special tokens around the data section of a printed file. */
  lemma {:induction false} DataKeywordsAt(s: seq<char>, e1: nat, e2: nat)
    requires TextAt(s, e1, "DATA;") && TextAt(s, e2, "END-ISO-10303-21;") && |s| == e2 + 17
    ensures e1 + 5 <= |s| && Expect(s, e1, "DATA;") == Success(e1 + 5)
    ensures Expect(s, e2, "END-ISO-10303-21;") == Success(|s|) && SkipLayout(s, |s|) == |s|
  {
    ExpectAt(s, e1, "DATA;", e1 + 5);
    ExpectAt(s, e2, "END-ISO-10303-21;", |s|);
  }

  /** A step file, from its sections. */
  lemma {:induction false} StepFileAt(s: seq<char>, f: StepFile, e1: nat, e2: nat)
    requires Expect(s, 0, "ISO-10303-21;") == Success(13) && 13 <= |s|
    requires Expect(s, 13, "HEADER;") == Success(20) && ParseHeaderEntities(s, 20) == Success((f.header, e1))
    requires e1 + 5 <= |s| && Expect(s, e1, "DATA;") == Success(e1 + 5)
    requires InstancesParsed(s, e1 + 5, f.data, e2)
    requires e2 <= |s| && Expect(s, e2, "END-ISO-10303-21;") == Success(|s|)
    ensures ParseStepFile(s, 0) == Success((f, |s|))
  {
  }

  /** The grammar reads a printed well-formed file back as exactly that
      file, wherever that text stands. */
  lemma {:induction false} ParsePrintedFileAt(f: StepFile, s: seq<char>)
    requires WellFormedFile(f) && TextAt(s, 0, PrintFile(f)) && |s| == |PrintFile(f)|
    ensures ParseStepFile(s, 0) == Success((f, |s|))
  {
    var e1 := 20 + |PrintHeaders(f.header)| + 7;
    var e2 := e1 + 5 + |PrintInstances(f.data)| + 7;
    SectionsAt(s, PrintHeaders(f.header), PrintInstances(f.data), e1, e2);
    HeaderSectionAt(f.header, s, e1);
    DataKeywordsAt(s, e1, e2);
    ParsePrintedInstances(f.data, s, e1 + 5, e2);
    StepFileAt(s, f, e1, e2);
  }

  /** The grammar reads every printed well-formed file back as exactly that
      file, up to the end of the text, and so also as the whole input. */
  lemma {:induction false} ParsePrintedFile(f: StepFile)
    requires WellFormedFile(f)
    ensures ParseStepFile(PrintFile(f), 0) == Success((f, |PrintFile(f)|))
    ensures Whole(PrintFile(f), ParseStepFile(PrintFile(f), 0)) == Success(f)
  {
    TextAtWhole(PrintFile(f));
    ParsePrintedFileAt(f, PrintFile(f));
  }
}
