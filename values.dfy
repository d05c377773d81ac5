/** The parse tree of a STEP physical file: parameter values, header
    entities, simple entity instances and the file's two sections. */
module Values {
  import opened Numerals
  import opened BinaryCodec
  import opened Lexer

  /** A parameter value. An Atom is a keyword standing alone, not followed
      by the `(` of a typed parameter. Reals stay exact: Real(m, e) is m * 10^e, so
      `3.1415` is Real(31415, -4). Entity instance names stay opaque
      numbers. */
  datatype Value =
    | Integer(n: int)
    | Real(mantissa: int, exponent: int)
    | Str(text: string)
    | Binary(bits: BitString)
    | Ref(id: nat)
    | Omitted
    | Inherited
    | Enumeration(name: string)
    | Atom(word: string)
    | List(items: seq<Value>)
    | Typed(typeName: string, param: Value)

  /** One header statement, such as `FILE_SCHEMA(('IFC2X3'));`. */
  datatype HeaderEntity = HeaderEntity(name: string, params: seq<Value>)

  /** One data statement `#id = NAME(params);` of a single entity type. */
  datatype Instance = Instance(id: nat, name: string, params: seq<Value>)

  /** The statements of the header and the data section, in file order. */
  datatype StepFile = StepFile(header: seq<HeaderEntity>, data: seq<Instance>)

  /** The invariants the grammar guarantees of every value it builds: type
      names and atoms are keywords, enumeration names are standard keywords, and a bit string has as many bits as its hex
      digits spell and a value that fits in them. */
  predicate WellFormed(v: Value) {
    match v
    case Typed(name, p) => IsKeyword(name) && WellFormed(p)
    case List(items) => AllWellFormed(items)
    case Binary(b) => Encodable(b)
    case Enumeration(n) => IsEnumerationName(n)
    case Atom(w) => IsKeyword(w)
    case _ => true
  }

  predicate AllWellFormed(vs: seq<Value>) {
    forall k :: 0 <= k < |vs| ==> WellFormed(vs[k])
  }

  predicate WellFormedHeader(h: HeaderEntity) {
    IsKeyword(h.name) && AllWellFormed(h.params)
  }

  predicate WellFormedInstance(d: Instance) {
    IsKeyword(d.name) && AllWellFormed(d.params)
  }

  predicate HeadersWellFormed(hs: seq<HeaderEntity>) {
    forall k :: 0 <= k < |hs| ==> WellFormedHeader(hs[k])
  }

  predicate InstancesWellFormed(ds: seq<Instance>) {
    forall k :: 0 <= k < |ds| ==> WellFormedInstance(ds[k])
  }

  lemma ValuesCons(v: Value, vs: seq<Value>)
    requires WellFormed(v) && AllWellFormed(vs)
    ensures AllWellFormed([v] + vs)
  {
    forall k | 0 <= k < 1 + |vs| ensures WellFormed(([v] + vs)[k]) {
      if k > 0 { assert ([v] + vs)[k] == vs[k - 1]; }
    }
  }

  lemma HeadersCons(h: HeaderEntity, hs: seq<HeaderEntity>)
    requires WellFormedHeader(h) && HeadersWellFormed(hs)
    ensures HeadersWellFormed([h] + hs)
  {
    forall k | 0 <= k < 1 + |hs| ensures WellFormedHeader(([h] + hs)[k]) {
      if k > 0 { assert ([h] + hs)[k] == hs[k - 1]; }
    }
  }

  lemma InstancesCons(d: Instance, ds: seq<Instance>)
    requires WellFormedInstance(d) && InstancesWellFormed(ds)
    ensures InstancesWellFormed([d] + ds)
  {
    forall k | 0 <= k < 1 + |ds| ensures WellFormedInstance(([d] + ds)[k]) {
      if k > 0 { assert ([d] + ds)[k] == ds[k - 1]; }
    }
  }

  predicate WellFormedFile(f: StepFile) {
    HeadersWellFormed(f.header) && InstancesWellFormed(f.data)
  }
}
