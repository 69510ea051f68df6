/**
 * CQL type descriptors: the primitive types kept in a registry by name, and the collection
 * types built from them, each printing itself the way CQL writes it ("set<list<int>>").
 */
module CqlTypes {
  import opened Wrappers
  import JavaText
  import ColumnTypes

  /** A primitive CQL type. The constructor is private to the registry, so each name has one instance. */
  class PrimitiveType {
    const columnType: string

    constructor (columnType: string)
      ensures this.columnType == columnType
    {
      this.columnType := columnType;
    }

    /** `serialise()`, which `toString()` also returns. */
    function Serialise(): string
    {
      columnType
    }
  }

  /** The sixteen names registered while the class initialises, in declaration order. */
  const Registrations: seq<string> := [
    "varchar", "text", "ascii", "double", "float", "inet", "int", "bigint",
    "timestamp", "timeuuid", "uuid", "varint", "blob", "boolean", "counter", "decimal"
  ]

  const PrimitiveNames: set<string> := set n | n in Registrations

  /** The static `mapping` of `PrimitiveType`, from a name to its one instance. */
  class PrimitiveRegistry {
    var mapping: map<string, PrimitiveType>

    /** Every instance is registered under the name it serialises as. */
    predicate Valid()
      reads this
    {
      forall n :: n in mapping ==> mapping[n].columnType == n
    }

    /** `registerPrimitive(type)`: a new instance, stored under its name. */
    method RegisterPrimitive(name: string) returns (p: PrimitiveType)
      requires Valid()
      modifies this
      ensures Valid()
      ensures fresh(p) && p.Serialise() == name
      ensures mapping == old(mapping)[name := p]
      ensures mapping.Keys == old(mapping.Keys) + {name}
    {
      p := new PrimitiveType(name);
      mapping := mapping[name := p];
    }

    /** The static initialiser: registers each of the sixteen primitive types, in declaration order. */
    constructor ()
      ensures Valid()
      ensures mapping.Keys == PrimitiveNames
    {
      mapping := map[];
      new;
      for i := 0 to |Registrations|
        invariant Valid()
        invariant mapping.Keys == set j | 0 <= j < i :: Registrations[j]
      {
        var _ := RegisterPrimitive(Registrations[i]);
      }
    }

    /**
     * `fromName(name)`: the registered instance, which serialises back to `name`, or null
     * for a name that was never registered. Distinct names give distinct instances.
     */
    function FromName(name: string): (p: PrimitiveType?)
      reads this
      requires Valid()
      ensures p == null <==> name !in mapping
      ensures p != null ==> p.Serialise() == name
      ensures p != null ==> forall m :: m in mapping && m != name ==> mapping[m] != p
    {
      if name in mapping then mapping[name] else null
    }
  }

  /** Each primitive column type's CQL name is registered. */
  lemma ColumnTypeNamesRegistered(p: ColumnTypes.Primitive)
    ensures ColumnTypes.WireName(p) in PrimitiveNames
  {
    assert ColumnTypes.WireName(p) in Registrations;
  }

  // ---------------------------------------------------------------- descriptors

  /** A CQL type descriptor. A `SetType` is an object compared by identity, so it carries its instance. */
  datatype CqlType =
    | Primitive(p: PrimitiveType)
    | SetType(elem: CqlRef, instance: object)
    | ListType(elem: CqlRef)
    | MapType(key: CqlRef, value: CqlRef)

  /** A field that holds a descriptor or null (`None`). */
  type CqlRef = Option<CqlType>

  /**
   * `serialise()`: the primitive's name, "set<e>", "list<e>" or "map<k,v>"; `None` is the
   * `NullPointerException` of a null element type.
   */
  function Serialise(t: CqlType): Option<string>
  {
    match t
    case Primitive(p) => Some(p.Serialise())
    case SetType(e, _) => Wrap("set<", SerialiseRef(e), ">")
    case ListType(e) => Wrap("list<", SerialiseRef(e), ">")
    case MapType(k, v) =>
      var ks, vs := SerialiseRef(k), SerialiseRef(v);
      if ks.None? || vs.None? then None else Some("map<" + ks.value + "," + vs.value + ">")
  }

  function SerialiseRef(r: CqlRef): Option<string>
  {
    match r
    case None => None
    case Some(t) => Serialise(t)
  }

  function Wrap(open: string, inner: Option<string>, close: string): Option<string>
  {
    if inner.None? then None else Some(open + inner.value + close)
  }

  /** `equals` as written: identity for `PrimitiveType` and `SetType`, null-safe field-wise for `ListType` and `MapType`. */
  predicate Equals(x: CqlType, y: CqlType)
  {
    match x
    case Primitive(p) => y.Primitive? && y.p == p
    case SetType(_, o) => y.SetType? && y.instance == o
    case ListType(e) => y.ListType? && EqualsRef(e, y.elem)
    case MapType(k, v) => y.MapType? && EqualsRef(k, y.key) && EqualsRef(v, y.value)
  }

  /** `a != null ? a.equals(b) : b == null`. */
  predicate EqualsRef(a: CqlRef, b: CqlRef)
  {
    match a
    case None => b.None?
    case Some(x) => b.Some? && Equals(x, b.value)
  }

  /**
   * `hashCode()`: `PrimitiveType` and `SetType` keep `Object.hashCode`, given here as
   * `identityHash`; `ListType` hashes as its element, `MapType` as `31 * key + value` in `int`.
   */
  function HashCode(t: CqlType, identityHash: object -> int): int
  {
    match t
    case Primitive(p) => identityHash(p)
    case SetType(_, o) => identityHash(o)
    case ListType(e) => HashRef(e, identityHash)
    case MapType(k, v) => JavaText.Wrap32(31 * HashRef(k, identityHash) + HashRef(v, identityHash))
  }

  function HashRef(r: CqlRef, identityHash: object -> int): int
  {
    match r
    case None => 0
    case Some(t) => HashCode(t, identityHash)
  }

  lemma {:induction false} EqualsReflexive(x: CqlType)
    ensures Equals(x, x)
  {
    match x
    case Primitive(_) =>
    case SetType(_, _) =>
    case ListType(e) => EqualsRefReflexive(e);
    case MapType(k, v) => EqualsRefReflexive(k); EqualsRefReflexive(v);
  }

  lemma {:induction false} EqualsRefReflexive(r: CqlRef)
    ensures EqualsRef(r, r)
  {
    if r.Some? {
      EqualsReflexive(r.value);
    }
  }

  lemma {:induction false} EqualsSymmetric(x: CqlType, y: CqlType)
    requires Equals(x, y)
    ensures Equals(y, x)
  {
    match x
    case Primitive(_) =>
    case SetType(_, _) =>
    case ListType(e) => EqualsRefSymmetric(e, y.elem);
    case MapType(k, v) => EqualsRefSymmetric(k, y.key); EqualsRefSymmetric(v, y.value);
  }

  lemma {:induction false} EqualsRefSymmetric(a: CqlRef, b: CqlRef)
    requires EqualsRef(a, b)
    ensures EqualsRef(b, a)
  {
    if a.Some? {
      EqualsSymmetric(a.value, b.value);
    }
  }

  /** `hashCode` agrees with `equals`: equal descriptors hash alike, whatever the identity hashes are. */
  lemma {:induction false} HashConsistent(x: CqlType, y: CqlType, identityHash: object -> int)
    requires Equals(x, y)
    ensures HashCode(x, identityHash) == HashCode(y, identityHash)
  {
    match x
    case Primitive(_) =>
    case SetType(_, _) =>
    case ListType(e) => HashRefConsistent(e, y.elem, identityHash);
    case MapType(k, v) =>
      HashRefConsistent(k, y.key, identityHash);
      HashRefConsistent(v, y.value, identityHash);
  }

  lemma {:induction false} HashRefConsistent(a: CqlRef, b: CqlRef, identityHash: object -> int)
    requires EqualsRef(a, b)
    ensures HashRef(a, identityHash) == HashRef(b, identityHash)
  {
    if a.Some? {
      HashConsistent(a.value, b.value, identityHash);
    }
  }

  /** Nesting composes: a set of lists of int prints as "set<list<int>>". */
  lemma NestedSerialise(intType: PrimitiveType, instance: object)
    requires intType.columnType == "int"
    ensures Serialise(SetType(Some(ListType(Some(Primitive(intType)))), instance)) == Some("set<list<int>>")
    ensures Serialise(MapType(Some(Primitive(intType)), Some(ListType(Some(Primitive(intType)))))) == Some("map<int,list<int>>")
  {
    var list := ListType(Some(Primitive(intType)));
    assert SerialiseRef(Some(Primitive(intType))) == Some("int");
    assert "list<" + "int" + ">" == "list<int>";
    assert Serialise(list) == Some("list<int>");
    assert "set<" + "list<int>" + ">" == "set<list<int>>";
    assert "map<" + "int" + "," + "list<int>" + ">" == "map<int,list<int>>";
  }

  /** A null element type anywhere makes `serialise()` fail. */
  lemma NullElementFails(instance: object)
    ensures Serialise(SetType(None, instance)) == None
    ensures Serialise(ListType(None)) == None
    ensures forall t: CqlType :: Serialise(MapType(None, Some(t))) == None && Serialise(MapType(Some(t), None)) == None
  {
  }

  // ---------------------------------------------------------------- SetType equality

  /**
   * `SetType` declares no `equals`, so two set descriptors with the same element type are
   * unequal unless they are the same object: they print alike, and are equal once compared
   * structurally.
   */
  lemma SetTypeIdentityCounterexample(intType: PrimitiveType, o1: object, o2: object)
    requires intType.columnType == "int" && o1 != o2
    ensures !Equals(SetType(Some(Primitive(intType)), o1), SetType(Some(Primitive(intType)), o2))
    ensures !Equals(ListType(Some(SetType(Some(Primitive(intType)), o1))), ListType(Some(SetType(Some(Primitive(intType)), o2))))
    ensures Serialise(SetType(Some(Primitive(intType)), o1)) == Serialise(SetType(Some(Primitive(intType)), o2)) == Some("set<int>")
    ensures StructEquals(SetType(Some(Primitive(intType)), o1), SetType(Some(Primitive(intType)), o2))
  {
    assert SerialiseRef(Some(Primitive(intType))) == Some("int");
    assert "set<" + "int" + ">" == "set<int>";
  }

  /** `equals` as evidently intended: a `SetType` compares its element type as `ListType` does. */
  predicate StructEquals(x: CqlType, y: CqlType)
  {
    match x
    case Primitive(p) => y.Primitive? && y.p == p
    case SetType(e, _) => y.SetType? && StructEqualsRef(e, y.elem)
    case ListType(e) => y.ListType? && StructEqualsRef(e, y.elem)
    case MapType(k, v) => y.MapType? && StructEqualsRef(k, y.key) && StructEqualsRef(v, y.value)
  }

  predicate StructEqualsRef(a: CqlRef, b: CqlRef)
  {
    match a
    case None => b.None?
    case Some(x) => b.Some? && StructEquals(x, b.value)
  }

  /** The `hashCode` that goes with `StructEquals`: a `SetType` hashes as its element, like `ListType`. */
  function StructHash(t: CqlType, identityHash: object -> int): int
  {
    match t
    case Primitive(p) => identityHash(p)
    case SetType(e, _) => StructHashRef(e, identityHash)
    case ListType(e) => StructHashRef(e, identityHash)
    case MapType(k, v) => JavaText.Wrap32(31 * StructHashRef(k, identityHash) + StructHashRef(v, identityHash))
  }

  function StructHashRef(r: CqlRef, identityHash: object -> int): int
  {
    match r
    case None => 0
    case Some(t) => StructHash(t, identityHash)
  }

  lemma {:induction false} StructHashConsistent(x: CqlType, y: CqlType, identityHash: object -> int)
    requires StructEquals(x, y)
    ensures StructHash(x, identityHash) == StructHash(y, identityHash)
  {
    match x
    case Primitive(_) =>
    case SetType(e, _) => StructHashRefConsistent(e, y.elem, identityHash);
    case ListType(e) => StructHashRefConsistent(e, y.elem, identityHash);
    case MapType(k, v) =>
      StructHashRefConsistent(k, y.key, identityHash);
      StructHashRefConsistent(v, y.value, identityHash);
  }

  lemma {:induction false} StructHashRefConsistent(a: CqlRef, b: CqlRef, identityHash: object -> int)
    requires StructEqualsRef(a, b)
    ensures StructHashRef(a, identityHash) == StructHashRef(b, identityHash)
  {
    if a.Some? {
      StructHashConsistent(a.value, b.value, identityHash);
    }
  }

  // ---------------------------------------------------------------- structural equality is equal text

  /** A descriptor built from registered primitives with no null element type anywhere. */
  predicate WellFormed(t: CqlType, registry: map<string, PrimitiveType>)
  {
    match t
    case Primitive(p) => p.columnType in PrimitiveNames && p.columnType in registry && registry[p.columnType] == p
    case SetType(e, _) => e.Some? && WellFormed(e.value, registry)
    case ListType(e) => e.Some? && WellFormed(e.value, registry)
    case MapType(k, v) => k.Some? && v.Some? && WellFormed(k.value, registry) && WellFormed(v.value, registry)
  }

  lemma {:induction false} WellFormedSerialises(t: CqlType, registry: map<string, PrimitiveType>)
    requires WellFormed(t, registry)
    ensures Serialise(t).Some? && |Serialise(t).value| > 0
    ensures Serialise(t).value[0] == KindLetter(t)
  {
    match t
    case Primitive(p) => PrimitiveNameShape(p.columnType);
    case SetType(e, _) => WellFormedSerialises(e.value, registry);
    case ListType(e) => WellFormedSerialises(e.value, registry);
    case MapType(k, v) => WellFormedSerialises(k.value, registry); WellFormedSerialises(v.value, registry);
  }

  /** The first letter of a descriptor's text: 's', 'l' or 'm' for a collection, never one of those for a primitive. */
  function KindLetter(t: CqlType): char
  {
    match t
    case Primitive(p) => if |p.columnType| > 0 then p.columnType[0] else ' '
    case SetType(_, _) => 's'
    case ListType(_) => 'l'
    case MapType(_, _) => 'm'
  }

  predicate Lowercase(s: string)
  {
    forall i :: 0 <= i < |s| ==> 'a' <= s[i] <= 'z'
  }

  /** What ends a descriptor's text inside a longer one: nothing, a ',' or a '>'. */
  predicate Terminated(u: string)
  {
    u == [] || u[0] == ',' || u[0] == '>'
  }

  /** Every registered name is lower-case letters and starts with none of the collection letters. */
  lemma PrimitiveNameShape(n: string)
    requires n in PrimitiveNames
    ensures |n| > 0 && Lowercase(n) && n[0] != 's' && n[0] != 'l' && n[0] != 'm'
  {
    assert n in Registrations;
  }

  /** The number of lower-case letters a text starts with. */
  function LeadingLetters(s: string): nat
  {
    if s != [] && 'a' <= s[0] <= 'z' then 1 + LeadingLetters(s[1..]) else 0
  }

  /** A name followed by a terminator is exactly the text's run of leading letters. */
  lemma {:induction false} NameLength(a: string, u: string)
    requires Lowercase(a) && Terminated(u)
    ensures LeadingLetters(a + u) == |a|
  {
    if a != [] {
      assert (a + u)[1..] == a[1..] + u;
      NameLength(a[1..], u);
    }
  }

  /** Two names followed by terminators spell the same text only if the names are equal. */
  lemma NamePrefix(a: string, b: string, u: string, v: string)
    requires Lowercase(a) && Lowercase(b) && Terminated(u) && Terminated(v)
    requires a + u == b + v
    ensures a == b && u == v
  {
    NameLength(a, u);
    NameLength(b, v);
    assert a == (a + u)[..|a|];
    assert b == (b + v)[..|b|];
    assert u == (a + u)[|a|..];
    assert v == (b + v)[|b|..];
  }

  /** Texts that agree up to terminators begin with the same letter, so they are of the same kind. */
  lemma SameKind(x: CqlType, y: CqlType, registry: map<string, PrimitiveType>, u: string, v: string)
    requires WellFormed(x, registry) && WellFormed(y, registry)
    requires Serialise(x).Some? && Serialise(y).Some?
    requires Serialise(x).value + u == Serialise(y).value + v
    ensures x.Primitive? == y.Primitive? && x.SetType? == y.SetType?
    ensures x.ListType? == y.ListType? && x.MapType? == y.MapType?
  {
    WellFormedSerialises(x, registry);
    WellFormedSerialises(y, registry);
    var sx, sy := Serialise(x).value, Serialise(y).value;
    assert (sx + u)[0] == sx[0] && (sy + v)[0] == sy[0];
    if x.Primitive? {
      PrimitiveNameShape(x.p.columnType);
    }
    if y.Primitive? {
      PrimitiveNameShape(y.p.columnType);
    }
  }

  /**
   * The text of a well-formed descriptor, followed by a terminator, determines the descriptor up
   * to `StructEquals` and where its text ends.
   */
  lemma {:induction false} PrefixUnique(x: CqlType, y: CqlType, registry: map<string, PrimitiveType>, u: string, v: string)
    requires WellFormed(x, registry) && WellFormed(y, registry)
    requires Terminated(u) && Terminated(v)
    requires Serialise(x).Some? && Serialise(y).Some?
    requires Serialise(x).value + u == Serialise(y).value + v
    ensures StructEquals(x, y) && u == v
    decreases x, 1
  {
    SameKind(x, y, registry, u, v);
    match x
    case Primitive(p) =>
      PrimitiveNameShape(p.columnType);
      PrimitiveNameShape(y.p.columnType);
      NamePrefix(p.columnType, y.p.columnType, u, v);
    case SetType(e, _) =>
      WrappedUnique(e.value, y.elem.value, registry, "set<", u, v);
    case ListType(e) =>
      WrappedUnique(e.value, y.elem.value, registry, "list<", u, v);
    case MapType(k, w) =>
      PairUnique(k.value, w.value, y.key.value, y.value.value, registry, u, v);
  }

  /** The step for `set<e>` and `list<e>`: the element texts agree up to the closing '>'. */
  lemma {:induction false} WrappedUnique(e: CqlType, e': CqlType, registry: map<string, PrimitiveType>, open: string, u: string, v: string)
    requires WellFormed(e, registry) && WellFormed(e', registry)
    requires Terminated(u) && Terminated(v)
    requires Serialise(e).Some? && Serialise(e').Some?
    requires open + Serialise(e).value + ">" + u == open + Serialise(e').value + ">" + v
    ensures StructEquals(e, e') && u == v
    decreases e, 2
  {
    var se, se' := Serialise(e).value, Serialise(e').value;
    Regroup(open, se, ">", u);
    Regroup(open, se', ">", v);
    TailAfter(open, se + (">" + u), se' + (">" + v));
    PrefixUnique(e, e', registry, ">" + u, ">" + v);
    assert u == (">" + u)[1..] && v == (">" + v)[1..];
  }

  /** The step for `map<k,w>`: the key texts agree up to the ',', then the value texts up to the '>'. */
  lemma {:induction false} PairUnique(k: CqlType, w: CqlType, k': CqlType, w': CqlType, registry: map<string, PrimitiveType>, u: string, v: string)
    requires WellFormed(k, registry) && WellFormed(w, registry) && WellFormed(k', registry) && WellFormed(w', registry)
    requires Terminated(u) && Terminated(v)
    requires Serialise(k).Some? && Serialise(w).Some? && Serialise(k').Some? && Serialise(w').Some?
    requires "map<" + Serialise(k).value + "," + Serialise(w).value + ">" + u
          == "map<" + Serialise(k').value + "," + Serialise(w').value + ">" + v
    ensures StructEquals(k, k') && StructEquals(w, w') && u == v
    decreases MapType(Some(k), Some(w)), 0
  {
    var sk, sk' := Serialise(k).value, Serialise(k').value;
    var sw, sw' := Serialise(w).value, Serialise(w').value;
    var tail, tail' := sw + (">" + u), sw' + (">" + v);
    RegroupPair("map<", sk, ",", sw, ">", u);
    RegroupPair("map<", sk', ",", sw', ">", v);
    TailAfter("map<", sk + ("," + tail), sk' + ("," + tail'));
    PrefixUnique(k, k', registry, "," + tail, "," + tail');
    assert tail == ("," + tail)[1..] && tail' == ("," + tail')[1..];
    PrefixUnique(w, w', registry, ">" + u, ">" + v);
    assert u == (">" + u)[1..] && v == (">" + v)[1..];
  }

  lemma Regroup(a: string, b: string, c: string, d: string)
    ensures a + b + c + d == a + (b + (c + d))
  {
  }

  lemma RegroupPair(a: string, b: string, c: string, d: string, e: string, f: string)
    ensures a + b + c + d + e + f == a + (b + (c + (d + (e + f))))
  {
  }

  lemma TailAfter(prefix: string, a: string, b: string)
    requires prefix + a == prefix + b
    ensures a == b
  {
    assert a == (prefix + a)[|prefix|..];
    assert b == (prefix + b)[|prefix|..];
  }

  /** Structurally equal descriptors print alike. */
  lemma {:induction false} StructEqualsSameText(x: CqlType, y: CqlType)
    requires StructEquals(x, y)
    ensures Serialise(x) == Serialise(y)
  {
    match x
    case Primitive(_) =>
    case SetType(e, _) => StructEqualsRefSameText(e, y.elem);
    case ListType(e) => StructEqualsRefSameText(e, y.elem);
    case MapType(k, v) => StructEqualsRefSameText(k, y.key); StructEqualsRefSameText(v, y.value);
  }

  lemma {:induction false} StructEqualsRefSameText(a: CqlRef, b: CqlRef)
    requires StructEqualsRef(a, b)
    ensures SerialiseRef(a) == SerialiseRef(b)
  {
    if a.Some? {
      StructEqualsSameText(a.value, b.value);
    }
  }

  /**
   * For descriptors built from registered primitives without null element types, the
   * structural equality is exactly equality of the CQL text `serialise()` produces.
   */
  lemma StructEqualsIffSameText(x: CqlType, y: CqlType, registry: map<string, PrimitiveType>)
    requires WellFormed(x, registry) && WellFormed(y, registry)
    ensures StructEquals(x, y) <==> Serialise(x) == Serialise(y)
  {
    if Serialise(x) == Serialise(y) {
      WellFormedSerialises(x, registry);
      WellFormedSerialises(y, registry);
      assert Serialise(x).value + [] == Serialise(y).value + [];
      PrefixUnique(x, y, registry, [], []);
    } else if StructEquals(x, y) {
      StructEqualsSameText(x, y);
    }
  }
}
