/** The entities the schema refers to but does not build or validate, and
    the two registries that hold them. The registries stand for the caller's
    `java.util.Map` objects: the schema keeps a reference to each, so they
    are classes, and whatever the caller later does to them is what the
    schema's queries see. */
module SchemaEntities {
  import opened JavaLong

  /** Which subclass of `Type` an entry is. */
  datatype TypeKind = EncodedDataType | CompositeType | EnumType | SetType

  /** A type definition; only its kind matters here, and its name is its
      key in the registry. */
  datatype Type = Type(kind: TypeKind)

  /** A message definition; its fields are validated elsewhere. */
  datatype Message = Message(id: Int64, name: string)

  /** A `Map<String, Type>` owned by the caller. */
  class TypeMap {
    var entries: map<string, Type>

    constructor (entries: map<string, Type>)
      ensures this.entries == entries
    {
      this.entries := entries;
    }
  }

  /** A `Map<Long, Message>` owned by the caller. */
  class MessageMap {
    var entries: map<Int64, Message>

    constructor (entries: map<Int64, Message>)
      ensures this.entries == entries
    {
      this.entries := entries;
    }
  }

  /** The values of a map, one occurrence per key, in no order: what
      `Map.values()` holds. */
  ghost function ValuesOf(m: map<Int64, Message>): (r: multiset<Message>)
    ensures |r| == |m|
    decreases |m|
  {
    if |m| == 0 then multiset{}
    else
      var k :| k in m;
      assert (m - {k}).Keys == m.Keys - {k};
      multiset{m[k]} + ValuesOf(m - {k})
  }

  /** The keys under which `v` is stored. */
  ghost function KeysOf(m: map<Int64, Message>, v: Message): set<Int64> {
    set k | k in m && m[k] == v
  }

  /** Each value occurs in `ValuesOf(m)` as often as there are keys that map to it. */
  lemma {:induction false} ValuesOfCount(m: map<Int64, Message>, v: Message)
    ensures ValuesOf(m)[v] == |KeysOf(m, v)|
    decreases |m|
  {
    if |m| == 0 {
      assert KeysOf(m, v) == {};
    } else {
      var k :| k in m && ValuesOf(m) == multiset{m[k]} + ValuesOf(m - {k});
      assert (m - {k}).Keys == m.Keys - {k};
      ValuesOfCount(m - {k}, v);
      if m[k] == v {
        assert KeysOf(m, v) == KeysOf(m - {k}, v) + {k};
      } else {
        assert KeysOf(m, v) == KeysOf(m - {k}, v);
      }
    }
  }

  /** A value is among `ValuesOf(m)` exactly when some key maps to it. */
  lemma ValuesOfMembership(m: map<Int64, Message>, v: Message)
    ensures v in ValuesOf(m) <==> v in m.Values
  {
    ValuesOfCount(m, v);
    if v in m.Values {
      var k :| k in m && m[k] == v;
      assert k in KeysOf(m, v);
    }
  }
}
