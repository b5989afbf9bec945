/** The validated top-level message schema: the schema element's
    attributes resolved once into typed values, plus references to the
    caller's type and message registries. Construction either completes
    with every attribute resolved or throws; afterwards every query is a
    read of a constant field or a lookup in a registry. */
module Schema {
  import opened Wrappers
  import opened JavaLong
  import opened XmlAttributes
  import opened SchemaEntities

  const MessageHeaderKey: string := "messageHeader"

  /** The names under which the semantic version may appear, newest first;
      `fixVersion` is the legacy alias. */
  const SemanticVersionNames: seq<string> := ["semanticVersion", "fixVersion"]

  /** What `getAttributeValue(element, "package")`, which has no default,
      does when the attribute is missing: that helper is not part of this
      model, so both choices are kept open. */
  datatype AbsentPackageRule = AbsentPackageIsNull | AbsentPackageRejected

  /** The behaviours of the parser's helpers that the schema's own code leaves open. */
  datatype HelperRules = HelperRules(absentPackage: AbsentPackageRule, otherByteOrder: OtherByteOrderRule)

  /** The exceptions that abort construction, in the order they are raised. */
  datatype SchemaError =
    | MissingMessageHeader
    | MissingPackage
    | MalformedVersion(parseError: NumberFormatError)
    | UnsupportedByteOrder(lookupError: UnknownByteOrder)

  /** The five attribute-derived final fields. */
  datatype SchemaFields = SchemaFields(
    pkg: Option<string>,
    description: Option<string>,
    version: Int64,
    semanticVersion: Option<string>,
    byteOrder: ByteOrder)

  /** The `package` field. */
  function ResolvePackage(element: Element, rule: AbsentPackageRule): (r: Result<Option<string>, SchemaError>)
    ensures "package" in element ==> r == Success(Some(element["package"]))
    ensures "package" !in element && rule == AbsentPackageIsNull ==> r == Success(None)
    ensures "package" !in element && rule == AbsentPackageRejected ==> r == Failure(MissingPackage)
  {
    if "package" in element then Success(Some(element["package"]))
    else
      match rule
      case AbsentPackageIsNull => Success(None)
      case AbsentPackageRejected => Failure(MissingPackage)
  }

  /** The `version` field: `Long.parseLong` of the attribute, or of "0". */
  function ResolveVersion(element: Element): (r: Result<Int64, SchemaError>)
    ensures "version" !in element ==> r == Success(0)
    ensures "version" in element ==>
      match ParseLong(element["version"])
      case Success(v) => r == Success(v)
      case Failure(e) => r == Failure(MalformedVersion(e))
  {
    match ParseLong(AttributeValueOrDefault(element, "version", "0"))
    case Success(v) => Success(v)
    case Failure(e) => Failure(MalformedVersion(e))
  }

  /** The `semanticVersion` field. */
  function ResolveSemanticVersion(element: Element): (r: Option<string>)
    ensures "semanticVersion" in element ==> r == Some(element["semanticVersion"])
    ensures "semanticVersion" !in element && "fixVersion" in element ==> r == Some(element["fixVersion"])
    ensures "semanticVersion" !in element && "fixVersion" !in element ==> r == None
  {
    MultiNamedAttributeValueOrNull(element, SemanticVersionNames)
  }

  /** The `byteOrder` field: `lookupByteOrder` of the attribute, or of "littleEndian". */
  function ResolveByteOrder(element: Element, rule: OtherByteOrderRule): (r: Result<ByteOrder, SchemaError>)
    ensures "byteOrder" !in element ==> r == Success(LittleEndian)
    ensures "byteOrder" in element && element["byteOrder"] == "bigEndian" ==> r == Success(BigEndian)
    ensures "byteOrder" in element && element["byteOrder"] == "littleEndian" ==> r == Success(LittleEndian)
    ensures "byteOrder" in element && element["byteOrder"] != "bigEndian" && element["byteOrder"] != "littleEndian" ==>
      r == match rule
           case OtherNameRejected => Failure(UnsupportedByteOrder(UnknownByteOrder(element["byteOrder"])))
           case OtherNameIsLittleEndian => Success(LittleEndian)
  {
    match LookupByteOrder(AttributeValueOrDefault(element, "byteOrder", "littleEndian"), rule)
    case Success(order) => Success(order)
    case Failure(e) => Failure(UnsupportedByteOrder(e))
  }

  /** The attribute part of the constructor, fields in source order, so the
      first failing field decides the exception. */
  function ResolveAttributes(element: Element, rules: HelperRules): (r: Result<SchemaFields, SchemaError>)
    ensures r.Success? <==>
      ResolvePackage(element, rules.absentPackage).Success? &&
      ResolveVersion(element).Success? &&
      ResolveByteOrder(element, rules.otherByteOrder).Success?
    ensures r.Success? ==> r.value == SchemaFields(
      ResolvePackage(element, rules.absentPackage).value,
      AttributeValueOrNull(element, "description"),
      ResolveVersion(element).value,
      ResolveSemanticVersion(element),
      ResolveByteOrder(element, rules.otherByteOrder).value)
  {
    var pkg :- ResolvePackage(element, rules.absentPackage);
    var description := AttributeValueOrNull(element, "description");
    var version :- ResolveVersion(element);
    var semanticVersion := ResolveSemanticVersion(element);
    var byteOrder :- ResolveByteOrder(element, rules.otherByteOrder);
    Success(SchemaFields(pkg, description, version, semanticVersion, byteOrder))
  }

  /** The whole constructor: the header check comes first, then the attributes. */
  function Construct(element: Element, typeByName: map<string, Type>, rules: HelperRules): (r: Result<SchemaFields, SchemaError>)
    ensures r == Failure(MissingMessageHeader) <==> MessageHeaderKey !in typeByName
    ensures MessageHeaderKey in typeByName ==> r == ResolveAttributes(element, rules)
  {
    if MessageHeaderKey !in typeByName then Failure(MissingMessageHeader)
    else ResolveAttributes(element, rules)
  }

  /** Which exception construction throws when several checks fail: the
      header, then the package, then the version, then the byte order. */
  lemma ConstructErrorOrder(element: Element, typeByName: map<string, Type>, rules: HelperRules)
    ensures Construct(element, typeByName, rules).Failure? ==>
      Construct(element, typeByName, rules).error ==
        if MessageHeaderKey !in typeByName then MissingMessageHeader
        else if ResolvePackage(element, rules.absentPackage).Failure? then MissingPackage
        else if ResolveVersion(element).Failure? then ResolveVersion(element).error
        else ResolveByteOrder(element, rules.otherByteOrder).error
  {
  }

  /** A header is all construction asks of the type registry: with one, the
      outcome depends on the element and the rules alone. */
  lemma ConstructIgnoresOtherTypes(element: Element, t1: map<string, Type>, t2: map<string, Type>, rules: HelperRules)
    requires MessageHeaderKey in t1 && MessageHeaderKey in t2
    ensures Construct(element, t1, rules) == Construct(element, t2, rules)
  {
  }

  /** Worked cases of the version rule: a plain number, a negative number
      (accepted), and text that is not a number. */
  lemma VersionExamples()
    ensures ResolveVersion(map["version" := "7"]) == Success(7)
    ensures ResolveVersion(map["version" := "-1"]) == Success(-1)
    ensures ResolveVersion(map["version" := "abc"]) == Failure(MalformedVersion(NumberFormatError("abc")))
  {
  }

  /** Worked case of the alias rule: with both names present the current one wins. */
  lemma SemanticVersionExample()
    ensures ResolveSemanticVersion(map["semanticVersion" := "1.2", "fixVersion" := "5.0SP2"]) == Some("1.2")
    ensures ResolveSemanticVersion(map["fixVersion" := "5.0SP2"]) == Some("5.0SP2")
  {
  }

  /** The exception `getMessageHeader`'s cast throws. */
  datatype ClassCastError = ClassCastError(kind: TypeKind)

  /** A constructed schema. The five resolved attributes are constants; the
      registries are the caller's objects, read but never written. */
  class MessageSchema {
    const pkg: Option<string>
    const description: Option<string>
    const version: Int64
    const semanticVersion: Option<string>
    const byteOrder: ByteOrder
    const typeByNameMap: TypeMap
    const messageByIdMap: MessageMap

    /** The schema element and helper behaviours the fields were resolved from. */
    ghost const schemaNode: Element
    ghost const rules: HelperRules

    ghost predicate Valid() {
      ResolveAttributes(schemaNode, rules) == Success(SchemaFields(pkg, description, version, semanticVersion, byteOrder))
    }

    /** The constructor when it completes normally: its requires is exactly
        the condition under which the source's constructor does not throw
        (`TryCreate` covers the other case). */
    constructor (schemaNode: Element, typeByNameMap: TypeMap, messageByIdMap: MessageMap, rules: HelperRules)
      requires Construct(schemaNode, typeByNameMap.entries, rules).Success?
      ensures Valid() && this.schemaNode == schemaNode && this.rules == rules
      ensures this.typeByNameMap == typeByNameMap && this.messageByIdMap == messageByIdMap
    {
      var fields := Construct(schemaNode, typeByNameMap.entries, rules).value;
      pkg := fields.pkg;
      description := fields.description;
      version := fields.version;
      semanticVersion := fields.semanticVersion;
      byteOrder := fields.byteOrder;
      this.typeByNameMap := typeByNameMap;
      this.messageByIdMap := messageByIdMap;
      this.schemaNode := schemaNode;
      this.rules := rules;
    }

    /** `new MessageSchema(schemaNode, typeByNameMap, messageByIdMap)`:
        either the exception the source throws, or a new schema that shares
        (does not copy) both registries and leaves them as they were. */
    static method TryCreate(schemaNode: Element, typeByNameMap: TypeMap, messageByIdMap: MessageMap, rules: HelperRules)
      returns (r: Result<MessageSchema, SchemaError>)
      ensures r.Failure? <==> Construct(schemaNode, typeByNameMap.entries, rules).Failure?
      ensures r.Failure? ==> r.error == Construct(schemaNode, typeByNameMap.entries, rules).error
      ensures r.Success? ==>
        && fresh(r.value) && r.value.Valid()
        && r.value.schemaNode == schemaNode && r.value.rules == rules
        && r.value.typeByNameMap == typeByNameMap && r.value.messageByIdMap == messageByIdMap
        && r.value.GetMessageHeader() != Success(None)
      ensures unchanged(typeByNameMap, messageByIdMap)
    {
      match Construct(schemaNode, typeByNameMap.entries, rules)
      case Failure(e) =>
        r := Failure(e);
      case Success(_) =>
        var schema := new MessageSchema(schemaNode, typeByNameMap, messageByIdMap, rules);
        r := Success(schema);
    }

    /** `getMessageHeader()`: the entry under "messageHeader" when it is a
        composite, null when the registry no longer has one, and the cast's
        exception for any other kind of type. */
    function GetMessageHeader(): (r: Result<Option<Type>, ClassCastError>)
      reads typeByNameMap
      ensures r == Success(None) <==> MessageHeaderKey !in typeByNameMap.entries
      ensures r.Success? && r.value.Some? ==>
        MessageHeaderKey in typeByNameMap.entries && r.value.value == typeByNameMap.entries[MessageHeaderKey] && r.value.value.kind == CompositeType
      ensures r.Failure? <==> MessageHeaderKey in typeByNameMap.entries && typeByNameMap.entries[MessageHeaderKey].kind != CompositeType
    {
      if MessageHeaderKey !in typeByNameMap.entries then Success(None)
      else
        var t := typeByNameMap.entries[MessageHeaderKey];
        if t.kind == CompositeType then Success(Some(t)) else Failure(ClassCastError(t.kind))
    }

    /** `getPackage()`. */
    function GetPackage(): (r: Option<string>)
      requires Valid()
      ensures "package" in schemaNode ==> r == Some(schemaNode["package"])
      ensures "package" !in schemaNode ==> r == None && rules.absentPackage == AbsentPackageIsNull
    {
      pkg
    }

    /** `getDescription()`. */
    function GetDescription(): (r: Option<string>)
      requires Valid()
      ensures r.Some? <==> "description" in schemaNode
      ensures r.Some? ==> r.value == schemaNode["description"]
    {
      description
    }

    /** `getVersion()`. */
    function GetVersion(): (r: Int64)
      requires Valid()
      ensures "version" !in schemaNode ==> r == 0
      ensures "version" in schemaNode ==> ParseLong(schemaNode["version"]) == Success(r)
    {
      version
    }

    /** `getSemanticVersion()`. */
    function GetSemanticVersion(): (r: Option<string>)
      requires Valid()
      ensures "semanticVersion" in schemaNode ==> r == Some(schemaNode["semanticVersion"])
      ensures "semanticVersion" !in schemaNode && "fixVersion" in schemaNode ==> r == Some(schemaNode["fixVersion"])
      ensures "semanticVersion" !in schemaNode && "fixVersion" !in schemaNode ==> r == None
    {
      semanticVersion
    }

    /** `getByteOrder()`. */
    function GetByteOrder(): (r: ByteOrder)
      requires Valid()
      ensures "byteOrder" !in schemaNode ==> r == LittleEndian
      ensures "byteOrder" in schemaNode ==> LookupByteOrder(schemaNode["byteOrder"], rules.otherByteOrder) == Success(r)
    {
      byteOrder
    }

    /** `getMessage(schemaId)`: the registered message, or null. */
    function GetMessage(schemaId: Int64): (r: Option<Message>)
      reads messageByIdMap
      ensures r.None? <==> schemaId !in messageByIdMap.entries
      ensures r.Some? ==> r.value == messageByIdMap.entries[schemaId] && r.value in messageByIdMap.entries.Values
    {
      if schemaId in messageByIdMap.entries then Some(messageByIdMap.entries[schemaId]) else None
    }

    /** `getMessages()`: every registered message, once per id, in no order. */
    ghost function GetMessages(): (r: multiset<Message>)
      reads messageByIdMap
      ensures |r| == |messageByIdMap.entries|
      ensures forall m :: r[m] == |KeysOf(messageByIdMap.entries, m)|
    {
      forall m ensures ValuesOf(messageByIdMap.entries)[m] == |KeysOf(messageByIdMap.entries, m)| {
        ValuesOfCount(messageByIdMap.entries, m);
      }
      ValuesOf(messageByIdMap.entries)
    }
  }

  /** `getMessages()` and `getMessage(id)` agree: a message is in the
      collection exactly when some id looks it up. */
  lemma MessagesAreLookups(s: MessageSchema, m: Message)
    ensures m in s.GetMessages() <==> exists id: Int64 :: s.GetMessage(id) == Some(m)
  {
    ValuesOfMembership(s.messageByIdMap.entries, m);
    if m in s.messageByIdMap.entries.Values {
      var id :| id in s.messageByIdMap.entries && s.messageByIdMap.entries[id] == m;
      assert s.GetMessage(id) == Some(m);
    }
  }

  /** Queries have no hidden state: while the two registries are unchanged,
      asking again gives the same answers. */
  twostate lemma QueriesRepeat(s: MessageSchema, id: Int64)
    requires unchanged(s.typeByNameMap, s.messageByIdMap)
    ensures s.GetMessageHeader() == old(s.GetMessageHeader())
    ensures s.GetMessage(id) == old(s.GetMessage(id))
    ensures s.GetMessages() == old(s.GetMessages())
  {
  }

  /** Worked case of the message queries over the ids {1, 2, 5}. */
  lemma MessagesExample(s: MessageSchema, a: Message, b: Message, c: Message)
    requires s.messageByIdMap.entries == map[1 := a, 2 := b, 5 := c]
    ensures s.GetMessage(2) == Some(b) && s.GetMessage(3) == None
    ensures |s.GetMessages()| == 3
    ensures a in s.GetMessages() && b in s.GetMessages() && c in s.GetMessages()
  {
  }
}
