/** The attribute lookups of the schema parser, as far as the schema model
    observes them. An XML element is reduced to its attributes: a map from
    attribute name to the attribute's text. An absent key is a missing
    attribute; Java's `null` is `None`. */
module XmlAttributes {
  import opened Wrappers

  type Element = map<string, string>

  /** `getAttributeValueOrNull(element, name)`. */
  function AttributeValueOrNull(element: Element, name: string): (r: Option<string>)
    ensures r.Some? <==> name in element
    ensures r.Some? ==> r.value == element[name]
  {
    if name in element then Some(element[name]) else None
  }

  /** `getAttributeValue(element, name, defaultValue)`: the attribute's text,
      or the default when the attribute is missing. */
  function AttributeValueOrDefault(element: Element, name: string, defaultValue: string): (r: string)
    ensures name in element ==> r == element[name]
    ensures name !in element ==> r == defaultValue
  {
    if name in element then element[name] else defaultValue
  }

  /** `getMultiNamedAttributeValueOrNull(element, names)`: the text of the
      first name in `names` that the element carries, or null. */
  function MultiNamedAttributeValueOrNull(element: Element, names: seq<string>): (r: Option<string>)
    ensures r.None? <==> forall i :: 0 <= i < |names| ==> names[i] !in element
    ensures r.Some? ==> exists i :: 0 <= i < |names| && names[i] in element && r.value == element[names[i]]
    decreases |names|
  {
    if names == [] then None
    else if names[0] in element then Some(element[names[0]])
    else MultiNamedAttributeValueOrNull(element, names[1..])
  }

  /** Priority: a present name wins over every name listed after it. */
  lemma {:induction false} FirstPresentNameWins(element: Element, names: seq<string>, i: nat)
    requires i < |names| && names[i] in element
    requires forall j :: 0 <= j < i ==> names[j] !in element
    ensures MultiNamedAttributeValueOrNull(element, names) == Some(element[names[i]])
  {
    if i > 0 {
      FirstPresentNameWins(element, names[1..], i - 1);
    }
  }

  /** Appending further alias names never changes the result when one of the
      earlier names is present, and otherwise defers to the new names. */
  lemma {:induction false} AppendAliases(element: Element, names: seq<string>, more: seq<string>)
    ensures MultiNamedAttributeValueOrNull(element, names + more) ==
      match MultiNamedAttributeValueOrNull(element, names)
      case Some(v) => Some(v)
      case None => MultiNamedAttributeValueOrNull(element, more)
    decreases |names|
  {
    if names == [] {
      assert names + more == more;
    } else {
      assert (names + more)[0] == names[0];
      assert (names + more)[1..] == names[1..] + more;
      AppendAliases(element, names[1..], more);
    }
  }

  /** `java.nio.ByteOrder`. */
  datatype ByteOrder = LittleEndian | BigEndian

  /** What `lookupByteOrder` does with a name other than the two spellings:
      its code is not part of this model, so both choices are kept open. */
  datatype OtherByteOrderRule = OtherNameRejected | OtherNameIsLittleEndian

  /** The `lookupByteOrder` exception, naming the rejected text. */
  datatype UnknownByteOrder = UnknownByteOrder(name: string)

  /** `lookupByteOrder(name)`: the exact, case-sensitive spellings
      "littleEndian" and "bigEndian", and any other name under `rule`. */
  function LookupByteOrder(name: string, rule: OtherByteOrderRule): (r: Result<ByteOrder, UnknownByteOrder>)
    ensures r == Success(BigEndian) <==> name == "bigEndian"
    ensures r == Success(LittleEndian) <==> name == "littleEndian" || (name != "bigEndian" && rule == OtherNameIsLittleEndian)
    ensures r.Failure? <==> name != "littleEndian" && name != "bigEndian" && rule == OtherNameRejected
    ensures r.Failure? ==> r.error == UnknownByteOrder(name)
  {
    if name == "littleEndian" then Success(LittleEndian)
    else if name == "bigEndian" then Success(BigEndian)
    else
      match rule
      case OtherNameRejected => Failure(UnknownByteOrder(name))
      case OtherNameIsLittleEndian => Success(LittleEndian)
  }

  /** The schema spelling of a byte order; `LookupByteOrder` inverts it under
      either rule. */
  function ByteOrderName(order: ByteOrder): (name: string)
    ensures forall rule :: LookupByteOrder(name, rule) == Success(order)
  {
    match order
    case LittleEndian => "littleEndian"
    case BigEndian => "bigEndian"
  }
}
