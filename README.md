# MessageSchema — a Dafny model of the SBE schema object

This project models `MessageSchema`, the validated top-level schema object of
the Simple Binary Encoding (SBE) toolchain. A schema is built once from three
things: the `<messageSchema>` XML element, the registry of types by name and
the registry of messages by id. Building it does four things:

- it checks that the type registry has a `"messageHeader"` entry;
- it resolves the schema-wide attributes (`package`, `description`,
  `version`, `semanticVersion` with its legacy alias `fixVersion`,
  `byteOrder`) from their raw text, each with its own rule;
- it keeps references to both registries without copying them;
- it throws if any of these steps fails, and produces no object then.

After construction every query reads a final field or looks up a registry.

Files and modules:

- `wrappers.dfy` (`Wrappers`): `Option` (Java's nullable reference) and
  `Result` (a value or the exception raised).
- `java_long.dfy` (`JavaLong`): the `long` range, and `Long.parseLong` in
  radix 10 as `ParseLong`. Its inverse `Long.toString` is `FormatLong`. The
  round trip between them is proved for every `long`.
- `xml_attributes.dfy` (`XmlAttributes`): the attribute lookups of the schema
  parser, with an element reduced to a `map<string, string>` of attributes.
  Also `ByteOrder` and `lookupByteOrder`.
- `schema_entities.dfy` (`SchemaEntities`): `Type`, which is opaque apart
  from its kind, and `Message`. The two registries are the classes `TypeMap`
  and `MessageMap`. They stand for the caller's mutable `java.util.Map`
  objects, which the schema shares. `ValuesOf` is the multiset of a map's
  values.
- `schema.dfy` (`Schema`): the resolution rules as pure functions, the whole
  constructor as `Construct`, and the class `MessageSchema`. Its `const`
  fields are the Java `final` fields. The ghost constants `schemaNode` and
  `rules` record what the fields were resolved from, so each getter states
  its value in terms of the element's attributes.

The parser helpers `getAttributeValue`, `getAttributeValueOrNull`,
`getMultiNamedAttributeValueOrNull` and `lookupByteOrder` are not part of
this model. Only their observable lookups are modelled. Two behaviours of
theirs are not fixed by `MessageSchema.java`, so they are parameters
(`Schema.HelperRules`) and every result holds under either choice:

- what `getAttributeValue(node, "package")`, the variant without a default,
  does when `package` is missing: it gives null or it throws (`AbsentPackageRule`);
- what `lookupByteOrder` does with a name other than `littleEndian` and
  `bigEndian`: it throws or it gives little-endian (`OtherByteOrderRule`).

Behaviour of the code that a reader might not expect:

- `version` is whatever `Long.parseLong` accepts, negative values included.
- Construction checks only that a `"messageHeader"` key is present. Its kind
  does not matter there. A non-composite header shows up only when
  `GetMessageHeader`'s cast fails.
- Whether a missing `package` or an unknown byte-order name is an error
  depends on the parser helpers, so both are `HelperRules` (see above).
- The exceptions come in source order: header, then package, then version,
  then byte order (`Schema.ConstructErrorOrder`).

## Model

| member | source | states |
|---|---|---|
| `JavaLong.ParseLong` | main/java/uk/co/real_logic/sbe/xml/MessageSchema.java:51 | Accepted text is an optional sign followed only by digits. A negative result needs a leading '-'. Every failure is a NumberFormatError naming the input. |
| `JavaLong.FormatLong` | main/java/uk/co/real_logic/sbe/xml/MessageSchema.java:51 | The reference inverse of ParseLong (`Long.toString`) used for the round trip: decimal text with '-' exactly for negative values, digits only for the others, and no leading zeros. |
| `JavaLong.ParseFormatRoundTrip` | main/java/uk/co/real_logic/sbe/xml/MessageSchema.java:51 | Every long, MinLong included, is read back unchanged from its decimal text. |
| `JavaLong.ParseLeadingZero` | main/java/uk/co/real_logic/sbe/xml/MessageSchema.java:51 | A leading zero before a digit string changes neither success nor value, so version text such as "007" is accepted. |
| `JavaLong.ParseUnsignedDigits` | main/java/uk/co/real_logic/sbe/xml/MessageSchema.java:51 | An unsigned digit string parses exactly when its value is at most MaxLong, and then to that value. |
| `JavaLong.ParsePlusDigits` | main/java/uk/co/real_logic/sbe/xml/MessageSchema.java:51 | A leading '+' is accepted and changes neither success nor value. |
| `JavaLong.ParseMinusDigits` | main/java/uk/co/real_logic/sbe/xml/MessageSchema.java:51 | A leading '-' negates. It is accepted for magnitudes up to 2^63, one more than for non-negative numbers. |
| `JavaLong.ParseRejectsMalformed` | main/java/uk/co/real_logic/sbe/xml/MessageSchema.java:51 | The empty string, a lone sign, and any non-digit other than a leading sign make parsing fail. |
| `XmlAttributes.AttributeValueOrNull` | main/java/uk/co/real_logic/sbe/xml/MessageSchema.java:50 | Null exactly when the attribute is missing, otherwise its text. |
| `XmlAttributes.AttributeValueOrDefault` | main/java/uk/co/real_logic/sbe/xml/MessageSchema.java:51-53 | The attribute's text when present, the given default when missing. |
| `XmlAttributes.MultiNamedAttributeValueOrNull` | main/java/uk/co/real_logic/sbe/xml/MessageSchema.java:52 | Null exactly when none of the names is present, otherwise the text of one of the present names. |
| `XmlAttributes.FirstPresentNameWins` | main/java/uk/co/real_logic/sbe/xml/MessageSchema.java:52 | The first present name in the list gives the result, whatever follows it. |
| `XmlAttributes.AppendAliases` | main/java/uk/co/real_logic/sbe/xml/MessageSchema.java:52 | Appending alias names changes nothing when an earlier name is present. Otherwise the new names decide. |
| `XmlAttributes.LookupByteOrder` | main/java/uk/co/real_logic/sbe/xml/MessageSchema.java:53 | "bigEndian" gives big-endian and "littleEndian" gives little-endian, both matched exactly. Any other name fails or gives little-endian, as the rule says. |
| `XmlAttributes.ByteOrderName` | main/java/uk/co/real_logic/sbe/xml/MessageSchema.java:53 | LookupByteOrder reads each byte order back from its spelling under either rule. |
| `SchemaEntities.ValuesOf` | main/java/uk/co/real_logic/sbe/xml/MessageSchema.java:104 | The multiset of a map's values has one element per key. |
| `SchemaEntities.ValuesOfCount` | main/java/uk/co/real_logic/sbe/xml/MessageSchema.java:104 | Each value occurs as often as there are keys mapping to it. |
| `SchemaEntities.ValuesOfMembership` | main/java/uk/co/real_logic/sbe/xml/MessageSchema.java:104 | A value is among them exactly when some key maps to it. |
| `Schema.ResolvePackage` | main/java/uk/co/real_logic/sbe/xml/MessageSchema.java:49 | A present package gives its text. A missing one gives null or MissingPackage, as the rule says. |
| `Schema.ResolveVersion` | main/java/uk/co/real_logic/sbe/xml/MessageSchema.java:51 | A missing version gives 0. A present one gives its parsed long, or MalformedVersion carrying the parse error. |
| `Schema.ResolveSemanticVersion` | main/java/uk/co/real_logic/sbe/xml/MessageSchema.java:52 | semanticVersion if present, else fixVersion if present, else null. |
| `Schema.ResolveByteOrder` | main/java/uk/co/real_logic/sbe/xml/MessageSchema.java:53 | A missing byteOrder gives little-endian. The two spellings map exactly. Any other name fails with UnsupportedByteOrder or gives little-endian, as the rule says. |
| `Schema.ResolveAttributes` | main/java/uk/co/real_logic/sbe/xml/MessageSchema.java:49-53 | Succeeds exactly when package, version and byteOrder each resolve. The fields are then the five per-attribute results. |
| `Schema.Construct` | main/java/uk/co/real_logic/sbe/xml/MessageSchema.java:47-53 | Fails with MissingMessageHeader exactly when the registry has no "messageHeader" key. Otherwise it is the attribute resolution. |
| `Schema.ConstructErrorOrder` | main/java/uk/co/real_logic/sbe/xml/MessageSchema.java:47-53 | When construction fails, the exception is that of the first failing step, in source order. |
| `Schema.ConstructIgnoresOtherTypes` | main/java/uk/co/real_logic/sbe/xml/MessageSchema.java:47 | Once a header entry is present, the rest of the type registry does not affect construction. |
| `Schema.VersionExamples` | main/java/uk/co/real_logic/sbe/xml/MessageSchema.java:51 | "7" gives 7, "-1" gives -1 (accepted), and "abc" gives MalformedVersion. |
| `Schema.SemanticVersionExample` | main/java/uk/co/real_logic/sbe/xml/MessageSchema.java:52 | With both names present, semanticVersion wins. With only fixVersion, it is used. |
| `Schema.MessageSchema.constructor` | main/java/uk/co/real_logic/sbe/xml/MessageSchema.java:49-55 | The normal completion of the constructor. Its requires is the condition under which the source does not throw. The fields are the resolved attributes, and both registries are stored as the same references. |
| `Schema.MessageSchema.TryCreate` | main/java/uk/co/real_logic/sbe/xml/MessageSchema.java:43-56 | Throws exactly when Construct fails, with the same exception, and then yields no object. Otherwise it gives a fresh schema that shares both registries, leaves them unchanged, and has a message header. |
| `Schema.MessageSchema.GetMessageHeader` | main/java/uk/co/real_logic/sbe/xml/MessageSchema.java:61-64 | The live "messageHeader" entry when it is a composite. Null when the key is gone. A ClassCastError for any other kind of type. |
| `Schema.MessageSchema.GetPackage` | main/java/uk/co/real_logic/sbe/xml/MessageSchema.java:66-69 | The package attribute's text. Null only if it was missing and the rule allows that. |
| `Schema.MessageSchema.GetDescription` | main/java/uk/co/real_logic/sbe/xml/MessageSchema.java:71-74 | The description attribute's text, or null exactly when it was missing. |
| `Schema.MessageSchema.GetVersion` | main/java/uk/co/real_logic/sbe/xml/MessageSchema.java:76-79 | 0 when there was no version attribute, otherwise the long that its text parses to. |
| `Schema.MessageSchema.GetSemanticVersion` | main/java/uk/co/real_logic/sbe/xml/MessageSchema.java:81-84 | semanticVersion, else fixVersion, else null. |
| `Schema.MessageSchema.GetByteOrder` | main/java/uk/co/real_logic/sbe/xml/MessageSchema.java:110-113 | Little-endian when the attribute was missing, otherwise what lookupByteOrder gives for its text. |
| `Schema.MessageSchema.GetMessage` | main/java/uk/co/real_logic/sbe/xml/MessageSchema.java:92-95 | Null exactly when no message has that id, otherwise the registered message. |
| `Schema.MessageSchema.GetMessages` | main/java/uk/co/real_logic/sbe/xml/MessageSchema.java:102-105 | The registered messages, one per id: each appears as many times as the ids that map to it. |
| `Schema.MessagesAreLookups` | main/java/uk/co/real_logic/sbe/xml/MessageSchema.java:92-105 | A message is in GetMessages exactly when GetMessage returns it for some id. |
| `Schema.MessagesExample` | main/java/uk/co/real_logic/sbe/xml/MessageSchema.java:92-105 | With ids {1, 2, 5}, id 2 finds its message, id 3 finds none, and there are three messages. |
| `Schema.QueriesRepeat` | main/java/uk/co/real_logic/sbe/xml/MessageSchema.java:35-41 | While the two registries are unchanged, repeated queries give identical results. |

## Left out

- XML traversal: the schema element is only its map of attributes. DOM nodes, namespaces and `getNamedItemNS` are not modelled.
- The parser helpers (`getAttributeValue` and the others): they are not part of this model. They appear only as the lookups above and the two `HelperRules`. Whether the no-default `getAttributeValue` also rejects an empty `package` text is not modelled: an empty text counts as present.
- `Verify.present`: only the key-presence check is modelled. A key mapped to null, and a null registry, cannot be expressed, because map values and references here are never null.
- JavaLong.ParseLong: accepts only the ASCII digits '0' to '9'. Java's `Character.digit` also accepts the other Unicode decimal digits, and that is not modelled.
- `Type`, `CompositeType` and `Message`: opaque, apart from the type's kind tag and the message's id and name. A type's name is only its key in the registry. Their own validation happens elsewhere.
- Schema.MessageSchema.GetMessages: a ghost multiset, not the live `Collection` view that `values()` returns, and it has no iteration order.
- Exception messages: errors carry the offending text, not Java's message strings.
- Concurrency: the schema object is immutable, so it has no concurrent behaviour.
