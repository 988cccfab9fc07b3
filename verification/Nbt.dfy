/**
 internal/protocol/configuration/nbt.go: the anonymous NBT builder and encoder. Strings are byte
 strings; floating-point values are their bit patterns.
 */
module Nbt {
  import opened Bytes

  const END: byte := 0
  const STRING: byte := 8
  const LIST: byte := 9
  const COMPOUND: byte := 10

  datatype Tag =
    | Byte(value: byte)
    | Int(number: int32)
    | Long(wide: int64)
    | Float(bits: uint32)
    | Double(wideBits: uint64)
    | Text(text: bytes)
    | Compound(fields: seq<Field>)
    | Compounds(compounds: seq<Body>)
    | Texts(texts: seq<bytes>)

  datatype Field = Field(name: bytes, tag: Tag)

  /** One element of a list of compounds. */
  datatype Body = Body(fields: seq<Field>)

  datatype Error = TooLarge

  // ---- Encoding ----

  function Kind(tag: Tag): (k: byte)
    ensures k != END
  {
    match tag
    case Byte(_) => 1
    case Int(_) => 3
    case Long(_) => 4
    case Float(_) => 5
    case Double(_) => 6
    case Text(_) => STRING
    case Compound(_) => COMPOUND
    case Compounds(_) => LIST
    case Texts(_) => LIST
  }

  /** Two length bytes, which keep only the low 16 bits of the length, then the string. */
  function TextPayload(text: bytes): (b: bytes) {
    BigEndian(2, |text|) + text
  }

  function TextsPayload(texts: seq<bytes>): (b: bytes) {
    if texts == [] then [] else TextPayload(texts[0]) + TextsPayload(texts[1..])
  }

  function TagPayload(tag: Tag): (b: bytes)
    decreases tag, 0
  {
    match tag
    case Byte(v) => [v]
    case Int(v) => BigEndian(4, ToUint32(v))
    case Long(v) => BigEndian(8, ToUint64(v))
    case Float(v) => BigEndian(4, v)
    case Double(v) => BigEndian(8, v)
    case Text(text) => TextPayload(text)
    case Compound(fields) => FieldsPayload(fields)
    case Compounds(cs) => [COMPOUND] + BigEndian(4, |cs|) + CompoundsPayload(cs)
    case Texts(texts) => [STRING] + BigEndian(4, |texts|) + TextsPayload(texts)
  }

  function FieldPayload(field: Field): (b: bytes)
    decreases field, 1
  {
    [Kind(field.tag)] + TextPayload(field.name) + TagPayload(field.tag)
  }

  function FieldsPayload(fields: seq<Field>): (b: bytes)
    ensures b != []
    decreases fields, 2
  {
    if fields == [] then [END] else FieldPayload(fields[0]) + FieldsPayload(fields[1..])
  }

  function CompoundsPayload(cs: seq<Body>): (b: bytes)
    decreases cs, 3
  {
    if cs == [] then [] else FieldsPayload(cs[0].fields) + CompoundsPayload(cs[1..])
  }

  /** A whole document, refused when it is larger than maxSize. */
  function Document(fields: seq<Field>, maxSize: int): (r: Result<bytes, Error>) {
    var data := [COMPOUND] + FieldsPayload(fields);
    if |data| > maxSize then Err(TooLarge) else Ok(data)
  }

  // ---- A decoder, as the format prescribes it ----

  type Decoded<T> = Option<(T, bytes)>

  function DecodeNumber(width: nat, d: bytes): (r: Decoded<nat>)
    ensures r.Some? ==> |r.value.1| + width == |d|
  {
    if |d| < width then None else Some((FromBigEndian(d[..width]), d[width..]))
  }

  function DecodeText(d: bytes): (r: Decoded<bytes>)
    ensures r.Some? ==> |r.value.1| + 2 <= |d|
  {
    match DecodeNumber(2, d)
    case None => None
    case Some((n, rest)) => if |rest| < n then None else Some((rest[..n], rest[n..]))
  }

  /** A list header: the kind of the elements and their number, a signed 32-bit field. */
  function DecodeCount(d: bytes): (r: Decoded<(byte, nat)>)
    ensures r.Some? ==> |r.value.1| + 5 == |d| && r.value.0.1 < 0x8000_0000
  {
    if d == [] then None
    else
      match DecodeNumber(4, d[1..])
      case None => None
      case Some((n, rest)) => if n >= 0x8000_0000 then None else Some(((d[0], n), rest))
  }

  function DecodeTexts(n: nat, d: bytes): (r: Decoded<seq<bytes>>)
    ensures r.Some? ==> |r.value.1| <= |d| && |r.value.0| == n
    decreases n
  {
    if n == 0 then Some(([], d))
    else
      match DecodeText(d)
      case None => None
      case Some((text, rest)) =>
        match DecodeTexts(n - 1, rest)
        case None => None
        case Some((texts, rest')) => Some(([text] + texts, rest'))
  }

  function DecodeTag(kind: byte, d: bytes): (r: Decoded<Tag>)
    ensures r.Some? ==> |r.value.1| <= |d|
    decreases |d|, 2
  {
    if kind == 1 then
      match DecodeNumber(1, d)
      case None => None
      case Some((_, rest)) => Some((Byte(d[0]), rest))
    else if kind == 3 || kind == 5 then
      match DecodeNumber(4, d)
      case None => None
      case Some((n, rest)) =>
        NumberBound(4, d);
        Some((if kind == 3 then Int(ToInt32(n)) else Float(n), rest))
    else if kind == 4 || kind == 6 then
      match DecodeNumber(8, d)
      case None => None
      case Some((n, rest)) =>
        NumberBound(8, d);
        Some((if kind == 4 then Long(ToInt64(n)) else Double(n), rest))
    else if kind == STRING then
      match DecodeText(d)
      case None => None
      case Some((text, rest)) => Some((Text(text), rest))
    else if kind == COMPOUND then
      match DecodeFields(d)
      case None => None
      case Some((fields, rest)) => Some((Compound(fields), rest))
    else if kind == LIST then
      match DecodeCount(d)
      case None => None
      case Some(((elements, n), rest)) =>
        if elements == STRING then
          match DecodeTexts(n, rest)
          case None => None
          case Some((texts, rest')) => Some((Texts(texts), rest'))
        else if elements == COMPOUND then
          match DecodeCompounds(n, rest)
          case None => None
          case Some((cs, rest')) => Some((Compounds(cs), rest'))
        else None
    else None
  }

  function DecodeFields(d: bytes): (r: Decoded<seq<Field>>)
    ensures r.Some? ==> |r.value.1| < |d|
    decreases |d|, 1
  {
    if d == [] then None
    else if d[0] == END then Some(([], d[1..]))
    else
      match DecodeText(d[1..])
      case None => None
      case Some((name, rest)) =>
        match DecodeTag(d[0], rest)
        case None => None
        case Some((tag, rest')) =>
          match DecodeFields(rest')
          case None => None
          case Some((fields, rest'')) => Some(([Field(name, tag)] + fields, rest''))
  }

  function DecodeCompounds(n: nat, d: bytes): (r: Decoded<seq<Body>>)
    ensures r.Some? ==> |r.value.1| <= |d| && |r.value.0| == n
    decreases |d|, 3, n
  {
    if n == 0 then Some(([], d))
    else
      match DecodeFields(d)
      case None => None
      case Some((fields, rest)) =>
        match DecodeCompounds(n - 1, rest)
        case None => None
        case Some((cs, rest')) => Some(([Body(fields)] + cs, rest'))
  }

  /** A document is one root compound. */
  function Decode(d: bytes): (r: Decoded<seq<Field>>) {
    if d == [] || d[0] != COMPOUND then None else DecodeFields(d[1..])
  }

  lemma NumberBound(width: nat, d: bytes)
    requires (width == 4 || width == 8) && DecodeNumber(width, d).Some?
    ensures DecodeNumber(width, d).value.0 < if width == 4 then 0x1_0000_0000 else 0x1_0000_0000_0000_0000
  {
    FromBigEndianBound(d[..width]);
    PowerValues();
  }

  // ---- What can be represented ----

  predicate TextFits(text: bytes) { |text| < 0x1_0000 }

  predicate TagFits(tag: Tag)
    decreases tag, 0
  {
    match tag
    case Text(text) => TextFits(text)
    case Compound(fields) => FieldsFit(fields)
    case Compounds(cs) => |cs| < 0x8000_0000 && CompoundsFit(cs)
    case Texts(texts) => |texts| < 0x8000_0000 && forall t | t in texts :: TextFits(t)
    case _ => true
  }

  predicate FieldsFit(fields: seq<Field>)
    decreases fields, 2
  {
    fields == [] || (TextFits(fields[0].name) && TagFits(fields[0].tag) && FieldsFit(fields[1..]))
  }

  predicate CompoundsFit(cs: seq<Body>)
    decreases cs, 3
  {
    cs == [] || (FieldsFit(cs[0].fields) && CompoundsFit(cs[1..]))
  }

  // ---- Round trip ----

  lemma NumberRoundTrip(width: nat, v: nat, suffix: bytes)
    requires v < Pow256(width)
    ensures DecodeNumber(width, BigEndian(width, v) + suffix) == Some((v, suffix))
  {
    var d := BigEndian(width, v) + suffix;
    BigEndianRoundTrip(width, v);
    assert d[..width] == BigEndian(width, v) && d[width..] == suffix;
  }

  lemma TextRoundTrip(text: bytes, suffix: bytes)
    requires TextFits(text)
    ensures DecodeText(TextPayload(text) + suffix) == Some((text, suffix))
  {
    PowerValues();
    hide DecodeNumber, BigEndian;
    NumberRoundTrip(2, |text|, text + suffix);
    assert TextPayload(text) + suffix == BigEndian(2, |text|) + (text + suffix);
    assert (text + suffix)[..|text|] == text && (text + suffix)[|text|..] == suffix;
  }

  lemma CountRoundTrip(kind: byte, n: nat, suffix: bytes)
    requires n < 0x8000_0000
    ensures DecodeCount([kind] + BigEndian(4, n) + suffix) == Some(((kind, n), suffix))
  {
    PowerValues();
    hide DecodeNumber, BigEndian;
    NumberRoundTrip(4, n, suffix);
    assert ([kind] + BigEndian(4, n) + suffix)[1..] == BigEndian(4, n) + suffix;
  }

  lemma {:induction false} TextsRoundTrip(texts: seq<bytes>, suffix: bytes)
    requires forall t | t in texts :: TextFits(t)
    ensures DecodeTexts(|texts|, TextsPayload(texts) + suffix) == Some((texts, suffix))
    decreases |texts|
  {
    hide DecodeText, TextPayload;
    if texts == [] {
      assert [] + suffix == suffix;
    } else {
      var more := TextsPayload(texts[1..]) + suffix;
      assert TextsPayload(texts) + suffix == TextPayload(texts[0]) + more;
      TextRoundTrip(texts[0], more);
      TextsRoundTrip(texts[1..], suffix);
      assert [texts[0]] + texts[1..] == texts;
    }
  }

  lemma ScalarRoundTrip(tag: Tag, suffix: bytes)
    requires !tag.Compound? && !tag.Compounds? && !tag.Texts? && TagFits(tag)
    ensures DecodeTag(Kind(tag), TagPayload(tag) + suffix) == Some((tag, suffix))
  {
    PowerValues();
    match tag
    case Byte(v) => assert ([v] + suffix)[..1] == [v] && ([v] + suffix)[1..] == suffix;
    case Int(v) => NumberRoundTrip(4, ToUint32(v), suffix);
    case Long(v) => NumberRoundTrip(8, ToUint64(v), suffix);
    case Float(v) => NumberRoundTrip(4, v, suffix);
    case Double(v) => NumberRoundTrip(8, v, suffix);
    case Text(text) => TextRoundTrip(text, suffix);
    case _ =>
  }

  lemma CompoundsTagRoundTrip(cs: seq<Body>, suffix: bytes)
    requires |cs| < 0x8000_0000 && DecodeCompounds(|cs|, CompoundsPayload(cs) + suffix) == Some((cs, suffix))
    ensures DecodeTag(LIST, TagPayload(Compounds(cs)) + suffix) == Some((Compounds(cs), suffix))
  {
    hide DecodeCount, DecodeCompounds, DecodeTexts, DecodeNumber, DecodeText, DecodeFields;
    hide CompoundsPayload, TextsPayload, BigEndian;
    var header := [COMPOUND] + BigEndian(4, |cs|);
    assert TagPayload(Compounds(cs)) == header + CompoundsPayload(cs);
    hide TagPayload;
    CountRoundTrip(COMPOUND, |cs|, CompoundsPayload(cs) + suffix);
    Regroup(header, CompoundsPayload(cs), suffix);
  }

  lemma TextsTagRoundTrip(texts: seq<bytes>, suffix: bytes)
    requires |texts| < 0x8000_0000 && DecodeTexts(|texts|, TextsPayload(texts) + suffix) == Some((texts, suffix))
    ensures DecodeTag(LIST, TagPayload(Texts(texts)) + suffix) == Some((Texts(texts), suffix))
  {
    hide DecodeCount, DecodeCompounds, DecodeTexts, DecodeNumber, DecodeText, DecodeFields;
    hide CompoundsPayload, TextsPayload, BigEndian;
    var header := [STRING] + BigEndian(4, |texts|);
    assert TagPayload(Texts(texts)) == header + TextsPayload(texts);
    hide TagPayload;
    CountRoundTrip(STRING, |texts|, TextsPayload(texts) + suffix);
    Regroup(header, TextsPayload(texts), suffix);
  }

  lemma CompoundTagRoundTrip(fields: seq<Field>, suffix: bytes)
    requires DecodeFields(FieldsPayload(fields) + suffix) == Some((fields, suffix))
    ensures DecodeTag(COMPOUND, TagPayload(Compound(fields)) + suffix) == Some((Compound(fields), suffix))
  {
    hide DecodeFields, FieldsPayload;
  }

  lemma {:induction false} TagRoundTrip(tag: Tag, suffix: bytes)
    requires TagFits(tag)
    ensures DecodeTag(Kind(tag), TagPayload(tag) + suffix) == Some((tag, suffix))
    decreases tag, 0
  {
    hide DecodeTag, TagPayload;
    match tag
    case Compound(fields) =>
      FieldsRoundTrip(fields, suffix);
      CompoundTagRoundTrip(fields, suffix);
    case Compounds(cs) =>
      CompoundsRoundTrip(cs, suffix);
      CompoundsTagRoundTrip(cs, suffix);
    case Texts(texts) =>
      TextsRoundTrip(texts, suffix);
      TextsTagRoundTrip(texts, suffix);
    case _ =>
      ScalarRoundTrip(tag, suffix);
  }

  /** The parts of a non-empty list of fields, in the order the decoder meets them. */
  lemma FieldsParts(fields: seq<Field>, suffix: bytes)
    requires fields != []
    ensures FieldsPayload(fields) + suffix
         == [Kind(fields[0].tag)] + (TextPayload(fields[0].name)
             + (TagPayload(fields[0].tag) + (FieldsPayload(fields[1..]) + suffix)))
  {
    var k, n, t, f := [Kind(fields[0].tag)], TextPayload(fields[0].name), TagPayload(fields[0].tag),
        FieldsPayload(fields[1..]);
    assert FieldsPayload(fields) == (k + n + t) + f;
    hide Kind, TextPayload, TagPayload, FieldsPayload;
    Regroup(k + n + t, f, suffix);
    Regroup(k + n, t, f + suffix);
    Regroup(k, n, t + (f + suffix));
  }

  lemma HeadAndTail(fields: seq<Field>)
    requires fields != []
    ensures [fields[0]] + fields[1..] == fields
  {
  }

  lemma {:induction false} FieldsRoundTrip(fields: seq<Field>, suffix: bytes)
    requires FieldsFit(fields)
    ensures DecodeFields(FieldsPayload(fields) + suffix) == Some((fields, suffix))
    decreases fields, 2
  {
    if fields == [] {
      assert ([END] + suffix)[1..] == suffix;
    } else {
      hide DecodeFields, FieldsPayload, DecodeTag, DecodeText, TagPayload, TextPayload, TagFits, TextFits;
      var Field(name, tag) := fields[0];
      var more := FieldsPayload(fields[1..]) + suffix;
      TextRoundTrip(name, TagPayload(tag) + more);
      TagRoundTrip(tag, more);
      FieldsRoundTrip(fields[1..], suffix);
      FieldsRoundTripStep(name, tag, fields[1..], more, suffix);
      FieldsParts(fields, suffix);
      HeadAndTail(fields);
    }
  }

  /** One field in front of a decodable rest. */
  lemma FieldsRoundTripStep(name: bytes, tag: Tag, fields: seq<Field>, more: bytes, suffix: bytes)
    requires DecodeText(TextPayload(name) + (TagPayload(tag) + more)) == Some((name, TagPayload(tag) + more))
    requires DecodeTag(Kind(tag), TagPayload(tag) + more) == Some((tag, more))
    requires DecodeFields(more) == Some((fields, suffix))
    ensures DecodeFields([Kind(tag)] + (TextPayload(name) + (TagPayload(tag) + more)))
         == Some(([Field(name, tag)] + fields, suffix))
  {
    hide DecodeText, DecodeTag, TextPayload, TagPayload;
    var d := [Kind(tag)] + (TextPayload(name) + (TagPayload(tag) + more));
    assert d[1..] == TextPayload(name) + (TagPayload(tag) + more);
  }

  lemma {:induction false} CompoundsRoundTrip(cs: seq<Body>, suffix: bytes)
    requires CompoundsFit(cs)
    ensures DecodeCompounds(|cs|, CompoundsPayload(cs) + suffix) == Some((cs, suffix))
    decreases cs, 3
  {
    if cs == [] {
      assert [] + suffix == suffix;
    } else {
      hide DecodeFields, FieldsPayload, FieldsFit;
      var more := CompoundsPayload(cs[1..]) + suffix;
      FieldsRoundTrip(cs[0].fields, more);
      CompoundsRoundTrip(cs[1..], suffix);
      Regroup(FieldsPayload(cs[0].fields), CompoundsPayload(cs[1..]), suffix);
      assert [Body(cs[0].fields)] + cs[1..] == cs;
    }
  }

  // ---- Only representable trees are ever decoded ----

  lemma DecodedTextFits(d: bytes)
    requires DecodeText(d).Some?
    ensures TextFits(DecodeText(d).value.0)
  {
    FromBigEndianBound(d[..2]);
    PowerValues();
  }

  lemma {:induction false} DecodedTextsFit(n: nat, d: bytes)
    requires DecodeTexts(n, d).Some?
    ensures forall t | t in DecodeTexts(n, d).value.0 :: TextFits(t)
    decreases n
  {
    if n == 0 {
    } else {
      DecodedTextFits(d);
      hide DecodeText, TextFits;
      DecodedTextsFit(n - 1, DecodeText(d).value.1);
    }
  }

  lemma {:induction false} DecodedTagFits(kind: byte, d: bytes)
    requires DecodeTag(kind, d).Some?
    ensures TagFits(DecodeTag(kind, d).value.0)
    decreases |d|, 2
  {
    if kind == STRING {
      DecodedTextFits(d);
    } else if kind == COMPOUND {
      DecodedFieldsFit(d);
    } else if kind == LIST {
      var ((elements, n), rest) := DecodeCount(d).value;
      if elements == STRING {
        DecodedTextsFit(n, rest);
      } else {
        DecodedCompoundsFit(n, rest);
      }
    }
  }

  lemma {:induction false} DecodedFieldsFit(d: bytes)
    requires DecodeFields(d).Some?
    ensures FieldsFit(DecodeFields(d).value.0)
    decreases |d|, 1
  {
    if d[0] == END {
    } else {
      DecodedTextFits(d[1..]);
      var (name, rest) := DecodeText(d[1..]).value;
      DecodedTagFits(d[0], rest);
      var (tag, rest') := DecodeTag(d[0], rest).value;
      DecodedFieldsFit(rest');
      hide DecodeText, DecodeTag, TextFits, TagFits;
      var fields := DecodeFields(rest').value.0;
      assert ([Field(name, tag)] + fields)[1..] == fields;
    }
  }

  lemma {:induction false} DecodedCompoundsFit(n: nat, d: bytes)
    requires DecodeCompounds(n, d).Some?
    ensures CompoundsFit(DecodeCompounds(n, d).value.0)
    decreases |d|, 3, n
  {
    if n == 0 {
    } else {
      DecodedFieldsFit(d);
      var (fields, rest) := DecodeFields(d).value;
      DecodedCompoundsFit(n - 1, rest);
      hide DecodeFields, FieldsFit;
      var cs := DecodeCompounds(n - 1, rest).value.0;
      assert ([Body(fields)] + cs)[1..] == cs;
    }
  }

  // ---- Main results ----

  /** A tree comes back from its encoding, whatever follows it, if and only if its lengths fit their fields. */
  lemma RoundTrip(fields: seq<Field>, suffix: bytes)
    ensures DecodeFields(FieldsPayload(fields) + suffix) == Some((fields, suffix)) <==> FieldsFit(fields)
  {
    if FieldsFit(fields) {
      FieldsRoundTrip(fields, suffix);
    } else if DecodeFields(FieldsPayload(fields) + suffix) == Some((fields, suffix)) {
      DecodedFieldsFit(FieldsPayload(fields) + suffix);
      assert false;
    }
  }

  // ---- Small documents ----

  lemma {:induction false} SmallTextsFit(texts: seq<bytes>, size: nat)
    requires |TextsPayload(texts)| <= size < 0x1_0000
    ensures |texts| <= size && forall t | t in texts :: TextFits(t)
    decreases |texts|
  {
    if texts == [] {
    } else {
      SmallTextsFit(texts[1..], size - |TextPayload(texts[0])|);
    }
  }

  lemma {:induction false} SmallTagFits(tag: Tag)
    requires |TagPayload(tag)| < 0x1_0000
    ensures TagFits(tag)
    decreases tag, 0
  {
    match tag
    case Compound(fields) => SmallFieldsFit(fields);
    case Compounds(cs) => SmallCompoundsFit(cs, |CompoundsPayload(cs)|);
    case Texts(texts) => SmallTextsFit(texts, |TextsPayload(texts)|);
    case _ =>
  }

  lemma {:induction false} SmallFieldsFit(fields: seq<Field>)
    requires |FieldsPayload(fields)| < 0x1_0000
    ensures FieldsFit(fields)
    decreases fields, 2
  {
    if fields == [] {
    } else {
      FieldsParts(fields, []);
      assert |TextPayload(fields[0].name)| == 2 + |fields[0].name|;
      hide TextPayload, TagPayload, FieldsPayload, TagFits;
      SmallTagFits(fields[0].tag);
      SmallFieldsFit(fields[1..]);
    }
  }

  lemma {:induction false} SmallCompoundsFit(cs: seq<Body>, size: nat)
    requires |CompoundsPayload(cs)| <= size < 0x1_0000
    ensures |cs| <= size && CompoundsFit(cs)
    decreases cs, 3
  {
    if cs == [] {
    } else {
      hide FieldsPayload, FieldsFit;
      SmallFieldsFit(cs[0].fields);
      SmallCompoundsFit(cs[1..], size - |FieldsPayload(cs[0].fields)|);
    }
  }

  /** Every document accepted under a limit of 64 KiB decodes to the tree it was built from. */
  lemma SmallDocumentsRoundTrip(fields: seq<Field>, maxSize: int, suffix: bytes)
    requires maxSize <= 0x1_0000 && Document(fields, maxSize).Ok?
    ensures FieldsFit(fields) && Decode(Document(fields, maxSize).value + suffix) == Some((fields, suffix))
  {
    hide FieldsPayload, DecodeFields, FieldsFit;
    var payload := FieldsPayload(fields);
    var data := Document(fields, maxSize).value;
    SmallFieldsFit(fields);
    FieldsRoundTrip(fields, suffix);
    Regroup([COMPOUND], payload, suffix);
    assert (data + suffix)[1..] == payload + suffix;
  }

  // ---- The builder ----

  datatype Entry = Entry(name: bytes, data: bytes)

  class CompoundBuilder {
    var fields: seq<Entry>
    ghost var tree: seq<Field>

    ghost predicate Valid()
      reads this
    {
      && |fields| == |tree|
      && forall i | 0 <= i < |fields| :: fields[i] == Entry(tree[i].name, [Kind(tree[i].tag)] + TagPayload(tree[i].tag))
    }

    static ghost function Bodies(values: seq<CompoundBuilder>): (bodies: seq<Body>)
      reads values
      ensures |bodies| == |values| && forall i | 0 <= i < |values| :: bodies[i] == Body(values[i].tree)
    {
      if values == [] then [] else [Body(values[0].tree)] + Bodies(values[1..])
    }

    constructor ()
      ensures Valid() && tree == []
    {
      fields, tree := [], [];
    }

    /** add: the kind goes in front of the payload. */
    method Add(kind: byte, name: bytes, data: bytes, ghost tag: Tag)
      requires Valid() && kind == Kind(tag) && data == TagPayload(tag)
      modifies this
      ensures Valid() && tree == old(tree) + [Field(name, tag)]
    {
      fields := fields + [Entry(name, [kind] + data)];
      tree := tree + [Field(name, tag)];
    }

    method PutByte(name: bytes, value: byte)
      requires Valid()
      modifies this
      ensures Valid() && tree == old(tree) + [Field(name, Byte(value))]
    {
      Add(1, name, [value], Byte(value));
    }

    method PutInt(name: bytes, value: int32)
      requires Valid()
      modifies this
      ensures Valid() && tree == old(tree) + [Field(name, Int(value))]
    {
      Add(3, name, BigEndian(4, ToUint32(value)), Int(value));
    }

    method PutLong(name: bytes, value: int64)
      requires Valid()
      modifies this
      ensures Valid() && tree == old(tree) + [Field(name, Long(value))]
    {
      Add(4, name, BigEndian(8, ToUint64(value)), Long(value));
    }

    method PutFloat(name: bytes, bits: uint32)
      requires Valid()
      modifies this
      ensures Valid() && tree == old(tree) + [Field(name, Float(bits))]
    {
      Add(5, name, BigEndian(4, bits), Float(bits));
    }

    method PutDouble(name: bytes, bits: uint64)
      requires Valid()
      modifies this
      ensures Valid() && tree == old(tree) + [Field(name, Double(bits))]
    {
      Add(6, name, BigEndian(8, bits), Double(bits));
    }

    method PutText(name: bytes, value: bytes)
      requires Valid()
      modifies this
      ensures Valid() && tree == old(tree) + [Field(name, Text(value))]
    {
      Add(STRING, name, TextPayload(value), Text(value));
    }

    /** The nested builder is encoded at once: changing it afterwards does not change this one. */
    method PutCompound(name: bytes, value: CompoundBuilder)
      requires Valid() && value.Valid()
      modifies this
      ensures Valid() && tree == old(tree) + [Field(name, Compound(old(value.tree)))]
    {
      var data := value.EncodePayload();
      Add(COMPOUND, name, data, Compound(value.tree));
    }

    method PutCompounds(name: bytes, values: seq<CompoundBuilder>)
      requires Valid() && forall v | v in values :: v.Valid()
      modifies this
      ensures Valid() && tree == old(tree) + [Field(name, Compounds(old(Bodies(values))))]
    {
      var data := [COMPOUND] + BigEndian(4, |values|);
      ghost var header := data;
      ghost var bodies := Bodies(values);
      assert bodies[0..] == bodies;
      for k := 0 to |values|
        invariant Valid() && unchanged(this)
        invariant data + CompoundsPayload(bodies[k..]) == header + CompoundsPayload(bodies)
      {
        var payload := values[k].EncodePayload();
        assert bodies[k..][0] == bodies[k] && bodies[k..][1..] == bodies[k + 1..];
        Regroup(data, payload, CompoundsPayload(bodies[k + 1..]));
        data := data + payload;
      }
      assert data == TagPayload(Compounds(bodies));
      Add(LIST, name, data, Compounds(bodies));
    }

    method PutTexts(name: bytes, values: seq<bytes>)
      requires Valid()
      modifies this
      ensures Valid() && tree == old(tree) + [Field(name, Texts(values))]
    {
      var data := [STRING] + BigEndian(4, |values|);
      ghost var header := data;
      assert values[0..] == values;
      for k := 0 to |values|
        invariant Valid() && unchanged(this)
        invariant data + TextsPayload(values[k..]) == header + TextsPayload(values)
      {
        assert values[k..][1..] == values[k + 1..];
        Regroup(data, TextPayload(values[k]), TextsPayload(values[k + 1..]));
        data := data + TextPayload(values[k]);
      }
      Add(LIST, name, data, Texts(values));
    }

    method EncodePayload() returns (data: bytes)
      requires Valid()
      ensures data == FieldsPayload(tree)
    {
      data := [];
      assert tree[0..] == tree;
      for k := 0 to |fields|
        invariant data + FieldsPayload(tree[k..]) == FieldsPayload(tree)
      {
        var field := fields[k];
        assert tree[k..][0] == tree[k] && tree[k..][1..] == tree[k + 1..];
        Regroup(data, FieldPayload(tree[k]), FieldsPayload(tree[k + 1..]));
        var kind := field.data[0];
        data := data + ([kind] + TextPayload(field.name) + field.data[1..]);
      }
      data := data + [END];
    }

    method Encode(maxSize: int) returns (r: Result<bytes, Error>)
      requires Valid()
      ensures r == Document(tree, maxSize)
    {
      var payload := EncodePayload();
      var data := [COMPOUND] + payload;
      if |data| > maxSize {
        return Err(TooLarge);
      }
      return Ok(data);
    }
  }
}
