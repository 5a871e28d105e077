/**
The partition directory of a data file (`iceberg_partition_path` and
`iceberg_url_encode` in crates/teodb-catalog/src/convert/partition.rs). The encoding
of names and values is the byte serializer of section 5.2 of the WHATWG URL
Standard.
*/
module PartitionPath {
  import opened Wrappers

  newtype Byte = n: int | 0 <= n < 256

  // ----- The encoder -----

  predicate Literal(b: Byte) {
    || 65 <= b <= 90 || 97 <= b <= 122 || 48 <= b <= 57
    || b == 45 || b == 95 || b == 46 || b == 42   // - _ . *
  }

  function HexDigit(n: int): char
    requires 0 <= n < 16
  {
    "0123456789ABCDEF"[n]
  }

  function EncodeByte(b: Byte): string {
    if Literal(b) then [b as int as char]
    else if b == 32 then "+"
    else ['%', HexDigit(b as int / 16), HexDigit(b as int % 16)]
  }

  function Encode(bytes: seq<Byte>): string {
    if bytes == [] then "" else EncodeByte(bytes[0]) + Encode(bytes[1..])
  }

  lemma {:induction false} EncodeConcat(a: seq<Byte>, b: seq<Byte>)
    ensures Encode(a + b) == Encode(a) + Encode(b)
  {
    if a == [] {
      assert a + b == b;
    } else {
      assert (a + b)[1..] == a[1..] + b;
      EncodeConcat(a[1..], b);
    }
  }

  // ----- What the encoding looks like -----

  predicate Unreserved(c: char) {
    'A' <= c <= 'Z' || 'a' <= c <= 'z' || '0' <= c <= '9' || c in "-_.*"
  }

  function Char(b: Byte): char {
    b as int as char
  }

  function UpperHex(n: nat): char
    requires n < 16
  {
    if n < 10 then ('0' as int + n) as char else ('A' as int + (n - 10)) as char
  }

  /** The ASCII text of the bytes. */
  function Ascii(bytes: seq<Byte>): string {
    seq(|bytes|, i requires 0 <= i < |bytes| => Char(bytes[i]))
  }

  lemma HexIsUpper(n: nat)
    requires n < 16
    ensures HexDigit(n) == UpperHex(n)
  {
    var digits := "0123456789ABCDEF";
    assert digits[0] == '0' && digits[1] == '1' && digits[2] == '2' && digits[3] == '3';
    assert digits[4] == '4' && digits[5] == '5' && digits[6] == '6' && digits[7] == '7';
    assert digits[8] == '8' && digits[9] == '9' && digits[10] == 'A' && digits[11] == 'B';
    assert digits[12] == 'C' && digits[13] == 'D' && digits[14] == 'E' && digits[15] == 'F';
  }

  lemma LiteralIsUnreserved(b: Byte)
    ensures Literal(b) <==> Unreserved(Char(b))
  {
    assert "-_.*" == ['-', '_', '.', '*'];
  }

  /** Letters, digits and `-_.*` stand for themselves, a space becomes a plus sign, and
      every other byte a percent sign with its two upper-case hexadecimal digits. */
  function Spelling(b: Byte): string {
    if Unreserved(Char(b)) then [Char(b)]
    else if Char(b) == ' ' then "+"
    else ['%', UpperHex(b as nat / 16), UpperHex(b as nat % 16)]
  }

  lemma {:induction false} EncodedByte(b: Byte)
    ensures Encode([b]) == Spelling(b)
  {
    LiteralIsUnreserved(b);
    HexIsUpper(b as nat / 16);
    HexIsUpper(b as nat % 16);
    assert [b][1..] == [] && Encode([]) == "";
  }

  /** The bytes are spelled one after the other: each one begins where the encoding of
      those before it ends. */
  lemma {:induction false} EncodedInPlace(bytes: seq<Byte>, i: nat)
    requires i < |bytes|
    ensures Encode(bytes) == Encode(bytes[..i]) + Spelling(bytes[i]) + Encode(bytes[i + 1..])
  {
    assert bytes == bytes[..i] + ([bytes[i]] + bytes[i + 1..]);
    EncodeConcat(bytes[..i], [bytes[i]] + bytes[i + 1..]);
    EncodeConcat([bytes[i]], bytes[i + 1..]);
    EncodedByte(bytes[i]);
  }

  /** Text without anything to escape is its own encoding. */
  lemma {:induction false} UnreservedIsKept(bytes: seq<Byte>)
    requires forall b | b in bytes :: Unreserved(Char(b))
    ensures Encode(bytes) == Ascii(bytes)
  {
    if bytes != [] {
      var b, rest := bytes[0], bytes[1..];
      LiteralIsUnreserved(b);
      UnreservedIsKept(rest);
      assert Ascii(bytes) == [Char(b)] + Ascii(rest);
    }
  }

  method UrlEncode(bytes: seq<Byte>) returns (encoded: string)
    ensures encoded == Encode(bytes)
    ensures forall i | 0 <= i < |bytes| ::
              encoded == Encode(bytes[..i]) + Spelling(bytes[i]) + Encode(bytes[i + 1..])
  {
    encoded := "";
    for i := 0 to |bytes|
      invariant encoded == Encode(bytes[..i])
    {
      var b := bytes[i];
      assert bytes[..i + 1] == bytes[..i] + [b];
      EncodeConcat(bytes[..i], [b]);
      assert Encode([b]) == EncodeByte(b) + Encode([]);
      if Literal(b) {
        encoded := encoded + [b as int as char];
      } else if b == 32 {
        encoded := encoded + "+";
      } else {
        encoded := encoded + ['%', HexDigit(b as int / 16), HexDigit(b as int % 16)];
      }
    }
    assert bytes[..|bytes|] == bytes;
    forall i | 0 <= i < |bytes|
      ensures encoded == Encode(bytes[..i]) + Spelling(bytes[i]) + Encode(bytes[i + 1..])
    {
      EncodedInPlace(bytes, i);
    }
  }

  // ----- The decoder -----

  function HexValue(c: char): Option<int> {
    if '0' <= c <= '9' then Some(c as int - 48)
    else if 'A' <= c <= 'F' then Some(c as int - 55)
    else None
  }

  lemma HexRoundTrip(n: int)
    requires 0 <= n < 16
    ensures HexValue(HexDigit(n)) == Some(n)
  {
    HexIsUpper(n);
  }

  function Decode(s: string): Option<seq<Byte>> {
    if s == "" then Some([])
    else if s[0] == '%' then
      if |s| < 3 then None
      else match (HexValue(s[1]), HexValue(s[2]), Decode(s[3..]))
        case (Some(high), Some(low), Some(rest)) => Some([(16 * high + low) as Byte] + rest)
        case _ => None
    else if s[0] == '+' then
      match Decode(s[1..]) case Some(rest) => Some([32] + rest) case None => None
    else if s[0] as int < 256 && Literal(s[0] as int as Byte) then
      match Decode(s[1..]) case Some(rest) => Some([s[0] as int as Byte] + rest) case None => None
    else None
  }

  lemma {:induction false} DecodeLiteral(b: Byte, t: string, bytes: seq<Byte>)
    requires (Literal(b) || b == 32) && Decode(t) == Some(bytes)
    ensures Decode(EncodeByte(b) + t) == Some([b] + bytes)
  {
    assert (EncodeByte(b) + t)[1..] == t;
  }

  lemma {:induction false} DecodeEscape(b: Byte, t: string, bytes: seq<Byte>)
    requires !Literal(b) && b != 32 && Decode(t) == Some(bytes)
    ensures Decode(EncodeByte(b) + t) == Some([b] + bytes)
  {
    var s := EncodeByte(b) + t;
    var high, low := b as int / 16, b as int % 16;
    HexRoundTrip(high);
    HexRoundTrip(low);
    assert s[0] == '%' && s[1] == HexDigit(high) && s[2] == HexDigit(low) && s[3..] == t;
    assert (16 * high + low) as Byte == b;
  }

  /** Decoding gives back what was encoded. */
  lemma {:induction false} UrlRoundTrip(bytes: seq<Byte>)
    ensures Decode(Encode(bytes)) == Some(bytes)
  {
    if bytes != [] {
      var b, rest := bytes[0], bytes[1..];
      UrlRoundTrip(rest);
      assert bytes == [b] + rest;
      if Literal(b) || b == 32 {
        DecodeLiteral(b, Encode(rest), rest);
      } else {
        DecodeEscape(b, Encode(rest), rest);
      }
    }
  }

  predicate Plain(s: string) {
    forall c | c in s :: c != '/' && c != '='
  }

  lemma HexIsPlain(n: int)
    requires 0 <= n < 16
    ensures HexDigit(n) != '/' && HexDigit(n) != '='
  {
    HexRoundTrip(n);
  }

  /** An encoded name or value has no separator in it. */
  lemma {:induction false} EncodedIsPlain(bytes: seq<Byte>)
    ensures Plain(Encode(bytes))
  {
    if bytes != [] {
      var b := bytes[0];
      EncodedIsPlain(bytes[1..]);
      if !Literal(b) && b != 32 {
        HexIsPlain(b as int / 16);
        HexIsPlain(b as int % 16);
      }
      assert Plain(EncodeByte(b));
    }
  }

  // ----- Paths -----

  datatype Part = Part(name: seq<Byte>, value: seq<Byte>)

  function Component(p: Part): string {
    Encode(p.name) + "=" + Encode(p.value)
  }

  /** A part without anything to escape can be read off the path. */
  lemma ReadablePart(p: Part)
    requires forall b | b in p.name + p.value :: Unreserved(Char(b))
    ensures Component(p) == Ascii(p.name) + "=" + Ascii(p.value)
  {
    assert forall b | b in p.name :: b in p.name + p.value;
    assert forall b | b in p.value :: b in p.name + p.value;
    UnreservedIsKept(p.name);
    UnreservedIsKept(p.value);
  }

  function Join(components: seq<string>): string {
    if components == [] then ""
    else if |components| == 1 then components[0]
    else components[0] + "/" + Join(components[1..])
  }

  function Components(parts: seq<Part>): (r: seq<string>)
    ensures |r| == |parts| && forall i | 0 <= i < |parts| :: r[i] == Component(parts[i])
  {
    seq(|parts|, i requires 0 <= i < |parts| => Component(parts[i]))
  }

  function PathOf(parts: seq<Part>): string {
    Join(Components(parts))
  }

  /** The text up to the first separator, and the text after it. */
  function Cut(s: string, separator: char): Option<(string, string)> {
    if s == "" then None
    else if s[0] == separator then Some(("", s[1..]))
    else match Cut(s[1..], separator)
      case Some((before, after)) => Some(([s[0]] + before, after))
      case None => None
  }

  lemma {:induction false} CutFinds(before: string, separator: char, after: string)
    requires separator !in before
    ensures Cut(before + [separator] + after, separator) == Some((before, after))
  {
    var s := before + [separator] + after;
    if before == "" {
      assert s[0] == separator && s[1..] == after;
    } else {
      assert s[0] == before[0] && s[1..] == before[1..] + [separator] + after;
      assert before == [before[0]] + before[1..];
      CutFinds(before[1..], separator, after);
    }
  }

  lemma {:induction false} CutMisses(s: string, separator: char)
    requires separator !in s
    ensures Cut(s, separator) == None
  {
    if s != "" {
      CutMisses(s[1..], separator);
    }
  }

  lemma {:induction false} CutShrinks(s: string, separator: char)
    requires Cut(s, separator).Some?
    ensures |Cut(s, separator).value.1| < |s|
  {
    if s[0] != separator {
      CutShrinks(s[1..], separator);
    }
  }

  function DecodeComponent(s: string): Option<Part> {
    match Cut(s, '=')
    case Some((name, value)) =>
      (match (Decode(name), Decode(value))
       case (Some(n), Some(v)) => Some(Part(n, v))
       case _ => None)
    case None => None
  }

  /** Cut at every slash. */
  function Split(s: string): (r: seq<string>)
    decreases |s|
  {
    match Cut(s, '/')
    case Some((first, rest)) => (CutShrinks(s, '/'); [first] + Split(rest))
    case None => [s]
  }

  function DecodeAll(components: seq<string>): Option<seq<Part>> {
    if components == [] then Some([])
    else match (DecodeComponent(components[0]), DecodeAll(components[1..]))
      case (Some(part), Some(rest)) => Some([part] + rest)
      case _ => None
  }

  function DecodePath(path: string): Option<seq<Part>> {
    if path == "" then Some([]) else DecodeAll(Split(path))
  }

  lemma ComponentRoundTrip(p: Part)
    ensures DecodeComponent(Component(p)) == Some(p) && '/' !in Component(p) && Component(p) != ""
  {
    EncodedIsPlain(p.name);
    EncodedIsPlain(p.value);
    UrlRoundTrip(p.name);
    UrlRoundTrip(p.value);
    assert Component(p) == Encode(p.name) + ['='] + Encode(p.value);
    CutFinds(Encode(p.name), '=', Encode(p.value));
  }

  lemma {:induction false} SplitJoin(components: seq<string>)
    requires components != [] && forall c | c in components :: '/' !in c
    ensures Split(Join(components)) == components
  {
    if |components| == 1 {
      CutMisses(components[0], '/');
    } else {
      assert Join(components) == components[0] + ['/'] + Join(components[1..]);
      CutFinds(components[0], '/', Join(components[1..]));
      SplitJoin(components[1..]);
      assert components == [components[0]] + components[1..];
    }
  }

  lemma {:induction false} DecodeComponents(parts: seq<Part>)
    ensures DecodeAll(Components(parts)) == Some(parts)
  {
    if parts != [] {
      assert Components(parts)[1..] == Components(parts[1..]);
      DecodeComponents(parts[1..]);
      ComponentRoundTrip(parts[0]);
      assert parts == [parts[0]] + parts[1..];
    }
  }

  lemma {:induction false} JoinIsEmpty(components: seq<string>)
    requires forall c | c in components :: c != ""
    ensures Join(components) == "" <==> components == []
  {
    if components != [] {
      assert components[0] in components;
    }
  }

  lemma ComponentsArePlain(parts: seq<Part>)
    ensures forall c | c in Components(parts) :: '/' !in c && c != ""
  {
    forall i | 0 <= i < |parts|
      ensures '/' !in Components(parts)[i] && Components(parts)[i] != ""
    {
      ComponentRoundTrip(parts[i]);
    }
  }

  /** A path has exactly one slash-free component per field, and decoding it gives back
      the list of names and values. */
  lemma PathRoundTrip(parts: seq<Part>)
    ensures parts != [] ==> Split(PathOf(parts)) == Components(parts)
    ensures DecodePath(PathOf(parts)) == Some(parts)
  {
    ComponentsArePlain(parts);
    JoinIsEmpty(Components(parts));
    if parts != [] {
      SplitJoin(Components(parts));
    }
    DecodeComponents(parts);
  }

  /** Distinct lists of names and values give distinct paths. */
  lemma PathsAreDistinct(a: seq<Part>, b: seq<Part>)
    ensures PathOf(a) == PathOf(b) <==> a == b
  {
    PathRoundTrip(a);
    PathRoundTrip(b);
  }

  // ----- The path of a partition -----

  datatype Field = Field(name: seq<Byte>, sourceId: int, fieldId: int)

  // Why a value has no text: its column's type has no Iceberg counterpart, the transform
  // does not apply to that type, or the value is not one of that type.
  datatype RenderFault = UnsupportedType | InvalidTransform | InvalidValue

  datatype PathError =
    | MissingSource(field: Field) | MissingValue(field: Field) | Unrenderable(field: Field, fault: RenderFault)

  // The human-readable text of a partition value under its field's transform.
  type Rendering<!V> = (Field, V) -> Result<seq<Byte>, RenderFault>

  predicate Complete<V>(f: Field, columns: seq<int>, values: map<int, V>, render: Rendering<V>) {
    f.sourceId in columns && f.fieldId in values && render(f, values[f.fieldId]).Success?
  }

  /** What the source reports for a field that is not complete, in its order. */
  function FieldError<V>(f: Field, columns: seq<int>, values: map<int, V>, render: Rendering<V>): (e: PathError)
    requires !Complete(f, columns, values, render)
    ensures e.field == f
    ensures e.MissingSource? <==> f.sourceId !in columns
    ensures e.MissingValue? <==> f.sourceId in columns && f.fieldId !in values
  {
    if f.sourceId !in columns then MissingSource(f)
    else if f.fieldId !in values then MissingValue(f)
    else Unrenderable(f, render(f, values[f.fieldId]).error)
  }

  function PartsOf<V>(fields: seq<Field>, columns: seq<int>, values: map<int, V>, render: Rendering<V>): seq<Part>
    requires forall f | f in fields :: Complete(f, columns, values, render)
  {
    seq(|fields|, i requires 0 <= i < |fields| =>
          assert fields[i] in fields && Complete(fields[i], columns, values, render);
          Part(fields[i].name, render(fields[i], values[fields[i].fieldId]).value))
  }

  method EncodePart(p: Part) returns (component: string)
    ensures component == Component(p)
  {
    var name := UrlEncode(p.name);
    var value := UrlEncode(p.value);
    component := name + "=" + value;
  }

  method JoinComponents(components: seq<string>) returns (path: string)
    ensures path == Join(components)
  {
    path := "";
    for i := |components| downto 0
      invariant path == Join(components[i..])
    {
      assert components[i..] == [components[i]] + components[i + 1..];
      path := if i == |components| - 1 then components[i] else components[i] + "/" + path;
    }
    assert components[0..] == components;
  }

  /** The path of the fields' rendered values, in the order of the spec; it fails at the
      first field without a source column, a value, or a text for the value. */
  method BuildPath<V>(fields: seq<Field>, columns: seq<int>, values: map<int, V>, render: Rendering<V>)
    returns (r: Result<string, PathError>)
    ensures r.Success? <==> forall f | f in fields :: Complete(f, columns, values, render)
    ensures r.Success? ==> r.value == PathOf(PartsOf(fields, columns, values, render))
    ensures r.Failure? ==>
      exists i :: 0 <= i < |fields| && (forall f | f in fields[..i] :: Complete(f, columns, values, render))
        && !Complete(fields[i], columns, values, render)
        && r.error == FieldError(fields[i], columns, values, render)
  {
    var components: seq<string> := [];
    for i := 0 to |fields|
      invariant |components| == i
      invariant forall f | f in fields[..i] :: Complete(f, columns, values, render)
      invariant forall j | 0 <= j < i ::
                  && Complete(fields[j], columns, values, render)
                  && components[j] == Component(Part(fields[j].name,
                                                     render(fields[j], values[fields[j].fieldId]).value))
    {
      var f := fields[i];
      assert fields[..i + 1] == fields[..i] + [f];
      if f.sourceId !in columns {
        assert f in fields && !Complete(f, columns, values, render);
        return Failure(MissingSource(f));
      }
      if f.fieldId !in values {
        assert f in fields && !Complete(f, columns, values, render);
        return Failure(MissingValue(f));
      }
      var human := render(f, values[f.fieldId]);
      if human.Failure? {
        assert f in fields && !Complete(f, columns, values, render);
        return Failure(Unrenderable(f, human.error));
      }
      var component := EncodePart(Part(f.name, human.value));
      components := components + [component];
    }
    assert fields[..|fields|] == fields;
    assert components == Components(PartsOf(fields, columns, values, render));
    var path := JoinComponents(components);
    return Success(path);
  }
}
