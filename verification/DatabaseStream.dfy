/**
 The typed logical database stream of `arborpress/backups/database.py`: the value codec, the
 record sequence that an export writes, and the validator that reads it.
 */
module DatabaseStream {
  import opened Common

  datatype Json =
    | JNull
    | JBool(b: bool)
    | JNumber(n: int)
    | JReal(f: int)
    | JText(s: string)
    | JList(items: seq<Json>)
    | JObject(fields: map<string, Json>)

  datatype FloatValue = Finite(f: int) | NotANumber | Infinity | NegativeInfinity

  /**
   A database scalar as Python sees it. Library types (floats, decimals, dates, ...) are
   numbered; their textual forms come from `Formats`. `Tree` is the content of a JSON column
   that is a list or an object.
   */
  datatype Value =
    | Nothing
    | Bool(b: bool)
    | Integer(i: int)
    | Float(r: FloatValue)
    | Text(s: string)
    | Bytes(bytes: seq<nat>)
    | Decimal(atom: int)
    | DateTime(atom: int)
    | Date(atom: int)
    | Time(atom: int)
    | Uuid(atom: int)
    | Enumerated(member: Value)
    | Tree(json: Json)
  {
    predicate Canonical() {
      Tree? ==> json.JList? || json.JObject?
    }
  }

  /** A printer and its parser from a library. */
  datatype Codec<!T(!new)> = Codec(show: T -> string, parse: string -> Option<T>) {
    ghost predicate Faithful() {
      forall x: T :: parse(show(x)) == Some(x)
    }
  }

  datatype Formats = Formats(
    integer: Codec<int>,
    float: Codec<int>,
    bytes: Codec<seq<nat>>,
    decimal: Codec<int>,
    datetime: Codec<int>,
    date: Codec<int>,
    time: Codec<int>,
    uuid: Codec<int>)
  {
    ghost predicate Faithful() {
      && integer.Faithful() && float.Faithful() && bytes.Faithful() && decimal.Faithful()
      && datetime.Faithful() && date.Faithful() && time.Faithful() && uuid.Faithful()
      && (forall f: int :: float.show(f) !in SPECIAL_FLOATS)
    }
  }

  const SPECIAL_FLOATS := {"nan", "inf", "-inf"}

  datatype StreamError =
    | Unsupported | NotSerializable
    | MalformedCodec | UnknownTag
    | EmptyStream | UnsupportedHeader | MalformedTable | MalformedRow | RowMismatch

  // ---------------------------------------------------------------- the value codec

  datatype Tag =
    | NullTag | JsonTag | BoolTag | IntegerTag | FloatTag | StringTag | BytesTag
    | DecimalTag | DateTimeTag | DateTag | TimeTag | UuidTag | EnumTag

  function Name(tag: Tag): string {
    match tag
    case NullTag => "null"
    case JsonTag => "json"
    case BoolTag => "bool"
    case IntegerTag => "integer"
    case FloatTag => "float"
    case StringTag => "string"
    case BytesTag => "bytes"
    case DecimalTag => "decimal"
    case DateTimeTag => "datetime"
    case DateTag => "date"
    case TimeTag => "time"
    case UuidTag => "uuid"
    case EnumTag => "enum"
  }

  const TAGS := [NullTag, JsonTag, BoolTag, IntegerTag, FloatTag, StringTag, BytesTag,
                 DecimalTag, DateTimeTag, DateTag, TimeTag, UuidTag, EnumTag]

  /** The tag of a given name, searched for from position `i` on. */
  function TagFrom(s: string, i: nat): Option<Tag>
    requires i <= |TAGS|
    decreases |TAGS| - i
  {
    if i == |TAGS| then None
    else if Name(TAGS[i]) == s then Some(TAGS[i])
    else TagFrom(s, i + 1)
  }

  function TagOf(s: string): Option<Tag> {
    TagFrom(s, 0)
  }

  lemma NamesDiffer(i: nat, j: nat)
    requires i < j < |TAGS|
    ensures Name(TAGS[i]) != Name(TAGS[j])
  {
  }

  lemma {:induction false} TagFound(i: nat, j: nat)
    requires i <= j < |TAGS|
    ensures TagFrom(Name(TAGS[j]), i) == Some(TAGS[j])
    decreases j - i
  {
    if i < j {
      NamesDiffer(i, j);
      TagFound(i + 1, j);
    }
  }

  lemma NameRoundTrip(tag: Tag)
    ensures TagOf(Name(tag)) == Some(tag)
  {
    var j :| 0 <= j < |TAGS| && TAGS[j] == tag by { TagListed(tag); }
    TagFound(0, j);
  }

  lemma TagListed(tag: Tag)
    ensures exists j :: 0 <= j < |TAGS| && TAGS[j] == tag
  {
    var j := match tag
      case NullTag => 0 case JsonTag => 1 case BoolTag => 2 case IntegerTag => 3 case FloatTag => 4
      case StringTag => 5 case BytesTag => 6 case DecimalTag => 7 case DateTimeTag => 8 case DateTag => 9
      case TimeTag => 10 case UuidTag => 11 case EnumTag => 12;
    assert TAGS[j] == tag;
  }

  function Tagged(tag: Tag, v: Json): Json {
    JObject(map["t" := JText(Name(tag)), "v" := v])
  }

  function ToJson(v: Value): Option<Json> {
    match v
    case Nothing => Some(JNull)
    case Bool(b) => Some(JBool(b))
    case Integer(i) => Some(JNumber(i))
    case Float(Finite(f)) => Some(JReal(f))
    case Text(s) => Some(JText(s))
    case Tree(j) => Some(j)
    case _ => None
  }

  function FromJson(j: Json): Value {
    match j
    case JNull => Nothing
    case JBool(b) => Bool(b)
    case JNumber(n) => Integer(n)
    case JReal(f) => Float(Finite(f))
    case JText(s) => Text(s)
    case JList(_) => Tree(j)
    case JObject(_) => Tree(j)
  }

  /** `encode_value` */
  function Encode(lib: Formats, v: Value, jsonColumn: bool := false): Result<Json, StreamError>
    decreases v
  {
    if v.Nothing? then Ok(JObject(map["t" := JText(Name(NullTag))]))
    else if jsonColumn then
      match ToJson(v)
      case Some(j) => Ok(Tagged(JsonTag, j))
      case None => Err(NotSerializable)
    else if v.Bool? then Ok(Tagged(BoolTag, JBool(v.b)))
    else if v.Enumerated? then
      match Encode(lib, v.member)
      case Ok(j) => Ok(Tagged(EnumTag, j))
      case Err(e) => Err(e)
    else if v.Tree? then Err(Unsupported)
    else Ok(Tagged(TagFor(v), JText(Shown(lib, v))))
  }

  /** Values whose payload is a string. */
  predicate Textual(v: Value) {
    !v.Nothing? && !v.Bool? && !v.Enumerated? && !v.Tree?
  }

  function Shown(lib: Formats, v: Value): string
    requires Textual(v)
  {
    match v
    case Integer(i) => lib.integer.show(i)
    case Float(Finite(f)) => lib.float.show(f)
    case Float(NotANumber) => "nan"
    case Float(Infinity) => "inf"
    case Float(NegativeInfinity) => "-inf"
    case Text(s) => s
    case Bytes(b) => lib.bytes.show(b)
    case Decimal(a) => lib.decimal.show(a)
    case DateTime(a) => lib.datetime.show(a)
    case Date(a) => lib.date.show(a)
    case Time(a) => lib.time.show(a)
    case Uuid(a) => lib.uuid.show(a)
  }

  function TagFor(v: Value): Tag
    requires Textual(v)
  {
    match v
    case Integer(_) => IntegerTag
    case Float(_) => FloatTag
    case Text(_) => StringTag
    case Bytes(_) => BytesTag
    case Decimal(_) => DecimalTag
    case DateTime(_) => DateTimeTag
    case Date(_) => DateTag
    case Time(_) => TimeTag
    case Uuid(_) => UuidTag
  }

  function Parsed<T(!new)>(o: Option<T>, wrap: T -> Value): Result<Value, StreamError> {
    match o
    case Some(x) => Ok(wrap(x))
    case None => Err(MalformedCodec)
  }

  /** `decode_value` */
  function Decode(lib: Formats, j: Json): Result<Value, StreamError> {
    if !j.JObject? || "t" !in j.fields || !j.fields["t"].JText? then Err(MalformedCodec)
    else DecodeTagged(lib, j.fields, TagOf(j.fields["t"].s))
  }

  function DecodeTagged(lib: Formats, fields: map<string, Json>, tag: Option<Tag>): Result<Value, StreamError> {
    if tag == Some(NullTag) then
      if fields.Keys != {"t"} then Err(MalformedCodec) else Ok(Nothing)
    else if tag == Some(JsonTag) then
      if "v" !in fields then Err(MalformedCodec) else Ok(FromJson(fields["v"]))
    else if tag == Some(BoolTag) then
      if "v" !in fields || !fields["v"].JBool? then Err(MalformedCodec) else Ok(Bool(fields["v"].b))
    else if "v" !in fields || !fields["v"].JText? then
      Err(MalformedCodec)
    else
      match tag
      case None => Err(UnknownTag)
      case Some(t) => DecodeText(lib, t, fields["v"].s)
  }

  function DecodeText(lib: Formats, tag: Tag, raw: string): Result<Value, StreamError> {
    match tag
    case IntegerTag => Parsed(lib.integer.parse(raw), x => Integer(x))
    case FloatTag =>
      if raw == "nan" then Ok(Float(NotANumber))
      else if raw == "inf" then Ok(Float(Infinity))
      else if raw == "-inf" then Ok(Float(NegativeInfinity))
      else Parsed(lib.float.parse(raw), x => Float(Finite(x)))
    case StringTag => Ok(Text(raw))
    case BytesTag => Parsed(lib.bytes.parse(raw), x => Bytes(x))
    case DecimalTag => Parsed(lib.decimal.parse(raw), x => Decimal(x))
    case DateTimeTag => Parsed(lib.datetime.parse(raw), x => DateTime(x))
    case DateTag => Parsed(lib.date.parse(raw), x => Date(x))
    case TimeTag => Parsed(lib.time.parse(raw), x => Time(x))
    case UuidTag => Parsed(lib.uuid.parse(raw), x => Uuid(x))
    // an enum's payload is decoded as a value of its own, which a bare string is not
    case EnumTag => Err(MalformedCodec)
    case _ => Err(MalformedCodec)
  }

  /** Only the thirteen names are tags. */
  lemma {:induction false} TagIsNamed(s: string, i: nat)
    requires i <= |TAGS|
    ensures TagFrom(s, i).Some? ==> Name(TagFrom(s, i).value) == s
    decreases |TAGS| - i
  {
    if i < |TAGS| { TagIsNamed(s, i + 1); }
  }

  lemma TagOfIff(s: string, tag: Tag)
    ensures TagOf(s) == Some(tag) <==> s == Name(tag)
  {
    TagIsNamed(s, 0);
    NameRoundTrip(tag);
  }

  /** What a payload stands for, tag by tag; an enum or an unknown tag stands for nothing. */
  ghost predicate StandsFor(lib: Formats, j: Json, v: Value) {
    && j.JObject? && "t" in j.fields && j.fields["t"].JText?
    && var name := j.fields["t"].s;
       if name == "null" then j.fields.Keys == {"t"} && v == Nothing
       else
         "v" in j.fields
         && var p := j.fields["v"];
            || (name == "json" && v == FromJson(p))
            || (name == "bool" && p.JBool? && v == Bool(p.b))
            || (p.JText? && TextStandsFor(lib, name, p.s, v))
  }

  ghost predicate TextStandsFor(lib: Formats, name: string, raw: string, v: Value) {
    match v
    case Text(s) => name == "string" && raw == s
    case Integer(i) => name == "integer" && lib.integer.parse(raw) == Some(i)
    case Float(NotANumber) => name == "float" && raw == "nan"
    case Float(Infinity) => name == "float" && raw == "inf"
    case Float(NegativeInfinity) => name == "float" && raw == "-inf"
    case Float(Finite(f)) => name == "float" && raw !in SPECIAL_FLOATS && lib.float.parse(raw) == Some(f)
    case Bytes(b) => name == "bytes" && lib.bytes.parse(raw) == Some(b)
    case Decimal(a) => name == "decimal" && lib.decimal.parse(raw) == Some(a)
    case DateTime(a) => name == "datetime" && lib.datetime.parse(raw) == Some(a)
    case Date(a) => name == "date" && lib.date.parse(raw) == Some(a)
    case Time(a) => name == "time" && lib.time.parse(raw) == Some(a)
    case Uuid(a) => name == "uuid" && lib.uuid.parse(raw) == Some(a)
    case _ => false
  }

  /** A payload is decoded exactly to what it stands for, and refused exactly if it stands for nothing. */
  lemma DecodeIff(lib: Formats, j: Json, v: Value)
    ensures Decode(lib, j) == Ok(v) <==> StandsFor(lib, j, v)
  {
    if j.JObject? && "t" in j.fields && j.fields["t"].JText? {
      var name := j.fields["t"].s;
      var tag := TagOf(name);
      TagOfIff(name, NullTag);
      TagOfIff(name, JsonTag);
      TagOfIff(name, BoolTag);
      if tag != Some(NullTag) && tag != Some(JsonTag) && tag != Some(BoolTag) && "v" in j.fields && j.fields["v"].JText? {
        TextIff(lib, name, j.fields["v"].s, v);
      } else if "v" in j.fields && j.fields["v"].JText? {
        NotText(lib, name, j.fields["v"].s, v);
      }
    }
  }

  /** What `DecodeTagged` makes of a text. */
  function DecodeAny(lib: Formats, tag: Option<Tag>, raw: string): Result<Value, StreamError> {
    if tag.None? then Err(UnknownTag) else DecodeText(lib, tag.value, raw)
  }

  lemma TextIff(lib: Formats, name: string, raw: string, v: Value)
    requires TagOf(name) != Some(NullTag) && TagOf(name) != Some(JsonTag) && TagOf(name) != Some(BoolTag)
    ensures DecodeAny(lib, TagOf(name), raw) == Ok(v) <==> TextStandsFor(lib, name, raw, v)
  {
    TextByTag(lib, name, raw, v);
    if TagOf(name).Some? {
      DecodeTextIff(lib, TagOf(name).value, raw, v);
    }
  }

  /** A null, bool or json tag never goes with one of the other names. */
  lemma NotText(lib: Formats, name: string, raw: string, v: Value)
    requires TagOf(name) in {Some(NullTag), Some(JsonTag), Some(BoolTag)}
    ensures !TextStandsFor(lib, name, raw, v)
  {
    TextByTag(lib, name, raw, v);
  }

  lemma TextByTag(lib: Formats, name: string, raw: string, v: Value)
    ensures TextStandsFor(lib, name, raw, v) <==> Textual(v) && TagOf(name) == Some(TagFor(v)) && Reads(lib, raw, v)
  {
    TextByName(lib, name, raw, v);
    if Textual(v) {
      TagOfIff(name, TagFor(v));
    }
  }

  lemma TextByName(lib: Formats, name: string, raw: string, v: Value)
    ensures TextStandsFor(lib, name, raw, v) <==> Textual(v) && name == Name(TagFor(v)) && Reads(lib, raw, v)
  {
  }

  /** The text of `v`, with the name of its tag left open. */
  ghost predicate Reads(lib: Formats, raw: string, v: Value)
    requires Textual(v)
  {
    TextStandsFor(lib, Name(TagFor(v)), raw, v)
  }

  lemma DecodeTextIff(lib: Formats, tag: Tag, raw: string, v: Value)
    ensures DecodeText(lib, tag, raw) == Ok(v) <==> Textual(v) && tag == TagFor(v) && Reads(lib, raw, v)
  {
  }

  /**
   What was encoded is decoded to itself, except for enum members: their payload is an object,
   and the decoder turns it down before it looks at the tag.
   */
  lemma RoundTrip(lib: Formats, v: Value, jsonColumn: bool)
    requires lib.Faithful() && v.Canonical()
    requires Encode(lib, v, jsonColumn).Ok?
    ensures var d := Decode(lib, Encode(lib, v, jsonColumn).value);
            if v.Enumerated? then d.Err? else d == Ok(v)
  {
    if v.Nothing? {
      NameRoundTrip(NullTag);
    } else if jsonColumn {
      DecodeOfTagged(lib, JsonTag, ToJson(v).value);
    } else if v.Enumerated? {
      EncodedIsObject(lib, v.member, false);
      DecodeOfTagged(lib, EnumTag, Encode(lib, v.member).value);
    } else if v.Bool? {
      DecodeOfTagged(lib, BoolTag, JBool(v.b));
    } else {
      DecodeOfTagged(lib, TagFor(v), JText(Shown(lib, v)));
      TextRoundTrip(lib, v);
    }
  }

  lemma DecodeOfTagged(lib: Formats, tag: Tag, v: Json)
    ensures var fields := Tagged(tag, v).fields;
            && "v" in fields && fields["v"] == v
            && Decode(lib, Tagged(tag, v)) == DecodeTagged(lib, fields, Some(tag))
  {
    NameRoundTrip(tag);
    var fields := Tagged(tag, v).fields;
    assert fields["t"] == JText(Name(tag));
  }

  lemma TextRoundTrip(lib: Formats, v: Value)
    requires lib.Faithful() && Textual(v)
    ensures DecodeText(lib, TagFor(v), Shown(lib, v)) == Ok(v)
  {
    if v.Float? {
      SpecialsDiffer();
    }
  }

  lemma SpecialsDiffer()
    ensures "nan" != "inf" && "nan" != "-inf" && "inf" != "-inf"
  {
    assert "nan"[0] != "inf"[0];
  }

  lemma EncodedIsObject(lib: Formats, v: Value, jsonColumn: bool)
    ensures Encode(lib, v, jsonColumn).Ok? ==> Encode(lib, v, jsonColumn).value.JObject?
  {
  }

  /** The value inside any number of enum members. */
  function Innermost(v: Value): Value
    decreases v
  {
    match v case Enumerated(m) => Innermost(m) case _ => v
  }

  /** Every value can be written, but for lists and objects outside a JSON column, and library types inside one. */
  lemma {:induction false} EncodableIff(lib: Formats, v: Value, jsonColumn: bool)
    ensures Encode(lib, v, jsonColumn).Ok? <==>
              if jsonColumn then
                || v.Nothing? || v.Bool? || v.Integer? || v.Text? || v.Tree?
                || (v.Float? && v.r.Finite?)
              else !Innermost(v).Tree?
    decreases v
  {
    if !jsonColumn && v.Enumerated? { EncodableIff(lib, v.member, false); }
  }

  // ---------------------------------------------------------------- what an export writes

  datatype Column = Column(name: string, json: bool)

  datatype Table = Table(name: string, columns: seq<Column>)

  type Row = seq<Value>

  type Contents = map<string, seq<Row>>

  /** Every declared table has rows, and every row one value per column. */
  ghost predicate Fits(tables: seq<Table>, contents: Contents) {
    forall i :: 0 <= i < |tables| ==>
      && tables[i].name in contents
      && forall r: Row :: r in contents[tables[i].name] ==>
           |r| == |tables[i].columns| && forall k :: 0 <= k < |r| ==> r[k].Canonical()
  }

  predicate RowEncodable(lib: Formats, t: Table, row: Row)
    requires |row| == |t.columns|
  {
    forall k :: 0 <= k < |row| ==> Encode(lib, row[k], t.columns[k].json).Ok?
  }

  ghost predicate TableEncodable(lib: Formats, t: Table, rows: seq<Row>)
    requires forall r :: r in rows ==> |r| == |t.columns|
  {
    forall r :: r in rows ==> RowEncodable(lib, t, r)
  }

  ghost predicate Encodable(lib: Formats, tables: seq<Table>, contents: Contents)
    requires Fits(tables, contents)
  {
    FirstEncodable(lib, tables, contents, |tables|)
  }

  ghost predicate FirstEncodable(lib: Formats, tables: seq<Table>, contents: Contents, n: nat)
    requires n <= |tables| && Fits(tables, contents)
  {
    n == 0 || (FirstEncodable(lib, tables, contents, n - 1) && TableEncodable(lib, tables[n - 1], contents[tables[n - 1].name]))
  }

  lemma {:induction false} EachEncodable(lib: Formats, tables: seq<Table>, contents: Contents, n: nat, i: nat)
    requires i < n <= |tables| && Fits(tables, contents) && FirstEncodable(lib, tables, contents, n)
    ensures TableEncodable(lib, tables[i], contents[tables[i].name])
  {
    if i < n - 1 { EachEncodable(lib, tables, contents, n - 1, i); }
  }

  ghost predicate HasEnum(row: Row) {
    exists k :: 0 <= k < |row| && row[k].Enumerated?
  }

  function ColumnJson(c: Column): Json {
    JObject(map["name" := JText(c.name)])
  }

  function TableJson(t: Table): Json {
    JObject(map["name" := JText(t.name),
                "columns" := JList(seq(|t.columns|, k requires 0 <= k < |t.columns| => ColumnJson(t.columns[k])))])
  }

  const KIND := "arborpress.database"
  const VERSION := 1
  const ROW_KIND := "row"

  function Header(tables: seq<Table>): Json {
    JObject(map["kind" := JText(KIND), "format_version" := JNumber(VERSION),
                "tables" := JList(seq(|tables|, i requires 0 <= i < |tables| => TableJson(tables[i])))])
  }

  /** The payload of an encodable value; the export stops at any other. */
  function Payload(r: Result<Json, StreamError>): Json {
    if r.Ok? then r.value else JNull
  }

  function RowValues(lib: Formats, t: Table, row: Row): seq<Json>
    requires |row| == |t.columns|
  {
    seq(|row|, k requires 0 <= k < |row| => Payload(Encode(lib, row[k], t.columns[k].json)))
  }

  function RowRecord(lib: Formats, t: Table, row: Row): Json
    requires |row| == |t.columns|
  {
    JObject(map["kind" := JText(ROW_KIND), "table" := JText(t.name), "values" := JList(RowValues(lib, t, row))])
  }

  ghost function TableRecords(lib: Formats, t: Table, rows: seq<Row>): seq<Json>
    requires forall r :: r in rows ==> |r| == |t.columns|
  {
    seq(|rows|, i requires 0 <= i < |rows| => RowRecord(lib, t, rows[i]))
  }

  ghost function Parts(lib: Formats, tables: seq<Table>, contents: Contents): (r: seq<seq<Json>>)
    requires Fits(tables, contents)
    ensures |r| == |tables|
    ensures forall i :: 0 <= i < |r| ==> r[i] == TableRecords(lib, tables[i], contents[tables[i].name])
  {
    seq(|tables|, i requires 0 <= i < |tables| => TableRecords(lib, tables[i], contents[tables[i].name]))
  }

  /** The row records of the first `n` tables, table after table. */
  ghost function RowRecords(lib: Formats, tables: seq<Table>, contents: Contents, n: nat): seq<Json>
    requires n <= |tables| && Fits(tables, contents)
  {
    Flatten(Parts(lib, tables, contents), n)
  }

  ghost function RowTotal(tables: seq<Table>, counts: map<string, nat>, n: nat): nat
    requires n <= |tables| && forall i :: 0 <= i < n ==> tables[i].name in counts
  {
    if n == 0 then 0 else RowTotal(tables, counts, n - 1) + counts[tables[n - 1].name]
  }

  ghost predicate DistinctNames(tables: seq<Table>) {
    forall i, j :: 0 <= i < j < |tables| ==> tables[i].name != tables[j].name
  }

  method EncodeRow(lib: Formats, t: Table, row: Row) returns (r: Result<Json, StreamError>)
    requires |row| == |t.columns|
    ensures r.Ok? <==> RowEncodable(lib, t, row)
    ensures r.Ok? ==> r.value == RowRecord(lib, t, row)
  {
    var values: seq<Json> := [];
    var k := 0;
    while k < |row|
      invariant 0 <= k == |values| <= |row|
      invariant forall i :: 0 <= i < k ==> Encode(lib, row[i], t.columns[i].json) == Ok(values[i])
    {
      var e := Encode(lib, row[k], t.columns[k].json);
      if e.Err? {
        return Err(e.error);
      }
      values := values + [e.value];
      k := k + 1;
    }
    assert values == RowValues(lib, t, row);
    return Ok(JObject(map["kind" := JText(ROW_KIND), "table" := JText(t.name), "values" := JList(values)]));
  }

  /** The inner loop of `_write_export`: one table's rows, counted. */
  method WriteTable(lib: Formats, t: Table, rows: seq<Row>)
    returns (r: Result<(seq<Json>, nat), StreamError>)
    requires forall row :: row in rows ==> |row| == |t.columns|
    ensures r.Ok? <==> TableEncodable(lib, t, rows)
    ensures r.Ok? ==> r.value == (TableRecords(lib, t, rows), |rows|)
  {
    var records: seq<Json> := [];
    var count := 0;
    while count < |rows|
      invariant 0 <= count <= |rows|
      invariant TableEncodable(lib, t, rows[..count])
      invariant records == TableRecords(lib, t, rows[..count])
    {
      assert rows[count] in rows;
      var e := EncodeRow(lib, t, rows[count]);
      if e.Err? {
        return Err(e.error);
      }
      assert rows[..count + 1] == rows[..count] + [rows[count]];
      assert TableRecords(lib, t, rows[..count + 1]) == TableRecords(lib, t, rows[..count]) + [e.value];
      records := records + [e.value];
      count := count + 1;
    }
    assert rows[..count] == rows;
    return Ok((records, count));
  }

  ghost predicate Counted(tables: seq<Table>, contents: Contents, counts: map<string, nat>, n: nat)
    requires n <= |tables| && Fits(tables, contents)
  {
    forall i :: 0 <= i < n ==>
      tables[i].name in counts && counts[tables[i].name] == |contents[tables[i].name]|
  }

  lemma EncodeOneMore(lib: Formats, tables: seq<Table>, contents: Contents, n: nat)
    requires n < |tables| && Fits(tables, contents)
    ensures FirstEncodable(lib, tables, contents, n + 1)
        <==> FirstEncodable(lib, tables, contents, n) && TableEncodable(lib, tables[n], contents[tables[n].name])
    ensures RowRecords(lib, tables, contents, n + 1)
         == RowRecords(lib, tables, contents, n) + TableRecords(lib, tables[n], contents[tables[n].name])
  {
  }

  lemma CountOneMore(tables: seq<Table>, contents: Contents, counts: map<string, nat>, n: nat)
    requires n < |tables| && Fits(tables, contents) && DistinctNames(tables)
    requires Counted(tables, contents, counts, n)
    ensures Counted(tables, contents, counts[tables[n].name := |contents[tables[n].name]|], n + 1)
  {
    forall i | 0 <= i < n ensures tables[i].name != tables[n].name { }
  }

  /** What the exporter has written after its header, and counted, after `n` tables. */
  ghost predicate Exported(lib: Formats, tables: seq<Table>, contents: Contents, n: nat, rows: seq<Json>,
      counts: map<string, nat>)
    requires n <= |tables| && Fits(tables, contents)
  {
    && FirstEncodable(lib, tables, contents, n) && Counted(tables, contents, counts, n)
    && rows == RowRecords(lib, tables, contents, n)
  }

  lemma ExportOneMore(lib: Formats, tables: seq<Table>, contents: Contents, n: nat, rows: seq<Json>,
      counts: map<string, nat>)
    requires n < |tables| && Fits(tables, contents) && DistinctNames(tables)
    requires Exported(lib, tables, contents, n, rows, counts)
    requires TableEncodable(lib, tables[n], contents[tables[n].name])
    ensures var more := contents[tables[n].name];
            Exported(lib, tables, contents, n + 1, rows + TableRecords(lib, tables[n], more), counts[tables[n].name := |more|])
  {
    EncodeOneMore(lib, tables, contents, n);
    CountOneMore(tables, contents, counts, n);
  }

  lemma NotEncodable(lib: Formats, tables: seq<Table>, contents: Contents, n: nat)
    requires n < |tables| && Fits(tables, contents) && !TableEncodable(lib, tables[n], contents[tables[n].name])
    ensures !Encodable(lib, tables, contents)
  {
    if Encodable(lib, tables, contents) {
      EachEncodable(lib, tables, contents, |tables|, n);
      assert false;
    }
  }

  /** One round of the loop over the tables in `_write_export`. */
  method WriteNext(lib: Formats, tables: seq<Table>, contents: Contents, n: nat, records: seq<Json>,
      counts: map<string, nat>)
    returns (r: Result<(seq<Json>, map<string, nat>), StreamError>)
    requires n < |tables| && Fits(tables, contents) && DistinctNames(tables)
    requires Exported(lib, tables, contents, n, records, counts)
    ensures r.Err? ==> !Encodable(lib, tables, contents)
    ensures r.Ok? ==> Exported(lib, tables, contents, n + 1, r.value.0, r.value.1)
  {
    var t := tables[n];
    var w := WriteTable(lib, t, contents[t.name]);
    if w.Err? {
      NotEncodable(lib, tables, contents, n);
      return Err(w.error);
    }
    ExportOneMore(lib, tables, contents, n, records, counts);
    return Ok((records + w.value.0, counts[t.name := w.value.1]));
  }

  method WriteTables(lib: Formats, tables: seq<Table>, contents: Contents)
    returns (r: Result<(seq<Json>, map<string, nat>), StreamError>)
    requires Fits(tables, contents) && DistinctNames(tables)
    ensures r.Err? ==> !Encodable(lib, tables, contents)
    ensures r.Ok? ==> Exported(lib, tables, contents, |tables|, r.value.0, r.value.1)
  {
    r := Ok(([], map[]));
    var n := 0;
    while n < |tables|
      invariant 0 <= n <= |tables|
      invariant r.Ok? && Exported(lib, tables, contents, n, r.value.0, r.value.1)
    {
      r := WriteNext(lib, tables, contents, n, r.value.0, r.value.1);
      if r.Err? {
        return;
      }
      n := n + 1;
    }
  }

  /** `_write_export`: the header, then every table's rows; rows are counted per table. */
  method WriteExport(lib: Formats, tables: seq<Table>, contents: Contents)
    returns (r: Result<(seq<Json>, map<string, nat>), StreamError>)
    requires Fits(tables, contents) && DistinctNames(tables)
    ensures r.Ok? <==> Encodable(lib, tables, contents)
    ensures r.Ok? ==>
              && r.value.0 == [Header(tables)] + RowRecords(lib, tables, contents, |tables|)
              && Counted(tables, contents, r.value.1, |tables|)
  {
    var rows := WriteTables(lib, tables, contents);
    if rows.Err? {
      return Err(rows.error);
    }
    return Ok(([Header(tables)] + rows.value.0, rows.value.1));
  }

  // ---------------------------------------------------------------- the validator

  function Field(j: Json, name: string): Option<Json> {
    if j.JObject? && name in j.fields then Some(j.fields[name]) else None
  }

  predicate IsText(o: Option<Json>) {
    o.Some? && o.value.JText?
  }

  predicate IsList(o: Option<Json>) {
    o.Some? && o.value.JList?
  }

  /** The name and the number of columns of a table declaration, if it is well formed. */
  function Declaration(j: Json): Option<(string, nat)> {
    if && IsText(Field(j, "name")) && IsList(Field(j, "columns"))
       && forall k :: 0 <= k < |Field(j, "columns").value.items| ==>
            IsText(Field(Field(j, "columns").value.items[k], "name"))
    then Some((Field(j, "name").value.s, |Field(j, "columns").value.items|))
    else None
  }

  /** The column counts that the first `n` table declarations announce. */
  function Declared(items: seq<Json>, n: nat): Result<map<string, nat>, StreamError>
    requires n <= |items|
  {
    if n == 0 then Ok(map[])
    else
      match Declared(items, n - 1)
      case Err(e) => Err(e)
      case Ok(columns) =>
        match Declaration(items[n - 1])
        case None => Err(MalformedTable)
        case Some(d) => if d.0 in columns then Err(MalformedTable) else Ok(columns[d.0 := d.1])
  }

  predicate HeaderKindOk(j: Json) {
    && Field(j, "kind") == Some(JText(KIND))
    && Field(j, "format_version") == Some(JNumber(VERSION))
  }

  function HeaderColumns(j: Json): Result<map<string, nat>, StreamError> {
    if !HeaderKindOk(j) then Err(UnsupportedHeader)
    else if !IsList(Field(j, "tables")) then Err(MalformedTable)
    else Declared(Field(j, "tables").value.items, |Field(j, "tables").value.items|)
  }

  predicate RowShapeOk(columns: map<string, nat>, j: Json) {
    && Field(j, "kind") == Some(JText(ROW_KIND))
    && IsText(Field(j, "table")) && Field(j, "table").value.s in columns
    && IsList(Field(j, "values"))
    && |Field(j, "values").value.items| == columns[Field(j, "table").value.s]
  }

  predicate Decodable(lib: Formats, items: seq<Json>) {
    forall k :: 0 <= k < |items| ==> Decode(lib, items[k]).Ok?
  }

  predicate RowOk(lib: Formats, columns: map<string, nat>, j: Json) {
    RowShapeOk(columns, j) && Decodable(lib, Field(j, "values").value.items)
  }

  ghost predicate StreamOk(lib: Formats, records: seq<Json>) {
    && |records| > 0
    && HeaderColumns(records[0]).Ok?
    && RowsOk(lib, HeaderColumns(records[0]).value, records[1..])
  }

  ghost predicate RowsOk(lib: Formats, columns: map<string, nat>, rows: seq<Json>) {
    forall j :: j in rows ==> RowOk(lib, columns, j)
  }

  // ---------------------------------------------------------------- what is accepted, field by field

  predicate IsColumn(j: Json) { j.JObject? && "name" in j.fields && j.fields["name"].JText? }

  predicate IsTable(j: Json) {
    && j.JObject? && "name" in j.fields && j.fields["name"].JText? && "columns" in j.fields && j.fields["columns"].JList?
    && AllColumns(j.fields["columns"].items)
  }

  predicate AllColumns(items: seq<Json>) { forall k :: 0 <= k < |items| ==> IsColumn(items[k]) }

  function NameOf(j: Json): string { if IsTable(j) then j.fields["name"].s else "" }

  ghost function NamesIn(items: seq<Json>, n: nat): set<string>
    requires n <= |items|
  {
    set i | 0 <= i < n :: NameOf(items[i])
  }

  lemma NamesOneMore(items: seq<Json>, n: nat)
    requires 0 < n <= |items|
    ensures NamesIn(items, n) == NamesIn(items, n - 1) + {NameOf(items[n - 1])}
  {
  }

  /** The first `n` items are table declarations of different names, and `columns` has the column count of each. */
  ghost predicate Declares(items: seq<Json>, n: nat, columns: map<string, nat>)
    requires n <= |items|
  {
    DifferentTables(items, n) && columns.Keys == NamesIn(items, n) && Counts(items, n, columns)
  }

  ghost predicate DifferentTables(items: seq<Json>, n: nat)
    requires n <= |items|
  {
    && (forall i :: 0 <= i < n ==> IsTable(items[i]))
    && (forall i, j :: 0 <= i < j < n ==> NameOf(items[i]) != NameOf(items[j]))
  }

  ghost predicate Counts(items: seq<Json>, n: nat, columns: map<string, nat>)
    requires n <= |items|
  {
    forall i :: 0 <= i < n ==> NameOf(items[i]) in columns && columns[NameOf(items[i])] == Width(items[i])
  }

  function Width(j: Json): nat { if IsTable(j) then |j.fields["columns"].items| else 0 }

  lemma DeclarationIff(j: Json)
    ensures Declaration(j).Some? <==> IsTable(j)
    ensures IsTable(j) ==> Declaration(j) == Some((NameOf(j), |j.fields["columns"].items|))
  {
    if Declaration(j).Some? {
      var items := j.fields["columns"].items;
      forall k | 0 <= k < |items| ensures IsColumn(items[k]) { assert IsText(Field(items[k], "name")); }
    }
    if IsTable(j) {
      forall k | 0 <= k < |j.fields["columns"].items| ensures IsText(Field(j.fields["columns"].items[k], "name")) {
        assert IsColumn(j.fields["columns"].items[k]);
      }
    }
  }

  /** The last declaration, and those before it. */
  lemma DeclaredStep(items: seq<Json>, n: nat)
    requires 0 < n <= |items| && Declared(items, n - 1).Ok?
    ensures Declared(items, n).Ok? <==> IsTable(items[n - 1]) && NameOf(items[n - 1]) !in Declared(items, n - 1).value
    ensures Declared(items, n).Ok? ==>
              Declared(items, n).value == Declared(items, n - 1).value[NameOf(items[n - 1]) := Width(items[n - 1])]
  {
    DeclarationIff(items[n - 1]);
  }

  lemma {:induction false} DeclaredGives(items: seq<Json>, n: nat)
    requires n <= |items| && Declared(items, n).Ok?
    ensures Declares(items, n, Declared(items, n).value)
    decreases n
  {
    if n > 0 {
      DeclaredGives(items, n - 1);
      DeclaredStep(items, n);
      OneTableMore(items, n, Declared(items, n - 1).value);
    }
  }

  lemma {:induction false} DifferentAreDeclared(items: seq<Json>, n: nat)
    requires n <= |items| && DifferentTables(items, n)
    ensures Declared(items, n).Ok?
    decreases n
  {
    if n > 0 {
      DifferentAreDeclared(items, n - 1);
      DeclaredGives(items, n - 1);
      LastIsNew(items, n);
      DeclaredStep(items, n);
    }
  }

  lemma LastIsNew(items: seq<Json>, n: nat)
    requires 0 < n <= |items| && DifferentTables(items, n)
    ensures IsTable(items[n - 1]) && NameOf(items[n - 1]) !in NamesIn(items, n - 1)
  {
  }

  /** The declarations decide the column counts. */
  lemma CountsAreUnique(items: seq<Json>, n: nat, a: map<string, nat>, b: map<string, nat>)
    requires n <= |items| && Declares(items, n, a) && Declares(items, n, b)
    ensures a == b
  {
    forall name | name in a ensures a[name] == b[name] {
      assert name in NamesIn(items, n);
    }
  }

  lemma DeclaredIff(items: seq<Json>, columns: map<string, nat>)
    ensures Declared(items, |items|) == Ok(columns) <==> Declares(items, |items|, columns)
  {
    if Declared(items, |items|).Ok? { DeclaredGives(items, |items|); }
    if Declares(items, |items|, columns) {
      DifferentAreDeclared(items, |items|);
      DeclaredGives(items, |items|);
      CountsAreUnique(items, |items|, columns, Declared(items, |items|).value);
    }
  }

  lemma OneTableMore(items: seq<Json>, n: nat, before: map<string, nat>)
    requires 0 < n <= |items| && Declares(items, n - 1, before) && IsTable(items[n - 1]) && NameOf(items[n - 1]) !in before
    ensures Declares(items, n, before[NameOf(items[n - 1]) := Width(items[n - 1])])
  {
    NamesOneMore(items, n);
    forall i | 0 <= i < n - 1 ensures NameOf(items[i]) in before && NameOf(items[i]) != NameOf(items[n - 1]) {
    }
    assert DifferentTables(items, n);
    assert Counts(items, n, before[NameOf(items[n - 1]) := Width(items[n - 1])]);
  }

  /** A header of this program and version, which declares its tables. */
  ghost predicate IsHeader(j: Json, columns: map<string, nat>) {
    && j.JObject? && "kind" in j.fields && j.fields["kind"] == JText("arborpress.database")
    && "format_version" in j.fields && j.fields["format_version"] == JNumber(1)
    && "tables" in j.fields && j.fields["tables"].JList?
    && Declares(j.fields["tables"].items, |j.fields["tables"].items|, columns)
  }

  /** A row of a declared table, with one value for each column, each of which stands for something. */
  ghost predicate IsRow(lib: Formats, columns: map<string, nat>, j: Json) {
    && j.JObject? && "kind" in j.fields && j.fields["kind"] == JText("row")
    && "table" in j.fields && j.fields["table"].JText? && j.fields["table"].s in columns
    && "values" in j.fields && j.fields["values"].JList?
    && |j.fields["values"].items| == columns[j.fields["table"].s]
    && forall k :: 0 <= k < |j.fields["values"].items| ==> Meaningful(lib, j.fields["values"].items[k])
  }

  ghost predicate Meaningful(lib: Formats, j: Json) { exists v :: StandsFor(lib, j, v) }

  lemma MeaningfulIff(lib: Formats, j: Json)
    ensures Decode(lib, j).Ok? <==> Meaningful(lib, j)
  {
    if Decode(lib, j).Ok? { DecodeIff(lib, j, Decode(lib, j).value); }
    if v :| StandsFor(lib, j, v) { DecodeIff(lib, j, v); }
  }

  lemma RowIff(lib: Formats, columns: map<string, nat>, j: Json)
    ensures RowOk(lib, columns, j) <==> IsRow(lib, columns, j)
  {
    if RowShapeOk(columns, j) {
      var items := j.fields["values"].items;
      forall k | 0 <= k < |items| ensures Decode(lib, items[k]).Ok? <==> Meaningful(lib, items[k]) {
        MeaningfulIff(lib, items[k]);
      }
    }
  }

  lemma HeaderIff(j: Json, columns: map<string, nat>)
    ensures HeaderColumns(j) == Ok(columns) <==> IsHeader(j, columns)
  {
    if j.JObject? && "tables" in j.fields && j.fields["tables"].JList? {
      DeclaredIff(j.fields["tables"].items, columns);
    }
  }

  /** Nothing but rows after the first record. */
  ghost predicate OnlyRows(lib: Formats, columns: map<string, nat>, records: seq<Json>) {
    forall k :: 1 <= k < |records| ==> IsRow(lib, columns, records[k])
  }

  lemma OnlyRowsIff(lib: Formats, columns: map<string, nat>, records: seq<Json>)
    requires |records| > 0
    ensures RowsOk(lib, columns, records[1..]) <==> OnlyRows(lib, columns, records)
  {
    var rows := records[1..];
    if RowsOk(lib, columns, rows) {
      forall k | 1 <= k < |records| ensures IsRow(lib, columns, records[k]) {
        assert rows[k - 1] in rows;
        RowIff(lib, columns, records[k]);
      }
    }
    if OnlyRows(lib, columns, records) {
      forall j | j in rows ensures RowOk(lib, columns, j) {
        var k :| 0 <= k < |rows| && rows[k] == j;
        assert IsRow(lib, columns, records[k + 1]);
        RowIff(lib, columns, j);
      }
    }
  }

  /** What the validator accepts: a header, and after it nothing but rows of the tables that it declares. */
  lemma StreamIff(lib: Formats, records: seq<Json>)
    ensures StreamOk(lib, records) <==>
              |records| > 0 && exists columns :: IsHeader(records[0], columns) && OnlyRows(lib, columns, records)
  {
    if StreamOk(lib, records) {
      var columns := HeaderColumns(records[0]).value;
      HeaderIff(records[0], columns);
      OnlyRowsIff(lib, columns, records);
    }
    if |records| > 0 {
      if columns :| IsHeader(records[0], columns) && OnlyRows(lib, columns, records) {
        HeaderIff(records[0], columns);
        OnlyRowsIff(lib, columns, records);
      }
    }
  }

  method ReadHeader(j: Json) returns (r: Result<map<string, nat>, StreamError>)
    ensures r == HeaderColumns(j)
  {
    if !HeaderKindOk(j) {
      return Err(UnsupportedHeader);
    }
    if !IsList(Field(j, "tables")) {
      return Err(MalformedTable);
    }
    var items := Field(j, "tables").value.items;
    var columns: map<string, nat> := map[];
    var n := 0;
    while n < |items|
      invariant 0 <= n <= |items|
      invariant Declared(items, n) == Ok(columns)
    {
      var d := Declaration(items[n]);
      if d.None? || d.value.0 in columns {
        DeclaredErrStays(items, n + 1, |items|);
        return Err(MalformedTable);
      }
      columns := columns[d.value.0 := d.value.1];
      n := n + 1;
    }
    return Ok(columns);
  }

  lemma {:induction false} DeclaredErrStays(items: seq<Json>, n: nat, m: nat)
    requires n <= m <= |items| && Declared(items, n).Err?
    ensures Declared(items, m) == Declared(items, n)
    decreases m
  {
    if n < m { DeclaredErrStays(items, n, m - 1); }
  }

  /** `validate_database_stream` */
  method ValidateStream(lib: Formats, records: seq<Json>) returns (r: Result<nat, StreamError>)
    ensures r.Ok? <==> StreamOk(lib, records)
    ensures r.Ok? ==> r.value == |records| - 1
  {
    if |records| == 0 {
      return Err(EmptyStream);
    }
    var header := ReadHeader(records[0]);
    if header.Err? {
      return Err(header.error);
    }
    var columns := header.value;
    var count := 0;
    while count < |records| - 1
      invariant 0 <= count <= |records| - 1
      invariant RowsOk(lib, columns, records[1..][..count])
    {
      assert records[1..][count] == records[count + 1];
      assert records[1..][..count + 1] == records[1..][..count] + [records[count + 1]];
      var row := ValidateRow(lib, columns, records[count + 1]);
      if row.Err? {
        assert records[1..][count] in records[1..];
        return Err(row.error);
      }
      count := count + 1;
    }
    assert records[1..][..count] == records[1..];
    return Ok(count);
  }

  method ValidateRow(lib: Formats, columns: map<string, nat>, record: Json) returns (r: Result<(), StreamError>)
    ensures r.Ok? <==> RowOk(lib, columns, record)
  {
    if Field(record, "kind") != Some(JText(ROW_KIND)) {
      return Err(MalformedRow);
    }
    if !RowShapeOk(columns, record) {
      return Err(RowMismatch);
    }
    r := DecodeAll(lib, Field(record, "values").value.items);
  }

  lemma DecodableOneMore(lib: Formats, values: seq<Json>, k: nat)
    requires k < |values|
    ensures Decodable(lib, values[..k + 1]) <==> Decodable(lib, values[..k]) && Decode(lib, values[k]).Ok?
    ensures Decodable(lib, values) ==> Decode(lib, values[k]).Ok?
  {
    TakeOneMore(values, k);
  }

  method DecodeAll(lib: Formats, values: seq<Json>) returns (r: Result<(), StreamError>)
    ensures r.Ok? <==> Decodable(lib, values)
  {
    var k := 0;
    while k < |values|
      invariant 0 <= k <= |values|
      invariant Decodable(lib, values[..k])
    {
      var d := Decode(lib, values[k]);
      DecodableOneMore(lib, values, k);
      if d.Err? {
        return Err(d.error);
      }
      k := k + 1;
    }
    TakeAll(values);
    return Ok(());
  }

  // ---------------------------------------------------------------- the two agree

  /** What the header declares of the first `n` tables. */
  function DeclaredColumns(tables: seq<Table>, n: nat): map<string, nat>
    requires n <= |tables|
  {
    if n == 0 then map[] else DeclaredColumns(tables, n - 1)[tables[n - 1].name := |tables[n - 1].columns|]
  }

  lemma {:induction false} OnlyDeclared(tables: seq<Table>, n: nat, name: string) returns (i: nat)
    requires n <= |tables| && name in DeclaredColumns(tables, n)
    ensures i < n && tables[i].name == name
    decreases n
  {
    if name == tables[n - 1].name { i := n - 1; } else { i := OnlyDeclared(tables, n - 1, name); }
  }

  lemma {:induction false} AllDeclared(tables: seq<Table>, n: nat, i: nat)
    requires i < n <= |tables| && DistinctNames(tables)
    ensures tables[i].name in DeclaredColumns(tables, n) && DeclaredColumns(tables, n)[tables[i].name] == |tables[i].columns|
    decreases n
  {
    if i < n - 1 { AllDeclared(tables, n - 1, i); }
  }

  ghost predicate ItemDeclares(item: Json, t: Table) {
    Declaration(item) == Some((t.name, |t.columns|))
  }

  lemma {:induction false} HeaderDeclares(tables: seq<Table>, items: seq<Json>, n: nat)
    requires DistinctNames(tables) && n <= |tables| == |items|
    requires forall i :: 0 <= i < |items| ==> ItemDeclares(items[i], tables[i])
    ensures Declared(items, n) == Ok(DeclaredColumns(tables, n))
    decreases n
  {
    if n > 0 {
      HeaderDeclares(tables, items, n - 1);
      assert ItemDeclares(items[n - 1], tables[n - 1]);
      if tables[n - 1].name in DeclaredColumns(tables, n - 1) {
        var i := OnlyDeclared(tables, n - 1, tables[n - 1].name);
        assert false;
      }
    }
  }

  lemma TableJsonFields(t: Table)
    ensures Declaration(TableJson(t)) == Some((t.name, |t.columns|))
  {
    assert "name"[0] != "columns"[0];
    forall k | 0 <= k < |t.columns|
      ensures IsText(Field(Field(TableJson(t), "columns").value.items[k], "name"))
    {
      assert Field(TableJson(t), "columns").value.items[k] == ColumnJson(t.columns[k]);
    }
  }

  lemma HeaderFields(tables: seq<Table>)
    ensures HeaderKindOk(Header(tables)) && IsList(Field(Header(tables), "tables"))
    ensures var items := Field(Header(tables), "tables").value.items;
            && |items| == |tables|
            && forall i :: 0 <= i < |items| ==> ItemDeclares(items[i], tables[i])
  {
    var items := seq(|tables|, i requires 0 <= i < |tables| => TableJson(tables[i]));
    forall i | 0 <= i < |items| ensures ItemDeclares(items[i], tables[i]) {
      TableJsonFields(tables[i]);
    }
    assert Header(tables).fields["tables"] == JList(items);
    assert "kind"[0] != "tables"[0] && "kind"[0] != "format_version"[0] && "tables"[0] != "format_version"[0];
  }

  lemma RowFields(lib: Formats, t: Table, row: Row)
    requires |row| == |t.columns|
    ensures var j := RowRecord(lib, t, row);
            && Field(j, "kind") == Some(JText(ROW_KIND)) && Field(j, "table") == Some(JText(t.name))
            && Field(j, "values") == Some(JList(RowValues(lib, t, row)))
  {
    assert "kind"[0] != "table"[0] && "kind"[0] != "values"[0] && "table"[0] != "values"[0];
  }

  /** The validator accepts a written row exactly when no value in it is an enum member. */
  lemma WrittenRow(lib: Formats, columns: map<string, nat>, t: Table, row: Row)
    requires lib.Faithful() && |row| == |t.columns| && RowEncodable(lib, t, row)
    requires forall k :: 0 <= k < |row| ==> row[k].Canonical()
    requires t.name in columns && columns[t.name] == |t.columns|
    ensures RowOk(lib, columns, RowRecord(lib, t, row)) <==> !HasEnum(row)
  {
    RowFields(lib, t, row);
    var values := RowValues(lib, t, row);
    forall k | 0 <= k < |row| ensures Decode(lib, values[k]).Ok? <==> !row[k].Enumerated? {
      RoundTrip(lib, row[k], t.columns[k].json);
    }
  }

  ghost predicate RowsHoldEnum(rows: seq<Row>) {
    exists row :: row in rows && HasEnum(row)
  }

  ghost predicate HoldsEnum(tables: seq<Table>, contents: Contents)
    requires Fits(tables, contents)
  {
    exists i :: 0 <= i < |tables| && RowsHoldEnum(contents[tables[i].name])
  }

  /** The validator accepts exactly the exports that hold no enum member. */
  lemma ExportValidates(lib: Formats, tables: seq<Table>, contents: Contents)
    requires lib.Faithful() && Fits(tables, contents) && DistinctNames(tables) && Encodable(lib, tables, contents)
    ensures StreamOk(lib, [Header(tables)] + RowRecords(lib, tables, contents, |tables|))
        <==> !HoldsEnum(tables, contents)
  {
    HeaderIsRead(tables);
    RowsVerdict(lib, tables, contents);
    TailOf(Header(tables), RowRecords(lib, tables, contents, |tables|));
  }

  lemma HeaderIsRead(tables: seq<Table>)
    requires DistinctNames(tables)
    ensures HeaderColumns(Header(tables)) == Ok(DeclaredColumns(tables, |tables|))
  {
    HeaderFields(tables);
    HeaderDeclares(tables, Field(Header(tables), "tables").value.items, |tables|);
  }

  lemma PartsOk(lib: Formats, columns: map<string, nat>, parts: seq<seq<Json>>)
    ensures RowsOk(lib, columns, Flatten(parts, |parts|)) <==> forall i :: 0 <= i < |parts| ==> RowsOk(lib, columns, parts[i])
  {
    FlattenForall(parts, j => RowOk(lib, columns, j));
  }

  lemma RowsVerdict(lib: Formats, tables: seq<Table>, contents: Contents)
    requires lib.Faithful() && Fits(tables, contents) && Encodable(lib, tables, contents) && DistinctNames(tables)
    ensures RowsOk(lib, DeclaredColumns(tables, |tables|), RowRecords(lib, tables, contents, |tables|)) <==> !HoldsEnum(tables, contents)
  {
    var parts, columns := Parts(lib, tables, contents), DeclaredColumns(tables, |tables|);
    PartsOk(lib, columns, parts);
    forall i | 0 <= i < |tables|
      ensures RowsOk(lib, columns, parts[i]) <==> !RowsHoldEnum(contents[tables[i].name])
    {
      AllDeclared(tables, |tables|, i);
      TableVerdict(lib, tables, contents, columns, i);
    }
  }

  lemma TailOf<T>(head: T, rest: seq<T>)
    ensures ([head] + rest)[0] == head && ([head] + rest)[1..] == rest
  {
  }

  lemma TableVerdict(lib: Formats, tables: seq<Table>, contents: Contents, columns: map<string, nat>, i: nat)
    requires lib.Faithful() && Fits(tables, contents) && Encodable(lib, tables, contents)
    requires i < |tables| && tables[i].name in columns && columns[tables[i].name] == |tables[i].columns|
    ensures var rows := contents[tables[i].name];
            RowsOk(lib, columns, TableRecords(lib, tables[i], rows)) <==> !RowsHoldEnum(rows)
  {
    var rows := contents[tables[i].name];
    var records := TableRecords(lib, tables[i], rows);
    forall k | 0 <= k < |rows| ensures RowOk(lib, columns, records[k]) <==> !HasEnum(rows[k]) {
      RowVerdict(lib, tables, contents, columns, i, rows[k]);
    }
    SameVerdict(records, j => RowOk(lib, columns, j), rows, row => !HasEnum(row));
  }

  /** Two lists that agree place by place agree as a whole. */
  lemma SameVerdict<A(!new), B(!new)>(a: seq<A>, p: A -> bool, b: seq<B>, q: B -> bool)
    requires |a| == |b|
    requires forall k :: 0 <= k < |a| ==> p(a[k]) == q(b[k])
    ensures (forall x :: x in a ==> p(x)) <==> (forall y :: y in b ==> q(y))
  {
    if forall x :: x in a ==> p(x) {
      forall y | y in b ensures q(y) {
        var k :| 0 <= k < |b| && b[k] == y;
        assert a[k] in a;
      }
    }
    if forall y :: y in b ==> q(y) {
      forall x | x in a ensures p(x) {
        var k :| 0 <= k < |a| && a[k] == x;
        assert b[k] in b;
      }
    }
  }

  lemma RowVerdict(lib: Formats, tables: seq<Table>, contents: Contents, columns: map<string, nat>, i: nat, row: Row)
    requires lib.Faithful() && Fits(tables, contents) && Encodable(lib, tables, contents)
    requires i < |tables| && tables[i].name in columns && columns[tables[i].name] == |tables[i].columns| && row in contents[tables[i].name]
    ensures RowOk(lib, columns, RowRecord(lib, tables[i], row)) <==> !HasEnum(row)
  {
    EachEncodable(lib, tables, contents, |tables|, i);
    WrittenRow(lib, columns, tables[i], row);
  }

  lemma {:induction false} FlattenedLength(
    parts: seq<seq<Json>>, tables: seq<Table>, counts: map<string, nat>, n: nat)
    requires n <= |parts| == |tables|
    requires forall i :: 0 <= i < n ==> tables[i].name in counts && counts[tables[i].name] == |parts[i]|
    ensures |Flatten(parts, n)| == RowTotal(tables, counts, n)
    decreases n
  {
    if n > 0 {
      FlattenedLength(parts, tables, counts, n - 1);
    }
  }

  /** The number of row records is the sum of the per-table counts. */
  lemma CountsAddUp(lib: Formats, tables: seq<Table>, contents: Contents, counts: map<string, nat>, n: nat)
    requires n <= |tables| && Fits(tables, contents) && Counted(tables, contents, counts, n)
    ensures |RowRecords(lib, tables, contents, n)| == RowTotal(tables, counts, n)
  {
    var parts := Parts(lib, tables, contents);
    forall i | 0 <= i < n ensures counts[tables[i].name] == |parts[i]| {
      assert parts[i] == TableRecords(lib, tables[i], contents[tables[i].name]);
    }
    FlattenedLength(parts, tables, counts, n);
  }

  /** Export, then validate: accepted unless an enum member was written, with the exporter's total. */
  method ExportThenValidate(lib: Formats, tables: seq<Table>, contents: Contents)
    returns (r: Result<nat, StreamError>, total: nat)
    requires lib.Faithful() && Fits(tables, contents) && DistinctNames(tables) && Encodable(lib, tables, contents)
    ensures r.Ok? <==> !HoldsEnum(tables, contents)
    ensures r.Ok? ==> r.value == total
  {
    var written := WriteExport(lib, tables, contents);
    r := ValidateStream(lib, written.value.0);
    ExportValidates(lib, tables, contents);
    CountsAddUp(lib, tables, contents, written.value.1, |tables|);
    total := Total(tables, written.value.1);
  }

  method Total(tables: seq<Table>, counts: map<string, nat>) returns (total: nat)
    requires forall i :: 0 <= i < |tables| ==> tables[i].name in counts
    ensures total == RowTotal(tables, counts, |tables|)
  {
    total := 0;
    var n := 0;
    while n < |tables|
      invariant 0 <= n <= |tables| && total == RowTotal(tables, counts, n)
    {
      total := total + counts[tables[n].name];
      n := n + 1;
    }
  }
}
