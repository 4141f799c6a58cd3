/** ROS1 records: a header of `name=value` fields and a body, each with a 32-bit length in front. */
module Records {
  import opened Wrappers
  import opened Bytes
  import opened Lists

  type Fields = map<seq<byte>, seq<byte>>

  datatype Failure = Malformed | HeaderLimit
  datatype Result<T> = Ok(value: T) | Error(f: Failure)
  datatype Record = Record(fields: Fields, body: seq<byte>, next: nat)
  datatype Field = Field(name: seq<byte>, data: seq<byte>)

  const EQUALS: byte := 61

  function Load32(bytes: seq<byte>, pos: nat): (n: nat)
    requires pos + 4 <= |bytes|
    ensures n <= U32_MAX
  {
    Pow256At8();
    Load(bytes, pos, 4, true)
  }

  function Store32(n: nat): (bs: seq<byte>)
    ensures |bs| == 4
  {
    Store(n, 4, true)
  }

  // ----- fields -----

  /** `std::find(field, '=')`: the position of the first `=`, or the field's size. */
  function FirstEquals(field: seq<byte>): (k: nat)
    ensures k <= |field|
  {
    if field == [] || field[0] == EQUALS then 0 else 1 + FirstEquals(field[1..])
  }

  /** The field whose length word is at `pos`. */
  function FieldAt(input: seq<byte>, pos: nat, end: nat): (r: Result<Field>)
    requires pos < end <= |input|
    ensures r.Ok? ==> pos + 4 + |r.value.name| + 1 + |r.value.data| <= end
  {
    if end - pos < 4 then Error(Malformed)
    else
      var size := Load32(input, pos);
      if size > end - (pos + 4) then Error(Malformed)
      else
        var field := input[pos + 4..pos + 4 + size];
        var equals := FirstEquals(field);
        if equals == size || equals == 0 then Error(Malformed)
        else Ok(Field(field[..equals], field[equals + 1..]))
  }

  function Size(field: Field): nat {
    |field.name| + 1 + |field.data|
  }

  /** The fields between `pos` and `end`, in file order. */
  function FieldList(input: seq<byte>, pos: nat, end: nat): (r: Result<List<Field>>)
    requires pos <= end <= |input|
    decreases end - pos
  {
    if pos == end then Ok(Nil)
    else
      match FieldAt(input, pos, end)
      case Error(f) => Error(f)
      case Ok(field) => Listed(field, FieldList(input, pos + 4 + Size(field), end))
  }

  function Listed(field: Field, rest: Result<List<Field>>): Result<List<Field>> {
    match rest
    case Error(f) => Error(f)
    case Ok(list) => Ok(Cons(field, list))
  }

  /** A field list as a dictionary: of two fields with one name the later one wins. */
  function Dictionary(fields: List<Field>): Fields {
    match fields
    case Nil => map[]
    case Cons(field, rest) => map[field.name := field.data] + Dictionary(rest)
  }

  predicate Mentions(fields: List<Field>, name: seq<byte>) {
    match fields
    case Nil => false
    case Cons(field, rest) => field.name == name || Mentions(rest, name)
  }

  lemma {:induction false} DictionaryMentions(fields: List<Field>, name: seq<byte>)
    ensures name in Dictionary(fields) <==> Mentions(fields, name)
  {
    match fields
    case Nil =>
    case Cons(_, rest) => DictionaryMentions(rest, name);
  }

  lemma {:induction false} LaterWins(before: List<Field>, field: Field, after: List<Field>)
    requires !Mentions(after, field.name)
    ensures var d := Dictionary(Concat(before, Cons(field, after)));
            field.name in d && d[field.name] == field.data
  {
    match before
    case Nil => DictionaryMentions(after, field.name);
    case Cons(_, rest) => LaterWins(rest, field, after);
  }

  /** The fields read so far, with what is still to come. */
  function Joined(before: Fields, rest: Result<List<Field>>): Result<Fields> {
    match rest
    case Error(f) => Error(f)
    case Ok(list) => Ok(before + Dictionary(list))
  }

  lemma {:induction false} NextField(input: seq<byte>, at: nat, end: nat, before: Fields)
    requires at < end <= |input|
    ensures Joined(before, FieldList(input, at, end))
            == match FieldAt(input, at, end)
               case Error(f) => Error(f)
               case Ok(field) => Joined(before[field.name := field.data], FieldList(input, at + 4 + Size(field), end))
  {
    match FieldAt(input, at, end)
    case Error(_) =>
    case Ok(field) => JoinedNext(before, field, FieldList(input, at + 4 + Size(field), end));
  }

  lemma {:induction false} JoinedNext(before: Fields, field: Field, rest: Result<List<Field>>)
    ensures Joined(before, Listed(field, rest)) == Joined(before[field.name := field.data], rest)
  {
    if rest.Ok? {
      NextName(before, field, rest.value);
    }
  }

  lemma {:induction false} NextName(before: Fields, field: Field, rest: List<Field>)
    ensures before + Dictionary(Cons(field, rest)) == before[field.name := field.data] + Dictionary(rest)
  {
  }

  /** `read_fields`: the dictionary of the header, filled field by field while the cursor advances. */
  method ReadFields(input: seq<byte>, pos: nat, end: nat) returns (r: Result<Fields>)
    requires pos <= |input|
    ensures r == if end > |input| || pos > end then Error(Malformed) else Joined(map[], FieldList(input, pos, end))
  {
    if end > |input| || pos > end {
      return Error(Malformed);
    }
    var at, fields: Fields := pos, map[];
    ghost var whole := Joined(map[], FieldList(input, pos, end));
    while at < end
      invariant pos <= at <= end && Joined(fields, FieldList(input, at, end)) == whole
    {
      NextField(input, at, end, fields);
      match FieldAt(input, at, end)
      case Error(f) => return Error(f);
      case Ok(field) =>
        at, fields := at + 4 + Size(field), fields[field.name := field.data];
    }
    assert fields + map[] == fields;
    r := Ok(fields);
  }

  // ----- records -----

  function RecordAt(input: seq<byte>, pos: nat, headerLimit: nat): (r: Result<Record>)
    requires pos <= |input|
    ensures r.Ok? ==> pos + 8 <= r.value.next <= |input|
  {
    if pos + 4 > |input| then Error(Malformed)
    else
      var headerSize := Load32(input, pos);
      var start := pos + 4;
      if headerSize > |input| - start then Error(Malformed)
      else if headerSize > headerLimit then Error(HeaderLimit)
      else
        match Joined(map[], FieldList(input, start, start + headerSize))
        case Error(f) => Error(f)
        case Ok(fields) => BodyAt(input, start + headerSize, fields)
  }

  function BodyAt(input: seq<byte>, pos: nat, fields: Fields): (r: Result<Record>)
    requires pos <= |input|
    ensures r.Ok? ==> pos + 4 <= r.value.next <= |input|
  {
    if pos + 4 > |input| then Error(Malformed)
    else
      var size := Load32(input, pos);
      if size > |input| - (pos + 4) then Error(Malformed)
      else Ok(Record(fields, input[pos + 4..pos + 4 + size], pos + 4 + size))
  }

  /** `read_record`, with the cursor it is given by reference as a result. */
  method ReadRecord(input: seq<byte>, pos: nat, headerLimit: nat) returns (r: Result<Record>)
    requires pos <= |input|
    ensures r == RecordAt(input, pos, headerLimit)
  {
    var at := pos;
    if at + 4 > |input| {
      return Error(Malformed);
    }
    var headerSize := Load32(input, at);
    at := at + 4;
    if headerSize > |input| - at {
      return Error(Malformed);
    }
    if headerSize > headerLimit {
      return Error(HeaderLimit);
    }
    var header := ReadFields(input, at, at + headerSize);
    if header.Error? {
      return Error(header.f);
    }
    r := ReadBody(input, at + headerSize, header.value);
  }

  method ReadBody(input: seq<byte>, pos: nat, fields: Fields) returns (r: Result<Record>)
    requires pos <= |input|
    ensures r == BodyAt(input, pos, fields)
  {
    var at := pos;
    if at + 4 > |input| {
      return Error(Malformed);
    }
    var size := Load32(input, at);
    at := at + 4;
    if size > |input| - at {
      return Error(Malformed);
    }
    r := Ok(Record(fields, input[at..at + size], at + size));
  }

  // ----- writing, and reading back -----

  predicate Writable(field: Field) {
    field.name != [] && EQUALS !in field.name && Size(field) <= U32_MAX
  }

  function FieldBytes(field: Field): (bs: seq<byte>)
    ensures |bs| == 4 + Size(field)
  {
    Store32(Size(field)) + (field.name + [EQUALS] + field.data)
  }

  function HeaderBytes(fields: List<Field>): seq<byte> {
    match fields
    case Nil => []
    case Cons(field, rest) => FieldBytes(field) + HeaderBytes(rest)
  }

  predicate AllWritable(fields: List<Field>) {
    match fields
    case Nil => true
    case Cons(field, rest) => Writable(field) && AllWritable(rest)
  }

  function RecordBytes(fields: List<Field>, body: seq<byte>): (bs: seq<byte>)
    ensures |bs| == 8 + |HeaderBytes(fields)| + |body|
  {
    Store32(|HeaderBytes(fields)|) + HeaderBytes(fields) + (Store32(|body|) + body)
  }

  lemma {:induction false} FirstEqualsFound(name: seq<byte>, data: seq<byte>)
    requires EQUALS !in name
    ensures FirstEquals(name + [EQUALS] + data) == |name|
  {
    var field := name + [EQUALS] + data;
    if name != [] {
      assert name[0] in name && field[0] == name[0];
      assert field[1..] == name[1..] + [EQUALS] + data;
      FirstEqualsFound(name[1..], data);
    }
  }

  lemma {:induction false} FirstEqualsIs(field: seq<byte>)
    ensures EQUALS !in field[..FirstEquals(field)]
    ensures FirstEquals(field) < |field| ==> field[FirstEquals(field)] == EQUALS
  {
    if field != [] && field[0] != EQUALS {
      FirstEqualsIs(field[1..]);
      assert field[..FirstEquals(field)] == [field[0]] + field[1..][..FirstEquals(field[1..])];
    }
  }

  lemma {:induction false} LoadStored32(bytes: seq<byte>, pos: nat, n: nat)
    requires n <= U32_MAX && At(bytes, pos, Store32(n))
    ensures Load32(bytes, pos) == n
  {
    Pow256At8();
    LoadStored(bytes, pos, n, 4, true);
  }

  lemma {:induction false} FieldReadsBack(input: seq<byte>, pos: nat, end: nat, field: Field)
    requires Writable(field) && At(input, pos, FieldBytes(field)) && pos + 4 + Size(field) <= end <= |input|
    ensures FieldAt(input, pos, end) == Ok(field)
  {
    var content := field.name + [EQUALS] + field.data;
    AtSplit(input, pos, Store32(Size(field)), content);
    LoadStored32(input, pos, Size(field));
    AtSlice(input, pos + 4, content);
    FirstEqualsFound(field.name, field.data);
    assert content[..|field.name|] == field.name && content[|field.name| + 1..] == field.data;
  }

  lemma {:induction false} FieldsReadBack(input: seq<byte>, pos: nat, end: nat, fields: List<Field>)
    requires AllWritable(fields) && At(input, pos, HeaderBytes(fields)) && end == pos + |HeaderBytes(fields)|
    ensures FieldList(input, pos, end) == Ok(fields)
    decreases fields
  {
    match fields
    case Nil =>
    case Cons(field, rest) =>
      var next := pos + 4 + Size(field);
      AtSplit(input, pos, FieldBytes(field), HeaderBytes(rest));
      FieldReadsBack(input, pos, end, field);
      FieldsReadBack(input, next, end, rest);
      FirstField(input, pos, end, field, rest);
  }

  lemma {:induction false} FirstField(input: seq<byte>, pos: nat, end: nat, field: Field, rest: List<Field>)
    requires pos < end <= |input| && FieldAt(input, pos, end) == Ok(field)
    requires FieldList(input, pos + 4 + Size(field), end) == Ok(rest)
    ensures FieldList(input, pos, end) == Ok(Cons(field, rest))
  {
  }

  /**
   A record read at its own offset in any file comes back as written, and the cursor stops at its
   end; the header limit decides exactly by the header's length.
   */
  lemma {:induction false} RecordReadsBack(before: seq<byte>, fields: List<Field>, body: seq<byte>,
      after: seq<byte>, headerLimit: nat)
    requires AllWritable(fields)
    requires |HeaderBytes(fields)| <= U32_MAX && |body| <= U32_MAX
    ensures RecordAt(before + RecordBytes(fields, body) + after, |before|, headerLimit)
         == if |HeaderBytes(fields)| > headerLimit then Error(HeaderLimit)
            else Ok(Record(Dictionary(fields), body, |before| + |RecordBytes(fields, body)|))
  {
    AtMiddle(before, RecordBytes(fields, body), after);
    ReadsBackAt(before + RecordBytes(fields, body) + after, |before|, fields, body, headerLimit);
  }

  lemma {:induction false} AtMiddle(before: seq<byte>, part: seq<byte>, after: seq<byte>)
    ensures At(before + part + after, |before|, part)
  {
  }

  lemma {:induction false} ReadsBackAt(input: seq<byte>, pos: nat, fields: List<Field>, body: seq<byte>,
      headerLimit: nat)
    requires AllWritable(fields)
    requires |HeaderBytes(fields)| <= U32_MAX && |body| <= U32_MAX
    requires At(input, pos, RecordBytes(fields, body))
    ensures RecordAt(input, pos, headerLimit)
         == if |HeaderBytes(fields)| > headerLimit then Error(HeaderLimit)
            else Ok(Record(Dictionary(fields), body, pos + |RecordBytes(fields, body)|))
  {
    HeaderReadsBack(input, pos + 4, fields);
    HeaderThenBody(input, pos, RecordBytes(fields, body), HeaderBytes(fields), Dictionary(fields), body, headerLimit);
  }

  lemma {:induction false} HeaderThenBody(input: seq<byte>, pos: nat, record: seq<byte>, header: seq<byte>,
      fields: Fields, body: seq<byte>, headerLimit: nat)
    requires |header| <= U32_MAX && |body| <= U32_MAX
    requires At(input, pos, record) && record == Store32(|header|) + header + (Store32(|body|) + body)
    requires HeaderReads(input, pos + 4, header, fields)
    ensures RecordAt(input, pos, headerLimit)
         == if |header| > headerLimit then Error(HeaderLimit)
            else Ok(Record(fields, body, pos + 8 + |header| + |body|))
  {
    RecordSplit(input, pos, header, body);
    BodyAfterHeader(input, pos, |header|, fields, body, headerLimit);
  }

  lemma {:induction false} BodyAfterHeader(input: seq<byte>, pos: nat, size: nat, fields: Fields,
      body: seq<byte>, headerLimit: nat)
    requires pos + 4 + size <= |input| && Load32(input, pos) == size && |body| <= U32_MAX
    requires Joined(map[], FieldList(input, pos + 4, pos + 4 + size)) == Ok(fields)
    requires At(input, pos + 4 + size, Store32(|body|) + body)
    ensures RecordAt(input, pos, headerLimit)
         == if size > headerLimit then Error(HeaderLimit) else Ok(Record(fields, body, pos + 8 + size + |body|))
  {
    BodyReadsBack(input, pos + 4 + size, fields, body);
    RecordFromParts(input, pos, size, fields, headerLimit);
  }

  lemma {:induction false} RecordFromParts(input: seq<byte>, pos: nat, size: nat, fields: Fields, headerLimit: nat)
    requires pos + 4 + size <= |input| && Load32(input, pos) == size
    requires Joined(map[], FieldList(input, pos + 4, pos + 4 + size)) == Ok(fields)
    ensures RecordAt(input, pos, headerLimit)
         == if size > headerLimit then Error(HeaderLimit) else BodyAt(input, pos + 4 + size, fields)
  {
  }

  lemma {:induction false} RecordSplit(input: seq<byte>, pos: nat, header: seq<byte>, body: seq<byte>)
    requires At(input, pos, Store32(|header|) + header + (Store32(|body|) + body)) && |header| <= U32_MAX
    ensures pos + 4 <= |input| && Load32(input, pos) == |header|
    ensures At(input, pos + 4, header) && At(input, pos + 4 + |header|, Store32(|body|) + body)
  {
    AtSplit(input, pos, Store32(|header|) + header, Store32(|body|) + body);
    AtSplit(input, pos, Store32(|header|), header);
    LoadStored32(input, pos, |header|);
  }

  /** Where the header's bytes stand, these fields are read. */
  ghost predicate HeaderReads(input: seq<byte>, pos: nat, header: seq<byte>, fields: Fields) {
    At(input, pos, header) ==> Joined(map[], FieldList(input, pos, pos + |header|)) == Ok(fields)
  }

  lemma {:induction false} HeaderReadsBack(input: seq<byte>, pos: nat, fields: List<Field>)
    requires AllWritable(fields)
    ensures HeaderReads(input, pos, HeaderBytes(fields), Dictionary(fields))
  {
    if At(input, pos, HeaderBytes(fields)) {
      FieldsReadBack(input, pos, pos + |HeaderBytes(fields)|, fields);
      assert map[] + Dictionary(fields) == Dictionary(fields);
    }
  }

  lemma {:induction false} BodyReadsBack(input: seq<byte>, pos: nat, fields: Fields, body: seq<byte>)
    requires |body| <= U32_MAX && At(input, pos, Store32(|body|) + body)
    ensures BodyAt(input, pos, fields) == Ok(Record(fields, body, pos + 4 + |body|))
  {
    AtSplit(input, pos, Store32(|body|), body);
    LoadStored32(input, pos, |body|);
    AtSlice(input, pos + 4, body);
  }

  lemma {:induction false} SplitAtEquals(content: seq<byte>, k: nat)
    requires k < |content| && content[k] == EQUALS
    ensures content[..k] + [EQUALS] + content[k + 1..] == content
  {
  }

  lemma {:induction false} FieldWasWritten(input: seq<byte>, pos: nat, end: nat)
    requires pos < end <= |input| && FieldAt(input, pos, end).Ok?
    ensures Writable(FieldAt(input, pos, end).value) && At(input, pos, FieldBytes(FieldAt(input, pos, end).value))
    ensures pos + 4 + Size(FieldAt(input, pos, end).value) <= end
  {
    var size := Load32(input, pos);
    var content := input[pos + 4..pos + 4 + size];
    FirstEqualsIs(content);
    SplitAtEquals(content, FirstEquals(content));
    StoreLoaded(input, pos, 4);
    AtJoin(input, pos, Store32(size), content);
  }

  /** Whatever header is accepted is the bytes of the fields it yields, and of no others. */
  lemma {:induction false} FieldsWereWritten(input: seq<byte>, pos: nat, end: nat)
    requires pos <= end <= |input| && FieldList(input, pos, end).Ok?
    ensures var fields := FieldList(input, pos, end).value;
            && AllWritable(fields)
            && At(input, pos, HeaderBytes(fields)) && end == pos + |HeaderBytes(fields)|
    decreases end - pos
  {
    if pos < end {
      FieldWasWritten(input, pos, end);
      var field := FieldAt(input, pos, end).value;
      FieldsWereWritten(input, pos + 4 + Size(field), end);
      AtJoin(input, pos, FieldBytes(field), HeaderBytes(FieldList(input, pos + 4 + Size(field), end).value));
    }
  }

  // ----- typed fields -----

  function Raw(fields: Fields, name: seq<byte>, size: nat): (r: Option<seq<byte>>)
    ensures r.Some? ==> |r.value| == size
  {
    if name in fields && |fields[name]| == size then Some(fields[name]) else None
  }

  function U8(fields: Fields, name: seq<byte>): Option<nat> {
    match Raw(fields, name, 1)
    case None => None
    case Some(bytes) => Some(bytes[0])
  }

  function U32(fields: Fields, name: seq<byte>): Option<nat> {
    match Raw(fields, name, 4)
    case None => None
    case Some(bytes) => Some(Load32(bytes, 0))
  }

  /** Fields that are too short, too long or missing are no numbers; numbers have their least byte first. */
  lemma {:induction false} NumbersAreFields(fields: Fields, name: seq<byte>)
    ensures U8(fields, name) == if name in fields && |fields[name]| == 1 then Some(fields[name][0]) else None
    ensures U32(fields, name)
         == if name in fields && |fields[name]| == 4 then Some(Low4(fields[name], 0)) else None
  {
    if name in fields && |fields[name]| == 4 {
      LoadIsSum(fields[name], 0);
    }
  }

  /** A time is seconds and nanoseconds; a thousand million nanoseconds are no nanoseconds. */
  lemma {:induction false} TimesAreFields(fields: Fields, name: seq<byte>)
    ensures Time(fields, name)
         == if name !in fields || |fields[name]| != 8 then None
            else if Low4(fields[name], 4) >= 1_000_000_000 then None
            else Some(Low4(fields[name], 0) * 1_000_000_000 + Low4(fields[name], 4))
  {
    if name in fields && |fields[name]| == 8 {
      LoadIsSum(fields[name], 0);
      LoadIsSum(fields[name], 4);
    }
  }

  /** Four bytes of a number, the least first. */
  lemma {:induction false} Store32IsLittle(n: nat)
    ensures Store32(n) == [n % 0x100, n / 0x100 % 0x100, n / 0x1_0000 % 0x100, n / 0x100_0000 % 0x100]
  {
    assert n / 0x100 / 0x100 == n / 0x1_0000 && n / 0x1_0000 / 0x100 == n / 0x100_0000;
    assert Store(n / 0x100_0000, 1, true) == [n / 0x100_0000 % 0x100];
    assert Store(n / 0x1_0000, 2, true) == [n / 0x1_0000 % 0x100] + Store(n / 0x100_0000, 1, true);
    assert Store(n / 0x100, 3, true) == [n / 0x100 % 0x100] + Store(n / 0x1_0000, 2, true);
  }

  /** A record is the length of its header, the header, the length of its body and the body. */
  lemma {:induction false} RecordLayout(fields: List<Field>, body: seq<byte>)
    ensures var header := HeaderBytes(fields);
            RecordBytes(fields, body) == Store32(|header|) + header + (Store32(|body|) + body)
    ensures fields.Cons? ==>
      var field := fields.head;
      HeaderBytes(fields)
      == Store32(|field.name| + 1 + |field.data|) + (field.name + [61] + field.data) + HeaderBytes(fields.tail)
  {
  }

  lemma {:induction false} RecordJoins(input: seq<byte>, pos: nat, fields: List<Field>, body: seq<byte>)
    requires var header := HeaderBytes(fields);
             && At(input, pos, Store32(|header|)) && At(input, pos + 4, header)
             && At(input, pos + 4 + |header|, Store32(|body|) + body)
    ensures At(input, pos, RecordBytes(fields, body))
  {
    var header := HeaderBytes(fields);
    AtJoin(input, pos, Store32(|header|), header);
    AtJoin(input, pos, Store32(|header|) + header, Store32(|body|) + body);
  }

  lemma {:induction false} RecordParts(input: seq<byte>, pos: nat, headerLimit: nat) returns (fields: List<Field>)
    requires pos <= |input| && RecordAt(input, pos, headerLimit).Ok?
    ensures pos + 4 <= |input| && pos + 4 + Load32(input, pos) <= |input| && Load32(input, pos) <= headerLimit
    ensures FieldList(input, pos + 4, pos + 4 + Load32(input, pos)) == Ok(fields)
    ensures BodyAt(input, pos + 4 + Load32(input, pos), Dictionary(fields)) == RecordAt(input, pos, headerLimit)
  {
    fields := FieldList(input, pos + 4, pos + 4 + Load32(input, pos)).value;
    assert map[] + Dictionary(fields) == Dictionary(fields);
  }

  /** Whatever record is accepted is the bytes of its header and body, and the next one starts behind it. */
  lemma {:induction false} RecordWasWritten(input: seq<byte>, pos: nat, headerLimit: nat) returns (fields: List<Field>)
    requires pos <= |input| && RecordAt(input, pos, headerLimit).Ok?
    ensures var record := RecordAt(input, pos, headerLimit).value;
            && AllWritable(fields) && record.fields == Dictionary(fields) && |HeaderBytes(fields)| <= headerLimit
            && At(input, pos, RecordBytes(fields, record.body))
            && record.next == pos + |RecordBytes(fields, record.body)|
  {
    var start := pos + 4 + Load32(input, pos);
    fields := RecordParts(input, pos, headerLimit);
    FieldsWereWritten(input, pos + 4, start);
    BodyWasWritten(input, start, Dictionary(fields));
    StoreLoaded(input, pos, 4);
    RecordJoins(input, pos, fields, BodyAt(input, start, Dictionary(fields)).value.body);
  }

  lemma {:induction false} BodyWasWritten(input: seq<byte>, pos: nat, fields: Fields)
    requires pos <= |input| && BodyAt(input, pos, fields).Ok?
    ensures var r := BodyAt(input, pos, fields).value;
            && r.fields == fields && At(input, pos, Store32(|r.body|) + r.body) && r.next == pos + 4 + |r.body|
  {
    var size := Load32(input, pos);
    StoreLoaded(input, pos, 4);
    AtJoin(input, pos, Store32(size), input[pos + 4..pos + 4 + size]);
  }

  const NANOSECONDS := 1_000_000_000

  /** `ros_time`: seconds, then nanoseconds below one second. */
  function Time(fields: Fields, name: seq<byte>): (r: Option<nat>)
    ensures r.Some? ==> r.value <= SIZE_MAX
  {
    match Raw(fields, name, 8)
    case None => None
    case Some(bytes) =>
      if Load32(bytes, 4) >= NANOSECONDS then None
      else Some(Load32(bytes, 0) * NANOSECONDS + Load32(bytes, 4))
  }
}
