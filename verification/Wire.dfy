/** The Protocol Buffers wire format shared by both message types: base-128 varints, tags and records. */
module Wire {
  import opened Bytes

  // ----- Base 128 varints -----

  /** Low seven bits first; the high bit of a byte says that another one follows. */
  function EncodeVarint(v: nat): (r: seq<byte>)
    ensures |r| >= 1
  {
    if v < 128 then [v] else [128 + v % 128] + EncodeVarint(v / 128)
  }

  /** The untruncated value and the number of bytes taken, when one ends within `budget` bytes. */
  function ReadVarint(s: seq<byte>, budget: nat): (r: Option<(nat, nat)>)
    ensures r.Some? ==> 1 <= r.value.1 <= |s| && r.value.1 <= budget
  {
    if budget == 0 || s == [] then None
    else if s[0] < 128 then Some((s[0], 1))
    else
      match ReadVarint(s[1..], budget - 1)
      case None => None
      case Some((v, n)) => Some((s[0] - 128 + 128 * v, n + 1))
  }

  const TAG_BUDGET := 5
  const SIZE_BUDGET := 5
  const VARINT_BUDGET := 10

  lemma {:induction false} ReadAfterEncode(v: nat, rest: seq<byte>, budget: nat)
    requires |EncodeVarint(v)| <= budget
    ensures ReadVarint(EncodeVarint(v) + rest, budget) == Some((v, |EncodeVarint(v)|))
  {
    if v >= 128 {
      ReadAfterEncode(v / 128, rest, budget - 1);
      assert (EncodeVarint(v) + rest)[1..] == EncodeVarint(v / 128) + rest;
    }
  }

  lemma {:induction false} ReadVarintExtends(s: seq<byte>, t: seq<byte>, budget: nat)
    requires ReadVarint(s, budget).Some?
    ensures ReadVarint(s + t, budget) == ReadVarint(s, budget)
  {
    if s[0] >= 128 {
      ReadVarintExtends(s[1..], t, budget - 1);
      assert (s + t)[1..] == s[1..] + t;
    }
  }

  /** Of all byte strings that read as a value, padded ones included, the written one is the only shortest. */
  lemma {:induction false} WrittenIsShortest(s: seq<byte>, budget: nat)
    requires ReadVarint(s, budget).Some?
    ensures
      var Some((v, n)) := ReadVarint(s, budget);
      |EncodeVarint(v)| <= n && (|EncodeVarint(v)| == n <==> s[..n] == EncodeVarint(v))
  {
    var Some((v, n)) := ReadVarint(s, budget);
    if s[0] >= 128 {
      WrittenIsShortest(s[1..], budget - 1);
      var rest := ReadVarint(s[1..], budget - 1).value.0;
      assert v / 128 == rest && v % 128 == s[0] - 128;
      assert s[..n] == [s[0]] + s[1..][..n - 1];
    }
  }

  /** The number a varint's bytes stand for: seven bits of each, low ones first. */
  function Value(s: seq<byte>): nat {
    if s == [] then 0 else Value(s[..|s| - 1]) + Power(128, |s| - 1) * (s[|s| - 1] % 128)
  }

  lemma {:induction false} ValueFirst(b: byte, s: seq<byte>)
    ensures Value([b] + s) == b % 128 + 128 * Value(s)
  {
    if s == [] {
      assert ([b] + s)[..0] == [] && Value([]) == 0 && Power(128, 0) == 1;
    } else {
      var n := |s| - 1;
      ValueFirst(b, s[..n]);
      assert ([b] + s)[..|s|] == [b] + s[..n];
      assert Power(128, n + 1) * (s[n] % 128) == 128 * (Power(128, n) * (s[n] % 128));
    }
  }

  /** The bytes of one varint: all but the last have the high bit set. */
  predicate OneVarint(s: seq<byte>) {
    |s| > 0 && s[|s| - 1] < 128 && forall k :: 0 <= k < |s| - 1 ==> s[k] >= 128
  }

  /** What is read is the number the bytes up to the first one without the high bit stand for. */
  lemma {:induction false} ReadVarintIsValue(s: seq<byte>, budget: nat)
    requires ReadVarint(s, budget).Some?
    ensures
      var Some((v, n)) := ReadVarint(s, budget);
      OneVarint(s[..n]) && v == Value(s[..n])
  {
    if s[0] >= 128 {
      ReadVarintIsValue(s[1..], budget - 1);
      var n := ReadVarint(s[1..], budget - 1).value.1;
      assert s[..n + 1] == [s[0]] + s[1..][..n];
      VarintGrows(s[0], s[1..][..n]);
    } else {
      assert s[..1] == [s[0]] + [] && Value([]) == 0;
      ValueFirst(s[0], []);
    }
  }

  lemma VarintGrows(b: byte, s: seq<byte>)
    requires OneVarint(s) && b >= 128
    ensures OneVarint([b] + s) && Value([b] + s) == b - 128 + 128 * Value(s)
  {
    ValueFirst(b, s);
  }

  /** A varint is read exactly if one ends within the budget. */
  lemma {:induction false} ReadVarintExactly(s: seq<byte>, budget: nat)
    ensures ReadVarint(s, budget).Some? <==> exists k | 0 <= k < budget && k < |s| :: s[k] < 128
  {
    if budget > 0 && s != [] && s[0] >= 128 {
      ReadVarintExactly(s[1..], budget - 1);
      assert forall k :: 0 <= k < |s| - 1 ==> s[1..][k] == s[k + 1];
      if k :| 0 <= k < budget && k < |s| && s[k] < 128 {
        assert s[1..][k - 1] < 128;
      }
    }
  }

  /** The size table behind the generated size computation, one line per 7-bit boundary. */
  function VarintSize(v: nat): nat
    requires v < TWO_TO_THE_64
  {
    if v < 0x80 then 1
    else if v < 0x4000 then 2
    else if v < 0x20_0000 then 3
    else if v < 0x1000_0000 then 4
    else if v < 0x8_0000_0000 then 5
    else if v < 0x400_0000_0000 then 6
    else if v < 0x2_0000_0000_0000 then 7
    else if v < 0x100_0000_0000_0000 then 8
    else if v < 0x8000_0000_0000_0000 then 9
    else 10
  }

  lemma {:induction false} VarintSizeIsLength(v: nat)
    requires v < TWO_TO_THE_64
    ensures VarintSize(v) == |EncodeVarint(v)|
  {
    if v >= 128 {
      VarintSizeIsLength(v / 128);
    }
  }

  // ----- Records -----

  datatype Payload =
    | Varint(v: nat)
    | Fixed64(image: seq<byte>)
    | Bytes(content: seq<byte>)
    | Fixed32(image: seq<byte>)

  datatype Record = Record(num: nat, payload: Payload)

  function WireType(p: Payload): nat {
    match p
    case Varint(_) => 0
    case Fixed64(_) => 1
    case Bytes(_) => 2
    case Fixed32(_) => 5
  }

  const MAX_FIELD_NUMBER: int := 0x1FFF_FFFF

  /** What a parsed record always satisfies and what a serialisable record must satisfy. */
  predicate ValidRecord(r: Record) {
    && 1 <= r.num <= MAX_FIELD_NUMBER
    && match r.payload
       case Varint(v) => v < TWO_TO_THE_64
       case Fixed64(b) => |b| == 8
       case Bytes(b) => |b| < TWO_TO_THE_31
       case Fixed32(b) => |b| == 4
  }

  predicate ValidRecords(rs: seq<Record>) {
    forall i :: 0 <= i < |rs| ==> ValidRecord(rs[i])
  }

  function Tag(num: nat, wireType: nat): nat {
    8 * num + wireType
  }

  function EncodePayload(p: Payload): seq<byte> {
    match p
    case Varint(v) => EncodeVarint(v)
    case Fixed64(b) => b
    case Bytes(b) => EncodeVarint(|b|) + b
    case Fixed32(b) => b
  }

  function EncodeRecord(r: Record): (s: seq<byte>)
    ensures |s| >= 1
  {
    EncodeVarint(Tag(r.num, WireType(r.payload))) + EncodePayload(r.payload)
  }

  function EncodeRecords(rs: seq<Record>): seq<byte> {
    FlatMap(EncodeRecord, rs)
  }

  /** The worked examples of the Encoding guide: field 1 holding 150, and field 2 holding "testing". */
  lemma GuideExamples()
    ensures EncodeRecord(Record(1, Varint(150))) == [0x08, 0x96, 0x01]
    ensures EncodeRecord(Record(2, Bytes([0x74, 0x65, 0x73, 0x74, 0x69, 0x6e, 0x67])))
         == [0x12, 0x07, 0x74, 0x65, 0x73, 0x74, 0x69, 0x6e, 0x67]
  {
    assert EncodeVarint(150) == [128 + 22] + EncodeVarint(1);
    assert EncodeVarint(18) == [18] && EncodeVarint(8) == [8] && EncodeVarint(7) == [7];
  }

  /** Outcome of reading one item; groups (wire type 3) are recognised but not modelled. */
  datatype Read<+T> = Got(value: T, used: nat) | Malformed | Group

  /** A length-delimited value: a size below 2^31 in at most five bytes, then that many bytes. */
  function ReadBytes(s: seq<byte>): (r: Read<seq<byte>>)
    ensures r.Got? ==> r.used <= |s| && |r.value| < TWO_TO_THE_31
  {
    match ReadVarint(s, SIZE_BUDGET)
    case None => Malformed
    case Some((size, n)) =>
      if size >= TWO_TO_THE_31 || n + size > |s| then Malformed else Got(s[n..n + size], n + size)
  }

  function ReadFixed(s: seq<byte>, width: nat): (r: Read<seq<byte>>)
    ensures r.Got? ==> r.used == width <= |s| && |r.value| == width
  {
    if |s| < width then Malformed else Got(s[..width], width)
  }

  /** A 64-bit varint; longer values wrap. */
  function ReadVarint64(s: seq<byte>): (r: Read<nat>)
    ensures r.Got? ==> r.used <= |s| && r.value < TWO_TO_THE_64
  {
    match ReadVarint(s, VARINT_BUDGET)
    case None => Malformed
    case Some((v, n)) => Got(v % TWO_TO_THE_64, n)
  }

  /** A 32-bit varint field still takes up to ten bytes; longer values wrap. */
  function ReadVarint32(s: seq<byte>): (r: Read<nat>)
    ensures r.Got? ==> r.used <= |s| && r.value < TWO_TO_THE_32
  {
    match ReadVarint(s, VARINT_BUDGET)
    case None => Malformed
    case Some((v, n)) => Got(v % TWO_TO_THE_32, n)
  }

  lemma CutTwice(v: nat)
    ensures v % TWO_TO_THE_64 % TWO_TO_THE_32 == v % TWO_TO_THE_32
  {
    var cut := v % TWO_TO_THE_64;
    RemainderIs(v, TWO_TO_THE_32 * (v / TWO_TO_THE_64) + cut / TWO_TO_THE_32, cut % TWO_TO_THE_32);
  }

  lemma ReadVarint32IsCut(s: seq<byte>)
    ensures ReadVarint32(s) == match ReadVarint64(s) { case Got(v, n) => Got(v % TWO_TO_THE_32, n) case _ => Malformed }
  {
    if ReadVarint(s, VARINT_BUDGET).Some? {
      CutTwice(ReadVarint(s, VARINT_BUDGET).value.0);
    }
  }

  /** A tag is a 32-bit varint of at most five bytes; more bits wrap. */
  function ReadTag(s: seq<byte>): (r: Read<nat>)
    ensures r.Got? ==> 1 <= r.used <= |s| && r.value < TWO_TO_THE_32
  {
    match ReadVarint(s, TAG_BUDGET)
    case None => Malformed
    case Some((v, n)) => Got(v % TWO_TO_THE_32, n)
  }

  function ReadPayload(wireType: nat, s: seq<byte>): (r: Read<Payload>)
    ensures r.Got? ==> r.used <= |s| && WireType(r.value) == wireType
    ensures forall n :: r.Got? && 1 <= n <= MAX_FIELD_NUMBER ==> ValidRecord(Record(n, r.value))
  {
    match wireType
    case 0 => (match ReadVarint64(s) case Got(v, n) => Got(Varint(v), n) case _ => Malformed)
    case 1 => (match ReadFixed(s, 8) case Got(b, n) => Got(Fixed64(b), n) case _ => Malformed)
    case 2 => (match ReadBytes(s) case Got(b, n) => Got(Bytes(b), n) case _ => Malformed)
    case 3 => Group
    case 5 => (match ReadFixed(s, 4) case Got(b, n) => Got(Fixed32(b), n) case _ => Malformed)
    case _ => Malformed
  }

  /** What follows a tag. An end tag, tag zero and field number zero all make the whole parse fail. */
  function ReadField(tag: nat, s: seq<byte>): (r: Read<Record>)
    requires tag < TWO_TO_THE_32
    ensures r.Got? ==> r.used <= |s| && ValidRecord(r.value)
  {
    if tag / 8 == 0 || tag % 8 == 4 then Malformed
    else
      match ReadPayload(tag % 8, s)
      case Malformed => Malformed
      case Group => Group
      case Got(p, n) => Got(Record(tag / 8, p), n)
  }

  /** One tag and its payload. */
  function ReadRecord(s: seq<byte>): (r: Read<Record>)
    ensures r.Got? ==> 1 <= r.used <= |s| && ValidRecord(r.value)
  {
    match ReadTag(s)
    case Malformed => Malformed
    case Group => Malformed
    case Got(tag, n) =>
      match ReadField(tag, s[n..])
      case Malformed => Malformed
      case Group => Group
      case Got(rec, m) => Got(rec, n + m)
  }

  /** A number field takes up to ten bytes; of longer numbers the low 64 bits remain. */
  lemma NumberIsValue(s: seq<byte>)
    ensures ReadPayload(0, s).Got? <==> exists k | 0 <= k < 10 && k < |s| :: s[k] < 128
    ensures ReadPayload(0, s).Got? ==>
      var Got(p, n) := ReadPayload(0, s);
      p.Varint? && OneVarint(s[..n]) && p.v == Value(s[..n]) % 0x1_0000_0000_0000_0000
  {
    ReadVarintExactly(s, VARINT_BUDGET);
    if ReadVarint(s, VARINT_BUDGET).Some? {
      ReadVarintIsValue(s, VARINT_BUDGET);
    }
  }

  /** Short records of each kind, byte for byte. */
  lemma ShortRecords(r: Record)
    requires ValidRecord(r) && r.num < 16
    ensures
      match r.payload
      case Varint(v) => v < 128 ==> EncodeRecord(r) == [8 * r.num, v]
      case Fixed64(b) => EncodeRecord(r) == [8 * r.num + 1] + b && |EncodeRecord(r)| == 9
      case Bytes(b) => |b| < 128 ==> EncodeRecord(r) == [8 * r.num + 2, |b|] + b
      case Fixed32(b) => EncodeRecord(r) == [8 * r.num + 5] + b && |EncodeRecord(r)| == 5
  {
    var t := Tag(r.num, WireType(r.payload));
    assert EncodeVarint(t) == [t];
    match r.payload
    case Bytes(b) =>
      if |b| < 128 {
        assert [t] + ([|b|] + b) == [t, |b|] + b;
      }
    case _ =>
  }

  datatype Parsed<+T> = Ok(value: T) | Failed | NotModelled

  /** The records of a whole input, in order. */
  function Records(s: seq<byte>): (r: Parsed<seq<Record>>)
    ensures r.Ok? ==> ValidRecords(r.value)
  {
    if s == [] then Ok([])
    else
      match ReadRecord(s)
      case Malformed => Failed
      case Group => NotModelled
      case Got(rec, n) =>
        match Records(s[n..])
        case Ok(rest) => Ok([rec] + rest)
        case Failed => Failed
        case NotModelled => NotModelled
  }

  lemma ReadAfterEncodeSmall(v: nat, rest: seq<byte>)
    requires v < TWO_TO_THE_64
    ensures ReadVarint(EncodeVarint(v) + rest, VARINT_BUDGET) == Some((v, |EncodeVarint(v)|))
    ensures v < 0x8_0000_0000 ==> ReadVarint(EncodeVarint(v) + rest, 5) == Some((v, |EncodeVarint(v)|))
  {
    VarintSizeIsLength(v);
    ReadAfterEncode(v, rest, VARINT_BUDGET);
    if v < 0x8_0000_0000 {
      ReadAfterEncode(v, rest, 5);
    }
  }

  lemma ReadPayloadAfterEncode(p: Payload, rest: seq<byte>)
    requires ValidRecord(Record(1, p))
    ensures ReadPayload(WireType(p), EncodePayload(p) + rest) == Got(p, |EncodePayload(p)|)
  {
    match p
    case Varint(v) => ReadAfterEncodeSmall(v, rest);
    case Fixed64(b) => assert (b + rest)[..8] == b;
    case Bytes(b) =>
      ReadAfterEncodeSmall(|b|, b + rest);
      var n := |EncodeVarint(|b|)|;
      assert EncodePayload(p) + rest == EncodeVarint(|b|) + (b + rest);
      assert (EncodeVarint(|b|) + (b + rest))[n..n + |b|] == b;
    case Fixed32(b) => assert (b + rest)[..4] == b;
  }

  lemma TagParts(num: nat, wireType: nat)
    requires 1 <= num <= MAX_FIELD_NUMBER && wireType < 8
    ensures 0 < Tag(num, wireType) < TWO_TO_THE_32
    ensures Tag(num, wireType) / 8 == num && Tag(num, wireType) % 8 == wireType
  {
  }

  lemma ReadTagAfterEncode(num: nat, wireType: nat, rest: seq<byte>)
    requires 1 <= num <= MAX_FIELD_NUMBER && wireType < 8
    ensures
      var head := EncodeVarint(Tag(num, wireType));
      ReadTag(head + rest) == Got(Tag(num, wireType), |head|)
  {
    TagParts(num, wireType);
    ReadAfterEncodeSmall(Tag(num, wireType), rest);
  }

  lemma ReadRecordAfterEncode(r: Record, rest: seq<byte>)
    requires ValidRecord(r)
    ensures ReadRecord(EncodeRecord(r) + rest) == Got(r, |EncodeRecord(r)|)
  {
    var tag := Tag(r.num, WireType(r.payload));
    var head := EncodeVarint(tag);
    var tail := EncodePayload(r.payload) + rest;
    assert EncodeRecord(r) + rest == head + tail;
    TagParts(r.num, WireType(r.payload));
    ReadTagAfterEncode(r.num, WireType(r.payload), tail);
    assert (head + tail)[|head|..] == tail;
    ReadPayloadAfterEncode(r.payload, rest);
  }

  /** No record is read from less than all its bytes. */
  lemma TruncatedFails(r: Record, n: nat)
    requires ValidRecord(r) && 0 < n < |EncodeRecord(r)|
    ensures Records(EncodeRecord(r)[..n]) == Failed
  {
    var full := EncodeRecord(r);
    var part := full[..n];
    assert part + full[n..] == full && full + [] == full;
    ReadRecordAfterEncode(r, []);
    if ReadRecord(part).Got? {
      ReadRecordExtends(part, full[n..]);
    } else if ReadRecord(part).Group? {
      ReadVarintExtends(part, full[n..], TAG_BUDGET);
    }
  }

  /** End tags, unknown wire types and field number zero make a parse fail; groups are not modelled. */
  lemma RejectedTags(s: seq<byte>)
    requires |s| > 0 && s[0] < 128
    ensures s[0] < 8 || s[0] % 8 == 4 || s[0] % 8 >= 6 ==> Records(s) == Failed
    ensures s[0] >= 8 && s[0] % 8 == 3 ==> Records(s) == NotModelled
  {
    assert ReadTag(s) == Got(s[0], 1);
  }

  lemma RecordsAfterFirst(r: Record, rest: seq<byte>)
    requires ValidRecord(r)
    ensures Records(EncodeRecord(r) + rest) == Join([r], Records(rest))
  {
    ReadRecordAfterEncode(r, rest);
    assert (EncodeRecord(r) + rest)[|EncodeRecord(r)|..] == rest;
    RecordsCons(EncodeRecord(r) + rest);
  }

  /** Reading undoes writing for every list of valid records. */
  lemma {:induction false} RecordsAfterEncode(rs: seq<Record>)
    requires ValidRecords(rs)
    ensures Records(EncodeRecords(rs)) == Ok(rs)
  {
    if rs != [] {
      RecordsAfterEncode(rs[1..]);
      RecordsAfterFirst(rs[0], EncodeRecords(rs[1..]));
      assert [rs[0]] + rs[1..] == rs;
    }
  }

  lemma EncodeRecordsAppend(a: seq<Record>, b: seq<Record>)
    ensures EncodeRecords(a + b) == EncodeRecords(a) + EncodeRecords(b)
  {
    FlatMapAppend(EncodeRecord, a, b);
  }

  lemma ReadBytesExtends(s: seq<byte>, t: seq<byte>)
    requires ReadBytes(s).Got?
    ensures ReadBytes(s + t) == ReadBytes(s)
  {
    ReadVarintExtends(s, t, SIZE_BUDGET);
    var (size, n) := ReadVarint(s, SIZE_BUDGET).value;
    assert (s + t)[n..n + size] == s[n..n + size];
  }

  lemma ReadPayloadExtends(wireType: nat, s: seq<byte>, t: seq<byte>)
    requires ReadPayload(wireType, s).Got?
    ensures ReadPayload(wireType, s + t) == ReadPayload(wireType, s)
  {
    match wireType
    case 0 => ReadVarintExtends(s, t, VARINT_BUDGET);
    case 1 => assert (s + t)[..8] == s[..8];
    case 2 => ReadBytesExtends(s, t);
    case 5 => assert (s + t)[..4] == s[..4];
    case _ =>
  }

  lemma ReadRecordExtends(s: seq<byte>, t: seq<byte>)
    requires ReadRecord(s).Got?
    ensures ReadRecord(s + t) == ReadRecord(s)
  {
    ReadVarintExtends(s, t, TAG_BUDGET);
    var Got(tag, n) := ReadTag(s);
    assert (s + t)[n..] == s[n..] + t;
    ReadPayloadExtends(tag % 8, s[n..], t);
  }

  /** The records `front` and then those of a further parse, if it succeeds. */
  function Join(front: seq<Record>, rest: Parsed<seq<Record>>): Parsed<seq<Record>> {
    match rest
    case Ok(rs) => Ok(front + rs)
    case Failed => Failed
    case NotModelled => NotModelled
  }

  lemma JoinAssoc(a: seq<Record>, b: seq<Record>, rest: Parsed<seq<Record>>)
    ensures Join(a, Join(b, rest)) == Join(a + b, rest)
  {
    if rest.Ok? {
      Assoc(a, b, rest.value);
    }
  }

  lemma JoinNothing(rest: Parsed<seq<Record>>)
    ensures Join([], rest) == rest
  {
    if rest.Ok? {
      assert [] + rest.value == rest.value;
    }
  }

  lemma RecordsCons(s: seq<byte>)
    requires s != [] && ReadRecord(s).Got?
    ensures Records(s) == Join([ReadRecord(s).value], Records(s[ReadRecord(s).used..]))
  {
  }

  /** The first record of an input does not depend on what follows it. */
  lemma RecordsConsOnto(s: seq<byte>, t: seq<byte>)
    requires s != [] && ReadRecord(s).Got?
    ensures Records(s + t) == Join([ReadRecord(s).value], Records(s[ReadRecord(s).used..] + t))
  {
    ReadRecordExtends(s, t);
    var n := ReadRecord(s).used;
    assert (s + t)[n..] == s[n..] + t;
    RecordsCons(s + t);
  }

  /** Concatenating inputs concatenates their records, whatever the second input does. */
  lemma {:induction false} RecordsAppend(s: seq<byte>, t: seq<byte>)
    requires Records(s).Ok?
    ensures Records(s + t) == Join(Records(s).value, Records(t))
  {
    if s == [] {
      assert s + t == t;
      JoinNothing(Records(t));
    } else {
      var Got(rec, n) := ReadRecord(s);
      RecordsCons(s);
      RecordsConsOnto(s, t);
      RecordsAppend(s[n..], t);
      JoinAssoc([rec], Records(s[n..]).value, Records(t));
    }
  }

  // ----- Fields as the generated code writes and sizes them -----

  /** A bytes field as it is written: left out when empty. */
  function Field(num: nat, b: seq<byte>): seq<Record> {
    if b == [] then [] else [Record(num, Bytes(b))]
  }

  /** A number field as it is written: left out when zero. */
  function UintField(num: nat, v: nat): seq<Record> {
    if v == 0 then [] else [Record(num, Varint(v))]
  }

  lemma EncodeSingle(r: Record)
    ensures EncodeRecords([r]) == EncodeRecord(r)
  {
    FlatMapOne(EncodeRecord, r);
  }

  function WriteBytes(num: nat, b: seq<byte>): seq<byte> {
    if b == [] then [] else EncodeRecord(Record(num, Bytes(b)))
  }

  function WriteUint(num: nat, v: nat): seq<byte> {
    if v == 0 then [] else EncodeRecord(Record(num, Varint(v)))
  }

  method AppendUint(num: nat, v: nat, buffer: seq<byte>) returns (target: seq<byte>)
    ensures target == buffer + WriteUint(num, v)
  {
    target := if v != 0 then buffer + EncodeRecord(Record(num, Varint(v))) else buffer;
  }

  method AppendBytes(num: nat, b: seq<byte>, buffer: seq<byte>) returns (target: seq<byte>)
    ensures target == buffer + WriteBytes(num, b)
  {
    target := if b != [] then buffer + EncodeRecord(Record(num, Bytes(b))) else buffer;
  }

  method AppendUnknown(unknown: seq<Record>, buffer: seq<byte>) returns (target: seq<byte>)
    ensures target == buffer + EncodeRecords(unknown)
  {
    target := if unknown != [] then buffer + EncodeRecords(unknown) else buffer;
  }

  lemma WriteBytesIsField(num: nat, b: seq<byte>)
    ensures WriteBytes(num, b) == EncodeRecords(Field(num, b))
  {
    if b != [] {
      EncodeSingle(Record(num, Bytes(b)));
    }
  }

  lemma WriteBytesHolds(num: nat, b: seq<byte>)
    ensures |b| <= |WriteBytes(num, b)|
  {
  }

  lemma WriteUintIsField(num: nat, v: nat)
    ensures WriteUint(num, v) == EncodeRecords(UintField(num, v))
  {
    if v != 0 {
      EncodeSingle(Record(num, Varint(v)));
    }
  }

  function BytesSize(n: nat): nat
    requires n < TWO_TO_THE_32
  {
    VarintSize(n) + n
  }

  function PayloadSize(p: Payload): nat
    requires ValidRecord(Record(1, p))
  {
    match p
    case Varint(v) => VarintSize(v)
    case Fixed64(_) => 8
    case Bytes(b) => BytesSize(|b|)
    case Fixed32(_) => 4
  }

  function RecordSize(r: Record): nat
    requires ValidRecord(r)
  {
    TagParts(r.num, WireType(r.payload));
    VarintSize(Tag(r.num, WireType(r.payload))) + PayloadSize(r.payload)
  }

  lemma RecordSizeIsLength(r: Record)
    requires ValidRecord(r)
    ensures RecordSize(r) == |EncodeRecord(r)|
  {
    TagParts(r.num, WireType(r.payload));
    VarintSizeIsLength(Tag(r.num, WireType(r.payload)));
    match r.payload
    case Varint(v) => VarintSizeIsLength(v);
    case Bytes(b) => VarintSizeIsLength(|b|);
    case _ =>
  }

  /** Fields below 16 have one-byte tags; the size of a written field is computed from its length alone. */
  lemma FieldSize(num: nat, b: seq<byte>)
    requires 1 <= num <= 15 && |b| < TWO_TO_THE_32
    ensures |WriteBytes(num, b)| == if b == [] then 0 else 1 + BytesSize(|b|)
  {
    if b != [] {
      VarintSizeIsLength(|b|);
      VarintSizeIsLength(Tag(num, 2));
    }
  }

  lemma UintFieldSize(num: nat, v: nat)
    requires 1 <= num <= 15 && v < TWO_TO_THE_32
    ensures |WriteUint(num, v)| == if v == 0 then 0 else 1 + VarintSize(v)
  {
    if v != 0 {
      RecordSizeIsLength(Record(num, Varint(v)));
    }
  }

  /** The size of retained unknown fields. */
  method UnknownFieldsSize(rs: seq<Record>) returns (size: nat)
    requires ValidRecords(rs)
    ensures size == |EncodeRecords(rs)|
  {
    size := 0;
    for i := 0 to |rs|
      invariant size == |EncodeRecords(rs[..i])|
    {
      RecordSizeIsLength(rs[i]);
      EncodeRecordsAppend(rs[..i], [rs[i]]);
      EncodeSingle(rs[i]);
      assert rs[..i] + [rs[i]] == rs[..i + 1];
      size := size + RecordSize(rs[i]);
    }
    assert rs[..|rs|] == rs;
  }
}
