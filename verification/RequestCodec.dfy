/** The generated codec of `RequestMsg`: four bytes fields and the retained unknown fields. */
module RequestCodec {
  import opened Bytes
  import opened Wire
  import opened Codec

  datatype Request = Request(clientId: seq<byte>, serverId: seq<byte>, sign: seq<byte>, data: seq<byte>,
                             unknown: seq<Record>)

  const DEFAULT := Request([], [], [], [], [])

  predicate Known(r: Record) {
    1 <= r.num <= 4 && r.payload.Bytes?
  }

  predicate Valid(m: Request) {
    && |m.clientId| < TWO_TO_THE_31 && |m.serverId| < TWO_TO_THE_31
    && |m.sign| < TWO_TO_THE_31 && |m.data| < TWO_TO_THE_31
    && ValidRecords(m.unknown)
    && forall i :: 0 <= i < |m.unknown| ==> !Known(m.unknown[i])
  }

  /** Sizes the generated code can compute: bytes fields shorter than 2^32. */
  predicate Sized(m: Request) {
    && |m.clientId| < TWO_TO_THE_32 && |m.serverId| < TWO_TO_THE_32
    && |m.sign| < TWO_TO_THE_32 && |m.data| < TWO_TO_THE_32
    && ValidRecords(m.unknown)
  }

  /** What one record of the input does to a message. */
  function Apply(m: Request, r: Record): Request {
    if !Known(r) then m.(unknown := m.unknown + [r])
    else if r.num == 1 then m.(clientId := r.payload.content)
    else if r.num == 2 then m.(serverId := r.payload.content)
    else if r.num == 3 then m.(sign := r.payload.content)
    else m.(data := r.payload.content)
  }

  /** Parsing `s` onto an existing message. */
  function ParseOnto(m: Request, s: seq<byte>): Parsed<Request> {
    Parse(Apply, m, s)
  }

  function Fields(m: Request): seq<Record> {
    Field(1, m.clientId) + Field(2, m.serverId) + Field(3, m.sign) + Field(4, m.data) + m.unknown
  }

  function Serialize(m: Request): seq<byte> {
    WriteBytes(1, m.clientId) + WriteBytes(2, m.serverId) + WriteBytes(3, m.sign) + WriteBytes(4, m.data)
    + EncodeRecords(m.unknown)
  }

  function Merge(to: Request, from: Request): Request {
    Request(
      if from.clientId == [] then to.clientId else from.clientId,
      if from.serverId == [] then to.serverId else from.serverId,
      if from.sign == [] then to.sign else from.sign,
      if from.data == [] then to.data else from.data,
      to.unknown + from.unknown)
  }

  lemma {:induction false} ApplyUnknown(m: Request, rs: seq<Record>)
    requires forall i :: 0 <= i < |rs| ==> !Known(rs[i])
    ensures Fold(Apply, m, rs) == m.(unknown := m.unknown + rs)
    decreases rs
  {
    if rs == [] {
      assert m.unknown + rs == m.unknown;
    } else {
      ApplyUnknown(Apply(m, rs[0]), rs[1..]);
      assert m.unknown + [rs[0]] + rs[1..] == m.unknown + rs;
    }
  }

  /** `m` after reading back a bytes field written by `Field`. */
  function Put(m: Request, num: nat, b: seq<byte>): Request {
    if b == [] then m else Apply(m, Record(num, Bytes(b)))
  }

  lemma ApplyField(m: Request, num: nat, b: seq<byte>, rest: seq<Record>)
    requires 1 <= num <= 4
    ensures Fold(Apply, m, Field(num, b) + rest) == Fold(Apply, Put(m, num, b), rest)
  {
    if b == [] {
      assert Field(num, b) + rest == rest;
    } else {
      assert ([Record(num, Bytes(b))] + rest)[1..] == rest;
    }
  }

  /** `to` after reading back all of `from`'s own fields. */
  function PutFields(to: Request, from: Request): Request {
    Put(Put(Put(Put(to, 1, from.clientId), 2, from.serverId), 3, from.sign), 4, from.data)
  }

  lemma PutFieldsMerges(to: Request, from: Request)
    ensures PutFields(to, from).(unknown := to.unknown + from.unknown) == Merge(to, from)
    ensures PutFields(to, from).unknown == to.unknown
  {
  }

  /** The records of `m` after the first two known fields. */
  function LastFields(m: Request): seq<Record> {
    Field(3, m.sign) + (Field(4, m.data) + m.unknown)
  }

  lemma FirstFields(m: Request)
    ensures Fields(m) == Field(1, m.clientId) + (Field(2, m.serverId) + LastFields(m))
  {
  }

  lemma ApplyLastFields(to: Request, from: Request)
    requires Valid(from)
    ensures
      var put := Put(Put(to, 3, from.sign), 4, from.data);
      Fold(Apply, to, LastFields(from)) == put.(unknown := put.unknown + from.unknown)
  {
    var m3 := Put(to, 3, from.sign);
    ApplyField(to, 3, from.sign, Field(4, from.data) + from.unknown);
    ApplyField(m3, 4, from.data, from.unknown);
    ApplyUnknown(Put(m3, 4, from.data), from.unknown);
  }

  /** Reading back the fields of `from` onto `to` is merging. */
  lemma ApplyFields(to: Request, from: Request)
    requires Valid(from)
    ensures Fold(Apply, to, Fields(from)) == Merge(to, from)
  {
    var m1 := Put(to, 1, from.clientId);
    FirstFields(from);
    ApplyField(to, 1, from.clientId, Field(2, from.serverId) + LastFields(from));
    ApplyField(m1, 2, from.serverId, LastFields(from));
    ApplyLastFields(Put(m1, 2, from.serverId), from);
    PutFieldsMerges(to, from);
  }

  lemma ValidFields(m: Request)
    requires Valid(m)
    ensures ValidRecords(Fields(m))
  {
  }

  /** Writing field by field is writing the list of fields. */
  lemma SerializeIsFields(m: Request)
    ensures Serialize(m) == Serialized(FORMAT, m)
  {
    var f1, f2, f3, f4 := Field(1, m.clientId), Field(2, m.serverId), Field(3, m.sign), Field(4, m.data);
    WriteBytesIsField(1, m.clientId);
    WriteBytesIsField(2, m.serverId);
    WriteBytesIsField(3, m.sign);
    WriteBytesIsField(4, m.data);
    EncodeRecordsAppend(f1 + f2 + f3 + f4, m.unknown);
    EncodeRecordsAppend(f1 + f2 + f3, f4);
    EncodeRecordsAppend(f1 + f2, f3);
    EncodeRecordsAppend(f1, f2);
  }

  lemma ApplyKeepsValid(m: Request, r: Record)
    requires Valid(m) && ValidRecord(r)
    ensures Valid(Apply(m, r))
  {
  }

  const FORMAT := Format(DEFAULT, Apply, Fields, Merge, Valid)

  /** The codec's laws hold for this message: see module Codec for what follows. */
  lemma IsLawful()
    ensures Lawful(FORMAT)
  {
    forall m, r | Valid(m) && ValidRecord(r)
      ensures Valid(Apply(m, r))
    {
      ApplyKeepsValid(m, r);
    }
    forall m | Valid(m)
      ensures ValidRecords(Fields(m)) && Merge(DEFAULT, m) == m
    {
      ValidFields(m);
      assert [] + m.unknown == m.unknown;
    }
    forall to, from | Valid(from)
      ensures Fold(Apply, to, Fields(from)) == Merge(to, from)
    {
      ApplyFields(to, from);
    }
  }

  lemma {:induction false} LastOneWins(m: Request, rs: seq<Record>)
    ensures Fold(Apply, m, rs) == Request(
      LastContent(rs, 1, m.clientId), LastContent(rs, 2, m.serverId), LastContent(rs, 3, m.sign),
      LastContent(rs, 4, m.data), m.unknown + Unrecognised(Known, rs))
  {
    if rs == [] {
      assert m.unknown + [] == m.unknown;
    } else {
      var front, last := rs[..|rs| - 1], rs[|rs| - 1];
      LastOneWins(m, front);
      FoldLast(Apply, m, rs);
      Assoc(m.unknown, Unrecognised(Known, front), [last]);
    }
  }

  lemma FieldsInOrder(m: Request)
    ensures InFieldOrder(Known, Fields(m), m.unknown)
  {
    var front := Field(1, m.clientId) + Field(2, m.serverId) + Field(3, m.sign) + Field(4, m.data);
    assert Fields(m) == front + m.unknown;
    assert Fields(m)[|front|..] == m.unknown;
    assert forall i :: 0 <= i < |front| ==> Fields(m)[i] == front[i];
  }

  /** What is on the wire: the known fields in ascending order, the others behind them, as they came. */
  lemma WrittenInOrder(m: Request)
    requires Valid(m)
    ensures Records(Serialize(m)).Ok? && InFieldOrder(Known, Records(Serialize(m)).value, m.unknown)
  {
    SerializeIsFields(m);
    ValidFields(m);
    RecordsAfterEncode(Fields(m));
    FieldsInOrder(m);
  }

  lemma DefaultIsEmpty()
    ensures Serialize(DEFAULT) == []
  {
  }

  /** No field is longer than the serialisation that holds it. */
  lemma FieldsFit(m: Request)
    ensures |m.clientId| <= |Serialize(m)| && |m.serverId| <= |Serialize(m)|
    ensures |m.sign| <= |Serialize(m)| && |m.data| <= |Serialize(m)|
  {
    WriteBytesHolds(1, m.clientId);
    WriteBytesHolds(2, m.serverId);
    WriteBytesHolds(3, m.sign);
    WriteBytesHolds(4, m.data);
  }

  // ----- The message object -----

  class RequestMsg {
    var clientId: seq<byte>
    var serverId: seq<byte>
    var sign: seq<byte>
    var data: seq<byte>
    var unknownFields: seq<Record>

    ghost function View(): Request
      reads this
    {
      Request(clientId, serverId, sign, data, unknownFields)
    }

    constructor ()
      ensures View() == DEFAULT
    {
      clientId, serverId, sign, data, unknownFields := [], [], [], [], [];
    }

    method Clear()
      modifies this
      ensures View() == DEFAULT
    {
      clientId, serverId, sign, data := [], [], [], [];
      unknownFields := [];
    }

    /** One round of the generated parse loop: a tag, then the field or unknown field it announces. */
    method ParseField(s: seq<byte>) returns (r: Read<()>)
      requires s != []
      modifies this
      ensures r.Malformed? <==> ReadRecord(s).Malformed?
      ensures r.Group? <==> ReadRecord(s).Group?
      ensures r.Got? ==> r.used == ReadRecord(s).used && View() == Apply(old(View()), ReadRecord(s).value)
      ensures match r
              case Malformed => ParseOnto(old(View()), s) == Failed
              case Group => ParseOnto(old(View()), s) == NotModelled
              case Got(_, n) => 1 <= n <= |s| && ParseOnto(old(View()), s) == ParseOnto(View(), s[n..])
      ensures Valid(old(View())) ==> Valid(View())
    {
      if ReadRecord(s).Got? {
        ParseStep(Apply, View(), s);
      }
      var tagRead := ReadTag(s);
      if !tagRead.Got? {
        return Malformed;
      }
      var tag, ptr := tagRead.value, tagRead.used;
      var expected := match tag / 8 {
        case 1 => tag % 256 == 10
        case 2 => tag % 256 == 18
        case 3 => tag % 256 == 26
        case 4 => tag % 256 == 34
        case _ => false
      };
      if expected {
        r := ParseKnown(tag, s[ptr..]);
      } else {
        r := ParseUnusual(tag, s[ptr..]);
      }
      if r.Got? {
        r := Got((), ptr + r.used);
      }
    }

    /** The cases of the fields the message has, with the wire types they should have. */
    method ParseKnown(tag: nat, s: seq<byte>) returns (r: Read<()>)
      requires tag == 10 || tag == 18 || tag == 26 || tag == 34
      modifies this
      ensures r.Malformed? <==> ReadField(tag, s).Malformed?
      ensures !r.Group? && !ReadField(tag, s).Group?
      ensures r.Got? ==> r.used == ReadField(tag, s).used && View() == Apply(old(View()), ReadField(tag, s).value)
      ensures Valid(old(View())) ==> Valid(View())
    {
      var str := ReadBytes(s);
      if !str.Got? {
        return Malformed;
      }
      match tag / 8 {
        case 1 => clientId := str.value;
        case 2 => serverId := str.value;
        case 3 => sign := str.value;
        case _ => data := str.value;
      }
      return Got((), str.used);
    }

    /** Everything else is kept as an unknown field. */
    method ParseUnusual(tag: nat, s: seq<byte>) returns (r: Read<()>)
      requires tag < TWO_TO_THE_32 && (ReadField(tag, s).Got? ==> !Known(ReadField(tag, s).value))
      modifies this
      ensures r.Malformed? <==> ReadField(tag, s).Malformed?
      ensures r.Group? <==> ReadField(tag, s).Group?
      ensures r.Got? ==> r.used == ReadField(tag, s).used && View() == Apply(old(View()), ReadField(tag, s).value)
      ensures Valid(old(View())) ==> Valid(View())
    {
      if tag == 0 || tag % 8 == 4 || tag / 8 == 0 {
        return Malformed;
      }
      match ReadPayload(tag % 8, s) {
        case Malformed => return Malformed;
        case Group => return Group;
        case Got(payload, used) =>
          unknownFields := unknownFields + [Record(tag / 8, payload)];
          return Got((), used);
      }
    }

    /** The generated parse loop; `s` is the whole input, parsed onto the current fields. */
    method InternalParse(s: seq<byte>) returns (outcome: Parsed<()>)
      modifies this
      ensures outcome.Failed? <==> ParseOnto(old(View()), s).Failed?
      ensures outcome.NotModelled? <==> ParseOnto(old(View()), s).NotModelled?
      ensures outcome.Ok? ==> ParseOnto(old(View()), s) == Ok(View())
      ensures Valid(old(View())) ==> Valid(View())
    {
      var rest := s;
      while rest != []
        invariant ParseOnto(View(), rest) == ParseOnto(old(View()), s)
        invariant Valid(old(View())) ==> Valid(View())
      {
        var field := ParseField(rest);
        match field {
          case Malformed => return Failed;
          case Group => return NotModelled;
          case Got(_, used) => rest := rest[used..];
        }
      }
      outcome := Ok(());
    }

    /** The generated writer: fields in order, empty ones left out, then the unknown fields. */
    method InternalSerialize() returns (target: seq<byte>)
      ensures target == Serialize(View())
    {
      target := AppendBytes(1, clientId, []);
      target := AppendBytes(2, serverId, target);
      target := AppendBytes(3, sign, target);
      target := AppendBytes(4, data, target);
      target := AppendUnknown(unknownFields, target);
      assert [] + WriteBytes(1, clientId) == WriteBytes(1, clientId);
    }

    method ByteSizeLong() returns (totalSize: nat)
      requires Sized(View())
      ensures totalSize == |Serialize(View())|
    {
      FieldSize(1, clientId);
      FieldSize(2, serverId);
      FieldSize(3, sign);
      FieldSize(4, data);
      totalSize := 0;
      if clientId != [] {
        totalSize := totalSize + 1 + BytesSize(|clientId|);
      }
      if serverId != [] {
        totalSize := totalSize + 1 + BytesSize(|serverId|);
      }
      if sign != [] {
        totalSize := totalSize + 1 + BytesSize(|sign|);
      }
      if data != [] {
        totalSize := totalSize + 1 + BytesSize(|data|);
      }
      var unknownSize := UnknownFieldsSize(unknownFields);
      totalSize := totalSize + unknownSize;
    }

    method MergeFrom(from: RequestMsg)
      requires from != this
      modifies this
      ensures View() == Merge(old(View()), from.View())
    {
      if from.clientId != [] {
        clientId := from.clientId;
      }
      if from.serverId != [] {
        serverId := from.serverId;
      }
      if from.sign != [] {
        sign := from.sign;
      }
      if from.data != [] {
        data := from.data;
      }
      unknownFields := unknownFields + from.unknownFields;
    }

    method CopyFrom(from: RequestMsg)
      modifies this
      ensures View() == old(from.View())
    {
      if from == this {
        return;
      }
      Clear();
      MergeFrom(from);
      assert [] + from.unknownFields == from.unknownFields;
    }
  }
}
