/** The generated codec of `RespondMsg`: a 32-bit key id, three bytes fields and the retained unknown fields. */
module RespondCodec {
  import opened Bytes
  import opened Wire
  import opened Codec

  datatype Respond = Respond(seckeyId: uint32, clientId: seq<byte>, serverId: seq<byte>, data: seq<byte>,
                             unknown: seq<Record>)

  const DEFAULT := Respond(0, [], [], [], [])

  predicate Known(r: Record) {
    (r.num == 1 && r.payload.Varint?) || (2 <= r.num <= 4 && r.payload.Bytes?)
  }

  predicate Valid(m: Respond) {
    && |m.clientId| < TWO_TO_THE_31 && |m.serverId| < TWO_TO_THE_31 && |m.data| < TWO_TO_THE_31
    && ValidRecords(m.unknown)
    && forall i :: 0 <= i < |m.unknown| ==> !Known(m.unknown[i])
  }

  /** Sizes the generated code can compute: bytes fields shorter than 2^32. */
  predicate Sized(m: Respond) {
    && |m.clientId| < TWO_TO_THE_32 && |m.serverId| < TWO_TO_THE_32 && |m.data| < TWO_TO_THE_32
    && ValidRecords(m.unknown)
  }

  /** What one record of the input does to a message. */
  function Apply(m: Respond, r: Record): Respond {
    if !Known(r) then m.(unknown := m.unknown + [r])
    else if r.num == 1 then m.(seckeyId := r.payload.v % TWO_TO_THE_32)
    else if r.num == 2 then m.(clientId := r.payload.content)
    else if r.num == 3 then m.(serverId := r.payload.content)
    else m.(data := r.payload.content)
  }

  /** Parsing `s` onto an existing message. */
  function ParseOnto(m: Respond, s: seq<byte>): Parsed<Respond> {
    Parse(Apply, m, s)
  }

  function Fields(m: Respond): seq<Record> {
    UintField(1, m.seckeyId) + Field(2, m.clientId) + Field(3, m.serverId) + Field(4, m.data) + m.unknown
  }

  function Serialize(m: Respond): seq<byte> {
    WriteUint(1, m.seckeyId) + WriteBytes(2, m.clientId) + WriteBytes(3, m.serverId) + WriteBytes(4, m.data)
    + EncodeRecords(m.unknown)
  }

  function Merge(to: Respond, from: Respond): Respond {
    Respond(
      if from.seckeyId == 0 then to.seckeyId else from.seckeyId,
      if from.clientId == [] then to.clientId else from.clientId,
      if from.serverId == [] then to.serverId else from.serverId,
      if from.data == [] then to.data else from.data,
      to.unknown + from.unknown)
  }

  lemma {:induction false} ApplyUnknown(m: Respond, rs: seq<Record>)
    requires forall i :: 0 <= i < |rs| ==> !Known(rs[i])
    ensures Fold(Apply, m, rs) == m.(unknown := m.unknown + rs)
    decreases rs
  {
    if rs == [] {
      assert m.unknown + rs == m.unknown;
    } else {
      ApplyUnknown(Apply(m, rs[0]), rs[1..]);
      assert m.unknown + [rs[0]] + rs[1..] == m.unknown + rs;
    }
  }

  /** `m` after reading back a bytes field written by `Field`. */
  function Put(m: Respond, num: nat, b: seq<byte>): Respond {
    if b == [] then m else Apply(m, Record(num, Bytes(b)))
  }

  lemma ApplyField(m: Respond, num: nat, b: seq<byte>, rest: seq<Record>)
    requires 2 <= num <= 4
    ensures Fold(Apply, m, Field(num, b) + rest) == Fold(Apply, Put(m, num, b), rest)
  {
    if b == [] {
      assert Field(num, b) + rest == rest;
    } else {
      assert ([Record(num, Bytes(b))] + rest)[1..] == rest;
    }
  }

  lemma ApplyIdRecord(m: Respond, id: uint32)
    ensures Apply(m, Record(1, Varint(id))) == m.(seckeyId := id)
  {
  }

  lemma ApplyId(m: Respond, id: uint32, rest: seq<Record>)
    ensures Fold(Apply, m, UintField(1, id) + rest) ==
      Fold(Apply, m.(seckeyId := if id == 0 then m.seckeyId else id), rest)
  {
    if id == 0 {
      assert UintField(1, id) + rest == rest;
    } else {
      FoldOne(Apply, m, Record(1, Varint(id)), rest);
      ApplyIdRecord(m, id);
    }
  }

  /** `to` after reading back all of `from`'s own fields. */
  function PutFields(to: Respond, from: Respond): Respond {
    var identified := to.(seckeyId := if from.seckeyId == 0 then to.seckeyId else from.seckeyId);
    Put(Put(Put(identified, 2, from.clientId), 3, from.serverId), 4, from.data)
  }

  lemma PutFieldsMerges(to: Respond, from: Respond)
    ensures PutFields(to, from).(unknown := to.unknown + from.unknown) == Merge(to, from)
    ensures PutFields(to, from).unknown == to.unknown
  {
  }

  /** Reading back the fields of `from` onto `to` is merging. */
  lemma ApplyFields(to: Respond, from: Respond)
    requires Valid(from)
    ensures Fold(Apply, to, Fields(from)) == Merge(to, from)
  {
    var r4 := Field(4, from.data) + from.unknown;
    var r3 := Field(3, from.serverId) + r4;
    var r2 := Field(2, from.clientId) + r3;
    assert Fields(from) == UintField(1, from.seckeyId) + r2;
    ApplyId(to, from.seckeyId, r2);
    var m1 := to.(seckeyId := if from.seckeyId == 0 then to.seckeyId else from.seckeyId);
    ApplyField(m1, 2, from.clientId, r3);
    var m2 := Put(m1, 2, from.clientId);
    ApplyField(m2, 3, from.serverId, r4);
    var m3 := Put(m2, 3, from.serverId);
    ApplyField(m3, 4, from.data, from.unknown);
    ApplyUnknown(Put(m3, 4, from.data), from.unknown);
    PutFieldsMerges(to, from);
  }

  lemma ValidFields(m: Respond)
    requires Valid(m)
    ensures ValidRecords(Fields(m))
  {
  }

  /** Writing field by field is writing the list of fields. */
  lemma SerializeIsFields(m: Respond)
    ensures Serialize(m) == Serialized(FORMAT, m)
  {
    var f1, f2, f3, f4 := UintField(1, m.seckeyId), Field(2, m.clientId), Field(3, m.serverId), Field(4, m.data);
    WriteUintIsField(1, m.seckeyId);
    WriteBytesIsField(2, m.clientId);
    WriteBytesIsField(3, m.serverId);
    WriteBytesIsField(4, m.data);
    EncodeRecordsAppend(f1 + f2 + f3 + f4, m.unknown);
    EncodeRecordsAppend(f1 + f2 + f3, f4);
    EncodeRecordsAppend(f1 + f2, f3);
    EncodeRecordsAppend(f1, f2);
  }

  lemma ApplyKeepsValid(m: Respond, r: Record)
    requires Valid(m) && ValidRecord(r)
    ensures Valid(Apply(m, r))
  {
  }

  const FORMAT := Format(DEFAULT, Apply, Fields, Merge, Valid)

  /** The codec's laws hold for this message: see module Codec for what follows. */
  lemma IsLawful()
    ensures Lawful(FORMAT)
  {
    forall m, r | Valid(m) && ValidRecord(r)
      ensures Valid(Apply(m, r))
    {
      ApplyKeepsValid(m, r);
    }
    forall m | Valid(m)
      ensures ValidRecords(Fields(m)) && Merge(DEFAULT, m) == m
    {
      ValidFields(m);
      assert [] + m.unknown == m.unknown;
    }
    forall to, from | Valid(from)
      ensures Fold(Apply, to, Fields(from)) == Merge(to, from)
    {
      ApplyFields(to, from);
    }
  }

  /** The value of the last varint record of field 1, cut to 32 bits. */
  function LastId(rs: seq<Record>, default: uint32): uint32 {
    if rs == [] then default
    else
      var last := rs[|rs| - 1];
      if last.num == 1 && last.payload.Varint? then last.payload.v % TWO_TO_THE_32
      else LastId(rs[..|rs| - 1], default)
  }

  lemma {:induction false} LastOneWins(m: Respond, rs: seq<Record>)
    ensures Fold(Apply, m, rs) == Respond(
      LastId(rs, m.seckeyId), LastContent(rs, 2, m.clientId), LastContent(rs, 3, m.serverId),
      LastContent(rs, 4, m.data), m.unknown + Unrecognised(Known, rs))
  {
    if rs == [] {
      assert m.unknown + [] == m.unknown;
    } else {
      var front, last := rs[..|rs| - 1], rs[|rs| - 1];
      LastOneWins(m, front);
      FoldLast(Apply, m, rs);
      Assoc(m.unknown, Unrecognised(Known, front), [last]);
    }
  }

  lemma FieldsInOrder(m: Respond)
    ensures InFieldOrder(Known, Fields(m), m.unknown)
  {
    var front := UintField(1, m.seckeyId) + Field(2, m.clientId) + Field(3, m.serverId) + Field(4, m.data);
    assert Fields(m) == front + m.unknown;
    assert Fields(m)[|front|..] == m.unknown;
    assert forall i :: 0 <= i < |front| ==> Fields(m)[i] == front[i];
  }

  /** What is on the wire: the known fields in ascending order, the others behind them, as they came. */
  lemma WrittenInOrder(m: Respond)
    requires Valid(m)
    ensures Records(Serialize(m)).Ok? && InFieldOrder(Known, Records(Serialize(m)).value, m.unknown)
  {
    SerializeIsFields(m);
    ValidFields(m);
    RecordsAfterEncode(Fields(m));
    FieldsInOrder(m);
  }

  lemma DefaultIsEmpty()
    ensures Serialize(DEFAULT) == []
  {
  }

  /** No field is longer than the serialisation that holds it. */
  lemma FieldsFit(m: Respond)
    ensures |m.clientId| <= |Serialize(m)| && |m.serverId| <= |Serialize(m)| && |m.data| <= |Serialize(m)|
  {
    WriteBytesHolds(2, m.clientId);
    WriteBytesHolds(3, m.serverId);
    WriteBytesHolds(4, m.data);
  }

  lemma IdIsWritten(m: Respond)
    requires m.seckeyId != 0
    ensures Serialize(m) != []
  {
    assert |WriteUint(1, m.seckeyId)| >= 1;
  }

  // ----- The message object -----

  class RespondMsg {
    var seckeyId: uint32
    var clientId: seq<byte>
    var serverId: seq<byte>
    var data: seq<byte>
    var unknownFields: seq<Record>

    ghost function View(): Respond
      reads this
    {
      Respond(seckeyId, clientId, serverId, data, unknownFields)
    }

    constructor ()
      ensures View() == DEFAULT
    {
      seckeyId, clientId, serverId, data, unknownFields := 0, [], [], [], [];
    }

    method Clear()
      modifies this
      ensures View() == DEFAULT
    {
      clientId, serverId, data := [], [], [];
      seckeyId := 0;
      unknownFields := [];
    }

    /** One round of the generated parse loop: a tag, then the field or unknown field it announces. */
    method ParseField(s: seq<byte>) returns (r: Read<()>)
      requires s != []
      modifies this
      ensures r.Malformed? <==> ReadRecord(s).Malformed?
      ensures r.Group? <==> ReadRecord(s).Group?
      ensures r.Got? ==> r.used == ReadRecord(s).used && View() == Apply(old(View()), ReadRecord(s).value)
      ensures match r
              case Malformed => ParseOnto(old(View()), s) == Failed
              case Group => ParseOnto(old(View()), s) == NotModelled
              case Got(_, n) => 1 <= n <= |s| && ParseOnto(old(View()), s) == ParseOnto(View(), s[n..])
    {
      if ReadRecord(s).Got? {
        ParseStep(Apply, View(), s);
      }
      var tagRead := ReadTag(s);
      if !tagRead.Got? {
        return Malformed;
      }
      var tag, ptr := tagRead.value, tagRead.used;
      var expected := match tag / 8 {
        case 1 => tag % 256 == 8
        case 2 => tag % 256 == 18
        case 3 => tag % 256 == 26
        case 4 => tag % 256 == 34
        case _ => false
      };
      if expected {
        r := ParseKnown(tag, s[ptr..]);
      } else {
        r := ParseUnusual(tag, s[ptr..]);
      }
      if r.Got? {
        r := Got((), ptr + r.used);
      }
    }

    /** The cases of the fields the message has, with the wire types they should have. */
    method ParseKnown(tag: nat, s: seq<byte>) returns (r: Read<()>)
      requires tag == 8 || tag == 18 || tag == 26 || tag == 34
      modifies this
      ensures r.Malformed? <==> ReadField(tag, s).Malformed?
      ensures !r.Group? && !ReadField(tag, s).Group?
      ensures r.Got? ==> r.used == ReadField(tag, s).used && View() == Apply(old(View()), ReadField(tag, s).value)
    {
      if tag / 8 == 1 {
        var id := ReadVarint32(s);
        if !id.Got? {
          return Malformed;
        }
        ReadVarint32IsCut(s);
        seckeyId := id.value;
        return Got((), id.used);
      }
      var str := ReadBytes(s);
      if !str.Got? {
        return Malformed;
      }
      match tag / 8 {
        case 2 => clientId := str.value;
        case 3 => serverId := str.value;
        case _ => data := str.value;
      }
      return Got((), str.used);
    }

    /** Everything else is kept as an unknown field. */
    method ParseUnusual(tag: nat, s: seq<byte>) returns (r: Read<()>)
      requires tag < TWO_TO_THE_32 && (ReadField(tag, s).Got? ==> !Known(ReadField(tag, s).value))
      modifies this
      ensures r.Malformed? <==> ReadField(tag, s).Malformed?
      ensures r.Group? <==> ReadField(tag, s).Group?
      ensures r.Got? ==> r.used == ReadField(tag, s).used && View() == Apply(old(View()), ReadField(tag, s).value)
    {
      if tag == 0 || tag % 8 == 4 || tag / 8 == 0 {
        return Malformed;
      }
      match ReadPayload(tag % 8, s) {
        case Malformed => return Malformed;
        case Group => return Group;
        case Got(payload, used) =>
          unknownFields := unknownFields + [Record(tag / 8, payload)];
          return Got((), used);
      }
    }

    /** The generated parse loop; `s` is the whole input, parsed onto the current fields. */
    method InternalParse(s: seq<byte>) returns (outcome: Parsed<()>)
      modifies this
      ensures outcome.Failed? <==> ParseOnto(old(View()), s).Failed?
      ensures outcome.NotModelled? <==> ParseOnto(old(View()), s).NotModelled?
      ensures outcome.Ok? ==> ParseOnto(old(View()), s) == Ok(View())
    {
      var rest := s;
      while rest != []
        invariant ParseOnto(View(), rest) == ParseOnto(old(View()), s)
      {
        var field := ParseField(rest);
        match field {
          case Malformed => return Failed;
          case Group => return NotModelled;
          case Got(_, used) => rest := rest[used..];
        }
      }
      outcome := Ok(());
    }

    /** The generated writer: fields in order, empty ones left out, then the unknown fields. */
    method InternalSerialize() returns (target: seq<byte>)
      ensures target == Serialize(View())
    {
      target := AppendUint(1, seckeyId, []);
      target := AppendBytes(2, clientId, target);
      target := AppendBytes(3, serverId, target);
      target := AppendBytes(4, data, target);
      target := AppendUnknown(unknownFields, target);
      assert [] + WriteUint(1, seckeyId) == WriteUint(1, seckeyId);
    }

    method ByteSizeLong() returns (totalSize: nat)
      requires Sized(View())
      ensures totalSize == |Serialize(View())|
    {
      UintFieldSize(1, seckeyId);
      FieldSize(2, clientId);
      FieldSize(3, serverId);
      FieldSize(4, data);
      totalSize := 0;
      if clientId != [] {
        totalSize := totalSize + 1 + BytesSize(|clientId|);
      }
      if serverId != [] {
        totalSize := totalSize + 1 + BytesSize(|serverId|);
      }
      if data != [] {
        totalSize := totalSize + 1 + BytesSize(|data|);
      }
      if seckeyId != 0 {
        totalSize := totalSize + 1 + VarintSize(seckeyId);
      }
      var unknownSize := UnknownFieldsSize(unknownFields);
      totalSize := totalSize + unknownSize;
    }

    method MergeFrom(from: RespondMsg)
      requires from != this
      modifies this
      ensures View() == Merge(old(View()), from.View())
    {
      if from.clientId != [] {
        clientId := from.clientId;
      }
      if from.serverId != [] {
        serverId := from.serverId;
      }
      if from.data != [] {
        data := from.data;
      }
      if from.seckeyId != 0 {
        seckeyId := from.seckeyId;
      }
      unknownFields := unknownFields + from.unknownFields;
    }

    method CopyFrom(from: RespondMsg)
      modifies this
      ensures View() == old(from.View())
    {
      if from == this {
        return;
      }
      Clear();
      MergeFrom(from);
      assert [] + from.unknownFields == from.unknownFields;
    }
  }
}
