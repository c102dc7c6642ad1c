/** What both generated messages have in common: parsing folds the input's records into a message, and serialising
    writes the message's fields as records. The laws are proved once, for any message type that satisfies `Lawful`. */
module Codec {
  import opened Bytes
  import opened Wire

  function Fold<T>(apply: (T, Record) -> T, m: T, rs: seq<Record>): T
    decreases rs
  {
    if rs == [] then m else Fold(apply, apply(m, rs[0]), rs[1..])
  }

  /** Parsing `s` onto an existing message. */
  function Parse<T>(apply: (T, Record) -> T, m: T, s: seq<byte>): Parsed<T> {
    match Records(s)
    case Ok(rs) => Ok(Fold(apply, m, rs))
    case Failed => Failed
    case NotModelled => NotModelled
  }

  lemma FoldOne<T>(apply: (T, Record) -> T, m: T, r: Record, rest: seq<Record>)
    ensures Fold(apply, m, [r] + rest) == Fold(apply, apply(m, r), rest)
  {
    assert ([r] + rest)[1..] == rest;
  }

  lemma {:induction false} FoldAppend<T>(apply: (T, Record) -> T, m: T, a: seq<Record>, b: seq<Record>)
    ensures Fold(apply, m, a + b) == Fold(apply, Fold(apply, m, a), b)
    decreases a
  {
    if a == [] {
      assert a + b == b;
    } else {
      assert (a + b)[1..] == a[1..] + b;
      FoldAppend(apply, apply(m, a[0]), a[1..], b);
    }
  }

  /** One round of a parse loop: reading a record off the input and applying it. */
  lemma ParseStep<T>(apply: (T, Record) -> T, m: T, s: seq<byte>)
    requires s != [] && ReadRecord(s).Got?
    ensures
      var Got(rec, n) := ReadRecord(s);
      Parse(apply, m, s) == Parse(apply, apply(m, rec), s[n..])
  {
    var Got(rec, n) := ReadRecord(s);
    RecordsCons(s);
    if Records(s[n..]).Ok? {
      FoldOne(apply, m, rec, Records(s[n..]).value);
    }
  }

  /** Parsing a concatenation is parsing the second part onto the result of the first. */
  lemma ParseAppend<T>(apply: (T, Record) -> T, m: T, x: seq<byte>, y: seq<byte>)
    requires Parse(apply, m, x).Ok?
    ensures Parse(apply, m, x + y) == Parse(apply, Parse(apply, m, x).value, y)
  {
    RecordsAppend(x, y);
    if Records(y).Ok? {
      FoldAppend(apply, m, Records(x).value, Records(y).value);
    }
  }

  /** A message type: its default, what a record does to a message, the records a message is written as, merging, and
      which messages can be written. */
  datatype Format<!T> = Format(
    default: T, apply: (T, Record) -> T, fields: T -> seq<Record>, merge: (T, T) -> T, valid: T -> bool)

  function Serialized<T>(f: Format<T>, m: T): seq<byte> {
    EncodeRecords(f.fields(m))
  }

  /** Applying valid records keeps a message valid; a valid message's fields are valid records, and applying them is
      merging the message in; merging into the default message changes nothing. */
  ghost predicate Lawful<T(!new)>(f: Format<T>) {
    && f.valid(f.default)
    && (forall m, r :: f.valid(m) && ValidRecord(r) ==> f.valid(f.apply(m, r)))
    && (forall m :: f.valid(m) ==> ValidRecords(f.fields(m)) && f.merge(f.default, m) == m)
    && forall to, from :: f.valid(from) ==> Fold(f.apply, to, f.fields(from)) == f.merge(to, from)
  }

  /** Parsing a serialisation onto a message merges the serialised message into it. */
  lemma ParseMerges<T(!new)>(f: Format<T>, to: T, from: T)
    requires Lawful(f) && f.valid(from)
    ensures Parse(f.apply, to, Serialized(f, from)) == Ok(f.merge(to, from))
  {
    assert ValidRecords(f.fields(from));
    RecordsAfterEncode(f.fields(from));
    assert Fold(f.apply, to, f.fields(from)) == f.merge(to, from);
  }

  /** Parsing undoes serialising. */
  lemma RoundTrip<T(!new)>(f: Format<T>, m: T)
    requires Lawful(f) && f.valid(m)
    ensures Parse(f.apply, f.default, Serialized(f, m)) == Ok(m)
  {
    ParseMerges(f, f.default, m);
    assert f.merge(f.default, m) == m;
  }

  lemma ConcatenationMerges<T(!new)>(f: Format<T>, a: T, b: T)
    requires Lawful(f) && f.valid(a) && f.valid(b)
    ensures Parse(f.apply, f.default, Serialized(f, a) + Serialized(f, b)) == Ok(f.merge(a, b))
  {
    RoundTrip(f, a);
    ParseAppend(f.apply, f.default, Serialized(f, a), Serialized(f, b));
    ParseMerges(f, a, b);
  }

  lemma {:induction false} FoldValid<T(!new)>(f: Format<T>, m: T, rs: seq<Record>)
    requires Lawful(f) && f.valid(m) && ValidRecords(rs)
    ensures f.valid(Fold(f.apply, m, rs))
    decreases rs
  {
    if rs != [] {
      assert ValidRecord(rs[0]) && f.valid(f.apply(m, rs[0]));
      FoldValid(f, f.apply(m, rs[0]), rs[1..]);
    }
  }

  /** Whatever the input looked like, its parse result survives being serialised and parsed again. */
  lemma NormalForm<T(!new)>(f: Format<T>, x: seq<byte>)
    requires Lawful(f) && Parse(f.apply, f.default, x).Ok?
    ensures f.valid(Parse(f.apply, f.default, x).value)
    ensures Parse(f.apply, f.default, Serialized(f, Parse(f.apply, f.default, x).value)) == Parse(f.apply, f.default, x)
  {
    FoldValid(f, f.default, Records(x).value);
    RoundTrip(f, Parse(f.apply, f.default, x).value);
  }

  // ----- Which occurrence of a field counts -----

  /** The content of the last record that is field `num` with the right wire type. */
  function LastContent(rs: seq<Record>, num: nat, default: seq<byte>): seq<byte> {
    if rs == [] then default
    else
      var last := rs[|rs| - 1];
      if last.num == num && last.payload.Bytes? then last.payload.content
      else LastContent(rs[..|rs| - 1], num, default)
  }

  /** The records that are no field of the message, in input order. */
  function Unrecognised(known: Record -> bool, rs: seq<Record>): seq<Record> {
    if rs == [] then []
    else if known(rs[|rs| - 1]) then Unrecognised(known, rs[..|rs| - 1])
    else Unrecognised(known, rs[..|rs| - 1]) + [rs[|rs| - 1]]
  }

  /** The records are fields of the message in ascending order, each once at most, and then these unknown ones. */
  ghost predicate InFieldOrder(known: Record -> bool, rs: seq<Record>, unknown: seq<Record>) {
    exists n | 0 <= n <= |rs| ::
      && rs[n..] == unknown && (forall i :: 0 <= i < n ==> known(rs[i]))
      && forall i, j :: 0 <= i < j < n ==> rs[i].num < rs[j].num
  }

  lemma FoldLast<T>(apply: (T, Record) -> T, m: T, rs: seq<Record>)
    requires rs != []
    ensures Fold(apply, m, rs) == apply(Fold(apply, m, rs[..|rs| - 1]), rs[|rs| - 1])
  {
    var front, last := rs[..|rs| - 1], rs[|rs| - 1];
    assert front + [last] == rs;
    FoldAppend(apply, m, front, [last]);
  }
}
