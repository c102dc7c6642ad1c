/** Bytes, options and the few sequence facts every layer needs. */
module Bytes {

  type byte = b: int | 0 <= b < 256
  type uint32 = x: int | 0 <= x < 0x1_0000_0000

  const TWO_TO_THE_31: int := 0x8000_0000
  const TWO_TO_THE_32: int := 0x1_0000_0000
  const TWO_TO_THE_64: int := 0x1_0000_0000_0000_0000

  datatype Option<+T> = None | Some(value: T)

  function Reverse<T>(s: seq<T>): (r: seq<T>)
    ensures |r| == |s|
    ensures forall i {:trigger r[i]} :: 0 <= i < |s| ==> r[i] == s[|s| - 1 - i]
  {
    if s == [] then [] else Reverse(s[1..]) + [s[0]]
  }

  /** Memory image of a 32-bit word, low byte first. */
  function WordBytes(v: nat): (r: seq<byte>)
    requires v < TWO_TO_THE_32
    ensures |r| == 4
  {
    [v % 256, v / 256 % 256, v / 0x1_0000 % 256, v / 0x100_0000]
  }

  function WordValue(s: seq<byte>): (v: nat)
    requires |s| == 4
    ensures v < TWO_TO_THE_32
  {
    s[0] as int + 256 * s[1] as int + 0x1_0000 * s[2] as int + 0x100_0000 * s[3] as int
  }

  lemma WordRoundTrip(v: nat)
    requires v < TWO_TO_THE_32
    ensures WordValue(WordBytes(v)) == v
  {
    var v1, v2 := v / 256, v / 0x1_0000;
    assert v1 / 256 == v2 && v2 / 256 == v / 0x100_0000;
    assert v == 256 * v1 + v % 256 && v1 == 256 * v2 + v1 % 256 && v2 == 256 * (v2 / 256) + v2 % 256;
  }

  function Power(base: nat, k: nat): nat {
    if k == 0 then 1 else base * Power(base, k - 1)
  }

  /** Byte `k` of a word's image is its digit to the base 256 at that place. */
  lemma WordByteAt(v: nat, k: nat)
    requires v < TWO_TO_THE_32 && k < 4
    ensures Power(256, k) > 0 && WordBytes(v)[k] == v / Power(256, k) % 256
  {
    assert Power(256, 0) == 1 && Power(256, 1) == 256 && Power(256, 2) == 0x1_0000 && Power(256, 3) == 0x100_0000;
  }

  lemma WordImageRoundTrip(s: seq<byte>)
    requires |s| == 4
    ensures WordBytes(WordValue(s)) == s
  {
    var v2 := s[2] as int + 256 * s[3] as int;
    var v1 := s[1] as int + 256 * v2;
    var v := s[0] as int + 256 * v1;
    assert v == WordValue(s) && v / 256 == v1 && v1 / 256 == v2 && v2 / 256 == s[3];
    assert v / 0x1_0000 == v2 && v / 0x100_0000 == s[3];
  }

  lemma RemainderIs(v: nat, q: nat, r: nat)
    requires v == TWO_TO_THE_32 * q + r && r < TWO_TO_THE_32
    ensures v % TWO_TO_THE_32 == r
  {
  }

  /** The images of the elements, one after the other. */
  function FlatMap<T>(f: T -> seq<byte>, xs: seq<T>): seq<byte> {
    if xs == [] then [] else f(xs[0]) + FlatMap(f, xs[1..])
  }

  lemma FlatMapOne<T>(f: T -> seq<byte>, x: T)
    ensures FlatMap(f, [x]) == f(x)
  {
    assert [x][1..] == [];
    assert FlatMap(f, []) == [];
    assert FlatMap(f, [x]) == f(x) + [];
  }

  lemma {:induction false} FlatMapAppend<T>(f: T -> seq<byte>, a: seq<T>, b: seq<T>)
    ensures FlatMap(f, a + b) == FlatMap(f, a) + FlatMap(f, b)
  {
    if a == [] {
      assert a + b == b;
    } else {
      assert (a + b)[1..] == a[1..] + b;
      FlatMapAppend(f, a[1..], b);
      Assoc(f(a[0]), FlatMap(f, a[1..]), FlatMap(f, b));
    }
  }

  lemma Assoc<T>(a: seq<T>, b: seq<T>, c: seq<T>)
    ensures a + b + c == a + (b + c)
  {
  }

  lemma PrefixSplit<T>(a: seq<T>, b: seq<T>, c: seq<T>)
    requires a <= b + c
    ensures |a| <= |b| ==> a <= b
    ensures |a| >= |b| ==> a == b + a[|b|..] && a[|b|..] <= c
  {
    if |a| >= |b| {
      assert a[..|b|] == (b + c)[..|b|] == b;
      assert a[|b|..] == (b + c)[|b|..|a|];
      assert (b + c)[|b|..] == c;
    } else {
      assert (b + c)[..|a|] == b[..|a|];
    }
  }
}
