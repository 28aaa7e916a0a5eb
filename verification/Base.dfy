/** Machine words, byte strings and small collection facts shared by every module. */
module Base {

  type Byte = x: int | 0 <= x < 0x100
  type U16 = x: int | 0 <= x < 0x1_0000
  type U32 = x: int | 0 <= x < 0x1_0000_0000
  type Bytes = seq<Byte>

  datatype Option<+T> = None | Some(value: T)

  const MILLISECOND := 1_000_000
  const SECOND := 1000 * MILLISECOND
  const MINUTE := 60 * SECOND

  /** Big-endian 16-bit encoding. */
  function PutU16(v: U16): Bytes {
    [v / 0x100, v % 0x100]
  }

  function GetU16(s: Bytes): U16
    requires |s| == 2
  {
    s[0] as int * 0x100 + s[1] as int
  }

  /** Big-endian 32-bit encoding. */
  function PutU32(v: U32): Bytes {
    PutU16(v / 0x1_0000) + PutU16(v % 0x1_0000)
  }

  function GetU32(s: Bytes): U32
    requires |s| == 4
  {
    GetU16(s[..2]) as int * 0x1_0000 + GetU16(s[2..]) as int
  }

  /** The 32-bit number whose big-endian bytes start at `at`. */
  function Word32(s: Bytes, at: nat): int
    requires at + 4 <= |s|
  {
    s[at] as int * 0x100_0000 + s[at + 1] as int * 0x1_0000 + s[at + 2] as int * 0x100 + s[at + 3] as int
  }

  lemma U16RoundTrip(v: U16)
    ensures GetU16(PutU16(v)) == v
  {
  }

  lemma U16Onto(s: Bytes)
    requires |s| == 2
    ensures PutU16(GetU16(s)) == s
  {
    var v := GetU16(s);
    assert v / 0x100 == s[0] && v % 0x100 == s[1];
  }

  lemma U32RoundTrip(v: U32)
    ensures GetU32(PutU32(v)) == v
  {
    var s := PutU32(v);
    assert s[..2] == PutU16(v / 0x1_0000) && s[2..] == PutU16(v % 0x1_0000);
    U16RoundTrip(v / 0x1_0000);
    U16RoundTrip(v % 0x1_0000);
  }

  lemma U32Onto(s: Bytes)
    requires |s| == 4
    ensures PutU32(GetU32(s)) == s
  {
    var hi, lo := GetU16(s[..2]), GetU16(s[2..]);
    var v := GetU32(s);
    assert v / 0x1_0000 == hi && v % 0x1_0000 == lo;
    U16Onto(s[..2]);
    U16Onto(s[2..]);
    assert s == s[..2] + s[2..];
  }

  /** Byte order: the encoding of a number, wherever it stands, has it as its big-endian place value. */
  lemma PlaceValue(s: Bytes, at: nat, v: U32)
    requires at + 4 <= |s| && s[at..at + 4] == PutU32(v)
    ensures Word32(s, at) == v
  {
    var b := s[at..at + 4];
    assert b[0] == s[at] && b[1] == s[at + 1] && b[2] == s[at + 2] && b[3] == s[at + 3];
    var hi, lo := v / 0x1_0000, v % 0x1_0000;
    assert b[0] == hi / 0x100 && b[1] == hi % 0x100 && b[2] == lo / 0x100 && b[3] == lo % 0x100;
  }

  lemma SubSlice<T>(s: seq<T>, a: nat, b: nat, i: nat, j: nat)
    requires a <= b <= |s| && i <= j <= b - a
    ensures s[a..b][i..j] == s[a + i..a + j]
  {
    var t := s[a..b];
    forall k | 0 <= k < j - i
      ensures t[i..j][k] == s[a + i..a + j][k]
    {
      assert t[i + k] == s[a + (i + k)];
    }
  }

  lemma JoinSlices<T>(s: seq<T>, a: nat, b: nat, c: nat)
    requires a <= b <= c <= |s|
    ensures s[..a] + s[a..b] + s[b..c] == s[..c]
  {
  }

  ghost predicate NoDup<T>(s: seq<T>) {
    forall i, j :: 0 <= i < j < |s| ==> s[i] != s[j]
  }

  ghost function Elems<T>(s: seq<T>): set<T> {
    set x | x in s
  }

  lemma ElemsAppend<T>(s: seq<T>, x: T)
    ensures Elems(s + [x]) == Elems(s) + {x}
  {
  }

  lemma NoDupLength<T>(s: seq<T>)
    requires NoDup(s)
    ensures |Elems(s)| == |s|
  {
    if s == [] {
    } else {
      var t := s[..|s| - 1];
      NoDupLength(t);
      assert s == t + [s[|s| - 1]];
      ElemsAppend(t, s[|s| - 1]);
    }
  }

  /** A subset of the same size is the whole set. */
  lemma SubsetSameSize<T>(a: set<T>, b: set<T>)
    requires a <= b
    ensures |a| <= |b|
    ensures |a| == |b| ==> a == b
  {
    var rest := b - a;
    assert b == a + rest;
    assert |b| == |a| + |rest|;
  }

  lemma MulSucc(c: nat, x: int)
    ensures c * (x + 1) == c * x + c
  {
  }

  lemma MulMonotone(c: nat, x: int, y: int)
    requires x <= y
    ensures c * x <= c * y
  {
  }
}
