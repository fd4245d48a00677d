/** UTF-8 text as bytes, with the check that string slicing makes. */
module Utf8 {
  import opened Wrappers

  type byte = b: int | 0 <= b < 256

  function EncodeChar(c: char): (bytes: seq<byte>)
    ensures 1 <= |bytes| <= 4
  {
    var n := c as int;
    if n < 0x80 then [n]
    else if n < 0x800 then [0xC0 + n / 64, 0x80 + n % 64]
    else if n < 0x10000 then [0xE0 + n / 4096, 0x80 + n / 64 % 64, 0x80 + n % 64]
    else [0xF0 + n / 262144, 0x80 + n / 4096 % 64, 0x80 + n / 64 % 64, 0x80 + n % 64]
  }

  function Encode(s: string): seq<byte> {
    if s == "" then [] else EncodeChar(s[0]) + Encode(s[1..])
  }

  predicate Continues(b: byte) {
    0x80 <= b < 0xC0
  }

  /** Where a string may be sliced: its ends, and before any byte that does not continue a character. */
  predicate IsCharBoundary(bytes: seq<byte>, i: nat) {
    i == 0 || i == |bytes| || (i < |bytes| && !Continues(bytes[i]))
  }

  /** `&s[..end]`, which panics (`None`) off a boundary. */
  function SliceTo(bytes: seq<byte>, end: nat): Option<seq<byte>> {
    if end <= |bytes| && IsCharBoundary(bytes, end) then Some(bytes[..end]) else None
  }

  predicate IsScalar(n: int) {
    0 <= n < 0xD800 || 0xE000 <= n < 0x110000
  }

  function Tail(b: byte): int {
    b - 0x80
  }

  /** How many bytes the first character takes, and its number. */
  function DecodeFirst(bytes: seq<byte>): (int, nat)
    requires bytes != []
    ensures DecodeFirst(bytes).1 >= 1
  {
    var b, n := bytes[0], |bytes|;
    if b < 0x80 then (b, 1)
    else if 0xC0 <= b < 0xE0 && n >= 2 then ((b - 0xC0) * 64 + Tail(bytes[1]), 2)
    else if 0xE0 <= b < 0xF0 && n >= 3 then ((b - 0xE0) * 4096 + Tail(bytes[1]) * 64 + Tail(bytes[2]), 3)
    else if 0xF0 <= b && n >= 4 then
      ((b - 0xF0) * 262144 + Tail(bytes[1]) * 4096 + Tail(bytes[2]) * 64 + Tail(bytes[3]), 4)
    else (-1, 1)
  }

  /** The characters of a string, as iterating over it gives them. Only ever applied to encoded text. */
  function Decode(bytes: seq<byte>): string
    decreases |bytes|
  {
    if bytes == [] then ""
    else
      var (n, width) := DecodeFirst(bytes);
      if IsScalar(n) && width <= |bytes| then [n as char] + Decode(bytes[width..]) else ""
  }

  lemma FirstRoundTrips(c: char, rest: seq<byte>)
    ensures DecodeFirst(EncodeChar(c) + rest) == (c as int, |EncodeChar(c)|)
  {
    var n := c as int;
    assert n == n / 64 * 64 + n % 64;
    assert n / 64 == n / 4096 * 64 + n / 64 % 64;
    assert n / 4096 == n / 262144 * 64 + n / 4096 % 64;
  }

  lemma {:induction false} DecodeEncode(s: string)
    ensures Decode(Encode(s)) == s
  {
    if s == "" {
    } else {
      var rest := Encode(s[1..]);
      FirstRoundTrips(s[0], rest);
      assert (EncodeChar(s[0]) + rest)[|EncodeChar(s[0])|..] == rest;
      DecodeEncode(s[1..]);
    }
  }

  /** The byte offset of the character with index `k`. */
  function Offset(s: string, k: nat): nat
    requires k <= |s|
  {
    if k == 0 then 0 else |EncodeChar(s[0])| + Offset(s[1..], k - 1)
  }

  /** Cutting at a character's offset cuts between characters. */
  lemma {:induction false} OffsetSplits(s: string, k: nat)
    requires k <= |s|
    ensures Encode(s) == Encode(s[..k]) + Encode(s[k..])
    ensures Offset(s, k) == |Encode(s[..k])|
  {
    if k == 0 {
      assert s[0..] == s;
    } else {
      OffsetSplits(s[1..], k - 1);
      var first := EncodeChar(s[0]);
      assert s[..k][0] == s[0] && s[..k][1..] == s[1..][..k - 1];
      assert Encode(s[..k]) == first + Encode(s[1..][..k - 1]);
      assert s[1..][k - 1..] == s[k..];
      assert Encode(s) == first + (Encode(s[1..][..k - 1]) + Encode(s[k..]));
    }
  }

  lemma FirstByteContinuesNothing(c: char, i: nat)
    requires i < |EncodeChar(c)|
    ensures Continues(EncodeChar(c)[i]) <==> i > 0
  {
    var n := c as int;
    if n < 0x80 {
      assert EncodeChar(c) == [n];
    } else if n < 0x800 {
      assert EncodeChar(c)[i] == if i == 0 then 0xC0 + n / 64 else 0x80 + n % 64;
    } else if n < 0x10000 {
      assert EncodeChar(c)[0] == 0xE0 + n / 4096;
      assert i > 0 ==> EncodeChar(c)[i] == 0x80 + (if i == 1 then n / 64 else n) % 64;
    } else {
      assert EncodeChar(c)[0] == 0xF0 + n / 262144;
      assert i > 0 ==> EncodeChar(c)[i] == 0x80 + (if i == 1 then n / 4096 else if i == 2 then n / 64 else n) % 64;
    }
  }

  lemma FirstOfRest(s: string)
    ensures s != "" ==> Encode(s) != [] && !Continues(Encode(s)[0])
  {
    if s != "" {
      FirstByteContinuesNothing(s[0], 0);
    }
  }

  /** Behind a character, the boundaries are those of the rest. */
  lemma BoundariesBehind(first: seq<byte>, rest: seq<byte>, i: nat)
    requires 0 < |first| <= i <= |first + rest|
    requires rest != [] ==> !Continues(rest[0])
    ensures IsCharBoundary(first + rest, i) <==> IsCharBoundary(rest, i - |first|)
  {
    if i < |first + rest| {
      assert (first + rest)[i] == rest[i - |first|];
    }
  }

  /** The boundaries of encoded text are exactly the offsets of its characters. */
  lemma {:induction false} BoundariesAreOffsets(s: string, i: nat)
    requires i <= |Encode(s)|
    ensures IsCharBoundary(Encode(s), i) <==> exists k :: 0 <= k <= |s| && Offset(s, k) == i
  {
    if s == "" {
      assert Offset(s, 0) == 0;
    } else {
      var width, rest := |EncodeChar(s[0])|, s[1..];
      if i < width {
        FirstByteContinuesNothing(s[0], i);
        assert Offset(s, 0) == 0;
      } else {
        BoundariesAreOffsets(rest, i - width);
        FirstOfRest(rest);
        BoundariesBehind(EncodeChar(s[0]), Encode(rest), i);
        if IsCharBoundary(Encode(s), i) {
          var k :| 0 <= k <= |rest| && Offset(rest, k) == i - width;
          assert Offset(s, k + 1) == i;
        }
        if k :| 0 <= k <= |s| && Offset(s, k) == i {
          assert Offset(rest, k - 1) == i - width;
        }
      }
    }
  }

  /** Slicing at a character's offset never panics, and gives the characters before it. */
  lemma SliceAtOffset(s: string, k: nat)
    requires k <= |s|
    ensures SliceTo(Encode(s), Offset(s, k)) == Some(Encode(s[..k]))
  {
    OffsetSplits(s, k);
    BoundariesAreOffsets(s, Offset(s, k));
  }
}
