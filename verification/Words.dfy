/** The fixed-width integers of the source, and the little-endian layout of the wire. */
module Words {
  type byte = bv8
  type u16 = bv16
  type u32 = bv32

  datatype Option<+T> = None | Some(value: T)

  /** A variable a C caller hands over by address. */
  class Cell<T> {
    var value: T

    constructor (value: T)
      ensures this.value == value
    {
      this.value := value;
    }
  }

  /** The cast of a small length to uint8_t. */
  function ByteOf(n: nat): byte
    requires n < 256
  {
    if n == 0 then 0 else ByteOf(n - 1) + 1
  }

  lemma {:induction false} ByteOfLength(n: nat)
    requires n < 256
    ensures ByteOf(n) as nat == n
  {
    if n > 0 {
      ByteOfLength(n - 1);
      LastByte(ByteOf(n - 1));
      NextByte(ByteOf(n - 1));
    }
  }

  lemma NextByte(b: byte)
    ensures b < 0xFF ==> (b + 1) as nat == b as nat + 1
  {
  }

  lemma LastByte(b: byte)
    ensures b == 0xFF ==> b as nat == 255
  {
  }

  lemma SameByte(b: byte, c: byte)
    requires b as nat == c as nat
    ensures b == c
  {
  }

  /** The cast of a number that fits to uint16_t. */
  function U16Of(n: nat): u16
    requires n < 0x1_0000
  {
    ((ByteOf(n / 256) as u16) << 8) | (ByteOf(n % 256) as u16)
  }

  lemma JoinedBytes(high: byte, low: byte)
    ensures (((high as u16) << 8) | (low as u16)) as nat == high as nat * 256 + low as nat
  {
  }

  lemma U16OfValue(n: nat)
    requires n < 0x1_0000
    ensures U16Of(n) as nat == n
  {
    hide ByteOf;
    ByteOfLength(n / 256);
    ByteOfLength(n % 256);
    JoinedBytes(ByteOf(n / 256), ByteOf(n % 256));
  }

  /** The cast of a number that fits to uint32_t. */
  function U32Of(n: nat): u32
    requires n < 0x1_0000_0000
  {
    ((U16Of(n / 0x1_0000) as u32) << 16) | (U16Of(n % 0x1_0000) as u32)
  }

  lemma JoinedWords(high: u16, low: u16)
    ensures (((high as u32) << 16) | (low as u32)) as nat == high as nat * 0x1_0000 + low as nat
  {
  }

  lemma U32OfValue(n: nat)
    requires n < 0x1_0000_0000
    ensures U32Of(n) as nat == n
  {
    hide U16Of;
    U16OfValue(n / 0x1_0000);
    U16OfValue(n % 0x1_0000);
    JoinedWords(U16Of(n / 0x1_0000), U16Of(n % 0x1_0000));
  }

  /** A word is determined by its number. */
  lemma SameU32(v: u32, w: u32)
    requires v as nat == w as nat
    ensures v == w
  {
    assert (v as nat) as u32 == v;
    assert (w as nat) as u32 == w;
  }

  /** The cast to uint8_t. */
  function Truncate(v: u32): byte { (v & 0xFF) as byte }

  function Widen(b: byte): u32 { b as u32 }

  function High(w: u16): byte { (w >> 8) as byte }

  function Low(w: u16): byte { (w & 0xFF) as byte }

  function Le16(w: u16): seq<byte> {
    [Low(w), High(w)]
  }

  function FromLe16(low: byte, high: byte): u16 {
    (low as u16) | ((high as u16) << 8)
  }

  function Le32(v: u32): seq<byte> {
    [Truncate(v), Truncate(v >> 8), Truncate(v >> 16), Truncate(v >> 24)]
  }

  function FromLe32(b0: byte, b1: byte, b2: byte, b3: byte): u32 {
    Widen(b0) | (Widen(b1) << 8) | (Widen(b2) << 16) | (Widen(b3) << 24)
  }

  lemma Le16RoundTrip(w: u16)
    ensures FromLe16(Low(w), High(w)) == w
  {
  }

  lemma FromLe16RoundTrip(low: byte, high: byte)
    ensures Low(FromLe16(low, high)) == low && High(FromLe16(low, high)) == high
  {
  }

  lemma Le32RoundTrip(v: u32)
    ensures FromLe32(Truncate(v), Truncate(v >> 8), Truncate(v >> 16), Truncate(v >> 24)) == v
  {
  }

  lemma FromLe32RoundTrip(b0: byte, b1: byte, b2: byte, b3: byte)
    ensures Le32(FromLe32(b0, b1, b2, b3)) == [b0, b1, b2, b3]
  {
  }

  /** Little-endian by value: the first byte weighs least. */
  lemma Le16ByValue(low: byte, high: byte)
    ensures FromLe16(low, high) as nat == low as nat + 256 * high as nat
  {
    JoinedBytes(high, low);
    Commuted(low, high);
  }

  lemma Commuted(low: byte, high: byte)
    ensures FromLe16(low, high) == ((high as u16) << 8) | (low as u16)
  {
  }

  lemma WidenJoined(low: byte, high: byte)
    ensures FromLe16(low, high) as u32 == Widen(low) | (Widen(high) << 8)
  {
  }

  lemma Assembled(v0: u32, v1: u32, v2: u32, v3: u32)
    ensures v0 | (v1 << 8) | (v2 << 16) | (v3 << 24) == ((v2 | (v3 << 8)) << 16) | (v0 | (v1 << 8))
  {
  }

  lemma InHalves(b0: byte, b1: byte, b2: byte, b3: byte)
    ensures FromLe32(b0, b1, b2, b3) == ((FromLe16(b2, b3) as u32) << 16) | (FromLe16(b0, b1) as u32)
  {
    hide Widen, FromLe16;
    WidenJoined(b0, b1);
    WidenJoined(b2, b3);
    Assembled(Widen(b0), Widen(b1), Widen(b2), Widen(b3));
  }

  /** The two low bytes weigh what they would alone, the two high ones 2^16 times that. */
  lemma Le32ByValue(b0: byte, b1: byte, b2: byte, b3: byte)
    ensures FromLe32(b0, b1, b2, b3) as nat == FromLe16(b0, b1) as nat + 0x1_0000 * FromLe16(b2, b3) as nat
  {
    hide FromLe16, FromLe32;
    InHalves(b0, b1, b2, b3);
    JoinedWords(FromLe16(b2, b3), FromLe16(b0, b1));
  }

  lemma TruncateRoundTrip(v: u32)
    requires v < 0x100
    ensures Widen(Truncate(v)) == v
  {
  }

  /** `s` with the bytes from `at` on replaced by `t`. */
  function Overlaid(s: seq<byte>, at: nat, t: seq<byte>): (r: seq<byte>)
    requires at + |t| <= |s|
    ensures |r| == |s|
  {
    s[..at] + t + s[at + |t|..]
  }

  lemma OverlaidTwice(s: seq<byte>, at: nat, t: seq<byte>, u: seq<byte>)
    requires at + |t| + |u| <= |s|
    ensures Overlaid(Overlaid(s, at, t), at + |t|, u) == Overlaid(s, at, t + u)
  {
  }

  lemma OverlaidNothing(s: seq<byte>, at: nat)
    requires at <= |s|
    ensures Overlaid(s, at, []) == s
  {
  }

  lemma OverlaidOne(s: seq<byte>, at: nat, t: seq<byte>, b: byte)
    requires at + |t| < |s|
    ensures Overlaid(s, at, t)[at + |t| := b] == Overlaid(s, at, t + [b])
  {
  }

  lemma OverlaidFront(s: seq<byte>, t: seq<byte>)
    requires |t| <= |s|
    ensures Overlaid(s, 0, t)[..|t|] == t
  {
  }

  // ---- slices ----

  lemma Middle(a: seq<byte>, b: seq<byte>, c: seq<byte>)
    ensures (a + b + c)[|a|..|a| + |b|] == b
  {
  }

  lemma SliceOfPrefix(a: array<byte>, n: nat, i: nat, j: nat)
    requires i <= j <= n <= a.Length
    ensures a[..n][i..j] == a[i..j]
  {
  }
}
