/** The frame format: STX, a 4-byte big-endian length, the payload and ETX. */
module Framing {
  import opened Bytes

  const STX: byte := 2
  const ETX: byte := 3
  const HEADER_SIZE := 5
  const TRAILER_SIZE := 1

  /** The longest payload for which `uMsgLength+HEADER_SIZE+TRAILER_SIZE` does not wrap. */
  const MAX_LENGTH := WORD - 1 - HEADER_SIZE - TRAILER_SIZE

  /** `(word >> 8 * places) & 0xFF`: the word is shifted right byte by byte. */
  function ByteAt(word: uint32, places: nat): byte {
    if places == 0 then word % 0x100 else ByteAt(word / 0x100, places - 1)
  }

  function Header(length: uint32): (h: seq<byte>)
    ensures |h| == HEADER_SIZE
  {
    [STX, ByteAt(length, 3), ByteAt(length, 2), ByteAt(length, 1), ByteAt(length, 0)]
  }

  /** `h1 << 24 | h2 << 16 | h3 << 8 | h4`, in the receiver's own association. */
  function ShiftOr(h1: byte, h2: byte, h3: byte, h4: byte): nat {
    var (n1: nat, n2: nat, n3: nat, n4: nat) := (h1, h2, h3, h4);
    BitOr(BitOr(BitOr(n1 * 0x100_0000, n2 * 0x1_0000), n3 * 0x100), n4)
  }

  /** Big-endian value of four bytes. */
  function BigEndian(h1: byte, h2: byte, h3: byte, h4: byte): uint32 {
    h1 * 0x100_0000 + h2 * 0x1_0000 + h3 * 0x100 + h4
  }

  /** The length field of the header that starts `bytes`. */
  function LengthOf(bytes: seq<byte>): uint32
    requires |bytes| >= HEADER_SIZE
  {
    BigEndian(bytes[1], bytes[2], bytes[3], bytes[4])
  }

  /** A frame with an arbitrary trailer byte. */
  function FrameWith(payload: seq<byte>, trailer: byte): seq<byte>
    requires |payload| < WORD
  {
    Header(|payload|) + payload + [trailer]
  }

  function Frame(payload: seq<byte>): seq<byte>
    requires |payload| < WORD
  {
    FrameWith(payload, ETX)
  }

  lemma Powers()
    ensures Pow2(0) == 1 && Pow2(8) == 0x100 && Pow2(16) == 0x1_0000 && Pow2(24) == 0x100_0000
  {
  }

  /** The receiver's shift-and-or reads a big-endian word. */
  lemma ShiftOrIsBigEndian(h1: byte, h2: byte, h3: byte, h4: byte)
    ensures ShiftOr(h1, h2, h3, h4) == BigEndian(h1, h2, h3, h4)
  {
    Powers();
    BitOrDisjoint(h1, 24, h2 * 0x1_0000);
    assert h1 * 0x100_0000 + h2 * 0x1_0000 == (h1 * 0x100 + h2) * 0x1_0000;
    BitOrDisjoint(h1 * 0x100 + h2, 16, h3 * 0x100);
    BitOrDisjoint((h1 * 0x100 + h2) * 0x100 + h3, 8, h4);
  }

  lemma BytesOfWord(word: uint32)
    ensures ByteAt(word, 0) == word % 0x100
    ensures ByteAt(word, 1) == word / 0x100 % 0x100
    ensures ByteAt(word, 2) == word / 0x100 / 0x100 % 0x100
    ensures ByteAt(word, 3) == word / 0x100 / 0x100 / 0x100
  {
    assert ByteAt(word, 3) == ByteAt(word / 0x100 / 0x100, 1);
  }

  /** The length a receiver reads from four length bytes. */
  function DecodeLength(h1: byte, h2: byte, h3: byte, h4: byte): (n: uint32)
    ensures n == BigEndian(h1, h2, h3, h4)
  {
    ShiftOrIsBigEndian(h1, h2, h3, h4);
    ShiftOr(h1, h2, h3, h4)
  }

  /** The four length bytes written by the sender decode to the same length, for every 32-bit value. */
  lemma HeaderRoundTrip(length: uint32)
    ensures LengthOf(Header(length)) == length
    ensures var h := Header(length); ShiftOr(h[1], h[2], h[3], h[4]) == length
  {
    var h := Header(length);
    BytesOfWord(length);
    ShiftOrIsBigEndian(h[1], h[2], h[3], h[4]);
  }

  lemma LowByte(upper: nat, low: byte)
    ensures (0x100 * upper + low) / 0x100 == upper
    ensures (0x100 * upper + low) % 0x100 == low
  {
  }

  lemma BytesOfBigEndian(h1: byte, h2: byte, h3: byte, h4: byte)
    ensures var n := BigEndian(h1, h2, h3, h4);
      ByteAt(n, 3) == h1 && ByteAt(n, 2) == h2 && ByteAt(n, 1) == h3 && ByteAt(n, 0) == h4
  {
    var n := BigEndian(h1, h2, h3, h4);
    var two: nat := 0x100 * h1 + h2;
    var three: nat := 0x100 * two + h3;
    assert n == 0x100 * three + h4;
    BytesOfWord(n);
    LowByte(three, h4);
    LowByte(two, h3);
    LowByte(h1, h2);
  }

  /** Conversely, five bytes that start with STX are the header of the length they decode to. */
  lemma HeaderOfLength(bytes: seq<byte>)
    requires |bytes| >= HEADER_SIZE && bytes[0] == STX
    ensures bytes[..HEADER_SIZE] == Header(LengthOf(bytes))
  {
    BytesOfBigEndian(bytes[1], bytes[2], bytes[3], bytes[4]);
  }

  /** A frame is the byte 2, the length with its highest byte first, the payload, and the byte 3. */
  lemma FrameBytes(payload: seq<byte>)
    requires |payload| < WORD
    ensures var f := Frame(payload);
      && |f| == |payload| + 6 && f[0] == 2 && f[|payload| + 5] == 3 && f[5..|payload| + 5] == payload
      && var (n1: nat, n2: nat, n3: nat, n4: nat) := (f[1], f[2], f[3], f[4]);
         n1 * 0x100_0000 + n2 * 0x1_0000 + n3 * 0x100 + n4 == |payload|
  {
    HeaderRoundTrip(|payload|);
  }
}
