/** Unsigned machine words and the network byte order conversions
    (`htons`, `ntohs`, `htonl`, `ntohl`) the action codec relies on.
    Network byte order is big-endian: the most significant byte comes first. */
module ByteOrder {

  type byte = x: nat | x < 0x100
  type u16 = x: nat | x < 0x1_0000
  type u32 = x: nat | x < 0x1_0000_0000

  /** A 16-bit field as it sits in a wire structure. */
  type Be16 = s: seq<byte> | |s| == 2 witness [0, 0]

  /** A 32-bit field as it sits in a wire structure. */
  type Be32 = s: seq<byte> | |s| == 4 witness [0, 0, 0, 0]

  /** The value of a big-endian 16-bit field. */
  function Ntohs(b: Be16): (v: u16)
  {
    b[0] as int * 0x100 + b[1] as int
  }

  /** The big-endian 16-bit field at `off`, read in place. */
  function Be16At(s: seq<byte>, off: nat): u16
    requires off + 2 <= |s|
  {
    s[off] as int * 0x100 + s[off + 1] as int
  }

  /** Reading in place is `ntohs` of the two bytes at `off`. */
  lemma Be16AtIsNtohs(s: seq<byte>, off: nat)
    requires off + 2 <= |s|
    ensures Be16At(s, off) == Ntohs(s[off..off + 2])
  {
  }

  /** A 16-bit value laid out in network byte order. */
  function Htons(v: u16): (b: Be16)
    ensures b[0] as int * 0x100 + b[1] as int == v
  {
    [v / 0x100, v % 0x100]
  }

  /** The value of a big-endian 32-bit field. */
  function Ntohl(b: Be32): (v: u32)
  {
    Ntohs(b[..2]) * 0x1_0000 + Ntohs(b[2..])
  }

  /** A 32-bit value laid out in network byte order. */
  function Htonl(v: u32): (b: Be32)
  {
    Htons(v / 0x1_0000) + Htons(v % 0x1_0000)
  }

  lemma NtohsHtons(v: u16)
    ensures Ntohs(Htons(v)) == v
  {
  }

  lemma HtonsNtohs(b: Be16)
    ensures Htons(Ntohs(b)) == b
  {
    var v := Ntohs(b);
    assert v / 0x100 == b[0] && v % 0x100 == b[1];
  }

  /** `ntohl` undoes `htonl`. */
  lemma NtohlHtonl(v: u32)
    ensures Ntohl(Htonl(v)) == v
  {
    var b := Htonl(v);
    assert b[..2] == Htons(v / 0x1_0000);
    assert b[2..] == Htons(v % 0x1_0000);
    NtohsHtons(v / 0x1_0000);
    NtohsHtons(v % 0x1_0000);
  }

  /** `htonl` undoes `ntohl`: every 4-byte pattern is the image of exactly one word. */
  lemma HtonlNtohl(b: Be32)
    ensures Htonl(Ntohl(b)) == b
  {
    var hi, lo := Ntohs(b[..2]), Ntohs(b[2..]);
    var v := Ntohl(b);
    assert v / 0x1_0000 == hi && v % 0x1_0000 == lo;
    HtonsNtohs(b[..2]);
    HtonsNtohs(b[2..]);
    assert b == b[..2] + b[2..];
  }
}
