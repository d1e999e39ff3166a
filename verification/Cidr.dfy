/** Network prefixes packed into one 32-bit key, and the ordered table of prefix sizes. */
module Cidr {

  // ---------- the packed key ----------

  /** 0xFFFFFFFF << (32 - cidr). */
  function Mask(cidr: bv32): bv32
    requires 1 <= cidr <= 31
  {
    0xFFFF_FFFF << (32 - cidr)
  }

  /** The address with its host bits cleared. */
  function Network(ip: bv32, cidr: bv32): bv32
    requires 1 <= cidr <= 31
  {
    ip & Mask(cidr)
  }

  /** Byte n of an address in network order. */
  function Byte(addr: bv32, n: bv32): bv32
    requires n <= 3
  {
    (addr >> (24 - 8 * n)) & 0xFF
  }

  /** What is left of a value in a byte. */
  function Low(x: bv32): bv32 {
    x & 0xFF
  }

  function SetByte(addr: bv32, n: bv32, a: bv32): bv32
    requires n <= 3
  {
    (addr & !(0xFF << (24 - 8 * n))) | (Low(a) << (24 - 8 * n))
  }

  /** The table of marks. */
  function Shift(t: bv32): bv32 {
    if t == 0 then 255 else if t == 1 then 253 else if t == 2 then 249 else if t == 3 then 241
    else if t == 4 then 225 else if t == 5 then 193 else if t == 6 then 129 else 1
  }

  /** The host bits of a byte are zero. */
  predicate Clear(b: bv32, t: bv32)
    requires t <= 7
  {
    b <= 0xFF && (b >> (8 - t)) << (8 - t) == b
  }

  /** What a marked byte stands for. */
  function Unmark(v: bv32, t: bv32): bv32
    requires t <= 7
  {
    (v - Shift(t)) << (8 - t)
  }

  function Marked(b: bv32, t: bv32): bv32
    requires t <= 7
  {
    (b >> (8 - t)) + Shift(t)
  }

  /** In byte n the network bits move down and the mark for t is added. */
  function PackAt(addr: bv32, n: bv32, t: bv32): bv32
    requires n <= 3 && t <= 7
  {
    SetByte(addr, n, Marked(Byte(addr, n), t))
  }

  /** pack_ip_cidr. */
  function Pack(ip: bv32, cidr: bv32): bv32
    requires 1 <= cidr <= 31
  {
    PackAt(Network(ip, cidr), cidr >> 3, cidr & 7)
  }

  /** The last byte of a key that is not zero. */
  function MarkedByte(key: bv32): (n: bv32)
    ensures n <= 3
  {
    if key & 0xFF != 0 then 3 else if key & 0xFF00 != 0 then 2 else if key & 0xFF_0000 != 0 then 1 else 0
  }

  function MarkOf(v: bv32): (t: bv32)
    ensures t <= 7
  {
    if v == 255 then 0 else if v >= 253 then 1 else if v >= 249 then 2 else if v >= 241 then 3
    else if v >= 225 then 4 else if v >= 193 then 5 else if v >= 129 then 6 else 7
  }

  /** The prefix length and the network that a key stands for. */
  function CidrOf(key: bv32): bv32 {
    8 * MarkedByte(key) + MarkOf(Byte(key, MarkedByte(key)))
  }

  function UnpackAt(key: bv32, n: bv32, t: bv32): bv32
    requires n <= 3 && t <= 7
  {
    SetByte(key, n, Unmark(Byte(key, n), t))
  }

  function NetworkOf(key: bv32): bv32 {
    UnpackAt(key, MarkedByte(key), MarkOf(Byte(key, MarkedByte(key))))
  }

  /** The mark is found again: it is never zero, and every byte behind it is. */
  lemma PackedMark(ip: bv32, cidr: bv32)
    requires 1 <= cidr <= 31
    ensures MarkedByte(Pack(ip, cidr)) == cidr >> 3 && MarkOf(Byte(Pack(ip, cidr), cidr >> 3)) == cidr & 7
    ensures Pack(ip, cidr) != 0
  {
  }

  lemma PackedCidr(ip: bv32, cidr: bv32)
    requires 1 <= cidr <= 31
    ensures CidrOf(Pack(ip, cidr)) == cidr
  {
    hide Pack, MarkedByte, MarkOf, Byte;
    PackedMark(ip, cidr);
  }

  lemma ByteSet(addr: bv32, n: bv32, a: bv32)
    requires n <= 3
    ensures Byte(SetByte(addr, n, a), n) == Low(a)
  {
  }

  lemma SetTwice(addr: bv32, n: bv32, a: bv32, b: bv32)
    requires n <= 3
    ensures SetByte(SetByte(addr, n, a), n, b) == SetByte(addr, n, b)
  {
  }

  lemma SetSame(addr: bv32, n: bv32, a: bv32)
    requires n <= 3 && Low(a) == Byte(addr, n)
    ensures SetByte(addr, n, a) == addr
  {
  }

  /** Taking the mark off gives the network bits of a byte back. */
  lemma DigitBack(b: bv32, t: bv32)
    requires t <= 7 && Clear(b, t)
    ensures Low(Unmark(Low(Marked(b, t)), t)) == b
  {
  }

  lemma SetBack(addr: bv32, n: bv32, a: bv32, b: bv32)
    requires n <= 3 && Low(b) == Byte(addr, n)
    ensures SetByte(SetByte(addr, n, a), n, b) == addr
  {
    hide Byte, SetByte, Low;
    SetTwice(addr, n, a, b);
    SetSame(addr, n, b);
  }

  lemma UnpackPack(addr: bv32, n: bv32, t: bv32)
    requires n <= 3 && t <= 7 && Clear(Byte(addr, n), t)
    ensures UnpackAt(PackAt(addr, n, t), n, t) == addr
  {
    hide Byte, SetByte, Marked, Unmark, Low, Clear;
    var b := Byte(addr, n);
    DigitBack(b, t);
    ByteSet(addr, n, Marked(b, t));
    SetBack(addr, n, Marked(b, t), Unmark(Low(Marked(b, t)), t));
  }

  /** The marked byte of a masked address has its host bits cleared. */
  lemma MaskedByte(ip: bv32, cidr: bv32)
    requires 1 <= cidr <= 31
    ensures Clear(Byte(Network(ip, cidr), cidr >> 3), cidr & 7)
  {
  }

  lemma PackedNetwork(ip: bv32, cidr: bv32)
    requires 1 <= cidr <= 31
    ensures NetworkOf(Pack(ip, cidr)) == Network(ip, cidr)
  {
    hide MarkedByte, MarkOf, Byte, SetByte, PackAt, UnpackAt, Network, Clear;
    PackedMark(ip, cidr);
    MaskedByte(ip, cidr);
    UnpackPack(Network(ip, cidr), cidr >> 3, cidr & 7);
  }

  /** Two packed keys are equal exactly when prefix length and masked network are, and no key is 0. */
  lemma PackInjective(ip: bv32, cidr: bv32, ip1: bv32, cidr1: bv32)
    requires 1 <= cidr <= 31 && 1 <= cidr1 <= 31
    ensures Pack(ip, cidr) == Pack(ip1, cidr1) <==> cidr == cidr1 && Network(ip, cidr) == Network(ip1, cidr1)
    ensures Pack(ip, cidr) != 0
  {
    hide CidrOf, NetworkOf, PackAt, Network;
    PackedMark(ip, cidr);
    PackedCidr(ip, cidr);
    PackedCidr(ip1, cidr1);
    PackedNetwork(ip, cidr);
    PackedNetwork(ip1, cidr1);
  }

  /** The leading bits of an address, as many as the prefix is long. */
  function Leading(ip: bv32, cidr: bv32): bv32
    requires 1 <= cidr <= 31
  {
    ip >> (32 - cidr)
  }

  /** Keys are equal exactly for the same prefix length and the same leading bits. */
  lemma SamePrefix(ip: bv32, cidr: bv32, ip1: bv32, cidr1: bv32)
    requires 1 <= cidr <= 31 && 1 <= cidr1 <= 31
    ensures Pack(ip, cidr) == Pack(ip1, cidr1) ==> cidr == cidr1
    ensures cidr == cidr1 ==> (Pack(ip, cidr) == Pack(ip1, cidr1) <==> Leading(ip, cidr) == Leading(ip1, cidr))
  {
    hide Pack, Leading, Network;
    PackInjective(ip, cidr, ip1, cidr1);
    SameLeading(ip, ip1, cidr);
  }

  lemma SameLeading(ip: bv32, ip1: bv32, cidr: bv32)
    requires 1 <= cidr <= 31
    ensures Network(ip, cidr) == Network(ip1, cidr) <==> Leading(ip, cidr) == Leading(ip1, cidr)
  {
    hide Network, Leading, Back;
    NetworkLeading(ip, cidr);
    NetworkLeading(ip1, cidr);
  }

  /** The network with these leading bits. */
  function Back(bits: bv32, cidr: bv32): bv32
    requires 1 <= cidr <= 31
  {
    bits << (32 - cidr)
  }

  /** Masking keeps the leading bits and clears the others. */
  lemma NetworkLeading(ip: bv32, cidr: bv32)
    requires 1 <= cidr <= 31
    ensures Network(ip, cidr) == Back(Leading(ip, cidr), cidr)
    ensures Leading(Network(ip, cidr), cidr) == Leading(ip, cidr)
  {
    hide Network, Leading, Back;
    NetworkBack(ip, cidr);
    LeadingKept(ip, cidr);
  }

  lemma NetworkBack(ip: bv32, cidr: bv32)
    requires 1 <= cidr <= 31
    ensures Network(ip, cidr) == Back(Leading(ip, cidr), cidr)
  {
  }

  lemma LeadingKept(ip: bv32, cidr: bv32)
    requires 1 <= cidr <= 31
    ensures Leading(Network(ip, cidr), cidr) == Leading(ip, cidr)
  {
  }
}
