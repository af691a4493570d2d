/** IPv4 headers, section 3.1 of RFC 791 (src/net/ipv4.c). */
module Ipv4 {
  import opened Bytes
  import opened InternetChecksum

  const HEADER_MIN := 20

  datatype Packet = Packet(
    packetLength: nat, headerLength: nat, payloadLength: nat, source: nat, destination: nat,
    identification: nat, fragment: nat, ttl: nat, protocol: nat, dscpEcn: nat)

  datatype Parsed = Accepted(packet: Packet) | Refused(code: int)

  function ReadBe32(m: seq<u8>, at: nat): nat
    requires at + 4 <= |m|
  {
    65536 * ReadBe16(m, at) + ReadBe16(m, at + 2)
  }

  function Be32(v: u32): (r: seq<u8>)
    ensures |r| == 4
  {
    Be16(v / 65536) + Be16(v % 65536)
  }

  /** unicast_address. */
  predicate Unicast(address: nat)
  {
    address != 0 && address != 0xFFFF_FFFF && 0 < address / 0x100_0000 < 224
  }

  /** ipv4_parse; the checks come in the order of the code. */
  function Parse(m: seq<u8>): Parsed
  {
    if |m| < HEADER_MIN then Refused(-1)
    else
      var headerLength := m[0] % 16 * 4;
      if m[0] / 16 != 4 || headerLength < HEADER_MIN then Refused(-2)
      else if headerLength > |m| then Refused(-1)
      else
        var total := ReadBe16(m, 2);
        if total < headerLength || total > |m| then Refused(-1)
        else if Checksum(m[..headerLength]) != 0 then Refused(-3)
        else if m[8] == 0 then Refused(-4)
        else if !Unicast(ReadBe32(m, 12)) then Refused(-5)
        else if ReadBe16(m, 6) >= 0x8000 || ReadBe16(m, 6) % 0x4000 != 0 then Refused(-6)
        else Accepted(Packet(total, headerLength, total - headerLength, ReadBe32(m, 12), ReadBe32(m, 16),
                             ReadBe16(m, 4), ReadBe16(m, 6), m[8], m[9], m[1]))
  }

  /** The bytes of a header before and behind its checksum word. */
  function Front(payload: nat, identification: u16, dontFragment: bool, ttl: u8, protocol: u8): (r: seq<u8>)
    requires payload <= 0xFFFF - HEADER_MIN
    ensures |r| == 10
  {
    [0x45, 0] + Be16(HEADER_MIN + payload) + Be16(identification) + Be16(if dontFragment then 0x4000 else 0)
      + [ttl, protocol]
  }

  function Back(source: u32, destination: u32): (r: seq<u8>)
    ensures |r| == 8
  {
    Be32(source) + Be32(destination)
  }

  predicate Buildable(buffer: nat, payload: nat, source: u32, destination: u32, protocol: u8, ttl: u8)
  {
    buffer >= HEADER_MIN && payload <= 0xFFFF - HEADER_MIN && Unicast(source) && destination != 0 && protocol != 0
    && ttl != 0
  }

  /** ipv4_build_header: the header is filled with its checksum word zero, then that word is put in. */
  method BuildHeader(buffer: nat, payload: nat, source: u32, destination: u32, protocol: u8, ttl: u8,
      identification: u16, dontFragment: bool)
    returns (ok: bool, header: seq<u8>)
    ensures ok <==> Buildable(buffer, payload, source, destination, protocol, ttl)
    ensures ok ==> header == Header(payload, source, destination, protocol, ttl, identification, dontFragment)
  {
    header := [];
    if buffer < HEADER_MIN || payload > 0xFFFF - HEADER_MIN || !Unicast(source) || destination == 0 || protocol == 0
       || ttl == 0 {
      return false, header;
    }
    var front, back := Front(payload, identification, dontFragment, ttl, protocol), Back(source, destination);
    var sum := ComputeChecksum(front + [0, 0] + back);
    header := front + Be16(sum) + back;
    ok := true;
  }

  function Header(payload: nat, source: u32, destination: u32, protocol: u8, ttl: u8, identification: u16,
      dontFragment: bool): (r: seq<u8>)
    requires payload <= 0xFFFF - HEADER_MIN
    ensures |r| == HEADER_MIN
  {
    var front, back := Front(payload, identification, dontFragment, ttl, protocol), Back(source, destination);
    front + Be16(Checksum(front + [0, 0] + back)) + back
  }

  lemma Be16Read(m: seq<u8>, at: nat, v: u16)
    requires at + 2 <= |m| && m[at..at + 2] == Be16(v)
    ensures ReadBe16(m, at) == v
  {
    assert m[at] == m[at..at + 2][0] && m[at + 1] == m[at..at + 2][1];
    Halves(v);
  }

  lemma Be32Read(m: seq<u8>, at: nat, v: u32)
    requires at + 4 <= |m| && m[at..at + 4] == Be32(v)
    ensures ReadBe32(m, at) == v
  {
    SubSlice(m, at, at + 4, 0, 2);
    SubSlice(m, at, at + 4, 2, 4);
    assert Be32(v)[0..2] == Be16(v / 65536) && Be32(v)[2..4] == Be16(v % 65536);
    Be16Read(m, at, v / 65536);
    Be16Read(m, at + 2, v % 65536);
  }

  lemma WordOfBe16(v: u16)
    ensures WordSum(Be16(v)) == v
  {
    var w := Be16(v);
    assert w[2..] == [];
  }

  /** A header built this way carries a checksum that cancels. */
  lemma HeaderChecks(payload: nat, source: u32, destination: u32, protocol: u8, ttl: u8, identification: u16,
      dontFragment: bool)
    requires payload <= 0xFFFF - HEADER_MIN
    ensures Checksum(Header(payload, source, destination, protocol, ttl, identification, dontFragment)) == 0
  {
    hide Checksum, WordSum, Front, Back;
    var front, back := Front(payload, identification, dontFragment, ttl, protocol), Back(source, destination);
    var sum := Checksum(front + [0, 0] + back);
    WordOfBe16(sum);
    ChecksumCancels(front, back, Be16(sum));
  }

  /** The fields of a header in place, whatever follows it. */
  lemma HeaderFields(payload: nat, source: u32, destination: u32, protocol: u8, ttl: u8, identification: u16,
      dontFragment: bool, m: seq<u8>)
    requires payload <= 0xFFFF - HEADER_MIN && |m| >= HEADER_MIN
    requires m[..HEADER_MIN] == Header(payload, source, destination, protocol, ttl, identification, dontFragment)
    ensures m[0] == 0x45 && m[1] == 0 && m[8] == ttl && m[9] == protocol
    ensures ReadBe16(m, 2) == HEADER_MIN + payload && ReadBe16(m, 4) == identification
    ensures ReadBe16(m, 6) == (if dontFragment then 0x4000 else 0)
    ensures ReadBe32(m, 12) == source && ReadBe32(m, 16) == destination
  {
    hide ReadBe16, ReadBe32, Be16, Be32, Checksum;
    var front, back := Front(payload, identification, dontFragment, ttl, protocol), Back(source, destination);
    var h := m[..HEADER_MIN];
    assert h[0] == front[0] && h[1] == front[1] && h[8] == front[8] && h[9] == front[9];
    assert m[2..4] == h[2..4] == front[2..4] == Be16(HEADER_MIN + payload);
    assert m[4..6] == h[4..6] == front[4..6] == Be16(identification);
    assert m[6..8] == h[6..8] == front[6..8] == Be16(if dontFragment then 0x4000 else 0);
    assert m[12..16] == h[12..16] == back[0..4] == Be32(source);
    assert m[16..20] == h[16..20] == back[4..8] == Be32(destination);
    Be16Read(m, 2, HEADER_MIN + payload);
    Be16Read(m, 4, identification);
    Be16Read(m, 6, if dontFragment then 0x4000 else 0);
    Be32Read(m, 12, source);
    Be32Read(m, 16, destination);
  }

  /** A built header in front of its payload is always accepted, with every field recovered. */
  lemma BuildParse(payload: seq<u8>, source: u32, destination: u32, protocol: u8, ttl: u8, identification: u16,
      dontFragment: bool, extra: seq<u8>)
    requires Buildable(HEADER_MIN, |payload|, source, destination, protocol, ttl)
    ensures Parse(Header(|payload|, source, destination, protocol, ttl, identification, dontFragment) + payload + extra)
         == Accepted(Packet(HEADER_MIN + |payload|, HEADER_MIN, |payload|, source, destination, identification,
                            if dontFragment then 0x4000 else 0, ttl, protocol, 0))
  {
    hide Checksum, Header, ReadBe16, ReadBe32;
    var header := Header(|payload|, source, destination, protocol, ttl, identification, dontFragment);
    var m := header + payload + extra;
    assert m[..HEADER_MIN] == header;
    HeaderFields(|payload|, source, destination, protocol, ttl, identification, dontFragment, m);
    HeaderChecks(|payload|, source, destination, protocol, ttl, identification, dontFragment);
  }
}
