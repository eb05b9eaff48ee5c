/** The classic BPF program that picks incoming STUN packets off a raw UDP socket
    (sharedsock/stun_filter_linux.go), under an interpreter of its instructions. */
module StunFilter {
  type Byte = b: nat | b < 256

  /** The instructions the filter uses. Assembling JumpNotEqual swaps its two skips for
      JumpEqual, which leaves the program's meaning unchanged. */
  datatype Instruction =
    | LoadAbsolute(off: nat, size: nat)
    | JumpNotEqual(val: nat, skipTrue: nat)
    | RetConstant(val: nat)

  const WHOLE := 0xffffffff
  const MAGIC_COOKIE := 0x2112A442

  /** A 16-bit value from its two bytes. */
  function Word(high: nat, low: nat): nat { high * 256 + low }

  /** The big-endian value of the bytes. */
  function BigEndian(bytes: seq<Byte>): nat {
    if bytes == [] then 0 else BigEndian(bytes[..|bytes| - 1]) * 256 + bytes[|bytes| - 1]
  }

  /** How many bytes of the packet are kept, from instruction `pc` on with `acc` in the
      accumulator; a load past the end of the packet drops it, as does falling off the end. */
  function Exec(program: seq<Instruction>, pc: nat, acc: nat, packet: seq<Byte>): nat
    decreases |program| - pc
  {
    if pc >= |program| then 0
    else
      match program[pc]
      case LoadAbsolute(off, size) =>
        if off + size > |packet| then 0
        else Exec(program, pc + 1, BigEndian(packet[off..off + size]), packet)
      case JumpNotEqual(val, skip) =>
        Exec(program, pc + 1 + if acc != val then skip else 0, acc, packet)
      case RetConstant(val) => val
  }

  function Program(dstPortOff: nat, cookieOff: nat, dstPort: nat): seq<Instruction> {
    [ LoadAbsolute(dstPortOff, 2),
      JumpNotEqual(dstPort, 3),
      LoadAbsolute(cookieOff, 4),
      JumpNotEqual(MAGIC_COOKIE, 1),
      RetConstant(WHOLE),
      RetConstant(0) ]
  }

  function Program4(dstPort: nat): seq<Instruction> { Program(22, 32, dstPort) }
  function Program6(dstPort: nat): seq<Instruction> { Program(2, 12, dstPort) }

  // ------------------------------------------------------------ what it accepts

  /** A UDP datagram for the port whose payload carries the magic cookie of section 6 of
      RFC 5389, four bytes into the STUN message. */
  predicate IsStun(datagram: seq<Byte>, dstPort: nat) {
    && |datagram| >= 16
    && Word(datagram[2], datagram[3]) == dstPort
    && datagram[12..16] == [0x21, 0x12, 0xA4, 0x42]
  }

  lemma BigEndianTwo(b: seq<Byte>)
    requires |b| == 2
    ensures BigEndian(b) == Word(b[0], b[1])
  {
    assert b[..1][..0] == [];
    assert BigEndian(b[..1]) == b[0];
  }

  lemma BigEndianFour(b: seq<Byte>)
    requires |b| == 4
    ensures BigEndian(b) == Word(Word(Word(b[0], b[1]), b[2]), b[3])
  {
    assert b[..3][..2] == b[..2];
    BigEndianTwo(b[..2]);
    assert BigEndian(b[..3]) == BigEndian(b[..2]) * 256 + b[2];
  }

  lemma CookieExactly(b: seq<Byte>)
    requires |b| == 4
    ensures BigEndian(b) == MAGIC_COOKIE <==> b == [0x21, 0x12, 0xA4, 0x42]
  {
    BigEndianFour(b);
  }

  lemma CookieChecked(p: seq<Instruction>, portOff: nat, cookieOff: nat, dstPort: nat, acc: nat, packet: seq<Byte>)
    requires p == Program(portOff, cookieOff, dstPort)
    ensures Exec(p, 2, acc, packet)
         == if cookieOff + 4 <= |packet| && packet[cookieOff..cookieOff + 4] == [0x21, 0x12, 0xA4, 0x42]
            then WHOLE else 0
  {
    if cookieOff + 4 <= |packet| {
      var b := packet[cookieOff..cookieOff + 4];
      CookieExactly(b);
      assert Exec(p, 2, acc, packet) == Exec(p, 3, BigEndian(b), packet);
      assert Exec(p, 4, BigEndian(b), packet) == WHOLE;
      assert Exec(p, 5, BigEndian(b), packet) == 0;
    }
  }

  /** At any offsets the program keeps the whole packet or none of it, and keeps exactly the
      packets long enough for both loads whose port and cookie bytes match. */
  lemma ProgramExactly(portOff: nat, cookieOff: nat, dstPort: nat, packet: seq<Byte>)
    ensures Exec(Program(portOff, cookieOff, dstPort), 0, 0, packet)
         == if && portOff + 2 <= |packet| && Word(packet[portOff], packet[portOff + 1]) == dstPort
               && cookieOff + 4 <= |packet| && packet[cookieOff..cookieOff + 4] == [0x21, 0x12, 0xA4, 0x42]
            then WHOLE else 0
  {
    var p := Program(portOff, cookieOff, dstPort);
    if portOff + 2 <= |packet| {
      var b := packet[portOff..portOff + 2];
      BigEndianTwo(b);
      assert Exec(p, 0, 0, packet) == Exec(p, 1, BigEndian(b), packet);
      CookieChecked(p, portOff, cookieOff, dstPort, BigEndian(b), packet);
      assert Exec(p, 5, BigEndian(b), packet) == 0;
    }
  }

  /** On a UDP datagram the IPv6 program accepts exactly the STUN packets for the port. */
  lemma Program6Exactly(dstPort: nat, datagram: seq<Byte>)
    ensures Exec(Program6(dstPort), 0, 0, datagram) == if IsStun(datagram, dstPort) then WHOLE else 0
  {
    ProgramExactly(2, 12, dstPort, datagram);
  }

  /** The IPv4 program takes byte 20 for the start of the datagram, whatever precedes it. */
  lemma Program4Exactly(dstPort: nat, packet: seq<Byte>)
    ensures Exec(Program4(dstPort), 0, 0, packet)
         == if |packet| >= 20 && IsStun(packet[20..], dstPort) then WHOLE else 0
  {
    ProgramExactly(22, 32, dstPort, packet);
    if |packet| >= 36 {
      assert packet[20..][12..16] == packet[32..36];
    }
  }

  /** Under a 20-byte IPv4 header the two programs agree on every datagram. */
  lemma ProgramsAgree(dstPort: nat, header: seq<Byte>, datagram: seq<Byte>)
    requires |header| == 20
    ensures Exec(Program4(dstPort), 0, 0, header + datagram) == Exec(Program6(dstPort), 0, 0, datagram)
  {
    Program4Exactly(dstPort, header + datagram);
    Program6Exactly(dstPort, datagram);
    assert (header + datagram)[20..] == datagram;
  }

  /** Under a longer header they need not: with one option word (section 3.1 of RFC 791) the
      IPv4 program takes the option's last two bytes for the port, and drops every STUN packet
      for another one. */
  lemma OptionsHideStun(dstPort: nat, header: seq<Byte>, datagram: seq<Byte>)
    requires |header| == 24 && Word(header[22], header[23]) != dstPort && IsStun(datagram, dstPort)
    ensures Exec(Program6(dstPort), 0, 0, datagram) == WHOLE
    ensures Exec(Program4(dstPort), 0, 0, header + datagram) == 0
  {
    Program6Exactly(dstPort, datagram);
    Program4Exactly(dstPort, header + datagram);
    var shifted := (header + datagram)[20..];
    assert shifted[2] == header[22] && shifted[3] == header[23];
  }
}
