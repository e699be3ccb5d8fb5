/**
 The motion controller: hexadecimal packets over the radio link and the tracking of
 the motor's position.
 */
module Nmx {

  const U32: int := 0x1_0000_0000
  const I32: int := 0x8000_0000

  const REPLY_BUFFER: nat := 32  // characters that reading a reply can touch

  type byte = b: int | 0 <= b < 256

  // Hexadecimal bytes

  function Digit(d: int): char
    requires 0 <= d < 16
  {
    if d < 10 then '0' + d as char else 'A' + (d - 10) as char
  }

  function Uint8ToHex(b: byte): (s: string)
    ensures |s| == 2
  {
    [Digit(b / 16), Digit(b % 16)]
  }

  datatype Parsed = Parsed(ok: bool, value: byte)

  predicate IsDigit(c: char) { '0' <= c <= '9' || 'A' <= c <= 'F' }

  function DigitValue(c: char): (d: int)
    requires IsDigit(c)
    ensures 0 <= d < 16
  {
    if c <= '9' then (c - '0') as int else (c - 'A') as int + 10
  }

  /** Two characters to a byte; on a bad character what was read so far is kept. */
  function HexToUint8(s: string): Parsed
    requires |s| >= 2
  {
    if !IsDigit(s[0]) then Parsed(false, 0)
    else if !IsDigit(s[1]) then Parsed(false, DigitValue(s[0]) * 16)
    else Parsed(true, DigitValue(s[0]) * 16 + DigitValue(s[1]))
  }

  lemma DigitRoundTrip(d: int)
    requires 0 <= d < 16
    ensures IsDigit(Digit(d)) && DigitValue(Digit(d)) == d
  {
  }

  lemma DigitOfValue(c: char)
    requires IsDigit(c)
    ensures Digit(DigitValue(c)) == c
  {
  }

  /** Coding and decoding are inverse to each other, on all bytes and on all texts the
      decoder accepts. */
  lemma HexRoundTrip(b: byte, s: string)
    requires |s| == 2
    ensures HexToUint8(Uint8ToHex(b)) == Parsed(true, b)
    ensures HexToUint8(s).ok ==> Uint8ToHex(HexToUint8(s).value) == s
  {
    DigitRoundTrip(b / 16);
    DigitRoundTrip(b % 16);
    if HexToUint8(s).ok { RecodedHex(s); }
  }

  lemma RecodedHex(s: string)
    requires |s| == 2 && IsDigit(s[0]) && IsDigit(s[1])
    ensures Uint8ToHex(DigitValue(s[0]) * 16 + DigitValue(s[1])) == s
  {
    DigitOfValue(s[0]);
    DigitOfValue(s[1]);
  }

  /** The high digit comes first. */
  lemma HexDigits(b: byte)
    ensures Uint8ToHex(b) == ["0123456789ABCDEF"[b / 16], "0123456789ABCDEF"[b % 16]]
  {
    DigitShown(b / 16);
    DigitShown(b % 16);
  }

  lemma DigitShown(d: int)
    requires 0 <= d < 16
    ensures Digit(d) == "0123456789ABCDEF"[d]
  {
  }

  function Hex(bytes: seq<byte>): (s: string)
    ensures |s| == 2 * |bytes|
  {
    if bytes == [] then [] else Hex(bytes[..|bytes| - 1]) + Uint8ToHex(bytes[|bytes| - 1])
  }

  lemma {:induction false} HexAt(bytes: seq<byte>, i: nat)
    requires i < |bytes|
    ensures Hex(bytes)[2 * i..2 * i + 2] == Uint8ToHex(bytes[i])
  {
    var n := |bytes|;
    var front := Hex(bytes[..n - 1]);
    if i < n - 1 {
      HexAt(bytes[..n - 1], i);
      assert Hex(bytes)[2 * i..2 * i + 2] == front[2 * i..2 * i + 2];
    } else {
      TailOf(front, Uint8ToHex(bytes[i]));
    }
  }

  lemma TailOf(s: string, t: string)
    ensures (s + t)[|s|..|s| + |t|] == t
  {
  }

  // Big-endian numbers

  /** The number the bytes spell, most significant first. */
  function BigEndian(bytes: seq<byte>): (n: nat) {
    if bytes == [] then 0 else BigEndian(bytes[..|bytes| - 1]) * 256 + bytes[|bytes| - 1]
  }

  function Shift8(k: nat): (p: nat)
    ensures p > 0
  {
    if k == 0 then 1 else 256 * Shift8(k - 1)
  }

  /** The number in a field of len hexadecimal bytes, as a reply is read. */
  method DecodeField(text: string, len: nat) returns (value: nat)
    requires |text| >= 2 * len
    ensures value == BigEndian(Decoded(text, len))
  {
    value := 0;
    for i := 0 to len
      invariant value == Placed(text, len, i)
    {
      var b := HexToUint8(text[i * 2..]).value;
      NextPlaced(text, len, i);
      value := value + b * Shift8(len - i - 1);
    }
  }

  /** What the first i of len bytes contribute to the number. */
  ghost function Placed(text: string, len: nat, i: nat): int
    requires i <= len && |text| >= 2 * len
  {
    BigEndian(Decoded(text, i)) * Shift8(len - i)
  }

  lemma NextPlaced(text: string, len: nat, i: nat)
    requires i < len && |text| >= 2 * len
    ensures Placed(text, len, i + 1) == Placed(text, len, i) + HexToUint8(text[i * 2..]).value * Shift8(len - i - 1)
  {
    NextByte(text, i);
    Place(BigEndian(Decoded(text, i)), HexToUint8(text[i * 2..]).value, len - i);
  }

  lemma NextByte(text: string, i: nat)
    requires |text| >= 2 * (i + 1)
    ensures BigEndian(Decoded(text, i + 1)) == BigEndian(Decoded(text, i)) * 256 + HexToUint8(text[i * 2..]).value
  {
    var so := Decoded(text, i + 1);
    assert so[..i] == Decoded(text, i);
    assert text[i * 2..i * 2 + 2][0] == text[i * 2..][0] && text[i * 2..i * 2 + 2][1] == text[i * 2..][1];
  }

  lemma Place(so: nat, b: byte, k: nat)
    requires k > 0
    ensures so * Shift8(k) + b * Shift8(k - 1) == (so * 256 + b) * Shift8(k - 1)
  {
    Distribute(so, b, Shift8(k - 1));
  }

  lemma Distribute(so: nat, b: byte, p: nat)
    ensures so * (256 * p) + b * p == (so * 256 + b) * p
  {
  }

  /** A reply from the controller: marked as a value, a length byte of at most four and then
      as many bytes. Anything else reads as zero. */
  ghost function ReplyValue(buffer: string, length: nat): nat
    requires |buffer| >= REPLY_BUFFER
  {
    var len := HexToUint8(buffer[22..]);
    if buffer[..8] == "GATT_VAL" && length >= 21 && len.ok && len.value <= 4
    then BigEndian(Decoded(buffer[24..], len.value)) else 0
  }

  /** Reads a reply; the buffer is longer than the text in it. */
  method ReadReply(buffer: string, length: nat) returns (value: nat)
    requires |buffer| >= REPLY_BUFFER
    ensures value == ReplyValue(buffer, length) && value < U32
  {
    value := 0;
    if buffer[..8] == "GATT_VAL" && length >= 21 {
      var len := HexToUint8(buffer[22..]);
      if len.ok && len.value <= 4 {
        value := DecodeField(buffer[24..], len.value);
        FieldFits(Decoded(buffer[24..], len.value));
      }
    }
  }

  lemma {:induction false} BelowShift(bytes: seq<byte>)
    ensures BigEndian(bytes) < Shift8(|bytes|)
  {
    if bytes != [] { BelowShift(bytes[..|bytes| - 1]); }
  }

  lemma FieldFits(bytes: seq<byte>)
    requires |bytes| <= 4
    ensures BigEndian(bytes) < U32
  {
    BelowShift(bytes);
    assert Shift8(1) == 256 && Shift8(2) == 0x1_0000 && Shift8(3) == 0x100_0000 && Shift8(4) == U32;
  }

  /** A reply that carries up to four bytes reads as the number they spell. */
  lemma ReplyRoundTrip(buffer: string, length: nat, bytes: seq<byte>)
    requires |buffer| >= REPLY_BUFFER && length >= 21 && |bytes| <= 4
    requires buffer[..8] == "GATT_VAL"
    requires buffer[22..][..2] == Uint8ToHex(|bytes|) && buffer[24..][..2 * |bytes|] == Hex(bytes)
    ensures ReplyValue(buffer, length) == BigEndian(bytes)
  {
    LengthRead(buffer[22..], |bytes|);
    FieldRead(buffer[24..], bytes);
  }

  lemma LengthRead(text: string, b: byte)
    requires |text| >= 2 && text[..2] == Uint8ToHex(b)
    ensures HexToUint8(text) == Parsed(true, b)
  {
    HexRoundTrip(b, "00");
    assert text[0] == text[..2][0] && text[1] == text[..2][1];
  }

  lemma FieldRead(text: string, bytes: seq<byte>)
    requires |text| >= 2 * |bytes| && text[..2 * |bytes|] == Hex(bytes)
    ensures Decoded(text, |bytes|) == bytes
  {
    DecodedHex(bytes, text, |bytes|);
    assert bytes[..|bytes|] == bytes;
  }

  /** The bytes of the first len pairs of characters. */
  ghost function Decoded(text: string, len: nat): (bytes: seq<byte>)
    requires |text| >= 2 * len
    ensures |bytes| == len
  {
    if len == 0 then [] else Decoded(text, len - 1) + [HexToUint8(text[2 * len - 2..2 * len]).value]
  }

  /** Decoding what was coded, whatever follows it. */
  lemma {:induction false} DecodedHex(bytes: seq<byte>, text: string, len: nat)
    requires len <= |bytes| && |text| >= 2 * |bytes| && text[..2 * |bytes|] == Hex(bytes)
    ensures Decoded(text, len) == bytes[..len]
  {
    if len > 0 {
      DecodedHex(bytes, text, len - 1);
      PairDecoded(bytes, text, len - 1);
      assert bytes[..len] == bytes[..len - 1] + [bytes[len - 1]];
    }
  }

  lemma PairDecoded(bytes: seq<byte>, text: string, i: nat)
    requires i < |bytes| && |text| >= 2 * |bytes| && text[..2 * |bytes|] == Hex(bytes)
    ensures HexToUint8(text[2 * i..2 * i + 2]).value == bytes[i]
  {
    HexAt(bytes, i);
    HexRoundTrip(bytes[i], "00");
    assert text[2 * i..2 * i + 2] == text[..2 * |bytes|][2 * i..2 * i + 2];
  }

  function Bytes32(n: int): (bytes: seq<byte>)
    requires 0 <= n < U32
    ensures |bytes| == 4
  {
    [n / 0x100_0000, n / 0x1_0000 % 0x100, n / 0x100 % 0x100, n % 0x100]
  }

  lemma FourBytes(bytes: seq<byte>)
    requires |bytes| == 4
    ensures var b0: int, b1: int, b2: int := bytes[0], bytes[1], bytes[2];
            BigEndian(bytes) == ((b0 * 256 + b1) * 256 + b2) * 256 + bytes[3]
  {
    var b := bytes;
    assert b[..3][..2] == b[..2] && b[..2][..1] == b[..1] && b[..1][..0] == [];
    assert BigEndian(b[..1]) == b[0];
    assert BigEndian(b[..2]) == BigEndian(b[..1]) * 256 + b[1];
    assert BigEndian(b[..3]) == BigEndian(b[..2]) * 256 + b[2];
  }

  lemma DividedTwice(n: int)
    requires n >= 0
    ensures n / 0x1_0000 == n / 0x100 / 0x100
  {
  }

  lemma DividedThrice(n: int)
    requires n >= 0
    ensures n / 0x100_0000 == n / 0x1_0000 / 0x100
  {
  }

  lemma Digits(n: int)
    requires n >= 0
    ensures ((n / 0x100_0000 * 256 + n / 0x1_0000 % 0x100) * 256 + n / 0x100 % 0x100) * 256 + n % 0x100 == n
  {
    DividedTwice(n);
    DividedThrice(n);
    var high, mid := n / 0x1_0000, n / 0x100;
    assert high / 0x100 * 256 + high % 0x100 == high;
    assert mid / 0x100 * 256 + mid % 0x100 == mid;
  }

  lemma BigEndianBytes32(n: int)
    requires 0 <= n < U32
    ensures BigEndian(Bytes32(n)) == n
  {
    FourBytes(Bytes32(n));
    Digits(n);
  }

  // Packets

  /** What the radio is connected to. */
  datatype Link = Unlinked | NmxLink | GenieLink

  const MOVE_COMMAND: byte := 0x0F

  function Reversed(bytes: seq<byte>): (r: seq<byte>)
    requires |bytes| == 4
    ensures |r| == 4
  {
    [bytes[3], bytes[2], bytes[1], bytes[0]]
  }

  /** A signed number in 32-bit two's complement, and back. */
  function Unsigned(n: int): int
    requires -I32 <= n < I32
  {
    if n < 0 then n + U32 else n
  }

  function Signed(n: int): int { if n >= I32 then n - U32 else n }

  /** The payload of the move packet for the connected controller; one has the direction and a
      big-endian step count, the other a signed little-endian one and the direction. */
  function MovePacket(link: Link, node: byte, motor: byte, dir: byte, steps: int): string
    requires link != Unlinked && 0 <= steps < U32 && (link == GenieLink ==> steps < I32)
  {
    if link == NmxLink then
      Hex([node, motor, MOVE_COMMAND, 5] + [dir] + Bytes32(steps))
    else
      Hex(Reversed(Bytes32(Unsigned(if dir != 0 then -steps else steps))) + [dir])
  }

  /** What a controller makes of a packet: the signed number of steps; nothing if the
      packet is too short. */
  ghost function PacketSteps(link: Link, packet: string): int
  {
    if link == NmxLink && |packet| >= 18 then
      var field := Decoded(packet, 9);
      var steps: int := BigEndian(field[5..]);
      if field[4] != 0 then 0 - steps else steps
    else if link == GenieLink && |packet| >= 10 then
      Signed(BigEndian(Reversed(Decoded(packet, 5)[..4])))
    else 0
  }

  lemma FieldRoundTrip(bytes: seq<byte>)
    ensures Decoded(Hex(bytes), |bytes|) == bytes
  {
    assert Hex(bytes)[..2 * |bytes|] == Hex(bytes);
    FieldRead(Hex(bytes), bytes);
  }

  lemma NmxRoundTrip(node: byte, motor: byte, dir: byte, steps: int)
    requires 0 <= steps < U32
    ensures PacketSteps(NmxLink, MovePacket(NmxLink, node, motor, dir, steps)) == if dir != 0 then -steps else steps
  {
    var field := [node, motor, MOVE_COMMAND, 5] + [dir] + Bytes32(steps);
    FieldRoundTrip(field);
    assert field[5..] == Bytes32(steps) && field[4] == dir;
    BigEndianBytes32(steps);
  }

  lemma GenieRoundTrip(node: byte, motor: byte, dir: byte, steps: int)
    requires 0 <= steps < I32
    ensures PacketSteps(GenieLink, MovePacket(GenieLink, node, motor, dir, steps)) == if dir != 0 then -steps else steps
  {
    var n := if dir != 0 then -steps else steps;
    var bytes := Bytes32(Unsigned(n));
    FieldRoundTrip(Reversed(bytes) + [dir]);
    assert (Reversed(bytes) + [dir])[..4] == Reversed(bytes);
    assert Reversed(Reversed(bytes)) == bytes;
    BigEndianBytes32(Unsigned(n));
  }

  /** Decoding a move packet gives back direction and step count. */
  lemma PacketRoundTrip(link: Link, node: byte, motor: byte, dir: byte, steps: int)
    requires link != Unlinked && 0 <= steps < U32 && (link == GenieLink ==> steps < I32)
    ensures PacketSteps(link, MovePacket(link, node, motor, dir, steps)) == if dir != 0 then -steps else steps
  {
    if link == NmxLink { NmxRoundTrip(node, motor, dir, steps); } else { GenieRoundTrip(node, motor, dir, steps); }
  }

  /** Byte by byte: a packet for the first controller is addressed to the motor, carries the
      move command and announces five bytes, the direction and the steps, the highest byte
      first. */
  lemma NmxPacketBytes(node: byte, motor: byte, dir: byte, steps: int)
    requires 0 <= steps < U32
    ensures var packet := MovePacket(NmxLink, node, motor, dir, steps);
            |packet| == 18 &&
            Decoded(packet, 9) == [node, motor, 0x0F, 5, dir,
                                   steps / 0x100_0000, steps / 0x1_0000 % 256, steps / 0x100 % 256, steps % 256]
  {
    var field := [node, motor, MOVE_COMMAND, 5] + [dir] + Bytes32(steps);
    FieldRoundTrip(field);
  }

  /** One for the other carries the signed steps, the lowest byte first, and the direction. */
  lemma GeniePacketBytes(node: byte, motor: byte, dir: byte, steps: int)
    requires 0 <= steps < I32
    ensures var packet := MovePacket(GenieLink, node, motor, dir, steps);
            var n := if dir == 0 then steps else if steps == 0 then 0 else U32 - steps;
            |packet| == 10 &&
            Decoded(packet, 5) == [n % 256, n / 0x100 % 256, n / 0x1_0000 % 256, n / 0x100_0000, dir]
  {
    var field := Reversed(Bytes32(Unsigned(if dir != 0 then -steps else steps))) + [dir];
    FieldRoundTrip(field);
  }

  // Position tracking

  datatype Packet = Packet(link: Link, text: string)

  /** What is sent for one move: nothing without a link. */
  function Packets(link: Link, node: byte, motor: byte, dir: byte, steps: nat): seq<Packet>
    requires steps < I32
  {
    if link == Unlinked then [] else [Packet(link, MovePacket(link, node, motor, dir, steps))]
  }

  /** The packets of one move from one position to another. */
  function Moved(link: Link, node: byte, motor: byte, from: int, to: int): seq<Packet>
    requires -I32 < to - from < I32
  {
    if from > to then Packets(link, node, motor, 1, from - to)
    else if from < to then Packets(link, node, motor, 0, to - from)
    else []
  }

  /** Steps with their direction. */
  function Directed(dir: byte, steps: nat): int { if dir != 0 then 0 - steps else steps }

  /** The controller reads this off the packet. */
  ghost predicate Tells(p: Packet, leg: int) { PacketSteps(p.link, p.text) == leg }

  ghost function Sum(legs: seq<int>): int {
    if legs == [] then 0 else Sum(legs[..|legs| - 1]) + legs[|legs| - 1]
  }

  lemma SumAppend(legs: seq<int>, leg: int)
    ensures Sum(legs + [leg]) == Sum(legs) + leg
  {
    assert (legs + [leg])[..|legs|] == legs;
  }

  lemma {:induction false} TravelledLegs(packets: seq<Packet>, legs: seq<int>)
    requires |packets| == |legs| && forall k :: 0 <= k < |legs| ==> Tells(packets[k], legs[k])
    ensures Travelled(packets) == Sum(legs)
  {
    if legs != [] {
      var n := |legs| - 1;
      TravelledLegs(packets[..n], legs[..n]);
      assert Tells(packets[n], legs[n]);
    }
  }

  class Motor {
    const node: byte
    const motor: byte
    var currentPos: int
    var packets: seq<Packet>
    ghost var legs: seq<int>  // the way each packet makes the motor go
    ghost var lost: int       // steps counted but not sent, for want of a link
    ghost var uncounted: int  // steps sent but, as asked for, not counted

    /** The way the packets make the motor go is the position kept for it, but for what was
        lost and what was not to be counted. */
    ghost predicate Valid()
      reads this
    {
      && |legs| == |packets|
      && (forall k :: 0 <= k < |legs| ==> Tells(packets[k], legs[k]))
      && Sum(legs) == currentPos - lost + uncounted
    }

    constructor (node: byte, motor: byte)
      ensures Valid() && this.node == node && this.motor == motor
      ensures currentPos == 0 && packets == [] && lost == 0 && uncounted == 0
    {
      this.node, this.motor := node, motor;
      currentPos, packets, legs, lost, uncounted := 0, [], [], 0, 0;
    }

    /** The way the motor has gone, by what the controller reads off the packets. */
    lemma Gone()
      requires Valid()
      ensures Travelled(packets) == currentPos - lost + uncounted
    {
      TravelledLegs(packets, legs);
    }

    method Send(link: Link, dir: byte, steps: nat)
      requires link != Unlinked && steps < I32
      requires |legs| == |packets| && forall k :: 0 <= k < |legs| ==> Tells(packets[k], legs[k])
      modifies this`packets, this`legs
      ensures packets == old(packets) + Packets(link, node, motor, dir, steps)
      ensures legs == old(legs) + [Directed(dir, steps)]
      ensures |legs| == |packets| && forall k :: 0 <= k < |legs| ==> Tells(packets[k], legs[k])
    {
      PacketRoundTrip(link, node, motor, dir, steps);
      var p := Packet(link, MovePacket(link, node, motor, dir, steps));
      assert Tells(p, Directed(dir, steps));
      packets := packets + [p];
      legs := legs + [Directed(dir, steps)];
    }

    /** Sends a move; the position is updated whether or not anything is connected. */
    method Move(link: Link, dir: byte, steps: nat, update: bool)
      requires Valid() && steps < I32
      modifies this
      ensures Valid()
      ensures currentPos == old(currentPos) + (if update then Directed(dir, steps) else 0)
      ensures packets == old(packets) + Packets(link, node, motor, dir, steps)
      ensures lost == old(lost) + (if update && link == Unlinked then Directed(dir, steps) else 0)
      ensures uncounted == old(uncounted) + (if !update && link != Unlinked then Directed(dir, steps) else 0)
      ensures Travelled(packets) == currentPos - lost + uncounted
    {
      Track(link, dir, steps, update);
      Gone();
    }

    method Track(link: Link, dir: byte, steps: nat, update: bool)
      requires Valid() && steps < I32
      modifies this
      ensures Valid()
      ensures currentPos == old(currentPos) + (if update then Directed(dir, steps) else 0)
      ensures packets == old(packets) + Packets(link, node, motor, dir, steps)
      ensures lost == old(lost) + (if update && link == Unlinked then Directed(dir, steps) else 0)
      ensures uncounted == old(uncounted) + (if !update && link != Unlinked then Directed(dir, steps) else 0)
    {
      if update {
        if dir == 0 { currentPos := currentPos + steps; } else { currentPos := currentPos - steps; }
        if link == Unlinked { lost := lost + Directed(dir, steps); }
      }
      if link != Unlinked {
        Send(link, dir, steps);
        SumAppend(old(legs), Directed(dir, steps));
        if !update { uncounted := uncounted + Directed(dir, steps); }
      }
    }

    /** Goes to a position: the motor goes the difference, if it is reached at all. */
    method MoveToPosition(link: Link, pos: int)
      requires Valid() && -I32 < pos - currentPos < I32
      modifies this
      ensures Valid() && currentPos == pos && uncounted == old(uncounted)
      ensures packets == old(packets) + Moved(link, node, motor, old(currentPos), pos)
      ensures lost == old(lost) + (if link == Unlinked then pos - old(currentPos) else 0)
      ensures Travelled(packets) == pos - lost + uncounted
    {
      GoTo(link, pos);
      Gone();
    }

    method GoTo(link: Link, pos: int)
      requires Valid() && -I32 < pos - currentPos < I32
      modifies this
      ensures Valid() && currentPos == pos && uncounted == old(uncounted)
      ensures packets == old(packets) + Moved(link, node, motor, old(currentPos), pos)
      ensures lost == old(lost) + (if link == Unlinked then pos - old(currentPos) else 0)
    {
      if currentPos > pos {
        Track(link, 1, currentPos - pos, true);
      } else if currentPos < pos {
        Track(link, 0, pos - currentPos, true);
      }
    }
  }

  /** A call to move to a target, and what the radio was connected to at the time. */
  datatype Call = Call(link: Link, target: int)

  function Final(start: int, calls: seq<Call>): int {
    if calls == [] then start else calls[|calls| - 1].target
  }

  /** No single move is too long for 32 bits. */
  ghost predicate InReach(start: int, calls: seq<Call>) {
    forall k :: 0 <= k < |calls| ==> -I32 < calls[k].target - Final(start, calls[..k]) < I32
  }

  /** All packets of a sequence of calls. */
  ghost function Sent(node: byte, motor: byte, start: int, calls: seq<Call>): seq<Packet>
    requires InReach(start, calls)
  {
    if calls == [] then []
    else
      var n := |calls| - 1;
      InReachBefore(start, calls);
      Sent(node, motor, start, calls[..n]) + Moved(calls[n].link, node, motor, Final(start, calls[..n]), calls[n].target)
  }

  lemma InReachBefore(start: int, calls: seq<Call>)
    requires InReach(start, calls) && calls != []
    ensures InReach(start, calls[..|calls| - 1])
  {
    var n := |calls| - 1;
    forall k | 0 <= k < n ensures -I32 < calls[..n][k].target - Final(start, calls[..n][..k]) < I32 {
      assert calls[..n][..k] == calls[..k];
    }
  }

  /** What the controllers were told to move, read off the packets themselves. */
  ghost function Travelled(packets: seq<Packet>): int
  {
    if packets == [] then 0
    else Travelled(packets[..|packets| - 1]) + PacketSteps(packets[|packets| - 1].link, packets[|packets| - 1].text)
  }

  /** What moves without a link add up to. */
  ghost function Lost(start: int, calls: seq<Call>): int {
    if calls == [] then 0
    else
      var n := |calls| - 1;
      Lost(start, calls[..n]) + if calls[n].link == Unlinked then calls[n].target - Final(start, calls[..n]) else 0
  }

  lemma TravelledAppend(packets: seq<Packet>, p: Packet)
    ensures Travelled(packets + [p]) == Travelled(packets) + PacketSteps(p.link, p.text)
  {
    assert (packets + [p])[..|packets|] == packets;
  }

  lemma SingleTravels(link: Link, text: string)
    ensures Travelled([Packet(link, text)]) == PacketSteps(link, text)
  {
    TravelledAppend([], Packet(link, text));
    assert [] + [Packet(link, text)] == [Packet(link, text)];
  }

  lemma OneMove(link: Link, node: byte, motor: byte, from: int, to: int)
    requires -I32 < to - from < I32
    ensures Travelled(Moved(link, node, motor, from, to)) == if link == Unlinked then 0 else to - from
  {
    if link != Unlinked && from != to {
      var dir: byte := if from > to then 1 else 0;
      var steps := if from > to then from - to else to - from;
      PacketRoundTrip(link, node, motor, dir, steps);
      SingleTravels(link, MovePacket(link, node, motor, dir, steps));
    }
  }

  lemma TravelledMove(packets: seq<Packet>, moved: seq<Packet>)
    requires |moved| <= 1
    ensures Travelled(packets + moved) == Travelled(packets) + Travelled(moved)
  {
    if moved == [] {
      assert packets + moved == packets;
    } else {
      assert moved == [moved[0]];
      TravelledAppend(packets, moved[0]);
      SingleTravels(moved[0].link, moved[0].text);
    }
  }

  /** Tracking over any sequence of moves: what the packets make the motor travel, plus
      what was lost without a link, is the distance from the start to the last target. */
  lemma {:induction false} Tracking(node: byte, motor: byte, start: int, calls: seq<Call>)
    requires InReach(start, calls)
    ensures Travelled(Sent(node, motor, start, calls)) + Lost(start, calls) == Final(start, calls) - start
  {
    if calls != [] {
      var n := |calls| - 1;
      var before, from, c := calls[..n], Final(start, calls[..n]), calls[n];
      InReachBefore(start, calls);
      Tracking(node, motor, start, before);
      OneMove(c.link, node, motor, from, c.target);
      TravelledMove(Sent(node, motor, start, before), Moved(c.link, node, motor, from, c.target));
    }
  }

  /** Nothing is lost while something is connected at every call. */
  lemma {:induction false} NothingLost(start: int, calls: seq<Call>)
    requires forall k :: 0 <= k < |calls| ==> calls[k].link != Unlinked
    ensures Lost(start, calls) == 0
  {
    if calls != [] { NothingLost(start, calls[..|calls| - 1]); }
  }

  /** So the motor follows its recorded position exactly when the moves made without a link
      cancel out; in particular when something was always connected. */
  lemma FollowsExactly(node: byte, motor: byte, start: int, calls: seq<Call>)
    requires InReach(start, calls)
    ensures Travelled(Sent(node, motor, start, calls)) == Final(start, calls) - start <==> Lost(start, calls) == 0
    ensures (forall k :: 0 <= k < |calls| ==> calls[k].link != Unlinked) ==>
              Travelled(Sent(node, motor, start, calls)) == Final(start, calls) - start
  {
    Tracking(node, motor, start, calls);
    if forall k :: 0 <= k < |calls| ==> calls[k].link != Unlinked { NothingLost(start, calls); }
  }
}
