/** The parts of an MPEG transport stream, and a demultiplexer that says what they mean. */
module MpegTs {
  import opened Common
  import opened Bytes
  import Crc32

  const PACKET_SIZE: nat := 188
  const MAX_PES_BYTES: nat := 4608
  const FIRST_PAYLOAD: nat := 176
  const NEXT_PAYLOAD: nat := 184
  const PAT_PID: nat := 0
  const PMT_PID: nat := 0x0100
  const AUDIO_PID: nat := 0x1100

  // ---------------------------------------------------------------- demultiplexing

  datatype Packet = Packet(start: bool, pid: nat, counter: nat, adaptation: seq<Byte>, payload: seq<Byte>)

  /** One transport packet (ISO/IEC 13818-1, sections 2.4.3.2 to 2.4.3.5). */
  function ParsePacket(p: seq<Byte>): Option<Packet>
    requires |p| == PACKET_SIZE
  {
    var start, pid, counter := Num(p[1]) / 64 % 2 == 1, Num(p[1]) % 32 * 256 + Num(p[2]), Num(p[3]) % 16;
    var control, length := Num(p[3]) / 16 % 4, Num(p[4]);
    if p[0] != 0x47 || control == 0 then None
    else if control == 1 then Some(Packet(start, pid, counter, [], p[4..]))
    else if 5 + length > PACKET_SIZE then None
    else Some(Packet(start, pid, counter, p[5..5 + length], if control == 3 then p[5 + length..] else []))
  }

  /** A stream of whole packets. */
  function Parse(stream: seq<Byte>): Option<seq<Packet>>
    decreases |stream|
  {
    if stream == [] then Some([])
    else if |stream| < PACKET_SIZE then None
    else
      var first, rest := ParsePacket(stream[..PACKET_SIZE]), Parse(stream[PACKET_SIZE..]);
      if first.None? || rest.None? then None else Some([first.value] + rest.value)
  }

  /** The payload bytes of one stream of packets, in order. */
  function PayloadOf(packets: seq<Packet>, pid: nat): seq<Byte>
  {
    if packets == [] then []
    else (if packets[0].pid == pid then packets[0].payload else []) + PayloadOf(packets[1..], pid)
  }

  function CountersOf(packets: seq<Packet>, pid: nat): seq<nat>
  {
    if packets == [] then []
    else (if packets[0].pid == pid then [packets[0].counter] else []) + CountersOf(packets[1..], pid)
  }

  lemma {:induction false} ParseConcat(a: seq<Byte>, b: seq<Byte>)
    requires Parse(a).Some? && Parse(b).Some?
    ensures Parse(a + b) == Some(Parse(a).value + Parse(b).value)
    decreases |a|
  {
    hide ParsePacket;
    if a == [] {
      assert a + b == b && [] + Parse(b).value == Parse(b).value;
    } else {
      assert (a + b)[..PACKET_SIZE] == a[..PACKET_SIZE] && (a + b)[PACKET_SIZE..] == a[PACKET_SIZE..] + b;
      ParseConcat(a[PACKET_SIZE..], b);
      var first := ParsePacket(a[..PACKET_SIZE]).value;
      assert [first] + Parse(a[PACKET_SIZE..]).value + Parse(b).value
          == [first] + (Parse(a[PACKET_SIZE..]).value + Parse(b).value);
    }
  }

  lemma ParseOne(p: seq<Byte>)
    requires |p| == PACKET_SIZE && ParsePacket(p).Some?
    ensures Parse(p) == Some([ParsePacket(p).value])
  {
    hide ParsePacket;
    var none: seq<Byte> := [];
    assert p[..PACKET_SIZE] == p && p[PACKET_SIZE..] == none;
    assert Parse(none) == Some([]);
    assert [ParsePacket(p).value] + [] == [ParsePacket(p).value];
  }

  lemma OfConcat(a: seq<Packet>, b: seq<Packet>, pid: nat)
    ensures PayloadOf(a + b, pid) == PayloadOf(a, pid) + PayloadOf(b, pid)
    ensures CountersOf(a + b, pid) == CountersOf(a, pid) + CountersOf(b, pid)
  {
    PayloadConcat(a, b, pid);
    CountersConcat(a, b, pid);
  }

  lemma {:induction false} PayloadConcat(a: seq<Packet>, b: seq<Packet>, pid: nat)
    ensures PayloadOf(a + b, pid) == PayloadOf(a, pid) + PayloadOf(b, pid)
    decreases |a|
  {
    if a == [] {
      assert a + b == b;
    } else {
      assert (a + b)[1..] == a[1..] + b;
      PayloadConcat(a[1..], b, pid);
      var first := if a[0].pid == pid then a[0].payload else [];
      var rest, later := PayloadOf(a[1..], pid), PayloadOf(b, pid);
      assert first + (rest + later) == first + rest + later;
    }
  }

  lemma {:induction false} CountersConcat(a: seq<Packet>, b: seq<Packet>, pid: nat)
    ensures CountersOf(a + b, pid) == CountersOf(a, pid) + CountersOf(b, pid)
    decreases |a|
  {
    if a == [] {
      assert a + b == b;
    } else {
      assert (a + b)[1..] == a[1..] + b;
      CountersConcat(a[1..], b, pid);
      var first := if a[0].pid == pid then [a[0].counter] else [];
      var rest, later := CountersOf(a[1..], pid), CountersOf(b, pid);
      assert first + (rest + later) == first + rest + later;
    }
  }

  // ---------------------------------------------------------------- clocks

  /** The 33-bit presentation time stamp with its marker bits. */
  function PtsBytes(pts90khz: nat): seq<Byte>
  {
    var pts := pts90khz % 0x2_0000_0000;
    [0x21 + pts / 0x4000_0000 % 8 * 2, pts / 0x40_0000 % 256, pts / 0x8000 % 128 * 2 + 1,
     pts / 0x80 % 256, pts % 0x80 * 2 + 1]
  }

  function DecodePts(b: seq<Byte>): nat
    requires |b| == 5
  {
    Num(b[0]) / 2 % 8 * 0x4000_0000 + Num(b[1]) * 0x40_0000 + Num(b[2]) / 2 * 0x8000 + Num(b[3]) * 0x80 + Num(b[4]) / 2
  }

  /** The programme clock reference: base and extension. */
  function PcrBytes(pcr27mhz: nat): seq<Byte>
  {
    var base, extension := pcr27mhz / 300, pcr27mhz % 300;
    [base / 0x200_0000 % 256, base / 0x2_0000 % 256, base / 0x200 % 256, base / 2 % 256,
     base % 2 * 128 + 0x7e + extension / 256, extension % 256]
  }

  function DecodePcrBase(b: seq<Byte>): nat
    requires |b| == 6
  {
    Num(b[0]) * 0x200_0000 + Num(b[1]) * 0x2_0000 + Num(b[2]) * 0x200 + Num(b[3]) * 2 + Num(b[4]) / 128
  }

  function DecodePcrExtension(b: seq<Byte>): nat
    requires |b| == 6
  {
    Num(b[4]) % 2 * 256 + Num(b[5])
  }

  /** The clock the packets carry: ninety kilohertz times three hundred, in 64 bits. */
  function Pcr(pts90khz: nat): nat { pts90khz * 300 % WORD64 }

  lemma DigitsRejoin(x: nat)
    requires x < 0x2_0000_0000
    ensures x / 0x4000_0000 % 8 * 0x4000_0000 + x / 0x40_0000 % 256 * 0x40_0000 + x / 0x8000 % 128 * 0x8000
          + x / 0x80 % 256 * 0x80 + x % 0x80 == x
  {
    SplitDigit(x, 0x80, 256);
    SplitDigit(x, 0x8000, 128);
    SplitDigit(x, 0x40_0000, 256);
    TopDigit(x);
  }

  lemma TopDigit(x: nat)
    requires x < 0x2_0000_0000
    ensures x / 0x4000_0000 % 8 == x / 0x4000_0000
  {}

  lemma SplitDigit(x: nat, low: nat, size: nat)
    requires (low == 0x80 && size == 256) || (low == 0x8000 && size == 128) || (low == 0x40_0000 && size == 256)
    ensures x / low * low == x / (low * size) * (low * size) + x / low % size * low
  {
    var q := x / low;
    assert q == q / size * size + q % size;
    assert q / size == x / (low * size);
  }

  lemma MarkersDrop(t: nat, m: nat)
    requires t < 8 && m < 128
    ensures (0x21 + t * 2) / 2 % 8 == t && (0x21 + t * 2) / 16 == 2 && (0x21 + t * 2) % 2 == 1
    ensures (m * 2 + 1) / 2 == m && (m * 2 + 1) % 2 == 1
  {}

  lemma PtsRoundTrip(pts90khz: nat)
    ensures |PtsBytes(pts90khz)| == 5 && DecodePts(PtsBytes(pts90khz)) == pts90khz % 0x2_0000_0000
    ensures var b := PtsBytes(pts90khz);
      Num(b[0]) / 16 == 2 && Num(b[0]) % 2 == 1 && Num(b[2]) % 2 == 1 && Num(b[4]) % 2 == 1
  {
    var x := pts90khz % 0x2_0000_0000;
    var t, m, n := x / 0x4000_0000 % 8, x / 0x8000 % 128, x % 0x80;
    MarkersDrop(t, m);
    MarkersDrop(t, n);
    DigitsRejoin(x);
  }

  lemma BaseRejoins(q: nat, y: nat)
    requires y < 0x2_0000_0000
    ensures var x := q * 0x2_0000_0000 + y;
      && x / 0x200_0000 % 256 == y / 0x200_0000 && x / 0x2_0000 % 256 == y / 0x2_0000 % 256
      && x / 0x200 % 256 == y / 0x200 % 256 && x / 2 % 256 == y / 2 % 256 && x % 2 == y % 2
  {
    DigitOfSum(q, y, 2, 0x1_0000_0000);
    DigitOfSum(q, y, 0x200, 0x100_0000);
    DigitOfSum(q, y, 0x2_0000, 0x1_0000);
    DigitOfSum(q, y, 0x200_0000, 0x100);
  }

  /** A multiple of 2^33 shows in none of the digits below. */
  lemma DigitOfSum(q: nat, y: nat, low: nat, high: nat)
    requires (low == 2 && high == 0x1_0000_0000) || (low == 0x200 && high == 0x100_0000)
      || (low == 0x2_0000 && high == 0x1_0000) || (low == 0x200_0000 && high == 0x100)
    ensures (q * 0x2_0000_0000 + y) / low == q * high + y / low
    ensures (q * 0x2_0000_0000 + y) / low % 256 == y / low % 256
  {}

  lemma NestedDivision(y: nat, k: nat)
    requires k == 0x200 || k == 0x2_0000
    ensures y / 2 / 256 == y / 0x200 && y / k / 256 == y / (k * 256)
  {}

  lemma BaseDigitsRejoin(y: nat)
    requires y < 0x2_0000_0000
    ensures y / 0x200_0000 * 0x200_0000 + y / 0x2_0000 % 256 * 0x2_0000 + y / 0x200 % 256 * 0x200
          + y / 2 % 256 * 2 + y % 2 == y
  {
    NestedDivision(y, 0x200);
    NestedDivision(y, 0x2_0000);
    var a, b, c := y / 2, y / 0x200, y / 0x2_0000;
    assert y == 2 * a + y % 2;
    assert a == 256 * b + a % 256;
    assert b == 256 * c + b % 256;
    assert c == 256 * (y / 0x200_0000) + c % 256;
  }

  lemma BaseModulo(x: nat)
    ensures DecodePcrBase(PcrBytes(x * 300)) == x % 0x2_0000_0000 && DecodePcrExtension(PcrBytes(x * 300)) == 0
  {
    hide DecodePcrExtension, DecodePcrBase, PcrBytes;
    assert x * 300 / 300 == x && x * 300 % 300 == 0;
    ExtensionIs(x * 300);
    BaseIs(x * 300, x);
  }

  lemma BaseIs(pcr27mhz: nat, x: nat)
    requires x == pcr27mhz / 300
    ensures DecodePcrBase(PcrBytes(pcr27mhz)) == x % 0x2_0000_0000
  {
    var q, y := x / 0x2_0000_0000, x % 0x2_0000_0000;
    assert x / 0x200_0000 % 256 * 0x200_0000 + x / 0x2_0000 % 256 * 0x2_0000 + x / 0x200 % 256 * 0x200
           + x / 2 % 256 * 2 + x % 2 == y by {
      hide DecodePcrBase, PcrBytes;
      BaseRejoins(q, y);
      BaseDigitsRejoin(y);
    }
  }

  /** Both clocks show the same time, with extension 0, as long as the product fits 64 bits. */
  lemma PcrRoundTrip(pts90khz: nat)
    requires pts90khz * 300 < WORD64
    ensures var b := PcrBytes(Pcr(pts90khz));
      |b| == 6 && DecodePcrBase(b) == pts90khz % 0x2_0000_0000 == DecodePts(PtsBytes(pts90khz))
      && DecodePcrExtension(b) == 0
  {
    hide DecodePts, PtsBytes, DecodePcrBase, DecodePcrExtension;
    BaseModulo(pts90khz);
    PtsRoundTrip(pts90khz);
    assert Pcr(pts90khz) == pts90khz * 300;
  }

  lemma ExtensionIs(pcr27mhz: nat)
    ensures DecodePcrExtension(PcrBytes(pcr27mhz)) == pcr27mhz % 300
  {}

  /** 2^64 leaves 16 modulo 300: k wraps leave no extension exactly when 75 divides k. */
  lemma WrapsModulo300(pts90khz: nat, k: nat)
    requires k * WORD64 <= pts90khz * 300
    ensures (pts90khz * 300 - k * WORD64) % 300 == 0 <==> k % 75 == 0
  {
    var m := 61489146912365172;
    assert WORD64 == 300 * m + 16;
    var r := pts90khz * 300 - k * WORD64;
    assert r == 300 * (pts90khz - k * m) - 16 * k;
    var j := pts90khz - k * m;
    assert r % 300 == (-16 * k) % 300 by { ModuloShift(-16 * k, j); }
    Multiples(k);
  }

  lemma ModuloShift(x: int, j: int)
    ensures (300 * j + x) % 300 == x % 300
  {}

  lemma Multiples(k: nat)
    ensures (-16 * k) % 300 == 0 <==> k % 75 == 0
  {
    var q, r := k / 75, k % 75;
    assert -16 * k == 300 * (-4 * q) - 16 * r;
    ModuloShift(-16 * r, -4 * q);
  }

  /** For every 64-bit time stamp: the clock reference agrees with it exactly when the number of times the product
      wrapped is a multiple of 75 (in particular when it did not wrap). */
  lemma PcrAgreesIff(pts90khz: nat)
    ensures var b := PcrBytes(Pcr(pts90khz));
      DecodePcrExtension(b) == 0 && DecodePcrBase(b) == pts90khz % 0x2_0000_0000
      <==> pts90khz * 300 / WORD64 % 75 == 0
  {
    hide DecodePcrBase, DecodePcrExtension, PcrBytes;
    var k := pts90khz * 300 / WORD64;
    assert Pcr(pts90khz) == pts90khz * 300 - k * WORD64;
    WrapsModulo300(pts90khz, k);
    ExtensionIs(Pcr(pts90khz));
    if k % 75 == 0 {
      var j := k / 75;
      var x := pts90khz - j * 0x4000_0000_0000_0000;
      assert k * WORD64 == 300 * (j * 0x4000_0000_0000_0000);
      assert Pcr(pts90khz) == x * 300;
      BaseModulo(x);
      assert x % 0x2_0000_0000 == pts90khz % 0x2_0000_0000 by {
        assert pts90khz == x + j * 0x2000_0000 * 0x2_0000_0000;
      }
    }
  }

  const FIRST_WRAP: nat := 61489146912365173

  predicate ClockFollowsStamp(pts90khz: nat)
  {
    var b := PcrBytes(Pcr(pts90khz));
    DecodePcrExtension(b) == 0 && DecodePcrBase(b) == DecodePts(PtsBytes(pts90khz))
  }

  /** One tick past the 64-bit range of the product they disagree, and never before. */
  lemma PcrCanDisagree()
    ensures DecodePcrExtension(PcrBytes(Pcr(FIRST_WRAP))) == 284
    ensures forall p: nat :: p < FIRST_WRAP ==> ClockFollowsStamp(p)
  {
    hide ClockFollowsStamp;
    ExtensionAtFirstWrap();
    forall p: nat | p < FIRST_WRAP
      ensures ClockFollowsStamp(p)
    {
      FollowsBelowWrap(p);
    }
  }

  lemma FollowsBelowWrap(p: nat)
    requires p < FIRST_WRAP
    ensures ClockFollowsStamp(p)
  {
    hide DecodePcrExtension, DecodePcrBase, DecodePts;
    PcrRoundTrip(p);
  }

  lemma ExtensionAtFirstWrap()
    ensures DecodePcrExtension(PcrBytes(Pcr(FIRST_WRAP))) == 284
  {
    ExtensionIs(Pcr(61489146912365173));
  }

  // ---------------------------------------------------------------- tables

  function Header(start: bool, pid: nat, control: nat, counter: nat): seq<Byte>
  {
    [0x47, (if start then 0x40 else 0) + pid / 256 % 32, pid % 256, control % 4 * 16 + counter % 16]
  }

  const PAT_BODY: seq<Byte> := [0x00, 0xb0, 0x0d, 0x00, 0x01, 0xc1, 0x00, 0x00, 0x00, 0x01, 0xe1, 0x00]

  const PMT_BODY: seq<Byte> :=
    [0x02, 0xb0, 0x1e, 0x00, 0x01, 0xc1, 0x00, 0x00, 0xf1, 0x00, 0xf0, 0x0c,
     0x05, 0x04, 0x48, 0x44, 0x4d, 0x56, 0x88, 0x04, 0x0f, 0xff, 0xfc, 0xfc,
     0x80, 0xf1, 0x00, 0xf0, 0x00]

  /** A section with its CRC behind it. */
  function Section(body: seq<Byte>): seq<Byte> { body + Crc32.ToBytes(Crc32.Crc(body)) }

  /** A packet that carries one section behind a zero pointer, filled up with ones. */
  function TablePacket(pid: nat, counter: nat, body: seq<Byte>): seq<Byte>
    requires |body| <= 64
  {
    Header(true, pid, 1, counter) + [0] + Section(body) + Repeat(255, PACKET_SIZE - 9 - |body|)
  }

  /** Both tables, in the order in which they are sent. */
  function Tables(patCounter: nat, pmtCounter: nat): seq<Byte>
  {
    TablePacket(PAT_PID, patCounter, PAT_BODY) + TablePacket(PMT_PID, pmtCounter, PMT_BODY)
  }

  /** The section in the payload of a packet that starts one: pointer field, then three bytes and the length they
      give. */
  function SectionOf(payload: seq<Byte>): Option<seq<Byte>>
  {
    if |payload| < 4 then None
    else
      var at := 1 + Num(payload[0]);
      if at + 3 > |payload| then None
      else
        var length := 3 + Num(payload[at + 1]) % 16 * 256 + Num(payload[at + 2]);
        if at + length > |payload| then None else Some(payload[at..at + length])
  }

  /** What Annex A asks of a received section. */
  predicate PassesCrc(section: seq<Byte>) { Crc32.Crc(section) == Crc32.Zeros() }

  lemma HeaderParses(start: bool, pid: nat, control: nat, counter: nat)
    requires pid < 8192 && 1 <= control < 4
    ensures var h := Header(start, pid, control, counter);
      && |h| == 4 && h[0] == 0x47
      && (Num(h[1]) / 64 % 2 == 1) == start && Num(h[1]) % 32 * 256 + Num(h[2]) == pid
      && Num(h[3]) % 16 == counter % 16 && Num(h[3]) / 16 % 4 == control
  {}

  lemma PlainPacketParses(start: bool, pid: nat, counter: nat, payload: seq<Byte>)
    requires pid < 8192 && |payload| == NEXT_PAYLOAD
    ensures var p := Header(start, pid, 1, counter) + payload;
      |p| == PACKET_SIZE && ParsePacket(p) == Some(Packet(start, pid, counter % 16, [], payload))
  {
    hide Header;
    HeaderParses(start, pid, 1, counter);
    var p := Header(start, pid, 1, counter) + payload;
    assert p[4..] == payload;
  }

  lemma AdaptedPacketParses(start: bool, pid: nat, counter: nat, adaptation: seq<Byte>, payload: seq<Byte>)
    requires pid < 8192 && 1 + |adaptation| + |payload| == NEXT_PAYLOAD
    ensures var p := Header(start, pid, 3, counter) + [|adaptation|] + adaptation + payload;
      |p| == PACKET_SIZE && ParsePacket(p) == Some(Packet(start, pid, counter % 16, adaptation, payload))
  {
    hide Header;
    HeaderParses(start, pid, 3, counter);
    var p := Header(start, pid, 3, counter) + [|adaptation|] + adaptation + payload;
    assert p[4] == |adaptation|;
    assert p[5..5 + |adaptation|] == adaptation && p[5 + |adaptation|..] == payload;
  }

  /** Every table packet parses to one section that passes the CRC check. */
  lemma TablePacketParses(pid: nat, counter: nat, body: seq<Byte>)
    requires pid < 8192 && 3 <= |body| <= 64
    requires Num(body[1]) % 16 * 256 + Num(body[2]) == |body| + 1
    ensures var p := TablePacket(pid, counter, body);
      && |p| == PACKET_SIZE && ParsePacket(p).Some?
      && var q := ParsePacket(p).value;
         q.start && q.pid == pid && q.counter == counter % 16
         && SectionOf(q.payload) == Some(Section(body)) && PassesCrc(Section(body))
  {
    hide Header, Crc32.Crc, Crc32.ToBytes, ParsePacket;
    FourBytes(Crc32.Crc(body));
    var fill := Repeat(255, PACKET_SIZE - 9 - |body|);
    var payload := [0] + Section(body) + fill;
    PlainPacketParses(true, pid, counter, payload);
    assert TablePacket(pid, counter, body) == Header(true, pid, 1, counter) + payload;
    assert payload[1..1 + |Section(body)|] == Section(body);
    assert payload[2] == body[1] && payload[3] == body[2];
    Crc32.CrcResidueIsZero(body);
  }

  /** The programme map's packets according to the association table: those of its first programme. */
  function MapPidOf(section: seq<Byte>): Option<nat>
  {
    if |section| < 16 || section[0] != 0 then None else Some(Num(section[10]) % 32 * 256 + Num(section[11]))
  }

  /** The first stream of the programme according to its map, behind the descriptors: its type and its packets. */
  function FirstStreamOf(section: seq<Byte>): Option<(nat, nat)>
  {
    if |section| < 12 || section[0] != 2 then None
    else
      var at := 12 + Num(section[10]) % 16 * 256 + Num(section[11]);
      if at + 9 > |section| then None
      else Some((Num(section[at]), Num(section[at + 1]) % 32 * 256 + Num(section[at + 2])))
  }

  /** The packets that carry the programme's clock. */
  function ClockPidOf(section: seq<Byte>): Option<nat>
  {
    if |section| < 12 || section[0] != 2 then None else Some(Num(section[8]) % 32 * 256 + Num(section[9]))
  }

  const LPCM: nat := 0x80

  /** The first section that packets of this number carry. */
  function FirstSection(packets: seq<Packet>, pid: nat): Option<seq<Byte>>
  {
    if packets == [] then None
    else if packets[0].pid == pid && packets[0].start then SectionOf(packets[0].payload)
    else FirstSection(packets[1..], pid)
  }

  /** How a client finds the audio: from the association table to the map to the first stream, if that is LPCM. */
  function FindAudio(packets: seq<Packet>): Option<nat>
  {
    var pat := FirstSection(packets, PAT_PID);
    if pat.None? || !PassesCrc(pat.value) || MapPidOf(pat.value).None? then None
    else
      var pmt := FirstSection(packets, MapPidOf(pat.value).value);
      if pmt.None? || !PassesCrc(pmt.value) || FirstStreamOf(pmt.value).None? then None
      else
        var (kind, pid) := FirstStreamOf(pmt.value).value;
        if kind == LPCM && ClockPidOf(pmt.value) == Some(pid) then Some(pid) else None
  }

  lemma TablesNameTheAudio()
    ensures MapPidOf(Section(PAT_BODY)) == Some(PMT_PID)
    ensures FirstStreamOf(Section(PMT_BODY)) == Some((LPCM, AUDIO_PID))
    ensures ClockPidOf(Section(PMT_BODY)) == Some(AUDIO_PID)
  {
    hide Crc32.Crc, Crc32.ToBytes;
    FourBytes(Crc32.Crc(PAT_BODY));
    FourBytes(Crc32.Crc(PMT_BODY));
  }

  /** A client of any stream that begins with the tables is led to the audio and to its clock. */
  lemma TablesLeadToAudio(patCounter: nat, pmtCounter: nat, stream: seq<Byte>)
    requires Parse(stream).Some? && Tables(patCounter, pmtCounter) <= stream
    ensures FindAudio(Parse(stream).value) == Some(AUDIO_PID)
  {
    hide Tables, Parse, SectionOf, Section, PassesCrc, MapPidOf, FirstStreamOf, ClockPidOf;
    TablesParse(patCounter, pmtCounter);
    var t, q := Parse(Tables(patCounter, pmtCounter)).value, Parse(stream).value;
    TablesNameTheAudio();
    ParsePrefix(Tables(patCounter, pmtCounter), stream);
    assert q[0] == t[0] && q[1] == t[1];
    assert FirstSection(q, PMT_PID) == FirstSection(q[1..], PMT_PID);
  }

  lemma {:induction false} ParsePrefix(a: seq<Byte>, stream: seq<Byte>)
    requires a <= stream && Parse(a).Some? && Parse(stream).Some?
    ensures Parse(a).value <= Parse(stream).value
    decreases |a|
  {
    hide ParsePacket;
    if a != [] {
      assert stream[..PACKET_SIZE] == a[..PACKET_SIZE];
      ParsePrefix(a[PACKET_SIZE..], stream[PACKET_SIZE..]);
    }
  }

  lemma FourBytes(r: Crc32.Register)
    ensures |Crc32.ToBytes(r)| == 4
  {}

  lemma TablesParse(patCounter: nat, pmtCounter: nat)
    ensures var t := Tables(patCounter, pmtCounter);
      && |t| == 2 * PACKET_SIZE && Parse(t).Some?
      && var q := Parse(t).value;
         |q| == 2 && q[0].start && q[1].start
         && q[0].pid == PAT_PID && q[0].counter == patCounter % 16 && SectionOf(q[0].payload) == Some(Section(PAT_BODY))
         && q[1].pid == PMT_PID && q[1].counter == pmtCounter % 16 && SectionOf(q[1].payload) == Some(Section(PMT_BODY))
         && PassesCrc(Section(PAT_BODY)) && PassesCrc(Section(PMT_BODY))
  {
    hide TablePacket, ParsePacket, SectionOf, Section, PassesCrc;
    TablePacketParses(PAT_PID, patCounter, PAT_BODY);
    TablePacketParses(PMT_PID, pmtCounter, PMT_BODY);
    var pat, pmt := TablePacket(PAT_PID, patCounter, PAT_BODY), TablePacket(PMT_PID, pmtCounter, PMT_BODY);
    ParseOne(pat);
    ParseOne(pmt);
    ParseConcat(pat, pmt);
  }
}
