// projects/noc_test/linux/hwSwIf/reconosNoC.c: packets are written into a ring of 64 bytes.
module NocRing {
  import opened Words

  /** A field of the packet structure, on which the code works with bit operations. */
  type Bits = bv8

  /** One byte of memory. */
  type Byte = x: int | 0 <= x < 256

  const RING: nat := 64
  const HEADER_SIZE: nat := 10

  /** struct reconosNoCPacket; payloadLength is the length of the payload. */
  datatype Packet = Packet(
    hwAddrLocal: Bits, hwAddrGlobal: Bits, priority: Bits, direction: Bits, latencyCritical: Bits,
    srcIdp: Word, dstIdp: Word, payload: seq<Byte>)

  // ---- The flat encoding and its inverse ----

  /** Four bytes, most significant first. */
  function BigEndian(v: Word): (b: seq<Byte>)
    ensures |b| == 4
  {
    [v / 0x100_0000 % 256, v / 0x1_0000 % 256, v / 0x100 % 256, v % 256]
  }

  function FromBigEndian(b: seq<Byte>): (v: Word)
    requires |b| == 4
  {
    var b0: int := b[0];
    var b1: int := b[1];
    var b2: int := b[2];
    ((b0 * 256 + b1) * 256 + b2) * 256 + b[3]
  }

  function HeaderByte1(p: Packet): Bits {
    ((p.hwAddrGlobal & 15) << 0) | ((p.hwAddrLocal & 3) << 4) | ((p.priority & 3) << 6)
  }

  /** The memory byte that holds these bits, and the bits of a memory byte. */
  function Stored(x: Bits): Byte { x as int }

  function Loaded(x: Byte): Bits { x as Bits }

  lemma LoadStored(x: Bits)
    ensures Loaded(Stored(x)) == x
  {
  }

  function HeaderByte2(p: Packet): Bits {
    ((p.direction & 1) << 0) | ((p.latencyCritical & 1) << 1)
  }

  /** The packet length is a 32-bit word. */
  predicate Sized(p: Packet) { |p.payload| + HEADER_SIZE < 0x1_0000_0000 }

  /** The packet as the hardware reads it: length, two header bytes, addresses, payload. */
  function Encode(p: Packet): (b: seq<Byte>)
    requires Sized(p)
    ensures |b| == 14 + |p.payload|
  {
    BigEndian(|p.payload| + HEADER_SIZE) + [Stored(HeaderByte1(p)), Stored(HeaderByte2(p))] + BigEndian(p.srcIdp) + BigEndian(p.dstIdp) + p.payload
  }

  /** What the header has room for: the low bits of each field. */
  function Masked(p: Packet): Packet {
    p.(hwAddrGlobal := p.hwAddrGlobal & 15, hwAddrLocal := p.hwAddrLocal & 3, priority := p.priority & 3,
       direction := p.direction & 1, latencyCritical := p.latencyCritical & 1)
  }

  /** Reading a packet off the front of a byte sequence. */
  function Decode(b: seq<Byte>): Option<Packet> {
    if |b| < 14 then None
    else
      var len := FromBigEndian(b[0..4]);
      if len < HEADER_SIZE || len + 4 > |b| then None
      else
        var h1, h2 := Loaded(b[4]), Loaded(b[5]);
        Some(Packet((h1 >> 4) & 3, h1 & 15, (h1 >> 6) & 3, h2 & 1, (h2 >> 1) & 1,
                    FromBigEndian(b[6..10]), FromBigEndian(b[10..14]), b[14..len + 4]))
  }

  lemma Digits(v: Word)
    ensures v == ((v / 0x100_0000 % 256 * 256 + v / 0x1_0000 % 256) * 256 + v / 0x100 % 256) * 256 + v % 256
  {
    assert v / 0x1_0000 == v / 0x100 / 0x100 && v / 0x100_0000 == v / 0x100 / 0x100 / 0x100;
  }

  lemma BigEndianRoundTrip(v: Word)
    ensures FromBigEndian(BigEndian(v)) == v
  {
    Digits(v);
  }

  lemma HeaderFields(p: Packet)
    ensures var h := HeaderByte1(p);
            h & 15 == p.hwAddrGlobal & 15 && (h >> 4) & 3 == p.hwAddrLocal & 3 && (h >> 6) & 3 == p.priority & 3
    ensures var h := HeaderByte2(p);
            h & 1 == p.direction & 1 && (h >> 1) & 1 == p.latencyCritical & 1
  {
  }

  /** Decoding recovers every encoded packet up to the bits the header drops, whatever follows it. */
  lemma DecodeEncode(p: Packet, rest: seq<Byte>)
    requires Sized(p)
    ensures Decode(Encode(p) + rest) == Some(Masked(p))
  {
    hide BigEndian, FromBigEndian, HeaderByte1, HeaderByte2, Stored, Loaded;
    var b := Encode(p) + rest;
    BigEndianRoundTrip(|p.payload| + HEADER_SIZE);
    BigEndianRoundTrip(p.srcIdp);
    BigEndianRoundTrip(p.dstIdp);
    HeaderFields(p);
    LoadStored(HeaderByte1(p));
    LoadStored(HeaderByte2(p));
    assert b[0..4] == BigEndian(|p.payload| + HEADER_SIZE);
    assert b[4] == Stored(HeaderByte1(p)) && b[5] == Stored(HeaderByte2(p));
    assert b[6..10] == BigEndian(p.srcIdp);
    assert b[10..14] == BigEndian(p.dstIdp);
    assert b[14..14 + |p.payload|] == p.payload;
  }

  // ---- Writing bytes into the ring ----

  /** Quotient and remainder modulo the ring size are unique. */
  lemma Wraps(x: int, q: int, r: nat)
    requires x == 64 * q + r && r < 64
    ensures x % RING == r
  {
  }

  /** The memory that holds the ring in its first 64 bytes, after the bytes have been stored from position `at` on, wrapping around. */
  function Put(ring: seq<Byte>, at: nat, bytes: seq<Byte>): (r: seq<Byte>)
    requires |ring| >= RING
    ensures |r| == |ring|
    decreases |bytes|
  {
    if bytes == [] then ring else Put(ring[at % RING := bytes[0]], at + 1, bytes[1..])
  }

  lemma {:induction false} PutAppend(ring: seq<Byte>, at: nat, x: seq<Byte>, y: seq<Byte>)
    requires |ring| >= RING
    ensures Put(ring, at, x + y) == Put(Put(ring, at, x), at + |x|, y)
    decreases |x|
  {
    if x == [] {
      assert x + y == y;
    } else {
      assert (x + y)[1..] == x[1..] + y;
      PutAppend(ring[at % RING := x[0]], at + 1, x[1..], y);
    }
  }

  /** Position `at` matters only modulo the ring size. */
  lemma {:induction false} PutModulo(ring: seq<Byte>, at: nat, at': nat, bytes: seq<Byte>)
    requires |ring| >= RING && at % RING == at' % RING
    ensures Put(ring, at, bytes) == Put(ring, at', bytes)
    decreases |bytes|
  {
    if bytes != [] {
      PutModulo(ring[at % RING := bytes[0]], at + 1, at' + 1, bytes[1..]);
    }
  }

  /** Slots outside the written stretch keep their contents. */
  lemma {:induction false} PutElsewhere(ring: seq<Byte>, at: nat, bytes: seq<Byte>, i: nat)
    requires |ring| >= RING && i < RING && (i - at) % RING >= |bytes|
    ensures Put(ring, at, bytes)[i] == ring[i]
    decreases |bytes|
  {
    if bytes != [] {
      Wraps(i - (at + 1), (i - at) / RING, (i - at) % RING - 1);
      PutElsewhere(ring[at % RING := bytes[0]], at + 1, bytes[1..], i);
    }
  }

  /** Each of at most 64 bytes lands in its own slot. */
  lemma {:induction false} PutInside(ring: seq<Byte>, at: nat, bytes: seq<Byte>, i: nat)
    requires |ring| >= RING && i < RING && (i - at) % RING < |bytes| <= RING
    ensures Put(ring, at, bytes)[i] == bytes[(i - at) % RING]
    decreases |bytes|
  {
    var ring', rest := ring[at % RING := bytes[0]], bytes[1..];
    if (i - at) % RING == 0 {
      Wraps(i - (at + 1), (i - at) / RING - 1, 63);
      PutElsewhere(ring', at + 1, rest, i);
    } else {
      Wraps(i - (at + 1), (i - at) / RING, (i - at) % RING - 1);
      PutInside(ring', at + 1, rest, i);
    }
  }

  /** Without wrapping, the stored bytes are one slice. */
  lemma {:induction false} PutSlice(ring: seq<Byte>, at: nat, bytes: seq<Byte>)
    requires |ring| >= RING && at + |bytes| <= RING
    ensures Put(ring, at, bytes) == ring[..at] + bytes + ring[at + |bytes|..]
    decreases |bytes|
  {
    if bytes != [] {
      var ring' := ring[at % RING := bytes[0]];
      PutSlice(ring', at + 1, bytes[1..]);
      assert ring'[..at + 1] == ring[..at] + [bytes[0]] && ring'[at + |bytes|..] == ring[at + |bytes|..];
      assert [bytes[0]] + bytes[1..] == bytes;
    }
  }

  /** Bytes of the memory behind the ring stay as they are. */
  lemma {:induction false} PutBehind(ring: seq<Byte>, at: nat, bytes: seq<Byte>, i: nat)
    requires RING <= i < |ring|
    ensures Put(ring, at, bytes)[i] == ring[i]
    decreases |bytes|
  {
    if bytes != [] {
      PutBehind(ring[at % RING := bytes[0]], at + 1, bytes[1..], i);
    }
  }

  // ---- The code ----

  /** What the code stores: the first byte at the offset itself, which may be 64 and so behind the ring, the
      others wrapping around. */
  function Store(mem: seq<Byte>, start: nat, bytes: seq<Byte>): (r: seq<Byte>)
    requires |mem| > RING && start <= RING
    ensures |r| == |mem|
  {
    if start == RING && bytes != [] then Put(mem[RING := bytes[0]], 1, bytes[1..]) else Put(mem, start, bytes)
  }

  /** All stores lie inside the ring exactly when the offset does. */
  lemma StoreStaysInsideIff(start: nat, bytes: seq<Byte>)
    requires start <= RING && bytes != []
    ensures (forall mem: seq<Byte> | |mem| > RING :: Store(mem, start, bytes)[RING..] == mem[RING..]) <==> start < RING
  {
    hide Put;
    if start < RING {
      forall mem: seq<Byte> | |mem| > RING ensures Store(mem, start, bytes)[RING..] == mem[RING..] {
        forall i: nat | RING <= i < |mem| ensures Store(mem, start, bytes)[i] == mem[i] {
          PutBehind(mem, start, bytes, i);
        }
      }
    } else {
      var other: Byte := if bytes[0] == 0 then 1 else 0;
      var mem: seq<Byte> := seq(RING + 1, _ => other);
      PutBehind(mem[RING := bytes[0]], 1, bytes[1..], RING);
      assert Store(mem, start, bytes)[RING..][0] != mem[RING..][0];
    }
  }

  /** Every slot of the ring after a store of at most 64 bytes. From offset 64 the first byte misses slot 0. */
  lemma StoredSlot(mem: seq<Byte>, start: nat, bytes: seq<Byte>, i: nat)
    requires |mem| > RING && start <= RING && 0 < |bytes| <= RING && i < RING
    ensures Store(mem, start, bytes)[i]
         == if (i - start) % RING < |bytes| && !(start == RING && i == 0) then bytes[(i - start) % RING] else mem[i]
  {
    hide Put;
    if start < RING {
      if (i - start) % RING < |bytes| {
        PutInside(mem, start, bytes, i);
      } else {
        PutElsewhere(mem, start, bytes, i);
      }
    } else {
      var mem', rest := mem[RING := bytes[0]], bytes[1..];
      FromTheEnd(i);
      if 0 < i <= |rest| {
        PutInside(mem', 1, rest, i);
      } else {
        PutElsewhere(mem', 1, rest, i);
      }
    }
  }

  lemma FromTheEnd(i: nat)
    requires i < RING
    ensures (i - RING) % RING == i
    ensures (i - 1) % RING == if i == 0 then RING - 1 else i - 1
  {
  }

  /** Rounded up to the next word boundary. */
  function RoundUp4(n: nat): (r: nat)
    ensures n <= r < n + 4 && r % 4 == 0
  {
    if n % 4 == 0 then n else n + 4 - n % 4
  }

  /** sw2hwPacketProcessingThreadWriteIntegerToCharArray */
  method WriteInteger(bytes: array<Byte>, value: Word, startOffset: nat) returns (endOffset: nat)
    requires bytes.Length > RING && startOffset <= RING
    modifies bytes
    ensures bytes[..] == Store(old(bytes[..]), startOffset, BigEndian(value))
    ensures endOffset == (startOffset + 4) % RING
  {
    hide Store;
    ghost var s: seq<Byte> := bytes[..];
    var b0: Byte, b1: Byte := value / 0x100_0000 % 256, value / 0x1_0000 % 256;
    var b2: Byte, b3: Byte := value / 0x100 % 256, value % 256;
    StoreFour(s, startOffset, [b0, b1, b2, b3]);
    assert [b0, b1, b2, b3] == BigEndian(value);
    hide BigEndian;
    var at := startOffset;
    bytes[at] := b0;
    at := (at + 1) % RING;
    WrapSteps(startOffset);
    assert at == (startOffset + 1) % RING;
    bytes[at] := b1;
    at := (at + 1) % RING;
    assert at == (startOffset + 2) % RING;
    bytes[at] := b2;
    at := (at + 1) % RING;
    assert at == (startOffset + 3) % RING;
    bytes[at] := b3;
    at := (at + 1) % RING;
    assert bytes[..] == s[startOffset := b0][(startOffset + 1) % RING := b1][(startOffset + 2) % RING := b2][(startOffset + 3) % RING := b3];
    return at;
  }

  /** Advancing step by step wraps like advancing at once. */
  lemma WrapSteps(start: nat)
    ensures ((start + 1) % RING + 1) % RING == (start + 2) % RING
    ensures ((start + 2) % RING + 1) % RING == (start + 3) % RING
    ensures ((start + 3) % RING + 1) % RING == (start + 4) % RING
  {
    ModStep(start + 1, RING);
    ModStep(start + 2, RING);
    ModStep(start + 3, RING);
  }

  lemma PutThree(s: seq<Byte>, at: nat, b: seq<Byte>)
    requires |s| >= RING && |b| == 3
    ensures Put(s, at, b) == s[at % RING := b[0]][(at + 1) % RING := b[1]][(at + 2) % RING := b[2]]
  {
    var s1 := s[at % RING := b[0]];
    var s2 := s1[(at + 1) % RING := b[1]];
    assert Put(s, at, b) == Put(s1, at + 1, b[1..]);
    assert Put(s1, at + 1, b[1..]) == Put(s2, at + 2, b[2..]) by { assert b[1..][1..] == b[2..]; }
    assert Put(s2, at + 2, b[2..]) == s2[(at + 2) % RING := b[2]] by { assert b[2..][1..] == []; }
  }

  lemma StoreFour(s: seq<Byte>, at: nat, b: seq<Byte>)
    requires |s| > RING && |b| == 4 && at <= RING
    ensures Store(s, at, b) == s[at := b[0]][(at + 1) % RING := b[1]][(at + 2) % RING := b[2]][(at + 3) % RING := b[3]]
  {
    var rest := b[1..];
    if at == RING {
      PutThree(s[RING := b[0]], 1, rest);
      hide Put;
    } else {
      assert Put(s, at, b) == Put(s[at := b[0]], at + 1, rest);
      PutThree(s[at := b[0]], at + 1, rest);
      hide Put;
    }
  }

  /** memcpy(&ring[at], &payload[from], n) */
  method Copy(ring: array<Byte>, at: nat, payload: seq<Byte>, from: nat, n: nat)
    requires at + n <= ring.Length && from + n <= |payload|
    modifies ring
    ensures ring[..] == Copied(old(ring[..]), at, payload[from..from + n])
  {
    ghost var s: seq<Byte> := ring[..];
    var i := 0;
    while i < n
      invariant 0 <= i <= n
      invariant forall k | 0 <= k < ring.Length :: ring[k] == if at <= k < at + i then payload[from + k - at] else s[k]
    {
      ring[at + i] := payload[from + i];
      i := i + 1;
    }
    assert ring[..] == s[..at] + payload[from..from + n] + s[at + n..];
  }

  function Copied(mem: seq<Byte>, at: nat, bytes: seq<Byte>): (r: seq<Byte>)
    requires at + |bytes| <= |mem|
    ensures |r| == |mem|
  {
    mem[..at] + bytes + mem[at + |bytes|..]
  }

  /** The two header bytes. */
  method WriteHeader(ring: array<Byte>, p: Packet, startOffset: nat) returns (endOffset: nat)
    requires ring.Length > RING && startOffset < RING
    modifies ring
    ensures ring[..] == Put(old(ring[..]), startOffset, [Stored(HeaderByte1(p)), Stored(HeaderByte2(p))])
    ensures endOffset == (startOffset + 2) % RING
  {
    ghost var s: seq<Byte> := ring[..];
    var at := startOffset;
    var headerByte1 := (p.hwAddrGlobal & 15) << 0;
    headerByte1 := headerByte1 | ((p.hwAddrLocal & 3) << 4);
    headerByte1 := headerByte1 | ((p.priority & 3) << 6);
    ring[at] := Stored(headerByte1);
    at := (at + 1) % RING;
    var headerByte2 := (p.direction & 1) << 0;
    headerByte2 := headerByte2 | ((p.latencyCritical & 1) << 1);
    ring[at] := Stored(headerByte2);
    at := (at + 1) % RING;
    PutTwo(s, startOffset, Stored(HeaderByte1(p)), Stored(HeaderByte2(p)));
    hide Stored;
    return at;
  }

  lemma PutTwo(s: seq<Byte>, at: nat, x: Byte, y: Byte)
    requires |s| >= RING
    ensures Put(s, at, [x, y]) == s[at % RING := x][(at + 1) % RING := y]
  {
    var s1 := s[at % RING := x];
    assert [x, y][1..] == [y] && [y][1..] == [];
    assert Put(s, at, [x, y]) == Put(s1, at + 1, [y]);
  }

  /** What the two copies of the payload leave: one piece if it fits before the end of the ring, otherwise the rest
      from the beginning of the ring on, which runs over its end again if it is long enough. */
  function Spill(mem: seq<Byte>, at: nat, payload: seq<Byte>): (r: seq<Byte>)
    requires |mem| >= RING && at <= RING && at + |payload| <= RING + |mem|
    ensures |r| == |mem|
  {
    var part1 := RING - at;
    if |payload| <= part1 then Copied(mem, at, payload) else Copied(Copied(mem, at, payload[..part1]), 0, payload[part1..])
  }

  /** For payloads of at most 64 bytes this is writing byte by byte around the end. */
  lemma SpillIsPut(mem: seq<Byte>, at: nat, payload: seq<Byte>)
    requires |mem| >= RING && at <= RING && |payload| <= RING
    ensures Spill(mem, at, payload) == Put(mem, at, payload)
  {
    hide Put;
    var part1 := RING - at;
    if |payload| <= part1 {
      PutSlice(mem, at, payload);
    } else {
      var x, y := payload[..part1], payload[part1..];
      PutSlice(mem, at, x);
      PutSlice(Put(mem, at, x), 0, y);
      TwoParts(mem, at, x, 0, y);
      assert x + y == payload;
    }
  }

  lemma ShortSpillStays(mem: seq<Byte>, at: nat, payload: seq<Byte>)
    requires |mem| >= RING && at <= RING && at + |payload| <= 2 * RING
    ensures Spill(mem, at, payload)[RING..] == mem[RING..]
  {
    hide Copied;
    var part1 := RING - at;
    if |payload| <= part1 {
      CopiedBehind(mem, at, payload);
    } else {
      CopiedBehind(mem, at, payload[..part1]);
      CopiedBehind(Copied(mem, at, payload[..part1]), 0, payload[part1..]);
    }
  }

  lemma LongSpillLeaves(mem: seq<Byte>, at: nat, payload: seq<Byte>)
    requires |mem| >= RING && at <= RING && 2 * RING < at + |payload| <= RING + |mem|
    ensures Spill(mem, at, payload)[RING] == payload[2 * RING - at]
  {
    var m1 := Copied(mem, at, payload[..RING - at]);
    CopiedFrom(m1, payload[RING - at..], RING);
  }

  lemma CopiedFrom(mem: seq<Byte>, bytes: seq<Byte>, i: nat)
    requires i < |bytes| <= |mem|
    ensures Copied(mem, 0, bytes)[i] == bytes[i]
  {
  }

  /** The copies stay inside the ring exactly as long as the rest fits into it. */
  lemma SpillStaysInsideIff(at: nat, payload: seq<Byte>)
    requires at <= RING
    ensures (forall mem: seq<Byte> | |mem| >= RING && at + |payload| <= RING + |mem| ::
               Spill(mem, at, payload)[RING..] == mem[RING..])
       <==> at + |payload| <= 2 * RING
  {
    hide Spill;
    if at + |payload| <= 2 * RING {
      forall mem: seq<Byte> | |mem| >= RING && at + |payload| <= RING + |mem|
        ensures Spill(mem, at, payload)[RING..] == mem[RING..]
      {
        ShortSpillStays(mem, at, payload);
      }
    } else {
      var x := payload[2 * RING - at];
      var mem: seq<Byte> := seq(at + |payload|, _ => if x == 0 then 1 else 0);
      LongSpillLeaves(mem, at, payload);
      assert Spill(mem, at, payload)[RING..][0] != mem[RING..][0];
    }
  }

  lemma CopiedBehind(mem: seq<Byte>, at: nat, bytes: seq<Byte>)
    requires at + |bytes| <= RING <= |mem|
    ensures Copied(mem, at, bytes)[RING..] == mem[RING..]
  {
    forall i | 0 <= i < |mem| - RING ensures Copied(mem, at, bytes)[RING..][i] == mem[RING..][i] {
      assert Copied(mem, at, bytes)[RING + i] == mem[RING + i];
    }
  }

  /** The payload, in one piece or in two. */
  method WritePayload(ring: array<Byte>, payload: seq<Byte>, at: nat) returns (end: nat)
    requires ring.Length >= RING && at < RING && at + |payload| <= RING + ring.Length
    modifies ring
    ensures ring[..] == Spill(old(ring[..]), at, payload)
    ensures end == if at + |payload| <= RING then at + |payload| else at + |payload| - RING
  {
    hide Copied;
    if at + |payload| <= RING {
      Copy(ring, at, payload, 0, |payload|);
      assert payload[0..|payload|] == payload;
      end := at + |payload|;
    } else {
      var lengthPart1 := RING - at;
      var lengthPart2 := |payload| - lengthPart1;
      Copy(ring, at, payload, 0, lengthPart1);
      Copy(ring, 0, payload, lengthPart1, lengthPart2);
      assert payload[lengthPart1..lengthPart1 + lengthPart2] == payload[lengthPart1..];
      end := lengthPart2;
    }
  }

  /** Writing the parts one behind the other is writing the concatenation. */
  lemma TwoParts(s: seq<Byte>, start: nat, x: seq<Byte>, at: nat, y: seq<Byte>)
    requires |s| >= RING && at % RING == (start + |x|) % RING
    ensures Put(Put(s, start, x), at, y) == Put(s, start, x + y)
  {
    hide Put;
    PutAppend(s, start, x, y);
    PutModulo(Put(s, start, x), at, start + |x|, y);
  }

  lemma StoreInside(mem: seq<Byte>, at: nat, bytes: seq<Byte>)
    requires |mem| > RING && at < RING
    ensures Store(mem, at, bytes) == Put(mem, at, bytes)
  {
  }

  lemma StoreThenPut(s: seq<Byte>, start: nat, x: seq<Byte>, at: nat, y: seq<Byte>)
    requires |s| > RING && start <= RING && x != [] && at % RING == (start + |x|) % RING
    ensures Put(Store(s, start, x), at, y) == Store(s, start, x + y)
  {
    hide Put;
    if start == RING {
      assert (x + y)[1..] == x[1..] + y && (x + y)[0] == x[0];
      TwoParts(s[RING := x[0]], 1, x[1..], at, y);
    } else {
      TwoParts(s, start, x, at, y);
    }
  }

  lemma SameSlotLater(a: nat, b: nat, k: nat)
    requires a % RING == b % RING
    ensures (a + k) % RING == (b + k) % RING
  {
    var q: int := b / RING - a / RING;
    assert b + k == a + k + 64 * q;
    Wraps(b + k, (a + k) / RING + q, (a + k) % RING);
  }

  lemma ThreeParts(s: seq<Byte>, start: nat, b1: seq<Byte>, a1: nat, b2: seq<Byte>, a2: nat, b3: seq<Byte>)
    requires |s| > RING && start <= RING && |b1| == |b3| == 4 && |b2| == 2
    requires a1 == (start + 4) % RING && a2 == (a1 + 2) % RING
    ensures Put(Put(Store(s, start, b1), a1, b2), a2, b3) == Store(s, start, b1 + b2 + b3)
  {
    hide Put, Store;
    StoreThenPut(s, start, b1, a1, b2);
    SameSlotLater(a1, start + 4, 2);
    StoreThenPut(s, start, b1 + b2, a2, b3);
  }

  lemma FourParts(s: seq<Byte>, start: nat, b1: seq<Byte>, a1: nat, b2: seq<Byte>, a2: nat, b3: seq<Byte>, a3: nat, b4: seq<Byte>)
    requires |s| > RING && start <= RING && |b1| == |b3| == |b4| == 4 && |b2| == 2
    requires a1 == (start + 4) % RING && a2 == (a1 + 2) % RING && a3 == (a2 + 4) % RING
    ensures Put(Put(Put(Store(s, start, b1), a1, b2), a2, b3), a3, b4) == Store(s, start, b1 + b2 + b3 + b4)
    ensures (a3 + 4) % RING == (start + 14) % RING
  {
    hide Put, Store;
    ThreeParts(s, start, b1, a1, b2, a2, b3);
    SameSlotLater(a1, start + 4, 2);
    SameSlotLater(a2, start + 6, 4);
    SameSlotLater(a3, start + 10, 4);
    StoreThenPut(s, start, b1 + b2 + b3, a3, b4);
  }

  /** Where the alignment loop ends. */
  function Aligned(from: nat): nat { if from % 4 == 0 then from else RoundUp4(from) % RING }

  /** The offset that the code keeps after a packet with n bytes of payload: the next word boundary modulo 64, but 64
      itself when the payload ends at the end of the ring. */
  function NextOffset(start: nat, n: nat): nat {
    var e := (start + 14) % RING + n;
    Aligned(if e <= RING then e else e - RING)
  }

  /** sw2hwPacketProcessingThreadWritePacketToRingBuffer, with the offset passed in and out: the head is stored from
      `start` on, wrapping, and the payload behind it. Up to 64 bytes of payload the stored bytes are the flat encoding
      and no other byte changes (see WrittenSlots). `ring` is the memory in which the ring is the first 64 bytes; it
      goes as far as the copies reach. */
  method WritePacket(ring: array<Byte>, p: Packet, start: nat) returns (end: nat)
    requires ring.Length > RING && start <= RING && Sized(p)
    requires (start + 14) % RING + |p.payload| <= RING + ring.Length
    modifies ring
    ensures ring[..] == Spill(Store(old(ring[..]), start, EncodeHead(p)), (start + 14) % RING, p.payload)
    ensures |p.payload| <= RING ==> ring[..] == Store(old(ring[..]), start, Encode(p))
    ensures end == NextOffset(start, |p.payload|)
    ensures end % 4 == 0 && end % RING == RoundUp4(start + 14 + |p.payload|) % RING
  {
    hide BigEndian, HeaderByte1, HeaderByte2, Put, Store, RoundUp4, Spill;
    ghost var s, n := ring[..], |p.payload|;
    var at := WriteFields(ring, p, start);
    ghost var head := EncodeHead(p);
    end := WritePayload(ring, p.payload, at);
    if n <= RING {
      SpillIsPut(Store(s, start, head), at, p.payload);
      StoreThenPut(s, start, head, at, p.payload);
      assert head + p.payload == Encode(p);
    }
    end := AlignOffset(end);
    NextOffsetRounds(start, n);
    NextOffsetAligned(start, n);
  }

  /** Everything before the payload. */
  function EncodeHead(p: Packet): (b: seq<Byte>)
    requires Sized(p)
    ensures |b| == 14
  {
    BigEndian(|p.payload| + HEADER_SIZE) + [Stored(HeaderByte1(p)), Stored(HeaderByte2(p))] + BigEndian(p.srcIdp) + BigEndian(p.dstIdp)
  }

  method WriteFields(ring: array<Byte>, p: Packet, start: nat) returns (at: nat)
    requires ring.Length > RING && start <= RING && Sized(p)
    modifies ring
    ensures ring[..] == Store(old(ring[..]), start, EncodeHead(p))
    ensures at == (start + 14) % RING
  {
    hide BigEndian, HeaderByte1, HeaderByte2, Put, Store;
    ghost var s, n := ring[..], |p.payload|;
    var a1 := WriteInteger(ring, |p.payload| + HEADER_SIZE, start);
    var a2 := WriteHeader(ring, p, a1);
    StoreInside(ring[..], a2, BigEndian(p.srcIdp));
    var a3 := WriteInteger(ring, p.srcIdp, a2);
    StoreInside(ring[..], a3, BigEndian(p.dstIdp));
    at := WriteInteger(ring, p.dstIdp, a3);
    FourParts(s, start, BigEndian(n + HEADER_SIZE), a1, [Stored(HeaderByte1(p)), Stored(HeaderByte2(p))], a2,
              BigEndian(p.srcIdp), a3, BigEndian(p.dstIdp));
  }

  /** Advance to the beginning of the next word. */
  method AlignOffset(from: nat) returns (end: nat)
    ensures end == Aligned(from) && end % 4 == 0
  {
    end := from;
    while end % 4 != 0
      invariant Aligned(end) == Aligned(from)
      decreases (4 - end % 4) % 4
    {
      AlignStep(end);
      end := (end + 1) % RING;
    }
  }

  lemma AlignStep(n: nat)
    requires n % 4 != 0
    ensures var m := (n + 1) % RING;
            Aligned(m) == Aligned(n) && (4 - m % 4) % 4 < (4 - n % 4) % 4
  {
    var m := (n + 1) % RING;
    assert n + 1 == 4 * (16 * ((n + 1) / RING)) + m;
    NextQuarter(n);
    assert m % 4 == (n + 1) % 4;
    RoundUpModulo(m, n + 1);
  }

  /** Up to the next word boundary all bytes round up alike. */
  lemma NextQuarter(n: nat)
    requires n % 4 != 0
    ensures (n + 1) % 4 == if n % 4 == 3 then 0 else n % 4 + 1
    ensures RoundUp4(n + 1) == RoundUp4(n)
  {
  }

  lemma SameWordOffset(a: nat, b: nat, q: int)
    requires b == a + 64 * q
    ensures RoundUp4(b) == RoundUp4(a) + 64 * q
  {
    assert b == 4 * (a / 4 + 16 * q) + a % 4;
  }

  lemma RoundUpModulo(a: nat, b: nat)
    requires a % RING == b % RING
    ensures RoundUp4(a) % RING == RoundUp4(b) % RING
  {
    var q: int := b / RING - a / RING;
    assert b == a + 64 * q;
    SameWordOffset(a, b, q);
    var c := RoundUp4(a);
    hide RoundUp4;
    Wraps(c + 64 * q, c / RING + q, c % RING);
  }

  /** Slot by slot: the ring after a write holds the encoding at start .. start+14+n-1 modulo 64, and the
      old bytes everywhere else; written from offset 64, slot 0 keeps its old byte. */
  lemma WrittenSlots(mem: seq<Byte>, start: nat, p: Packet, i: nat)
    requires |mem| > RING && start <= RING && i < RING && 14 + |p.payload| <= RING
    ensures Store(mem, start, Encode(p))[i]
         == if (i - start) % RING < 14 + |p.payload| && !(start == RING && i == 0) then Encode(p)[(i - start) % RING]
            else mem[i]
  {
    hide Store, Encode;
    StoredSlot(mem, start, Encode(p), i);
  }

  // ---- Space ----

  /** Bytes between the offsets that have not been read. */
  function Unread(readOffset: nat, writeOffset: nat): nat { (writeOffset - readOffset) % RING }

  /** sw2hwPacketProcessingThreadEnoughSpaceForPacket in 32-bit arithmetic. */
  predicate EnoughSpace(readOffset: Word, writeOffset: Word, payloadLength: Word) {
    (RING + readOffset - writeOffset - 1) % 0x1_0000_0000 % RING >= (payloadLength + HEADER_SIZE + 4) % 0x1_0000_0000
  }

  /** The check is right except for lengths just below 2^32, where its sum wraps around. */
  lemma SpaceCheckMeansRoom(r: Word, w: Word, n: Word)
    ensures EnoughSpace(r, w, n) <==> Unread(r, w) + (14 + n) % 0x1_0000_0000 < RING
    ensures EnoughSpace(r, w, n) && n < 0x1_0000_0000 - 14 ==> n <= 49 && Unread(r, w) + 14 + n < RING
  {
    assert (RING + r - w - 1) % 0x1_0000_0000 % RING == (RING + r - w - 1) % RING;
    assert (RING + r - w - 1) % RING == 63 - (w - r) % RING;
  }

  lemma UnreadSlot(r: nat, w: nat, i: nat)
    requires (i - r) % RING < Unread(r, w)
    ensures (i - w) % RING == RING + (i - r) % RING - Unread(r, w)
  {
    var a, u := (i - r) % RING, (w - r) % RING;
    assert i - w == 64 * ((i - r) / RING - (w - r) / RING - 1) + (64 + a - u);
    Wraps(i - w, (i - r) / RING - (w - r) / RING - 1, 64 + a - u);
  }

  /** The oldest unread byte is the first that a write can reach. */
  lemma OldestSlot(r: nat, w: nat)
    requires Unread(r, w) > 0
    ensures (r % RING - r) % RING == 0
    ensures (r % RING - w) % RING == RING - Unread(r, w)
  {
    Wraps(r % RING - r, -(r / RING), 0);
    UnreadSlot(r, w, r % RING);
  }

  /** When the check holds at the time of the write, no unread byte is overwritten. */
  lemma UnreadBytesSurvive(mem: seq<Byte>, r: Word, w: Word, p: Packet, i: nat)
    requires |mem| > RING && w <= RING && |p.payload| <= 50 && EnoughSpace(r, w, |p.payload|)
    requires i < RING && (i - r) % RING < Unread(r, w)
    ensures Store(mem, w, Encode(p))[i] == mem[i]
  {
    hide EnoughSpace, Store, Encode;
    SpaceCheckMeansRoom(r, w, |p.payload|);
    UnreadSlot(r, w, i);
    WrittenSlots(mem, w, p, i);
  }

  /** After the wait for space the check is not repeated. Whatever room there is then, the write leaves every
      unread slot alone if and only if the unread bytes and the packet fit into the ring together. */
  lemma WriteSparesUnreadIffRoom(r: Word, w: Word, p: Packet)
    requires |p.payload| <= 50 && w <= RING
    ensures (forall mem: seq<Byte>, i: nat | |mem| > RING && i < RING && (i - r) % RING < Unread(r, w) ::
               Store(mem, w, Encode(p))[i] == mem[i])
       <==> Unread(r, w) + 14 + |p.payload| <= RING
  {
    hide Encode, Store, Unread;
    var u, m := Unread(r, w), 14 + |p.payload|;
    if u + m <= RING {
      forall mem: seq<Byte>, i: nat | |mem| > RING && i < RING && (i - r) % RING < u
        ensures Store(mem, w, Encode(p))[i] == mem[i]
      {
        UnreadSlot(r, w, i);
        WrittenSlots(mem, w, p, i);
      }
    } else {
      OldestSlot(r, w);
      UnreadBound(r, w);
      var i := r % RING;
      var x := Encode(p)[RING - u];
      var mem: seq<Byte> := seq(RING + 1, _ => if x == 0 then 1 else 0);
      WrittenSlots(mem, w, p, i);
      FromTheEnd(i);
      assert Store(mem, w, Encode(p))[i] != mem[i];
    }
  }

  lemma UnreadBound(r: nat, w: nat)
    ensures Unread(r, w) < RING
  {
  }

  /** With aligned offsets the unread bytes grow by the padded packet size, except exactly when that is
      one more than the free space: then the ring is full and reads as empty. */
  lemma UnreadGrowsUnlessFull(r: Word, w: Word, n: Word, end: nat)
    requires r % 4 == 0 && w % 4 == 0 && n <= 50 && EnoughSpace(r, w, n)
    requires end % RING == RoundUp4(w + 14 + n) % RING
    ensures var grown, free := RoundUp4(14 + n), RING - 1 - Unread(r, w);
            && grown <= free + 1
            && (Unread(r, end) == Unread(r, w) + grown <==> grown != free + 1)
            && (grown == free + 1 ==> Unread(r, end) == 0)
  {
    hide EnoughSpace, RoundUp4, Unread;
    SpaceCheckMeansRoom(r, w, n);
    AlignedOffsets(r, w, 14 + n);
    OffsetsMove(r, w, end, RoundUp4(14 + n));
    WholeWords(Unread(r, w), 14 + n);
  }

  lemma AlignedOffsets(r: nat, w: nat, m: nat)
    requires r % 4 == 0 && w % 4 == 0
    ensures Unread(r, w) % 4 == 0 && RoundUp4(w + m) == w + RoundUp4(m)
  {
    var a, b, q: int := w / 4, r / 4, (w - r) / RING;
    assert Unread(r, w) == 4 * (a - b - 16 * q);
    assert (w + m) % 4 == m % 4;
  }

  /** A number of bytes that fits behind u unread bytes still fits after padding, if nothing is left over. */
  lemma WholeWords(u: nat, m: nat)
    requires u % 4 == 0 && u + m < RING
    ensures u + RoundUp4(m) <= RING
    ensures (u + RoundUp4(m)) % RING == if u + RoundUp4(m) == RING then 0 else u + RoundUp4(m)
  {
  }

  lemma OffsetsMove(r: nat, w: nat, end: nat, grown: nat)
    requires end % RING == (w + grown) % RING
    ensures Unread(r, end) == (Unread(r, w) + grown) % RING
  {
    var u, e := Unread(r, w), (w + grown) % RING;
    var v := (u + grown) % RING;
    assert end - r == 64 * (end / RING - (w + grown) / RING + (w - r) / RING + (u + grown) / RING) + v;
    Wraps(end - r, end / RING - (w + grown) / RING + (w - r) / RING + (u + grown) / RING, v);
  }

  // ---- The ring as a queue of packets ----

  function Padded(p: Packet): nat { RoundUp4(14 + |p.payload|) }

  function Total(ps: seq<Packet>): nat {
    if ps == [] then 0 else Padded(ps[0]) + Total(ps[1..])
  }

  /** From position `at` on, the ring holds these packets one behind the other. */
  ghost predicate HoldsPackets(ring: seq<Byte>, at: nat, ps: seq<Packet>)
    requires |ring| > RING
    decreases |ps|
  {
    ps == [] || (HoldsPacket(ring, at, ps[0]) && HoldsPackets(ring, at + Padded(ps[0]), ps[1..]))
  }

  ghost predicate HoldsPacket(ring: seq<Byte>, at: nat, p: Packet)
    requires |ring| > RING
  {
    |p.payload| <= 50 && forall k | 0 <= k < 14 + |p.payload| :: Encode(p)[k] == ring[(at + k) % RING]
  }

  /** The 64 bytes of the ring in reading order. */
  function Window(ring: seq<Byte>, at: nat): seq<Byte>
    requires |ring| > RING
  {
    seq(RING, k requires 0 <= k => ring[(at + k) % RING])
  }

  /** The packet at the front can be read back. */
  lemma FrontPacketIsReadable(ring: seq<Byte>, at: nat, p: Packet)
    requires |ring| > RING && HoldsPacket(ring, at, p)
    ensures Decode(Window(ring, at)) == Some(Masked(p))
  {
    hide Decode, Encode;
    var b, n := Window(ring, at), 14 + |p.payload|;
    forall k | 0 <= k < n ensures b[k] == Encode(p)[k] {
    }
    assert b == Encode(p) + b[n..];
    DecodeEncode(p, b[n..]);
  }

  lemma WriteKeepsPacket(ring: seq<Byte>, at: nat, q: Packet, w: nat, p: Packet)
    requires |ring| > RING && |p.payload| <= 50 && HoldsPacket(ring, at, q)
    requires at + Padded(q) <= w && w + 14 + |p.payload| <= at + RING
    ensures HoldsPacket(Put(ring, w, Encode(p)), at, q)
  {
    hide Put, Encode;
    forall k | 0 <= k < 14 + |q.payload|
      ensures Encode(q)[k] == Put(ring, w, Encode(p))[(at + k) % RING]
    {
      var i := (at + k) % RING;
      var q: int := -((at + k) / RING) - 1;
      Wraps(i - w, q, RING - (w - at - k));
      PutElsewhere(ring, w, Encode(p), i);
    }
  }

  lemma WriteHoldsPacket(ring: seq<Byte>, w: nat, p: Packet)
    requires |ring| > RING && |p.payload| <= 50
    ensures HoldsPacket(Put(ring, w, Encode(p)), w, p)
  {
    hide Put, Encode;
    forall k | 0 <= k < 14 + |p.payload|
      ensures Encode(p)[k] == Put(ring, w, Encode(p))[(w + k) % RING]
    {
      Wraps((w + k) % RING - w, -((w + k) / RING), k);
      PutInside(ring, w, Encode(p), (w + k) % RING);
    }
  }

  /** A write behind the packets already in the ring appends a packet and disturbs none. */
  lemma {:induction false} WriteAppendsPacket(ring: seq<Byte>, at: nat, ps: seq<Packet>, p: Packet)
    requires |ring| > RING && |p.payload| <= 50 && HoldsPackets(ring, at, ps)
    requires Total(ps) + 14 + |p.payload| <= RING
    ensures HoldsPackets(Put(ring, at + Total(ps), Encode(p)), at, ps + [p])
    ensures Total(ps + [p]) == Total(ps) + Padded(p)
    decreases |ps|
  {
    hide Put, Encode, HoldsPacket;
    if ps == [] {
      WriteHoldsPacket(ring, at, p);
      assert ([] + [p])[1..] == [];
    } else {
      WriteKeepsPacket(ring, at, ps[0], at + Total(ps), p);
      WriteAppendsPacket(ring, at + Padded(ps[0]), ps[1..], p);
      assert (ps + [p])[1..] == ps[1..] + [p];
    }
  }

  lemma PaddedIs(p: Packet)
    ensures Padded(p) == RoundUp4(14 + |p.payload|) >= 14 + |p.payload|
    ensures Padded(p) % 4 == 0
  {
  }

  /** Sums and differences of multiples of 4 are multiples of 4. */
  lemma Fours(a: nat, b: nat)
    requires a % 4 == 0 && b % 4 == 0
    ensures (a + b) % 4 == 0 && (a - b) % 4 == 0
  {
    assert a + b == 4 * (a / 4 + b / 4) && a - b == 4 * (a / 4 - b / 4);
  }

  lemma {:induction false} TotalIsAligned(ps: seq<Packet>)
    ensures Total(ps) % 4 == 0
  {
    hide Padded;
    if ps != [] {
      TotalIsAligned(ps[1..]);
      PaddedIs(ps[0]);
      Fours(Padded(ps[0]), Total(ps[1..]));
    }
  }

  /** The ring with the memory behind it. r and w count all bytes read and written since the start, and `known` those
      that the hardware has reported as read: the read offset of the interface is `known` modulo 64, and it lags behind
      the hardware until the exchange thread stores the next report. `offset` is the write offset that the code keeps. */
  datatype Ring = Ring(mem: seq<Byte>, known: nat, r: nat, w: nat, offset: nat, queue: seq<Packet>)

  /** The ring holds the queue of encodings from the place where the hardware reads, and to the hardware the offsets
      tell how much is unread. */
  ghost predicate Sound(s: Ring) {
    && |s.mem| > RING && HoldsPackets(s.mem, s.r, s.queue) && s.w == s.r + Total(s.queue)
    && s.r % 4 == 0 && Total(s.queue) < RING
    && s.offset <= RING && s.offset % RING == s.w % RING
  }

  /** The offsets also tell the software the truth, as far as it knows what was read. */
  predicate UpToDate(s: Ring) { s.known <= s.r <= s.w < s.known + RING && s.known % 4 == 0 }

  ghost predicate RingInv(s: Ring) { Sound(s) && UpToDate(s) }

  datatype Action = Write(packet: Packet) | Read | Report(upTo: nat)

  /** Writes happen with or without the check; a report may be older than the last read. */
  predicate Can(s: Ring, a: Action) {
    && s.offset <= RING && |s.mem| > RING
    && match a
       case Write(p) => |p.payload| <= 50
       case Read => s.queue != []
       case Report(upTo) => s.known <= upTo <= s.r && upTo % 4 == 0
  }

  /** Method WritePacket; the hardware takes the packet at its read offset; line 623. */
  function Do(s: Ring, a: Action): Ring
    requires Can(s, a)
  {
    match a
    case Write(p) =>
      s.(mem := Store(s.mem, s.offset, Encode(p)), w := s.w + Padded(p), offset := NextOffset(s.offset, |p.payload|),
         queue := s.queue + [p])
    case Read => s.(r := s.r + Padded(s.queue[0]), queue := s.queue[1..])
    case Report(upTo) => s.(known := upTo)
  }

  /** The space check of the software. */
  predicate Checked(s: Ring, p: Packet)
    requires s.offset <= RING && |p.payload| <= 50
  {
    EnoughSpace(s.known % RING, s.offset, |p.payload|)
  }

  /** To the software the packet and its padding take all the free space, the one byte that must stay free included. */
  predicate TakesLastByte(s: Ring, p: Packet)
    requires s.offset <= RING
  {
    Padded(p) == RING - Unread(s.known % RING, s.offset)
  }

  /** The padded packet fits behind what the hardware has not read and leaves a byte free. */
  predicate Fits(s: Ring, p: Packet) { s.w + Padded(p) < s.r + RING }

  /** The payload ends at the end of the ring. */
  predicate EndsAtTheEnd(s: Ring, p: Packet) { (s.offset + 14) % RING + |p.payload| == RING }

  lemma OffsetsAgree(offset: nat, w: nat, known: nat)
    requires offset <= RING && offset % RING == w % RING && known <= w < known + RING
    ensures Unread(known % RING, offset) == w - known
  {
    Wraps(offset - known % RING, offset / RING - w / RING + known / RING, w - known);
  }

  lemma AlignedSum(w: nat, m: nat)
    requires w % 4 == 0
    ensures RoundUp4(w + m) == w + RoundUp4(m)
  {
    AlignedOffsets(0, w, m);
  }

  lemma NextOffsetFollows(offset: nat, w: nat, n: nat)
    requires offset <= RING && offset % RING == w % RING && w % 4 == 0
    ensures NextOffset(offset, n) % RING == (w + RoundUp4(14 + n)) % RING
  {
    hide RoundUp4;
    AlignedSum(w, 14 + n);
    SameSlotLater(offset, w, 14 + n);
    RoundUpModulo(offset + (14 + n), w + (14 + n));
    NextOffsetRounds(offset, n);
  }

  lemma AlignedModulo(e: nat)
    ensures Aligned(e) % RING == RoundUp4(e) % RING && Aligned(e) % 4 == 0
  {
    if e % 4 != 0 {
      assert RoundUp4(e) == 4 * (RoundUp4(e) / 4);
      assert RoundUp4(e) % RING % 4 == 0;
    }
  }

  lemma NextOffsetAligned(offset: nat, n: nat)
    ensures NextOffset(offset, n) % 4 == 0
  {
    var e := (offset + 14) % RING + n;
    AlignedModulo(if e <= RING then e else e - RING);
  }

  lemma NextOffsetRounds(offset: nat, n: nat)
    ensures NextOffset(offset, n) % RING == RoundUp4(offset + (14 + n)) % RING
    ensures NextOffset(offset, n) % RING == RoundUp4(offset + 14 + n) % RING
  {
    hide RoundUp4, Aligned;
    var e := (offset + 14) % RING + n;
    var e' := if e <= RING then e else e - RING;
    AlignedModulo(e');
    SameSlotLater((offset + 14) % RING, offset + 14, n);
    Wraps(e', (if e <= RING then e / RING else e / RING - 1), e % RING);
    RoundUpModulo(e', offset + 14 + n);
    assert offset + (14 + n) == offset + 14 + n;
  }

  lemma OffsetBytes(offset: nat, w: nat, mem: seq<Byte>, bytes: seq<Byte>)
    requires offset < RING && offset % RING == w % RING && |mem| > RING
    ensures Store(mem, offset, bytes) == Put(mem, w, bytes)
  {
    StoreInside(mem, offset, bytes);
    PutModulo(mem, offset, w, bytes);
  }

  // ---- One write ----

  /** A write from inside the ring appends its packet and leaves the queue sound, exactly when it fits. */
  lemma WriteAppends(s: Ring, p: Packet)
    requires Sound(s) && Can(s, Write(p)) && s.offset < RING
    ensures Sound(Do(s, Write(p))) <==> Fits(s, p)
    ensures Do(s, Write(p)).offset == RING <==> EndsAtTheEnd(s, p)
    ensures Do(s, Write(p)).offset <= RING
  {
    hide Store, Put, Encode, HoldsPackets, RoundUp4, Total, NextOffset, Padded;
    PaddedIs(p);
    TotalAppend(s.queue, p);
    WriteMovesOffset(s, p);
    NextOffsetAtTheEnd(s.offset, |p.payload|);
    if Fits(s, p) {
      OffsetBytes(s.offset, s.w, s.mem, Encode(p));
      WriteAppendsPacket(s.mem, s.r, s.queue, p);
    }
  }

  lemma WriteMovesOffset(s: Ring, p: Packet)
    requires Sound(s)
    ensures NextOffset(s.offset, |p.payload|) % RING == (s.w + Padded(p)) % RING
  {
    hide HoldsPackets, RoundUp4, Total, NextOffset;
    TotalIsAligned(s.queue);
    Fours(s.r, Total(s.queue));
    NextOffsetFollows(s.offset, s.w, |p.payload|);
  }

  lemma {:induction false} TotalAppend(ps: seq<Packet>, p: Packet)
    ensures Total(ps + [p]) == Total(ps) + Padded(p)
  {
    hide Padded;
    if ps == [] {
      assert ([] + [p])[1..] == [];
    } else {
      assert (ps + [p])[1..] == ps[1..] + [p];
      TotalAppend(ps[1..], p);
    }
  }

  lemma NextOffsetAtTheEnd(offset: nat, n: nat)
    requires n <= 50
    ensures NextOffset(offset, n) <= RING
    ensures NextOffset(offset, n) == RING <==> (offset + 14) % RING + n == RING
  {
  }

  /** What the check means when the software is up to date: there is room, counting from what it knows to be read. */
  lemma CheckMeansRoom(s: Ring, p: Packet)
    requires Sound(s) && UpToDate(s) && Can(s, Write(p)) && Checked(s, p)
    ensures s.w - s.known + Padded(p) <= RING
    ensures TakesLastByte(s, p) <==> s.w - s.known + Padded(p) == RING
  {
    hide HoldsPackets, EnoughSpace, Total, Unread, RoundUp4;
    TotalIsAligned(s.queue);
    Fours(s.r, Total(s.queue));
    OffsetsAgree(s.offset, s.w, s.known);
    RoomInNumbers(s.known, s.offset, s.w, |p.payload|);
  }

  lemma RoomInNumbers(known: nat, offset: nat, w: nat, n: nat)
    requires offset <= RING && n <= 50 && known <= w && known % 4 == 0 && w % 4 == 0
    requires Unread(known % RING, offset) == w - known && EnoughSpace(known % RING, offset, n)
    ensures w - known + RoundUp4(14 + n) <= RING
  {
    hide EnoughSpace, Unread, RoundUp4;
    SpaceCheckMeansRoom(known % RING, offset, n);
    Fours(w, known);
    WholeWords(w - known, 14 + n);
  }

  /** The check is enough for the data, unless the packet takes the last byte of a ring of which the software knows all
      that was read. */
  lemma CheckIsEnoughIff(s: Ring, p: Packet)
    requires Sound(s) && UpToDate(s) && Can(s, Write(p)) && Checked(s, p)
    ensures Fits(s, p) <==> !(TakesLastByte(s, p) && s.known == s.r)
  {
    hide Sound, TakesLastByte, Checked, Padded;
    CheckMeansRoom(s, p);
  }

  /** A checked write from inside the ring keeps both sides informed exactly when it does not take the last byte. */
  lemma CheckedWriteAppends(s: Ring, p: Packet)
    requires RingInv(s) && Can(s, Write(p)) && Checked(s, p) && s.offset < RING
    ensures RingInv(Do(s, Write(p))) <==> !TakesLastByte(s, p)
    ensures !TakesLastByte(s, p) ==> Fits(s, p)
    ensures Do(s, Write(p)).offset == RING <==> EndsAtTheEnd(s, p)
    ensures Do(s, Write(p)).offset <= RING
  {
    hide Sound, TakesLastByte, Checked, Padded, Store, Encode, NextOffset, EndsAtTheEnd;
    CheckMeansRoom(s, p);
    WriteAppends(s, p);
  }

  /** A write from offset 64 leaves the ring: the first byte goes behind it and slot 0, where the packet begins, keeps
      its old byte. The packet can be read all the same if and only if that byte happens to be 0. */
  lemma WriteFromTheEnd(s: Ring, p: Packet)
    requires Sound(s) && Can(s, Write(p)) && s.offset == RING
    ensures var s' := Do(s, Write(p));
            && s'.mem[RING] == 0 && s'.mem[0] == s.mem[0]
            && (HoldsPacket(s'.mem, s.w, p) <==> s.mem[0] == 0)
  {
    hide Encode, Put, HoldsPackets;
    var b, m := Encode(p), Do(s, Write(p)).mem;
    FirstByteIsZero(p);
    PutBehind(s.mem[RING := b[0]], 1, b[1..], RING);
    WrittenSlots(s.mem, RING, p, 0);
    hide Store;
    if s.mem[0] == 0 {
      forall k | 0 <= k < 14 + |p.payload| ensures b[k] == m[(s.w + k) % RING] {
        FromTheEnd(k);
        Wraps(s.w + k, s.w / RING, k);
        WrittenSlots(s.mem, RING, p, k);
      }
    } else {
      assert b[0] != m[(s.w + 0) % RING];
    }
  }

  lemma FirstByteIsZero(p: Packet)
    requires |p.payload| <= 50
    ensures Encode(p)[0] == 0
  {
    assert Encode(p)[0] == BigEndian(|p.payload| + HEADER_SIZE)[0];
  }

  /** Reading a packet takes the oldest one. */
  lemma ReadTakesOldest(s: Ring)
    requires Sound(s) && s.queue != []
    ensures Decode(Window(s.mem, s.r)) == Some(Masked(s.queue[0]))
    ensures Sound(Do(s, Read)) && (UpToDate(s) ==> UpToDate(Do(s, Read)))
  {
    hide Decode, Encode, HoldsPacket, RoundUp4, Padded, UpToDate, Window;
    FrontPacketIsReadable(s.mem, s.r, s.queue[0]);
    PaddedIs(s.queue[0]);
    Fours(s.r, Padded(s.queue[0]));
    ReadStaysUpToDate(s);
  }

  lemma ReadStaysUpToDate(s: Ring)
    requires Sound(s) && s.queue != []
    ensures UpToDate(s) ==> UpToDate(Do(s, Read))
  {
    hide HoldsPackets, Padded;
  }

  /** Reads and reports keep everything and do not move the write offset. */
  lemma OtherStepsKeep(s: Ring, a: Action)
    requires Sound(s) && Can(s, a) && !a.Write?
    ensures Sound(Do(s, a)) && Do(s, a).offset == s.offset
    ensures UpToDate(s) ==> UpToDate(Do(s, a))
  {
    hide HoldsPackets, Total;
    if a.Read? {
      ReadTakesOldest(s);
    }
  }

  // ---- Whole runs of writes, reads and reports ----

  predicate Runs(s: Ring, run: seq<Action>)
    decreases |run|
  {
    run == [] || (Can(s, run[0]) && Runs(Do(s, run[0]), run[1..]))
  }

  predicate NoWrite(run: seq<Action>) { forall i | 0 <= i < |run| :: !run[i].Write? }

  /** No data is lost: every store lies inside the ring, and after every step the hardware finds there exactly the queue
      of what was written and not read. */
  ghost predicate Intact(s: Ring, run: seq<Action>)
    requires Runs(s, run)
    decreases |run|
  {
    run == [] || ((run[0].Write? ==> s.offset < RING) && Sound(Do(s, run[0])) && Intact(Do(s, run[0]), run[1..]))
  }

  /** Every write fits, and none but the last ends at the end of the ring. */
  predicate Fitting(s: Ring, run: seq<Action>)
    requires Runs(s, run)
    decreases |run|
  {
    run == [] ||
    ((run[0].Write? ==> Fits(s, run[0].packet) && (EndsAtTheEnd(s, run[0].packet) ==> NoWrite(run[1..])))
     && Fitting(Do(s, run[0]), run[1..]))
  }

  /** Besides, the software is never mistaken about the space that it knows to be free. */
  ghost predicate Faithful(s: Ring, run: seq<Action>)
    requires Runs(s, run)
    decreases |run|
  {
    run == [] || ((run[0].Write? ==> s.offset < RING) && RingInv(Do(s, run[0])) && Faithful(Do(s, run[0]), run[1..]))
  }

  /** Every write is made after a successful check. */
  predicate AllChecked(s: Ring, run: seq<Action>)
    requires Runs(s, run)
    decreases |run|
  {
    run == [] || ((run[0].Write? ==> Checked(s, run[0].packet)) && AllChecked(Do(s, run[0]), run[1..]))
  }

  /** No write takes what the software believes to be the last free byte, and none but the last ends at the end of the ring. */
  predicate Careful(s: Ring, run: seq<Action>)
    requires Runs(s, run)
    decreases |run|
  {
    run == [] ||
    ((run[0].Write? ==> !TakesLastByte(s, run[0].packet) && (EndsAtTheEnd(s, run[0].packet) ==> NoWrite(run[1..])))
     && Careful(Do(s, run[0]), run[1..]))
  }

  lemma NoWriteSplits(run: seq<Action>)
    requires run != []
    ensures NoWrite(run) <==> !run[0].Write? && NoWrite(run[1..])
  {
    assert run == [run[0]] + run[1..];
  }

  lemma {:induction false} WithoutWrites(s: Ring, run: seq<Action>)
    requires Sound(s) && Runs(s, run)
    ensures NoWrite(run) ==> Intact(s, run) && Fitting(s, run)
    ensures NoWrite(run) && UpToDate(s) ==> Faithful(s, run) && Careful(s, run)
    ensures !NoWrite(run) && s.offset == RING ==> !Intact(s, run) && !Faithful(s, run)
    decreases |run|
  {
    hide Sound, UpToDate, NoWrite, Can, Do, Fits, TakesLastByte, EndsAtTheEnd;
    if run == [] {
      NothingIsNoWrite();
    } else {
      NoWriteSplits(run);
      if !run[0].Write? {
        OtherStepsKeep(s, run[0]);
        WithoutWrites(Do(s, run[0]), run[1..]);
      }
    }
  }

  lemma NothingIsNoWrite()
    ensures NoWrite([])
  {
  }

  /** The exact condition under which no data is lost, for all writes, checked or not, from any sound state. */
  lemma {:induction false} IntactIffFitting(s: Ring, run: seq<Action>)
    requires Sound(s) && Runs(s, run) && s.offset < RING
    ensures Intact(s, run) <==> Fitting(s, run)
    decreases |run|
  {
    hide Sound, NoWrite, Can, Do, Fits, EndsAtTheEnd;
    if run != [] {
      var s' := Do(s, run[0]);
      if !run[0].Write? {
        OtherStepsKeep(s, run[0]);
        IntactIffFitting(s', run[1..]);
      } else {
        WriteAppends(s, run[0].packet);
        if Sound(s') {
          if EndsAtTheEnd(s, run[0].packet) {
            WithoutWrites(s', run[1..]);
          } else {
            IntactIffFitting(s', run[1..]);
          }
        }
      }
    }
  }

  /** The exact condition for runs of checked writes, whatever the lag of the reports: no data is lost and the software is
      not mistaken either. */
  lemma {:induction false} FaithfulIffCareful(s: Ring, run: seq<Action>)
    requires RingInv(s) && Runs(s, run) && AllChecked(s, run) && s.offset < RING
    ensures Faithful(s, run) <==> Careful(s, run)
    decreases |run|
  {
    hide Sound, UpToDate, NoWrite, Can, Do, TakesLastByte, EndsAtTheEnd, Checked;
    if run != [] {
      var s' := Do(s, run[0]);
      if !run[0].Write? {
        OtherStepsKeep(s, run[0]);
        FaithfulIffCareful(s', run[1..]);
      } else {
        CheckedWriteAppends(s, run[0].packet);
        if RingInv(s') {
          if EndsAtTheEnd(s, run[0].packet) {
            WithoutWrites(s', run[1..]);
          } else {
            FaithfulIffCareful(s', run[1..]);
          }
        }
      }
    }
  }

  lemma {:induction false} FaithfulIsIntact(s: Ring, run: seq<Action>)
    requires Runs(s, run) && Faithful(s, run)
    ensures Intact(s, run)
    decreases |run|
  {
    hide Sound, Can, Do;
    if run != [] {
      FaithfulIsIntact(Do(s, run[0]), run[1..]);
    }
  }

  // ---- Two inputs that break it ----

  /** The empty ring as it is created. */
  predicate Empty(s: Ring) { |s.mem| > RING && s.known == s.r == s.w == s.offset == 0 && s.queue == [] }

  lemma EmptyHasInv(s: Ring)
    requires Empty(s)
    ensures RingInv(s)
  {
  }

  lemma OneActionFirst(s: Ring, a: Action, rest: seq<Action>)
    requires Can(s, a) && Runs(Do(s, a), rest)
    ensures Runs(s, [a] + rest)
    ensures AllChecked(s, [a] + rest) <==> (a.Write? ==> Checked(s, a.packet)) && AllChecked(Do(s, a), rest)
    ensures Intact(s, [a] + rest) <==> (a.Write? ==> s.offset < RING) && Sound(Do(s, a)) && Intact(Do(s, a), rest)
  {
    hide Sound, Can, Do, Checked;
    assert ([a] + rest)[1..] == rest && ([a] + rest)[0] == a;
  }

  /** What the code computes for these packets. */
  lemma Computed()
    ensures EnoughSpace(0, 0, 2) && NextOffset(0, 2) == 16 && RoundUp4(14 + 2) == 16
    ensures EnoughSpace(16, 16, 34) && NextOffset(16, 34) == RING && RoundUp4(14 + 34) == 48
    ensures EnoughSpace(16, RING, 0) && EnoughSpace(16, RING, 1)
    ensures EnoughSpace(0, 0, 18) && NextOffset(0, 18) == 32 && RoundUp4(14 + 18) == 32
    ensures EnoughSpace(0, 32, 17) && NextOffset(32, 17) == 0 && RoundUp4(14 + 17) == 32
    ensures EnoughSpace(0, 0, 40) && RoundUp4(14 + 40) == 56
  {
  }

  /** The end of the ring is reached in practice: a payload of 2 bytes and, once that is read and reported, one of 34.
      The next write is not stored inside the ring. */
  lemma SecondPacketCanEndAtTheEnd(s: Ring, p: Packet, q: Packet, next: Packet)
    requires Empty(s) && |p.payload| == 2 && |q.payload| == 34 && |next.payload| <= 1
    ensures var run := [Write(p), Read, Report(16), Write(q), Write(next)];
            Runs(s, run) && AllChecked(s, run) && !Intact(s, run)
  {
    hide Store, Encode, Sound, EnoughSpace, NextOffset, RoundUp4;
    Computed();
    var s1 := Do(s, Write(p));
    var s2 := Do(s1, Read);
    var s3 := Do(s2, Report(16));
    var s4 := Do(s3, Write(q));
    assert s1.queue == [p] && s2.r == 16 && s3.known == 16 && s4.offset == RING;
    hide Do;
    assert Runs(Do(s4, Write(next)), []) && AllChecked(Do(s4, Write(next)), []);
    OneActionFirst(s4, Write(next), []);
    OneActionFirst(s3, Write(q), [Write(next)]);
    OneActionFirst(s2, Report(16), [Write(q), Write(next)]);
    OneActionFirst(s1, Read, [Report(16), Write(q), Write(next)]);
    OneActionFirst(s, Write(p), [Read, Report(16), Write(q), Write(next)]);
    assert [Write(next)] + [] == [Write(next)];
  }

  /** The software can overtake the hardware: a payload of 18 bytes is read but the report is still to come, one of 17
      bytes takes what the software takes for the last byte, and to the check the ring is now empty. It lets a payload of
      40 bytes overwrite the second packet, which is unread. */
  lemma LaggingCheckOverwrites(s: Ring, p: Packet, q: Packet, next: Packet)
    requires Empty(s) && |p.payload| == 18 && |q.payload| == 17 && |next.payload| == 40
    ensures var run := [Write(p), Read, Write(q)];
            && Runs(s, run) && AllChecked(s, run) && Intact(s, run)
            && Runs(s, run + [Write(next)]) && AllChecked(s, run + [Write(next)]) && !Intact(s, run + [Write(next)])
  {
    hide Store, Encode, HoldsPackets, Sound;
    var s1 := Do(s, Write(p));
    var s2 := Do(s1, Read);
    var s3 := Do(s2, Write(q));
    LaggingStates(s, p, q, next);
    assert Runs(s3, []) && AllChecked(s3, []) && Intact(s3, []);
    OneActionFirst(s2, Write(q), []);
    OneActionFirst(s1, Read, [Write(q)]);
    OneActionFirst(s, Write(p), [Read, Write(q)]);
    OneActionFirst(s3, Write(next), []);
    OneActionFirst(s2, Write(q), [Write(next)]);
    OneActionFirst(s1, Read, [Write(q), Write(next)]);
    OneActionFirst(s, Write(p), [Read, Write(q), Write(next)]);
    assert [Write(p), Read, Write(q)] + [Write(next)] == [Write(p)] + [Read, Write(q), Write(next)];
    assert [Write(p), Read, Write(q)] == [Write(p)] + [Read, Write(q)];
    assert [Read, Write(q)] == [Read] + [Write(q)] && [Read, Write(q), Write(next)] == [Read] + [Write(q), Write(next)];
    assert [Write(q)] + [] == [Write(q)] && [Write(next)] + [] == [Write(next)];
  }

  /** Each of the three checks succeeds; the first two writes fit and the third does not. */
  lemma LaggingStates(s: Ring, p: Packet, q: Packet, next: Packet)
    requires Empty(s) && |p.payload| == 18 && |q.payload| == 17 && |next.payload| == 40
    ensures var s1 := Do(s, Write(p));
            && Checked(s, p) && Sound(s1) && Can(s1, Read)
            && var s2 := Do(s1, Read);
            && Can(s2, Write(q)) && Checked(s2, q) && Sound(s2) && s2.offset == 32
            && var s3 := Do(s2, Write(q));
            && Sound(s3) && s3.offset == 0 && Can(s3, Write(next)) && Checked(s3, next) && !Sound(Do(s3, Write(next)))
  {
    hide Store, Encode, Sound, EnoughSpace, NextOffset, RoundUp4;
    Computed();
    EmptyHasInv(s);
    WriteAppends(s, p);
    var s1 := Do(s, Write(p));
    ReadTakesOldest(s1);
    var s2 := Do(s1, Read);
    assert s2.w == s2.r == 32;
    WriteAppends(s2, q);
    var s3 := Do(s2, Write(q));
    assert s3.w == 64;
    WriteAppends(s3, next);
  }
}
