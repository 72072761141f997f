/**
 * The UDP test of packages_12.09/net/ttcp/ttcp.c: a sender (start packets, numbered data packets,
 * end packets carrying the number of data packets), an order-preserving lossy channel, and the
 * receiver's state machine with its loss and sequence accounting (lines 741-742, 1000-1090,
 * 1207-1223, 1277-1395 and 1550-1561).
 */
module TtcpProtocol {
  type Byte = x: int | 0 <= x < 256

  type Packet = seq<Byte>

  const START_PATTERN: Packet := [1, 2, 3, 4]
  const END_PATTERN: Packet := [2, 2, 2, 2]

  /** The longest packet of the protocol itself, an end packet. */
  const END_PKT_LEN: nat := 8

  /** No UDP buffer is shorter. */
  const MIN_UDP_LEN: nat := 5

  // ------------------------------------------------------------------
  // Packets
  // ------------------------------------------------------------------

  /** The printable filler at position i of a preloaded buffer. */
  function Filler(i: nat): Byte { 32 + i % 95 }

  /** A preloaded buffer of m bytes. */
  function Filled(m: nat): (p: Packet)
    ensures |p| == m
  {
    seq(m, i requires 0 <= i < m => Filler(i))
  }

  /** The k-th data packet of m bytes out of a preloaded buffer: its sequence number, then filler. */
  function PatternPacket(k: nat, m: nat): (p: Packet)
    ensures |p| == m
  {
    if m == 0 then [] else [k % 256] + Filled(m)[1..]
  }

  function PatternPackets(sizes: seq<nat>): (ps: seq<Packet>)
    ensures |ps| == |sizes|
  {
    seq(|sizes|, k requires 0 <= k < |sizes| => PatternPacket(k, sizes[k]))
  }

  /** Byte i of a random body whose first random number is number at: two bytes come from each. */
  function RandomByte(random: nat -> nat, at: nat, i: nat): Byte
  {
    random(at + i / 2) / (if i % 2 == 0 then 1 else 256) % 256
  }

  /** How many random numbers have been drawn for the first k data packets. */
  function Drawn(sizes: seq<nat>, k: nat): nat
    requires k <= |sizes|
  {
    if k == 0 then 0 else Drawn(sizes, k - 1) + sizes[k - 1] / 2
  }

  /** The k-th data packet of m bytes with a random body. */
  function RandomPacket(random: nat -> nat, at: nat, k: nat, m: nat): (p: Packet)
    ensures |p| == m
  {
    if m == 0 then [] else [k % 256] + seq(m - 1, i requires 0 <= i < m - 1 => RandomByte(random, at, i))
  }

  function RandomPackets(random: nat -> nat, sizes: seq<nat>): (ps: seq<Packet>)
    ensures |ps| == |sizes|
  {
    seq(|sizes|, k requires 0 <= k < |sizes| => RandomPacket(random, Drawn(sizes, k), k, sizes[k]))
  }

  /** Every data packet that is not empty begins with its number. */
  predicate Numbered(datas: seq<Packet>)
  {
    forall k :: 0 <= k < |datas| && datas[k] != [] ==> datas[k][0] == k % 256
  }

  /** No random number is left over: the body of a packet takes its bytes in pairs, the last one alone if need be. */
  lemma DrawnCovers(sizes: seq<nat>, k: nat)
    requires k < |sizes| && sizes[k] > 0
    ensures
      var draws := Drawn(sizes, k + 1) - Drawn(sizes, k);
      sizes[k] - 1 <= 2 * draws <= sizes[k]
  {
  }

  lemma PacketsAreNumbered(random: nat -> nat, sizes: seq<nat>)
    ensures Numbered(PatternPackets(sizes)) && Numbered(RandomPackets(random, sizes))
  {
  }

  function BigEndian32(n: nat): (p: Packet)
    ensures |p| == 4
  {
    [n / 0x100_0000 % 256, n / 0x1_0000 % 256, n / 0x100 % 256, n % 256]
  }

  function EndPacket(n: nat): (p: Packet)
    ensures |p| == END_PKT_LEN
  {
    END_PATTERN + BigEndian32(n)
  }

  function Copies(p: Packet, count: nat): (ps: seq<Packet>)
    ensures |ps| == count
  {
    seq(count, _ => p)
  }

  /** Everything one run sends: 2 start packets, the data packets, 4 end packets. */
  function Sent(datas: seq<Packet>): (ps: seq<Packet>)
    ensures |ps| == |datas| + 6
  {
    Copies(START_PATTERN, 2) + datas + Copies(EndPacket(|datas|), 4)
  }

  /** What an order-preserving lossy channel delivers: the packets it keeps. */
  function Kept(ps: seq<Packet>, keep: seq<bool>): seq<Packet>
    requires |keep| == |ps|
  {
    if ps == [] then []
    else (if keep[0] then [ps[0]] else []) + Kept(ps[1..], keep[1..])
  }

  // ------------------------------------------------------------------
  // The receiver
  // ------------------------------------------------------------------

  datatype Phase = StartWait | DataWait | DataRcv | EndTest

  datatype Kind = StartPkt | EndPkt | DataPkt

  /**
   * The variables of udp_rcv_test; buf keeps whatever earlier packets left behind a shorter one, and beyond
   * is what the memory holds behind the buffer.
   */
  datatype Receiver = Receiver(phase: Phase, buf: Packet, beyond: Packet, starts: nat, ends: nat, datas: nat,
                               expected: nat, seqNo: Byte, reports: nat, nbytes: nat)
  {
    /** The eight bytes of an end packet can be read, within the buffer or not. */
    predicate Readable()
    {
      |buf| >= MIN_UDP_LEN && |buf| + |beyond| >= END_PKT_LEN
    }
  }

  function Initial(buflen: nat, beyond: Packet): Receiver
  {
    Receiver(StartWait, Filled(buflen), beyond, 0, 0, 0, 0, 0, 0, 0)
  }

  /** The socket copies a packet over the front of the buffer. */
  function Overlay(buf: Packet, p: Packet): (b: Packet)
    ensures |b| == |buf|
  {
    if |p| <= |buf| then p + buf[|p|..] else p[..|buf|]
  }

  function Classify(buf: Packet): Kind
    requires |buf| >= MIN_UDP_LEN
  {
    if buf[..4] == START_PATTERN then StartPkt
    else if buf[..4] == END_PATTERN then EndPkt
    else DataPkt
  }

  function FromBigEndian32(b: Packet): nat
    requires |b| == 4
  {
    var b0: int, b1: int, b2: int, b3: int := b[0], b[1], b[2], b[3];
    b0 * 0x100_0000 + b1 * 0x1_0000 + b2 * 0x100 + b3
  }

  /** The count of an end packet is read without regard to the end of the buffer. */
  function CountRead(buf: Packet, beyond: Packet): nat
    requires |buf| + |beyond| >= END_PKT_LEN
  {
    FromBigEndian32((buf + beyond)[4..8])
  }

  /** One packet of more than 0 bytes has been read into the buffer. */
  function Receive(r: Receiver, p: Packet): Receiver
    requires r.Readable()
  {
    var buf := Overlay(r.buf, p);
    var cnt := if |p| <= |r.buf| then |p| else |r.buf|;
    match Classify(buf)
    case StartPkt =>
      var r1 := r.(buf := buf, starts := r.starts + 1, phase := DataWait);
      if r.phase == DataRcv then r1.(nbytes := 0) else r1
    case EndPkt =>
      r.(buf := buf, ends := r.ends + 1, expected := CountRead(buf, r.beyond), phase := EndTest)
    case DataPkt =>
      var seqNo: int := buf[0];
      r.(buf := buf, datas := r.datas + 1, phase := DataRcv, nbytes := r.nbytes + cnt,
         reports := if seqNo != r.seqNo then r.reports + 1 else r.reports,
         seqNo := (seqNo + 1) % 256)
  }

  /** The receive loop: until the test has ended, or a read returns nothing. */
  function Loop(r: Receiver, ps: seq<Packet>): Receiver
    requires r.Readable()
    decreases |ps|
  {
    if r.phase == EndTest || ps == [] || ps[0] == [] then r
    else Loop(Receive(r, ps[0]), ps[1..])
  }

  // ------------------------------------------------------------------
  // The reference: what was delivered
  // ------------------------------------------------------------------

  function CountTrue(keep: seq<bool>): nat
  {
    if keep == [] then 0 else (if keep[0] then 1 else 0) + CountTrue(keep[1..])
  }

  /** The positions kept, counted from base. */
  function KeptAt(keep: seq<bool>, base: nat): (got: seq<nat>)
    ensures |got| == CountTrue(keep)
    ensures forall i :: 0 <= i < |got| ==> base <= got[i] < base + |keep|
  {
    if keep == [] then [] else (if keep[0] then [base] else []) + KeptAt(keep[1..], base + 1)
  }

  predicate Among<T>(got: seq<nat>, all: seq<T>)
  {
    forall i :: 0 <= i < |got| ==> got[i] < |all|
  }

  /** The bytes in the data packets received. */
  function SumSizes(datas: seq<Packet>, got: seq<nat>): nat
    requires Among(got, datas)
  {
    if got == [] then 0 else SumSizes(datas, got[..|got| - 1]) + |datas[got[|got| - 1]]|
  }

  /** How many data packets were lost just before the i-th one received. */
  function Gap(got: seq<nat>, i: nat): int
    requires i < |got|
  {
    var here: int, next: int := got[i], if i == 0 then 0 else got[i - 1] + 1;
    here - next
  }

  /** The gaps that an 8-bit sequence number shows. */
  function VisibleGaps(got: seq<nat>): nat
  {
    if got == [] then 0
    else VisibleGaps(got[..|got| - 1]) + (if Gap(got, |got| - 1) % 256 != 0 then 1 else 0)
  }

  /** The buffer when the data begin to come. */
  function StartBuffer(buflen: nat, started: bool): (b: Packet)
    ensures |b| == buflen
  {
    if started then Overlay(Filled(buflen), START_PATTERN) else Filled(buflen)
  }

  /** The buffer after the first i data packets received, each over the front of what was there. */
  function BufferAfter(buf: Packet, datas: seq<Packet>, got: seq<nat>, i: nat): (b: Packet)
    requires i <= |got| && Among(got, datas)
    ensures |b| == |buf|
  {
    if i == 0 then buf else Overlay(BufferAfter(buf, datas, got, i - 1), datas[got[i - 1]])
  }

  /** The i-th data packet received is not empty, fits, and is not taken for a start or end packet. */
  predicate IsClean(buf: Packet, datas: seq<Packet>, got: seq<nat>, i: nat)
    requires |buf| >= MIN_UDP_LEN && i < |got| && Among(got, datas)
  {
    0 < |datas[got[i]]| <= |buf| && KindAt(buf, datas, got, i) == DataPkt
  }

  predicate CleanFrom(buf: Packet, datas: seq<Packet>, got: seq<nat>, i: nat)
    requires |buf| >= MIN_UDP_LEN && i <= |got| && Among(got, datas)
  {
    forall j :: i <= j < |got| ==> IsClean(buf, datas, got, j)
  }

  /** What the i-th data packet received is taken for. */
  function KindAt(buf: Packet, datas: seq<Packet>, got: seq<nat>, i: nat): Kind
    requires |buf| >= MIN_UDP_LEN && i < |got| && Among(got, datas)
  {
    Classify(BufferAfter(buf, datas, got, i + 1))
  }

  /** How many data packets are received from the i-th on: up to an empty one, or one taken for an end packet. */
  function StopAt(buf: Packet, datas: seq<Packet>, got: seq<nat>, i: nat): (k: nat)
    requires |buf| >= MIN_UDP_LEN && i <= |got| && Among(got, datas)
    ensures i <= k <= |got|
    decreases |got| - i
  {
    if i == |got| || datas[got[i]] == [] || KindAt(buf, datas, got, i) == EndPkt then i
    else StopAt(buf, datas, got, i + 1)
  }

  /** The numbers of those among the first k that are taken for data. */
  function Seen(buf: Packet, datas: seq<Packet>, got: seq<nat>, k: nat): seq<nat>
    requires |buf| >= MIN_UDP_LEN && k <= |got| && Among(got, datas)
  {
    if k == 0 then []
    else Seen(buf, datas, got, k - 1) + if KindAt(buf, datas, got, k - 1) == DataPkt then [got[k - 1]] else []
  }

  /** The bytes counted of the packets since the last one taken for a start packet. */
  function SinceStart(buf: Packet, datas: seq<Packet>, got: seq<nat>, k: nat): nat
    requires |buf| >= MIN_UDP_LEN && k <= |got| && Among(got, datas)
  {
    if k == 0 || KindAt(buf, datas, got, k - 1) == StartPkt then 0
    else SinceStart(buf, datas, got, k - 1) + Clipped(|datas[got[k - 1]]|, |buf|)
  }

  /** How many of the first k are taken for start packets. */
  function StartsSeen(buf: Packet, datas: seq<Packet>, got: seq<nat>, k: nat): nat
    requires |buf| >= MIN_UDP_LEN && k <= |got| && Among(got, datas)
  {
    if k == 0 then 0
    else StartsSeen(buf, datas, got, k - 1) + if KindAt(buf, datas, got, k - 1) == StartPkt then 1 else 0
  }

  /** What there is to show for s start packets and the first k data packets. */
  datatype Tally = Tally(seen: seq<nat>, bytes: nat, starts: nat)

  function TallyAt(buf: Packet, datas: seq<Packet>, got: seq<nat>, s: nat, k: nat): Tally
    requires |buf| >= MIN_UDP_LEN && k <= |got| && Among(got, datas)
  {
    Tally(Seen(buf, datas, got, k), SinceStart(buf, datas, got, k), s + StartsSeen(buf, datas, got, k))
  }

  /** What fits of m bytes. */
  function Clipped(m: nat, buflen: nat): nat { if m <= buflen then m else buflen }

  /** The sequence reports of a run: the gaps that show among the packets taken for data before it stops. */
  function ReportsOf(buf: Packet, datas: seq<Packet>, got: seq<nat>): nat
    requires |buf| >= MIN_UDP_LEN && Among(got, datas)
  {
    VisibleGaps(Seen(buf, datas, got, StopAt(buf, datas, got, 0)))
  }

  /** The count n is read right: the buffer holds a whole end packet, or the memory behind it happens to fit. */
  predicate CountShows(buflen: nat, beyond: Packet, n: nat)
    requires buflen >= MIN_UDP_LEN && buflen + |beyond| >= END_PKT_LEN
  {
    buflen >= END_PKT_LEN || beyond[..END_PKT_LEN - buflen] == BigEndian32(n)[buflen - 4..]
  }

  /** What the receiver should report at the end of a run. */
  predicate Accurate(r: Receiver, datas: seq<Packet>, got: seq<nat>)
    requires Among(got, datas)
  {
    && r.phase == EndTest
    && r.expected - r.datas == |datas| - |got|
    && r.nbytes == SumSizes(datas, got)
  }

  // ------------------------------------------------------------------
  // Single packets
  // ------------------------------------------------------------------

  lemma CountRoundTrip(n: nat)
    requires n < 0x1_0000_0000
    ensures FromBigEndian32(BigEndian32(n)) == n
  {
    var q := n / 0x100;
    assert n == 0x100 * q + n % 0x100;
    assert n / 0x1_0000 == q / 0x100;
    assert n / 0x100_0000 == q / 0x100 / 0x100;
  }

  /** No two groups of four bytes stand for the same count. */
  lemma CountInjective(a: Packet, b: Packet)
    requires |a| == 4 && |b| == 4 && FromBigEndian32(a) == FromBigEndian32(b)
    ensures a == b
  {
    var a0: int, a1: int, a2: int, a3: int := a[0], a[1], a[2], a[3];
    var b0: int, b1: int, b2: int, b3: int := b[0], b[1], b[2], b[3];
    assert a0 == b0 && a1 == b1 && a2 == b2 && a3 == b3;
  }

  lemma StartIsStart(buf: Packet)
    requires |buf| >= MIN_UDP_LEN
    ensures Classify(Overlay(buf, START_PATTERN)) == StartPkt
    ensures Overlay(Overlay(buf, START_PATTERN), START_PATTERN) == Overlay(buf, START_PATTERN)
  {
    assert Overlay(buf, START_PATTERN)[..4] == START_PATTERN;
  }

  /** Cut short or not, an end packet is recognised; its count is right exactly if it shows. */
  lemma EndIsEnd(buf: Packet, beyond: Packet, n: nat)
    requires |buf| >= MIN_UDP_LEN && |buf| + |beyond| >= END_PKT_LEN && n < 0x1_0000_0000
    ensures Classify(Overlay(buf, EndPacket(n))) == EndPkt
    ensures CountRead(Overlay(buf, EndPacket(n)), beyond) == n <==> CountShows(|buf|, beyond, n)
  {
    hide BigEndian32, FromBigEndian32;
    var after := Overlay(buf, EndPacket(n));
    assert after[..4] == END_PATTERN;
    assert END_PATTERN[0] != START_PATTERN[0];
    var read := (after + beyond)[4..8];
    if |buf| >= END_PKT_LEN {
      assert read == BigEndian32(n);
    } else {
      var m := |buf|;
      assert after[4..] == BigEndian32(n)[..m - 4];
      assert read == BigEndian32(n)[..m - 4] + beyond[..END_PKT_LEN - m];
      assert read[m - 4..] == beyond[..END_PKT_LEN - m];
      assert BigEndian32(n) == BigEndian32(n)[..m - 4] + BigEndian32(n)[m - 4..];
    }
    CountRoundTrip(n);
    if CountRead(after, beyond) == n {
      CountInjective(read, BigEndian32(n));
    }
  }

  // ------------------------------------------------------------------
  // Whole runs
  // ------------------------------------------------------------------

  /** After s start packets and the first i data packets, all of them clean. */
  ghost predicate Tracking(r: Receiver, buf: Packet, datas: seq<Packet>, got: seq<nat>, s: nat, i: nat)
    requires i <= |got| && Among(got, datas)
  {
    && r.Readable() && r.buf == BufferAfter(buf, datas, got, i)
    && r.phase == (if i > 0 then DataRcv else if s > 0 then DataWait else StartWait)
    && r.datas == i && r.expected == 0
    && r.nbytes == SumSizes(datas, got[..i])
  }

  /** After a packet that was not counted, or only in part: bytes are missing, and stay missing. */
  ghost predicate Behindhand(r: Receiver, datas: seq<Packet>, got: seq<nat>, i: nat)
    requires i <= |got| && Among(got, datas)
  {
    r.Readable() && r.nbytes < SumSizes(datas, got[..i])
  }

  lemma Sizes(datas: seq<Packet>, got: seq<nat>, i: nat)
    requires i < |got| && Among(got, datas)
    ensures SumSizes(datas, got[..i + 1]) == SumSizes(datas, got[..i]) + |datas[got[i]]|
  {
    assert got[..i + 1][..i] == got[..i];
  }

  /** The 8-bit comparison sees exactly the gaps that are not multiples of 256. */
  lemma SeqNoShowsGap(got: seq<nat>, i: nat)
    requires i < |got|
    ensures got[i] % 256 != (if i == 0 then 0 else (got[i - 1] + 1) % 256) <==> Gap(got, i) % 256 != 0
  {
  }

  lemma SuccModulo(k: nat)
    ensures (k % 256 + 1) % 256 == (k + 1) % 256
  {
  }

  lemma DataStep(r: Receiver, buf: Packet, datas: seq<Packet>, got: seq<nat>, s: nat, i: nat)
    requires |buf| >= MIN_UDP_LEN && i < |got| && Among(got, datas)
    requires Tracking(r, buf, datas, got, s, i) && datas[got[i]] != []
    ensures
      var r1 := Receive(r, datas[got[i]]);
      if IsClean(buf, datas, got, i) then Tracking(r1, buf, datas, got, s, i + 1)
      else Behindhand(r1, datas, got, i + 1)
  {
    hide Classify, SumSizes, CountRead;
    Sizes(datas, got, i);
    assert BufferAfter(buf, datas, got, i + 1) == Overlay(r.buf, datas[got[i]]);
  }

  lemma BehindhandStep(r: Receiver, datas: seq<Packet>, got: seq<nat>, i: nat)
    requires i < |got| && Among(got, datas) && Behindhand(r, datas, got, i)
    ensures Behindhand(Receive(r, datas[got[i]]), datas, got, i + 1)
  {
    hide Classify, Overlay, SumSizes, CountRead;
    Sizes(datas, got, i);
  }

  /** The data packets received from the i-th on. */
  function DataFrom(datas: seq<Packet>, got: seq<nat>, i: nat): (ps: seq<Packet>)
    requires i <= |got| && Among(got, datas)
    ensures |ps| == |got| - i
  {
    seq(|got| - i, j requires 0 <= j < |got| - i => datas[got[i + j]])
  }

  lemma LoopStep(r: Receiver, datas: seq<Packet>, got: seq<nat>, i: nat, ends: seq<Packet>)
    requires r.Readable() && i < |got| && Among(got, datas)
    ensures Loop(r, DataFrom(datas, got, i) + ends) ==
      if r.phase == EndTest || datas[got[i]] == [] then r
      else Loop(Receive(r, datas[got[i]]), DataFrom(datas, got, i + 1) + ends)
  {
    hide Receive;
    assert DataFrom(datas, got, i)[1..] == DataFrom(datas, got, i + 1);
    var ps := DataFrom(datas, got, i) + ends;
    assert ps[0] == datas[got[i]] && ps[1..] == DataFrom(datas, got, i + 1) + ends;
  }

  lemma EndStep(r: Receiver, n: nat, e: nat)
    requires r.Readable() && r.phase != EndTest && e > 0 && n < 0x1_0000_0000
    ensures
      var r1 := Loop(r, Copies(EndPacket(n), e));
      && r1.phase == EndTest && r1.datas == r.datas && r1.nbytes == r.nbytes && r1.reports == r.reports
      && r1.starts == r.starts && r1.ends == r.ends + 1
      && (r1.expected == n <==> CountShows(|r.buf|, r.beyond, n))
  {
    hide CountShows, EndPacket, CountRead, Classify;
    EndIsEnd(r.buf, r.beyond, n);
    assert Copies(EndPacket(n), e)[0] == EndPacket(n);
    assert EndPacket(n) != [];
  }

  /** Bytes that are missing once are missing at the end. */
  lemma {:induction false} BehindhandRun(r: Receiver, datas: seq<Packet>, got: seq<nat>, i: nat, e: nat)
    requires i <= |got| && Among(got, datas) && Behindhand(r, datas, got, i) && |datas| < 0x1_0000_0000
    ensures Loop(r, DataFrom(datas, got, i) + Copies(EndPacket(|datas|), e)).nbytes < SumSizes(datas, got)
    decreases |got| - i
  {
    hide Receive, EndPacket, SumSizes;
    var ends := Copies(EndPacket(|datas|), e);
    if i == |got| {
      assert DataFrom(datas, got, i) + ends == ends && got[..i] == got;
      if e > 0 && r.phase != EndTest {
        EndStep(r, |datas|, e);
      }
    } else {
      LoopStep(r, datas, got, i, ends);
      BehindhandMore(r, datas, got, i);
      if r.phase != EndTest && datas[got[i]] != [] {
        BehindhandStep(r, datas, got, i);
        BehindhandRun(Receive(r, datas[got[i]]), datas, got, i + 1, e);
      }
    }
  }

  lemma {:induction false} BehindhandMore(r: Receiver, datas: seq<Packet>, got: seq<nat>, i: nat)
    requires i <= |got| && Among(got, datas) && Behindhand(r, datas, got, i)
    ensures r.nbytes < SumSizes(datas, got)
    decreases |got| - i
  {
    hide SumSizes;
    if i == |got| {
      assert got[..i] == got;
    } else {
      Sizes(datas, got, i);
      BehindhandMore(r, datas, got, i + 1);
    }
  }

  /** How a run ends that has kept track so far. */
  ghost predicate RunsWell(r: Receiver, buf: Packet, datas: seq<Packet>, got: seq<nat>, i: nat, e: nat)
    requires r.Readable() && |buf| >= MIN_UDP_LEN && i <= |got| && Among(got, datas) && |r.buf| == |buf|
  {
    var last := Loop(r, DataFrom(datas, got, i) + Copies(EndPacket(|datas|), e));
    Accurate(last, datas, got) <==> CleanFrom(buf, datas, got, i) && CountShows(|buf|, r.beyond, |datas|)
  }

  lemma {:induction false} DataRun(r: Receiver, buf: Packet, datas: seq<Packet>, got: seq<nat>, s: nat, i: nat, e: nat)
    requires |buf| >= MIN_UDP_LEN && i <= |got| && Among(got, datas)
    requires Tracking(r, buf, datas, got, s, i) && e > 0 && |datas| < 0x1_0000_0000
    ensures RunsWell(r, buf, datas, got, i, e)
    decreases |got| - i
  {
    hide Receive, EndPacket, DataFrom, Tracking, Behindhand, IsClean, Accurate, CleanFrom, Loop, CountShows;
    hide SumSizes, BufferAfter;
    TrackingFacts(r, buf, datas, got, s, i);
    var ends := Copies(EndPacket(|datas|), e);
    if i == |got| {
      DataRunEnds(r, buf, datas, got, s, e);
    } else {
      LoopStep(r, datas, got, i, ends);
      CleanStep(buf, datas, got, i);
      if datas[got[i]] == [] {
        NotAccurate(r, datas, got);
      } else {
        DataStep(r, buf, datas, got, s, i);
        var r1 := Receive(r, datas[got[i]]);
        ReceiveKeeps(r, datas[got[i]]);
        if IsClean(buf, datas, got, i) {
          DataRun(r1, buf, datas, got, s, i + 1, e);
        } else {
          BehindhandRun(r1, datas, got, i + 1, e);
          NotAccurate(Loop(r1, DataFrom(datas, got, i + 1) + ends), datas, got);
        }
      }
    }
  }

  lemma ReceiveKeeps(r: Receiver, p: Packet)
    requires r.Readable()
    ensures Receive(r, p).beyond == r.beyond && Receive(r, p).buf == Overlay(r.buf, p)
  {
  }

  lemma DataRunEnds(r: Receiver, buf: Packet, datas: seq<Packet>, got: seq<nat>, s: nat, e: nat)
    requires |buf| >= MIN_UDP_LEN && Among(got, datas)
    requires Tracking(r, buf, datas, got, s, |got|) && e > 0 && |datas| < 0x1_0000_0000
    ensures RunsWell(r, buf, datas, got, |got|, e)
  {
    hide Loop, EndPacket, SumSizes, CountShows;
    var ends := Copies(EndPacket(|datas|), e);
    assert DataFrom(datas, got, |got|) + ends == ends;
    assert got[..|got|] == got;
    EndStep(r, |datas|, e);
  }

  lemma TrackingFacts(r: Receiver, buf: Packet, datas: seq<Packet>, got: seq<nat>, s: nat, i: nat)
    requires i <= |got| && Among(got, datas) && Tracking(r, buf, datas, got, s, i)
    ensures r.Readable() && r.phase != EndTest && |r.buf| == |buf|
  {
  }

  lemma NotAccurate(r: Receiver, datas: seq<Packet>, got: seq<nat>)
    requires Among(got, datas)
    requires r.phase != EndTest || r.nbytes < SumSizes(datas, got)
    ensures !Accurate(r, datas, got)
  {
  }

  lemma CleanStep(buf: Packet, datas: seq<Packet>, got: seq<nat>, i: nat)
    requires |buf| >= MIN_UDP_LEN && i < |got| && Among(got, datas)
    ensures CleanFrom(buf, datas, got, i) <==> IsClean(buf, datas, got, i) && CleanFrom(buf, datas, got, i + 1)
    ensures datas[got[i]] == [] ==> !IsClean(buf, datas, got, i)
  {
    hide Classify, BufferAfter;
  }

  // ------------------------------------------------------------------
  // Sequence numbers
  // ------------------------------------------------------------------

  /**
   * Some numbers have been taken for data, and the gaps that show among them have been reported; some bytes have
   * been counted since the last start, none right after one.
   */
  ghost predicate Watching(r: Receiver, t: Tally)
  {
    && Counts(r, t)
    && r.seqNo == (if t.seen == [] then 0 else (t.seen[|t.seen| - 1] + 1) % 256)
    && (r.phase != DataRcv && r.phase != EndTest ==> r.nbytes == 0)
  }

  /** What the receiver has counted and reported. */
  ghost predicate Counts(r: Receiver, t: Tally)
  {
    && r.reports == VisibleGaps(t.seen) && r.datas == |t.seen| && r.nbytes == t.bytes && r.starts == t.starts
    && r.ends == if r.phase == EndTest then 1 else 0
  }

  lemma WatchData(r: Receiver, p: Packet, t: Tally, k: nat)
    requires r.Readable() && Watching(r, t) && r.phase != EndTest && p != [] && p[0] == k % 256
    requires Classify(Overlay(r.buf, p)) == DataPkt
    ensures Watching(Receive(r, p), Tally(t.seen + [k], t.bytes + Clipped(|p|, |r.buf|), t.starts))
    ensures Receive(r, p).phase != EndTest
  {
    hide Classify, Gap, CountRead;
    var more := t.seen + [k];
    assert more[..|t.seen|] == t.seen;
    SeqNoShowsGap(more, |t.seen|);
    SuccModulo(k);
    assert Overlay(r.buf, p)[0] == p[0];
  }

  lemma WatchStart(r: Receiver, p: Packet, t: Tally)
    requires r.Readable() && Watching(r, t) && r.phase != EndTest
    requires Classify(Overlay(r.buf, p)) == StartPkt
    ensures Watching(Receive(r, p), Tally(t.seen, 0, t.starts + 1)) && Receive(r, p).phase != EndTest
  {
    hide Classify, Overlay, CountRead, VisibleGaps;
  }

  lemma WatchEnd(r: Receiver, p: Packet, t: Tally)
    requires r.Readable() && Watching(r, t) && r.phase != EndTest
    requires Classify(Overlay(r.buf, p)) == EndPkt
    ensures Counts(Receive(r, p), t) && Receive(r, p).phase == EndTest
  {
    hide Classify, Overlay, CountRead, VisibleGaps;
  }

  /** Of end packets only, the first one counts. */
  lemma WatchEnds(r: Receiver, t: Tally, n: nat, e: nat)
    requires r.Readable() && Watching(r, t) && n < 0x1_0000_0000
    ensures Counts(Loop(r, Copies(EndPacket(n), e)), t)
  {
    hide EndPacket, VisibleGaps;
    if e > 0 && r.phase != EndTest {
      EndStep(r, n, e);
    }
  }

  /** One data packet that is not taken for an end packet. */
  lemma WatchStep(r: Receiver, buf: Packet, datas: seq<Packet>, got: seq<nat>, s: nat, i: nat)
    requires |buf| >= MIN_UDP_LEN && i < |got| && Among(got, datas) && Numbered(datas)
    requires r.Readable() && r.phase != EndTest && r.buf == BufferAfter(buf, datas, got, i)
    requires Watching(r, TallyAt(buf, datas, got, s, i))
    requires datas[got[i]] != [] && KindAt(buf, datas, got, i) != EndPkt
    ensures
      var r1 := Receive(r, datas[got[i]]);
      && r1.Readable() && r1.phase != EndTest && r1.buf == BufferAfter(buf, datas, got, i + 1)
      && Watching(r1, TallyAt(buf, datas, got, s, i + 1))
  {
    hide Receive, Classify, Overlay, Watching, Seen, SinceStart, StartsSeen;
    var p, t := datas[got[i]], TallyAt(buf, datas, got, s, i);
    assert KindAt(buf, datas, got, i) == Classify(Overlay(r.buf, p));
    ReceiveKeeps(r, p);
    TallyStep(buf, datas, got, s, i);
    if KindAt(buf, datas, got, i) == DataPkt {
      WatchData(r, p, t, got[i]);
    } else {
      WatchStart(r, p, t);
    }
  }

  /** What a run counts and reports from the i-th data packet on, whatever it takes them for. */
  lemma {:induction false} ReportRun(r: Receiver, buf: Packet, datas: seq<Packet>, got: seq<nat>, s: nat, i: nat,
                                     e: nat)
    requires |buf| >= MIN_UDP_LEN && i <= |got| && Among(got, datas) && Numbered(datas) && |datas| < 0x1_0000_0000
    requires r.Readable() && r.phase != EndTest && r.buf == BufferAfter(buf, datas, got, i)
    requires Watching(r, TallyAt(buf, datas, got, s, i))
    ensures Counts(Loop(r, DataFrom(datas, got, i) + Copies(EndPacket(|datas|), e)),
                   TallyAt(buf, datas, got, s, StopAt(buf, datas, got, i)))
    decreases |got| - i
  {
    hide Receive, EndPacket, DataFrom, Copies, Loop, KindAt, BufferAfter, Watching, Counts, TallyAt, Numbered;
    var ends, t := Copies(EndPacket(|datas|), e), TallyAt(buf, datas, got, s, i);
    WatchingCounts(r, t);
    if i == |got| {
      assert DataFrom(datas, got, i) + ends == ends by { NoDataFrom(datas, got); }
      WatchEnds(r, t, |datas|, e);
    } else {
      LoopStep(r, datas, got, i, ends);
      if datas[got[i]] == [] {
      } else if KindAt(buf, datas, got, i) == EndPkt {
        KindIs(r, buf, datas, got, i);
        WatchEnd(r, datas[got[i]], t);
        ReceiveKeeps(r, datas[got[i]]);
        LoopEnded(Receive(r, datas[got[i]]), DataFrom(datas, got, i + 1) + ends);
      } else {
        WatchStep(r, buf, datas, got, s, i);
        ReportRun(Receive(r, datas[got[i]]), buf, datas, got, s, i + 1, e);
      }
    }
  }

  lemma KindIs(r: Receiver, buf: Packet, datas: seq<Packet>, got: seq<nat>, i: nat)
    requires |buf| >= MIN_UDP_LEN && i < |got| && Among(got, datas) && r.buf == BufferAfter(buf, datas, got, i)
    ensures KindAt(buf, datas, got, i) == Classify(Overlay(r.buf, datas[got[i]]))
  {
    hide Classify, Overlay;
  }

  lemma TallyStep(buf: Packet, datas: seq<Packet>, got: seq<nat>, s: nat, i: nat)
    requires |buf| >= MIN_UDP_LEN && i < |got| && Among(got, datas)
    ensures
      var t, kind := TallyAt(buf, datas, got, s, i), KindAt(buf, datas, got, i);
      && (kind == DataPkt ==>
            TallyAt(buf, datas, got, s, i + 1) ==
            Tally(t.seen + [got[i]], t.bytes + Clipped(|datas[got[i]]|, |buf|), t.starts))
      && (kind == StartPkt ==> TallyAt(buf, datas, got, s, i + 1) == Tally(t.seen, 0, t.starts + 1))
  {
    hide KindAt;
  }

  lemma NoDataFrom(datas: seq<Packet>, got: seq<nat>)
    requires Among(got, datas)
    ensures DataFrom(datas, got, |got|) == []
  {
  }

  lemma WatchingCounts(r: Receiver, t: Tally)
    requires Watching(r, t)
    ensures Counts(r, t)
  {
  }

  lemma LoopEnded(r: Receiver, ps: seq<Packet>)
    requires r.Readable() && r.phase == EndTest
    ensures Loop(r, ps) == r
  {
  }

  /** If all packets received are data and taken for data, it is their gaps that show, however long they are. */
  lemma {:induction false} AllSeen(buf: Packet, datas: seq<Packet>, got: seq<nat>, k: nat)
    requires |buf| >= MIN_UDP_LEN && k <= |got| && Among(got, datas)
    requires forall i :: 0 <= i < |got| ==> datas[got[i]] != [] && KindAt(buf, datas, got, i) == DataPkt
    ensures Seen(buf, datas, got, k) == got[..k]
    ensures StopAt(buf, datas, got, |got| - k) == |got|
  {
    hide KindAt;
    if k == 0 {
    } else {
      AllSeen(buf, datas, got, k - 1);
      assert got[..k] == got[..k - 1] + [got[k - 1]];
    }
  }

  lemma ReportsAreRight(buf: Packet, datas: seq<Packet>, got: seq<nat>)
    requires |buf| >= MIN_UDP_LEN && Among(got, datas)
    requires forall i :: 0 <= i < |got| ==> datas[got[i]] != [] && KindAt(buf, datas, got, i) == DataPkt
    ensures ReportsOf(buf, datas, got) == VisibleGaps(got)
  {
    hide VisibleGaps, KindAt;
    AllSeen(buf, datas, got, |got|);
    assert got[..|got|] == got;
  }

  // ------------------------------------------------------------------
  // From the sender through the channel
  // ------------------------------------------------------------------

  lemma {:induction false} KeptConcat(a: seq<Packet>, b: seq<Packet>, keep: seq<bool>)
    requires |keep| == |a| + |b|
    ensures Kept(a + b, keep) == Kept(a, keep[..|a|]) + Kept(b, keep[|a|..])
  {
    if a == [] {
      assert a + b == b && keep[0..] == keep;
    } else {
      var first := if keep[0] then [a[0]] else [];
      assert (a + b)[0] == a[0] && (a + b)[1..] == a[1..] + b;
      assert keep[1..][..|a| - 1] == keep[..|a|][1..] && keep[1..][|a| - 1..] == keep[|a|..];
      KeptConcat(a[1..], b, keep[1..]);
      assert Kept(a, keep[..|a|]) == first + Kept(a[1..], keep[..|a|][1..]);
      Regroup(first, Kept(a[1..], keep[..|a|][1..]), Kept(b, keep[|a|..]));
    }
  }

  lemma {:induction false} KeptCopies(p: Packet, keep: seq<bool>)
    ensures Kept(Copies(p, |keep|), keep) == Copies(p, CountTrue(keep))
  {
    if keep == [] {
      assert Copies(p, 0) == [];
    } else {
      assert Copies(p, |keep|)[1..] == Copies(p, |keep| - 1);
      KeptCopies(p, keep[1..]);
    }
  }

  lemma {:induction false} KeptData(datas: seq<Packet>, keep: seq<bool>, base: nat)
    requires base + |keep| == |datas|
    ensures Kept(datas[base..], keep) == DataFrom(datas, KeptAt(keep, base), 0)
  {
    var got := KeptAt(keep, base);
    if keep == [] {
      assert datas[base..] == [];
    } else {
      var rest := KeptAt(keep[1..], base + 1);
      KeptData(datas, keep[1..], base + 1);
      var ps := datas[base..];
      assert ps[0] == datas[base] && ps[1..] == datas[base + 1..];
      if keep[0] {
        assert got == [base] + rest;
        assert DataFrom(datas, got, 0) == [datas[base]] + DataFrom(datas, rest, 0);
      } else {
        assert got == rest;
      }
    }
  }

  /** What the receiver sees of one run. */
  lemma Delivery(datas: seq<Packet>, keep: seq<bool>)
    requires |keep| == |datas| + 6
    ensures
      var n := |datas|;
      Kept(Sent(datas), keep) ==
        Copies(START_PATTERN, CountTrue(keep[..2])) + (DataFrom(datas, KeptAt(keep[2..n + 2], 0), 0)
          + Copies(EndPacket(n), CountTrue(keep[n + 2..])))
  {
    hide Kept, DataFrom, EndPacket, Copies, CountTrue, KeptAt;
    var n := |datas|;
    var starts, ends := Copies(START_PATTERN, 2), Copies(EndPacket(n), 4);
    KeptConcat(starts + datas, ends, keep);
    KeptConcat(starts, datas, keep[..n + 2]);
    assert keep[..n + 2][..2] == keep[..2] && keep[..n + 2][2..] == keep[2..n + 2];
    KeptCopies(START_PATTERN, keep[..2]);
    KeptData(datas, keep[2..n + 2], 0);
    assert datas[0..] == datas;
    KeptCopies(EndPacket(n), keep[n + 2..]);
    Regroup(Copies(START_PATTERN, CountTrue(keep[..2])), DataFrom(datas, KeptAt(keep[2..n + 2], 0), 0),
            Copies(EndPacket(n), CountTrue(keep[n + 2..])));
  }

  lemma Regroup(a: seq<Packet>, b: seq<Packet>, c: seq<Packet>)
    ensures a + b + c == a + (b + c)
  {
  }

  /** Before any data: s start packets so far. */
  ghost predicate Waiting(r: Receiver, buflen: nat, beyond: Packet, s: nat)
  {
    && r.Readable() && r.buf == StartBuffer(buflen, s > 0) && r.beyond == beyond
    && r.phase == (if s > 0 then DataWait else StartWait)
    && r.datas == r.expected == r.nbytes == r.seqNo == r.reports == r.ends == 0 && r.starts == s
  }

  lemma WaitingTracks(r: Receiver, buflen: nat, beyond: Packet, datas: seq<Packet>, got: seq<nat>, s: nat)
    requires Waiting(r, buflen, beyond, s) && Among(got, datas)
    ensures Tracking(r, StartBuffer(buflen, s > 0), datas, got, s, 0) && r.beyond == beyond
  {
    assert got[..0] == [];
  }

  lemma {:induction false} StartRun(r: Receiver, buflen: nat, beyond: Packet, s: nat, more: nat, rest: seq<Packet>)
    returns (r1: Receiver)
    requires Waiting(r, buflen, beyond, s)
    ensures Waiting(r1, buflen, beyond, s + more)
    ensures Loop(r, Copies(START_PATTERN, more) + rest) == Loop(r1, rest)
    decreases more
  {
    if more == 0 {
      assert Copies(START_PATTERN, 0) + rest == rest;
      r1 := r;
    } else {
      hide Classify, Overlay, Filled;
      var ps := Copies(START_PATTERN, more) + rest;
      assert ps[0] == START_PATTERN && ps[1..] == Copies(START_PATTERN, more - 1) + rest;
      StartIsStart(r.buf);
      StartIsStart(Filled(buflen));
      r1 := StartRun(Receive(r, START_PATTERN), buflen, beyond, s + 1, more - 1, rest);
    }
  }

  /** A run as the receiver sees it once the start packets are through. */
  lemma RunBegins(datas: seq<Packet>, keep: seq<bool>, buflen: nat, beyond: Packet) returns (r: Receiver)
    requires |keep| == |datas| + 6
    requires buflen >= MIN_UDP_LEN && buflen + |beyond| >= END_PKT_LEN
    ensures Waiting(r, buflen, beyond, CountTrue(keep[..2]))
    ensures
      var got, e := KeptAt(keep[2..|datas| + 2], 0), CountTrue(keep[|datas| + 2..]);
      Loop(Initial(buflen, beyond), Kept(Sent(datas), keep)) ==
      Loop(r, DataFrom(datas, got, 0) + Copies(EndPacket(|datas|), e))
  {
    hide Kept, Sent, Receive, Loop, DataFrom, EndPacket, CountTrue, KeptAt, Waiting, Initial;
    var got, e := KeptAt(keep[2..|datas| + 2], 0), CountTrue(keep[|datas| + 2..]);
    Delivery(datas, keep);
    InitialWaits(buflen, beyond);
    r := StartRun(Initial(buflen, beyond), buflen, beyond, 0, CountTrue(keep[..2]),
                  DataFrom(datas, got, 0) + Copies(EndPacket(|datas|), e));
  }

  /**
   * Loss accounting, for all data, every buffer and every loss pattern that lets an end packet through: the
   * receiver ends the test with the exact number of lost packets and received bytes if and only if every
   * data packet received is clean and the count shows.
   */
  lemma Accounting(datas: seq<Packet>, keep: seq<bool>, buflen: nat, beyond: Packet)
    requires 0 < |datas| < 0x8000_0000 && |keep| == |datas| + 6
    requires buflen >= MIN_UDP_LEN && buflen + |beyond| >= END_PKT_LEN
    requires CountTrue(keep[|datas| + 2..]) > 0
    ensures
      var got := KeptAt(keep[2..|datas| + 2], 0);
      var clean := CleanFrom(StartBuffer(buflen, CountTrue(keep[..2]) > 0), datas, got, 0);
      var last := Loop(Initial(buflen, beyond), Kept(Sent(datas), keep));
      Accurate(last, datas, got) <==> clean && CountShows(buflen, beyond, |datas|)
  {
    hide Kept, Sent, Loop, Accurate, CleanFrom, Tracking, Waiting, DataFrom, Copies, EndPacket, CountTrue, KeptAt;
    hide StartBuffer, CountShows, Initial;
    var s, e := CountTrue(keep[..2]), CountTrue(keep[|datas| + 2..]);
    var got := KeptAt(keep[2..|datas| + 2], 0);
    var r := RunBegins(datas, keep, buflen, beyond);
    WaitingTracks(r, buflen, beyond, datas, got, s);
    DataRun(r, StartBuffer(buflen, s > 0), datas, got, s, 0, e);
  }

  /**
   * Sequence accounting, for all data, every buffer and every loss pattern: the receiver reports exactly the
   * gaps that are not multiples of 256, among the packets that it takes for data before it stops.
   */
  lemma SequenceAccounting(datas: seq<Packet>, keep: seq<bool>, buflen: nat, beyond: Packet)
    requires Numbered(datas) && |datas| < 0x8000_0000 && |keep| == |datas| + 6
    requires buflen >= MIN_UDP_LEN && buflen + |beyond| >= END_PKT_LEN
    ensures
      var got := KeptAt(keep[2..|datas| + 2], 0);
      Loop(Initial(buflen, beyond), Kept(Sent(datas), keep)).reports ==
      ReportsOf(StartBuffer(buflen, CountTrue(keep[..2]) > 0), datas, got)
  {
    hide Kept, Sent, Loop, CountTrue, KeptAt, StartBuffer, Initial, StopAt, Seen, VisibleGaps, Numbered;
    hide SinceStart, StartsSeen;
    CounterAccounting(datas, keep, buflen, beyond);
  }

  /**
   * The other counters of the same runs: the data packets counted are those taken for data before the loop stops,
   * the bytes counted are what fitted of those since the last packet taken for a start packet, start packets are
   * the real ones and those data packets, and one end packet is counted if the test ended and none otherwise.
   */
  lemma CounterAccounting(datas: seq<Packet>, keep: seq<bool>, buflen: nat, beyond: Packet)
    requires Numbered(datas) && |datas| < 0x8000_0000 && |keep| == |datas| + 6
    requires buflen >= MIN_UDP_LEN && buflen + |beyond| >= END_PKT_LEN
    ensures
      var got := KeptAt(keep[2..|datas| + 2], 0);
      var buf := StartBuffer(buflen, CountTrue(keep[..2]) > 0);
      Counts(Loop(Initial(buflen, beyond), Kept(Sent(datas), keep)),
             TallyAt(buf, datas, got, CountTrue(keep[..2]), StopAt(buf, datas, got, 0)))
  {
    hide Kept, Sent, Loop, DataFrom, Copies, EndPacket, CountTrue, KeptAt, StartBuffer, Initial;
    hide StopAt, BufferAfter, Watching, Numbered, Waiting, TallyAt, Counts;
    var s, e := CountTrue(keep[..2]), CountTrue(keep[|datas| + 2..]);
    var got := KeptAt(keep[2..|datas| + 2], 0);
    var r := RunBegins(datas, keep, buflen, beyond);
    WaitingWatches(r, buflen, beyond, datas, got, s);
    ReportRun(r, StartBuffer(buflen, s > 0), datas, got, s, 0, e);
  }

  lemma InitialWaits(buflen: nat, beyond: Packet)
    requires buflen >= MIN_UDP_LEN && buflen + |beyond| >= END_PKT_LEN
    ensures Waiting(Initial(buflen, beyond), buflen, beyond, 0)
  {
  }

  lemma WaitingWatches(r: Receiver, buflen: nat, beyond: Packet, datas: seq<Packet>, got: seq<nat>, s: nat)
    requires buflen >= MIN_UDP_LEN && Waiting(r, buflen, beyond, s) && Among(got, datas)
    ensures r.Readable() && r.phase != EndTest && r.buf == BufferAfter(StartBuffer(buflen, s > 0), datas, got, 0)
    ensures
      var buf := StartBuffer(buflen, s > 0);
      Watching(r, TallyAt(buf, datas, got, s, 0))
  {
  }

  // ------------------------------------------------------------------
  // Data out of a preloaded buffer
  // ------------------------------------------------------------------

  /**
   * The i-th data packet received is taken for a start packet: it is a single byte, numbered 1, and the
   * rest of a start packet is still in the buffer because nothing longer than one byte came since.
   */
  predicate Confused(sizes: seq<nat>, got: seq<nat>, started: bool, i: nat)
    requires i < |got| && Among(got, sizes)
  {
    started && got[i] % 256 == 1 && forall j :: 0 <= j <= i ==> sizes[got[j]] == 1
  }

  /** Nothing but single bytes came after a start packet. */
  predicate Stale(sizes: seq<nat>, got: seq<nat>, started: bool, i: nat)
    requires i <= |got| && Among(got, sizes)
  {
    started && forall j :: 0 <= j < i ==> sizes[got[j]] == 1
  }

  /** The bytes behind the first: the rest of a start packet, or filler. */
  ghost predicate Behind(buf: Packet, stale: bool)
    requires |buf| >= MIN_UDP_LEN
  {
    if stale then buf[1..4] == [2, 3, 4] else buf[1] == 33
  }

  /** A data packet is taken for a start packet in exactly one case, and never for an end packet. */
  lemma DataClassified(buf: Packet, stale: bool, k: nat, m: nat)
    requires |buf| >= MIN_UDP_LEN && Behind(buf, stale) && m > 0
    ensures
      var after := Overlay(buf, PatternPacket(k, m));
      && Classify(after) == (if stale && m == 1 && k % 256 == 1 then StartPkt else DataPkt)
      && Behind(after, stale && m == 1)
  {
    var after := Overlay(buf, PatternPacket(k, m));
    assert after[0] == k % 256;
    if m == 1 {
      assert after[1..4] == buf[1..4];
      assert after[1] == buf[1];
    } else {
      assert after[1] == Filled(m)[1] == Filler(1);
    }
    assert after[..4] == [after[0], after[1], after[2], after[3]];
    assert after[1..4] == [after[1], after[2], after[3]];
  }

  /** While no empty packet has come, the buffer holds the rest of a start packet exactly if it is stale. */
  lemma {:induction false} BufferBehind(sizes: seq<nat>, got: seq<nat>, started: bool, buflen: nat, i: nat)
    requires buflen >= MIN_UDP_LEN && i <= |got| && Among(got, sizes)
    requires forall j :: 0 <= j < i ==> sizes[got[j]] > 0
    ensures
      Behind(BufferAfter(StartBuffer(buflen, started), PatternPackets(sizes), got, i), Stale(sizes, got, started, i))
  {
    hide PatternPacket, Behind;
    if i == 0 {
      StartBehind(buflen, started);
    } else {
      BufferBehind(sizes, got, started, buflen, i - 1);
      DataClassified(BufferAfter(StartBuffer(buflen, started), PatternPackets(sizes), got, i - 1),
                     Stale(sizes, got, started, i - 1), got[i - 1], sizes[got[i - 1]]);
      assert Stale(sizes, got, started, i) == (Stale(sizes, got, started, i - 1) && sizes[got[i - 1]] == 1);
    }
  }

  lemma StartBehind(buflen: nat, started: bool)
    requires buflen >= MIN_UDP_LEN
    ensures Behind(StartBuffer(buflen, started), started)
  {
    if started {
      assert StartBuffer(buflen, started)[1..4] == START_PATTERN[1..4];
    } else {
      assert Filled(buflen)[1] == Filler(1);
    }
  }

  /** What clean means for data out of a preloaded buffer: not empty, not too long, and not confused. */
  lemma PatternIsClean(sizes: seq<nat>, got: seq<nat>, started: bool, buflen: nat)
    requires buflen >= MIN_UDP_LEN && Among(got, sizes)
    ensures CleanFrom(StartBuffer(buflen, started), PatternPackets(sizes), got, 0) <==>
      forall j :: 0 <= j < |got| ==> 0 < sizes[got[j]] <= buflen && !Confused(sizes, got, started, j)
  {
    hide BufferAfter, Classify, StartBuffer, PatternPacket, Confused;
    var buf, datas := StartBuffer(buflen, started), PatternPackets(sizes);
    if forall j :: 0 <= j < |got| ==> sizes[got[j]] > 0 {
      forall j | 0 <= j < |got|
        ensures IsClean(buf, datas, got, j) <==> 0 < sizes[got[j]] <= buflen && !Confused(sizes, got, started, j)
      {
        PatternPacketIsClean(sizes, got, started, buflen, j);
      }
    } else {
      var j :| 0 <= j < |got| && sizes[got[j]] == 0;
      assert !IsClean(buf, datas, got, j);
    }
  }

  lemma PatternPacketIsClean(sizes: seq<nat>, got: seq<nat>, started: bool, buflen: nat, i: nat)
    requires buflen >= MIN_UDP_LEN && i < |got| && Among(got, sizes)
    requires forall j :: 0 <= j <= i ==> sizes[got[j]] > 0
    ensures IsClean(StartBuffer(buflen, started), PatternPackets(sizes), got, i) <==>
      sizes[got[i]] <= buflen && !Confused(sizes, got, started, i)
  {
    hide KindAt, StartBuffer, PatternPacket, Confused;
    PatternKind(sizes, got, started, buflen, i);
  }

  /** A confused packet is taken for a start packet, every other one for data, whether it fits or not. */
  lemma PatternKind(sizes: seq<nat>, got: seq<nat>, started: bool, buflen: nat, i: nat)
    requires buflen >= MIN_UDP_LEN && i < |got| && Among(got, sizes)
    requires forall j :: 0 <= j <= i ==> sizes[got[j]] > 0
    ensures KindAt(StartBuffer(buflen, started), PatternPackets(sizes), got, i) ==
      if Confused(sizes, got, started, i) then StartPkt else DataPkt
  {
    hide Classify, StartBuffer, PatternPacket, Behind;
    BufferBehind(sizes, got, started, buflen, i);
    DataClassified(BufferAfter(StartBuffer(buflen, started), PatternPackets(sizes), got, i),
                   Stale(sizes, got, started, i), got[i], sizes[got[i]]);
  }

  /** The first empty packet received from the i-th on, or the end. */
  function FirstEmpty(sizes: seq<nat>, got: seq<nat>, i: nat): (k: nat)
    requires i <= |got| && Among(got, sizes)
    ensures i <= k <= |got| && forall j :: i <= j < k ==> sizes[got[j]] > 0
    decreases |got| - i
  {
    if i == |got| || sizes[got[i]] == 0 then i else FirstEmpty(sizes, got, i + 1)
  }

  /** The numbers of those among the first k packets received that are not confused. */
  function Unconfused(sizes: seq<nat>, got: seq<nat>, started: bool, k: nat): seq<nat>
    requires k <= |got| && Among(got, sizes)
  {
    if k == 0 then []
    else Unconfused(sizes, got, started, k - 1) + if Confused(sizes, got, started, k - 1) then [] else [got[k - 1]]
  }

  lemma {:induction false} PatternStops(sizes: seq<nat>, got: seq<nat>, started: bool, buflen: nat, i: nat)
    requires buflen >= MIN_UDP_LEN && i <= |got| && Among(got, sizes)
    requires forall j :: 0 <= j < i ==> sizes[got[j]] > 0
    ensures StopAt(StartBuffer(buflen, started), PatternPackets(sizes), got, i) == FirstEmpty(sizes, got, i)
    decreases |got| - i
  {
    hide KindAt, StartBuffer, Confused;
    if i == |got| || sizes[got[i]] == 0 {
    } else {
      PatternKind(sizes, got, started, buflen, i);
      PatternStops(sizes, got, started, buflen, i + 1);
    }
  }

  lemma {:induction false} PatternSeen(sizes: seq<nat>, got: seq<nat>, started: bool, buflen: nat, k: nat)
    requires buflen >= MIN_UDP_LEN && k <= |got| && Among(got, sizes)
    requires forall j :: 0 <= j < k ==> sizes[got[j]] > 0
    ensures Seen(StartBuffer(buflen, started), PatternPackets(sizes), got, k) == Unconfused(sizes, got, started, k)
  {
    hide KindAt, StartBuffer, Confused;
    if k == 0 {
    } else {
      PatternKind(sizes, got, started, buflen, k - 1);
      PatternSeen(sizes, got, started, buflen, k - 1);
    }
  }

  /** What is reported of preloaded data: the gaps among the packets before an empty one that are not confused. */
  lemma PatternReports(sizes: seq<nat>, got: seq<nat>, started: bool, buflen: nat)
    requires buflen >= MIN_UDP_LEN && Among(got, sizes)
    ensures ReportsOf(StartBuffer(buflen, started), PatternPackets(sizes), got) ==
      VisibleGaps(Unconfused(sizes, got, started, FirstEmpty(sizes, got, 0)))
  {
    hide StartBuffer, PatternPackets, VisibleGaps, Unconfused, Seen, StopAt;
    PatternStops(sizes, got, started, buflen, 0);
    PatternSeen(sizes, got, started, buflen, FirstEmpty(sizes, got, 0));
  }

  function ConfusedBefore(sizes: seq<nat>, got: seq<nat>, started: bool, k: nat): nat
    requires k <= |got| && Among(got, sizes)
  {
    if k == 0 then 0
    else ConfusedBefore(sizes, got, started, k - 1) + if Confused(sizes, got, started, k - 1) then 1 else 0
  }

  /** Everything has arrived. */
  predicate Lossless(got: seq<nat>, n: nat)
  {
    |got| == n && forall i :: 0 <= i < n ==> got[i] == i
  }

  /** Nothing lost: the packets seen jump over every confused packet that has a successor, and over nothing else. */
  lemma {:induction false} LosslessGaps(sizes: seq<nat>, got: seq<nat>, started: bool, k: nat)
    requires Lossless(got, |sizes|) && 0 < k <= |sizes|
    ensures
      var seen := Unconfused(sizes, got, started, k);
      && seen != [] && seen[|seen| - 1] == (if Confused(sizes, got, started, k - 1) then k - 2 else k - 1)
      && VisibleGaps(seen) == ConfusedBefore(sizes, got, started, k - 1)
  {
    hide Unconfused, ConfusedBefore, VisibleGaps, Confused, Gap;
    NoneBefore(sizes, got, started);
    UnconfusedStep(sizes, got, started, k - 1);
    var before := Unconfused(sizes, got, started, k - 1);
    NextNotConfused(sizes, got, started, k - 1);
    if k == 1 {
      GapsMore(before, got[0]);
    } else {
      LosslessGaps(sizes, got, started, k - 1);
      UnconfusedStep(sizes, got, started, k - 2);
      GapsMore(before, got[k - 1]);
    }
  }

  lemma NoneBefore(sizes: seq<nat>, got: seq<nat>, started: bool)
    requires Among(got, sizes)
    ensures Unconfused(sizes, got, started, 0) == [] && ConfusedBefore(sizes, got, started, 0) == 0
    ensures VisibleGaps([]) == 0
  {
  }

  lemma UnconfusedStep(sizes: seq<nat>, got: seq<nat>, started: bool, k: nat)
    requires k < |got| && Among(got, sizes)
    ensures Unconfused(sizes, got, started, k + 1) ==
      if Confused(sizes, got, started, k) then Unconfused(sizes, got, started, k)
      else Unconfused(sizes, got, started, k) + [got[k]]
    ensures ConfusedBefore(sizes, got, started, k + 1) ==
      ConfusedBefore(sizes, got, started, k) + if Confused(sizes, got, started, k) then 1 else 0
  {
    hide Confused;
  }

  lemma GapsMore(seen: seq<nat>, k: nat)
    ensures
      var next: int := if seen == [] then 0 else seen[|seen| - 1] + 1;
      VisibleGaps(seen + [k]) == VisibleGaps(seen) + if (k - next) % 256 != 0 then 1 else 0
  {
    hide Gap, VisibleGaps;
    GapOf(seen, k);
    GapsStep(seen + [k]);
    assert (seen + [k])[..|seen|] == seen;
  }

  lemma GapsStep(seen: seq<nat>)
    requires seen != []
    ensures VisibleGaps(seen) ==
      VisibleGaps(seen[..|seen| - 1]) + if Gap(seen, |seen| - 1) % 256 != 0 then 1 else 0
  {
    hide Gap;
  }

  lemma GapOf(seen: seq<nat>, k: nat)
    ensures
      var next: int := if seen == [] then 0 else seen[|seen| - 1] + 1;
      Gap(seen + [k], |seen|) == k - next
  {
  }

  /** Nothing lost: the first packet is not confused, and of two in a row not both are. */
  lemma NextNotConfused(sizes: seq<nat>, got: seq<nat>, started: bool, k: nat)
    requires Lossless(got, |sizes|) && k < |sizes|
    ensures Confused(sizes, got, started, k) ==> k > 0 && !Confused(sizes, got, started, k - 1)
  {
  }

  /**
   * With nothing lost and no packet empty there should be no report; there is one for every confused packet
   * that is not the last.
   */
  lemma LosslessReports(sizes: seq<nat>, got: seq<nat>, started: bool, buflen: nat)
    requires buflen >= MIN_UDP_LEN && sizes != [] && Lossless(got, |sizes|)
    requires forall k :: 0 <= k < |sizes| ==> sizes[k] > 0
    ensures ReportsOf(StartBuffer(buflen, started), PatternPackets(sizes), got) ==
      ConfusedBefore(sizes, got, started, |sizes| - 1)
  {
    hide StartBuffer, PatternPackets, VisibleGaps, Unconfused, ConfusedBefore, ReportsOf, Confused;
    PatternReports(sizes, got, started, buflen);
    assert FirstEmpty(sizes, got, 0) == |sizes| by { NoneEmpty(sizes, got, 0); }
    LosslessGaps(sizes, got, started, |sizes|);
  }

  lemma NoneEmpty(sizes: seq<nat>, got: seq<nat>, i: nat)
    requires i <= |got| && Among(got, sizes) && forall k :: 0 <= k < |sizes| ==> sizes[k] > 0
    ensures FirstEmpty(sizes, got, i) == |got|
    decreases |got| - i
  {
  }

  /** Packets of two or more bytes that fit are always clean, whatever is lost. */
  lemma LargePacketsAreClean(sizes: seq<nat>, got: seq<nat>, started: bool, buflen: nat)
    requires buflen >= MIN_UDP_LEN && Among(got, sizes)
    requires forall k :: 0 <= k < |sizes| ==> 2 <= sizes[k] <= buflen
    ensures CleanFrom(StartBuffer(buflen, started), PatternPackets(sizes), got, 0)
  {
    hide CleanFrom;
    PatternIsClean(sizes, got, started, buflen);
    forall j | 0 <= j < |got|
      ensures !Confused(sizes, got, started, j)
    {
      assert sizes[got[j]] >= 2;
    }
  }

  // ------------------------------------------------------------------
  // Runs that are miscounted
  // ------------------------------------------------------------------

  function All(n: nat): (keep: seq<bool>)
    ensures |keep| == n
  {
    seq(n, _ => true)
  }

  lemma AllKept(n: nat)
    ensures CountTrue(All(n + 6)[..2]) > 0 && CountTrue(All(n + 6)[n + 2..]) > 0
    ensures All(n + 6)[2..n + 2] == All(n)
  {
    var keep := All(n + 6);
    assert keep[..2][0] && keep[n + 2..][0];
  }

  lemma {:induction false} AllKeptAt(n: nat, base: nat)
    ensures |KeptAt(All(n), base)| == n
    ensures forall i :: 0 <= i < n ==> KeptAt(All(n), base)[i] == base + i
  {
    if n == 0 {
    } else {
      assert All(n)[1..] == All(n - 1);
      AllKeptAt(n - 1, base + 1);
    }
  }

  /** Two data packets of one byte each, nothing lost, a whole end packet: miscounted. */
  lemma OneByteRunMiscounts()
    ensures
      !Accurate(Loop(Initial(8, []), Kept(Sent(PatternPackets([1, 1])), All(8))), PatternPackets([1, 1]), [0, 1])
  {
    hide Loop, Kept, Sent, Initial, Accurate, CleanFrom, PatternPacket, CountTrue;
    var sizes, datas := [1, 1], PatternPackets([1, 1]);
    AllKept(2);
    AllKeptAt(2, 0);
    assert KeptAt(All(2), 0) == [0, 1];
    Accounting(datas, All(8), 8, []);
    PatternIsClean(sizes, [0, 1], true, 8);
    assert Confused(sizes, [0, 1], true, 1);
  }

  /** One data packet of five bytes, nothing lost, in a buffer of five bytes with zeros behind it: miscounted. */
  lemma ShortBufferMiscounts()
    ensures
      var datas := PatternPackets([5]);
      !Accurate(Loop(Initial(5, [0, 0, 0]), Kept(Sent(datas), All(7))), datas, [0])
  {
    hide Loop, Kept, Sent, Initial, Accurate, CleanFrom, PatternPacket, CountTrue;
    AllKept(1);
    AllKeptAt(1, 0);
    assert KeptAt(All(1), 0) == [0];
    Accounting(PatternPackets([5]), All(7), 5, [0, 0, 0]);
    assert BigEndian32(1)[1..][2] == 1;
  }

  /** Three data packets of one byte, nothing lost: one out-of-sequence report where there is no gap. */
  lemma OneByteRunReportsGap()
    ensures
      var last := Loop(Initial(8, []), Kept(Sent(PatternPackets([1, 1, 1])), All(9)));
      last.reports == 1 && VisibleGaps([0, 1, 2]) == 0
  {
    hide Loop, Kept, Sent, Initial, PatternPackets, CountTrue, ReportsOf, StartBuffer, ConfusedBefore, VisibleGaps;
    var sizes, got := [1, 1, 1], [0, 1, 2];
    PacketsAreNumbered(_ => 0, sizes);
    AllKept(3);
    AllKeptAt(3, 0);
    assert KeptAt(All(3), 0) == got;
    SequenceAccounting(PatternPackets(sizes), All(9), 8, []);
    LosslessReports(sizes, got, true, 8);
    OneConfused();
    NoGaps();
  }

  lemma OneConfused()
    ensures ConfusedBefore([1, 1, 1], [0, 1, 2], true, 2) == 1
  {
    assert ConfusedBefore([1, 1, 1], [0, 1, 2], true, 1) == 0;
  }

  lemma NoGaps()
    ensures VisibleGaps([0, 1, 2]) == 0
  {
    hide VisibleGaps;
    GapsMore([0, 1], 2);
    GapsMore([0], 1);
    GapsMore([], 0);
    NoneBefore([], [], false);
    assert [0, 1] + [2] == [0, 1, 2] && [0] + [1] == [0, 1] && [] + [0] == [0];
  }

  /** One data packet of 20 bytes in a buffer of 8: bytes are missing, and still the reports are right. */
  lemma LongPacketReportsRight()
    ensures
      var datas := PatternPackets([20]);
      var last := Loop(Initial(8, []), Kept(Sent(datas), All(7)));
      last.reports == VisibleGaps([0]) && !Accurate(last, datas, [0])
  {
    hide Loop, Kept, Sent, Initial, Accurate, CleanFrom, PatternPacket, CountTrue, StartBuffer, VisibleGaps;
    var sizes, datas := [20], PatternPackets([20]);
    PacketsAreNumbered(_ => 0, sizes);
    AllKept(1);
    AllKeptAt(1, 0);
    assert KeptAt(All(1), 0) == [0];
    SequenceAccounting(datas, All(7), 8, []);
    PatternKind(sizes, [0], true, 8, 0);
    ReportsAreRight(StartBuffer(8, true), datas, [0]);
    Accounting(datas, All(7), 8, []);
    PatternIsClean(sizes, [0], true, 8);
  }

  /** The start and end packets on the wire; the default count is 2048 (line 326). */
  lemma ExamplePackets()
    ensures Sent([])[0] == [1, 2, 3, 4] && Sent([])[5] == [2, 2, 2, 2, 0, 0, 0, 0]
    ensures EndPacket(2048) == [2, 2, 2, 2, 0, 0, 8, 0]
    ensures PatternPacket(257, 4) == [1, 33, 34, 35]
  {
    assert BigEndian32(2048) == [0, 0, 8, 0] && BigEndian32(0) == [0, 0, 0, 0];
  }

  /** Two bytes of a random body, low-order byte first, are the low 16 bits of one random number. */
  lemma RandomPair(random: nat -> nat, at: nat, i: nat)
    ensures
      var lo: int, hi: int := RandomByte(random, at, 2 * i), RandomByte(random, at, 2 * i + 1);
      lo + 0x100 * hi == random(at + i) % 0x1_0000
  {
    HalfOf(i);
    LowTwoBytes(random(at + i));
  }

  lemma HalfOf(i: nat)
    ensures (2 * i) / 2 == i && (2 * i + 1) / 2 == i && (2 * i) % 2 == 0 && (2 * i + 1) % 2 == 1
  {
  }

  lemma LowTwoBytes(n: nat)
    ensures n / 1 % 0x100 + 0x100 * (n / 0x100 % 0x100) == n % 0x1_0000
  {
    var m := n / 0x100;
    var q, r := m / 0x100, m % 0x100;
    LowOf(q, 0x100 * r + n % 0x100);
    assert n == 0x1_0000 * q + (0x100 * r + n % 0x100);
  }

  lemma LowOf(q: nat, r: nat)
    requires r < 0x1_0000
    ensures (0x1_0000 * q + r) % 0x1_0000 == r
  {
  }

  /** One packet before a confused one, and one after it: of three bytes only the last one counts. */
  lemma StartRestartsBytes()
    ensures
      var datas := PatternPackets([1, 1, 1]);
      Loop(Initial(8, []), Kept(Sent(datas), All(9))).nbytes == 1
  {
    hide Loop, Kept, Sent, Initial, PatternPackets, CountTrue, StartBuffer, KindAt, Confused, SinceStart, Seen;
    hide StartsSeen, StopAt, VisibleGaps;
    var sizes, got := [1, 1, 1], [0, 1, 2];
    var datas := PatternPackets(sizes);
    PacketsAreNumbered(_ => 0, sizes);
    AllKept(3);
    AllKeptAt(3, 0);
    assert KeptAt(All(3), 0) == got;
    CounterAccounting(datas, All(9), 8, []);
    PatternStops(sizes, got, true, 8, 0);
    NoneEmpty(sizes, got, 0);
    PatternKind(sizes, got, true, 8, 1);
    PatternKind(sizes, got, true, 8, 2);
    OnlySecondConfused();
    LastSinceStart(StartBuffer(8, true), datas, got, 3);
    assert |datas[2]| == 1 by { LastHasOne(); }
  }

  lemma LastHasOne()
    ensures |PatternPackets([1, 1, 1])[2]| == 1
  {
  }

  /** A data packet right after a start packet: its bytes alone. */
  lemma LastSinceStart(buf: Packet, datas: seq<Packet>, got: seq<nat>, k: nat)
    requires |buf| >= MIN_UDP_LEN && 2 <= k <= |got| && Among(got, datas)
    requires KindAt(buf, datas, got, k - 2) == StartPkt && KindAt(buf, datas, got, k - 1) == DataPkt
    ensures SinceStart(buf, datas, got, k) == Clipped(|datas[got[k - 1]]|, |buf|)
  {
    hide KindAt;
  }

  lemma OnlySecondConfused()
    ensures Confused([1, 1, 1], [0, 1, 2], true, 1) && !Confused([1, 1, 1], [0, 1, 2], true, 2)
  {
  }

  /** The second data packet's random bytes make it a start packet, nothing lost: miscounted. */
  lemma RandomRunMiscounts()
    ensures
      var datas := RandomPackets(i => if i == 2 then 0x302 else 4, [5, 5]);
      !Accurate(Loop(Initial(8, []), Kept(Sent(datas), All(8))), datas, [0, 1])
  {
    hide Loop, Kept, Sent, Initial, Accurate, CleanFrom, CountTrue, StartBuffer;
    var random: nat -> nat := i => if i == 2 then 0x302 else 4;
    var datas := RandomPackets(random, [5, 5]);
    AllKept(2);
    AllKeptAt(2, 0);
    assert KeptAt(All(2), 0) == [0, 1];
    Accounting(datas, All(8), 8, []);
    assert Drawn([5, 5], 1) == 2;
    assert datas[1][..4] == START_PATTERN;
    SecondIsStart(StartBuffer(8, true), datas);
  }

  lemma SecondIsStart(buf: Packet, datas: seq<Packet>)
    requires |buf| == 8 && |datas| == 2 && |datas[1]| == 5 && datas[1][..4] == START_PATTERN
    ensures !CleanFrom(buf, datas, [0, 1], 0)
  {
    var after := BufferAfter(buf, datas, [0, 1], 2);
    assert after[..4] == datas[1][..4];
    assert !IsClean(buf, datas, [0, 1], 1);
  }
}

/** The sender and the receiver as they run. */
module Ttcp {
  import opened TtcpProtocol

  /** pattern: fill a buffer with printable characters, skipping the others. */
  method Pattern(buf: array<Byte>, cnt: nat)
    requires cnt <= buf.Length
    modifies buf
    ensures buf[..cnt] == Filled(cnt)
  {
    hide Filler;
    var c: int := 0;
    FillerStarts();
    for p := 0 to cnt
      invariant 0 <= c < 256 && if p == 0 then c == 0 else c % 128 == Filler(p - 1) + 1
      invariant forall i :: 0 <= i < p ==> buf[i] == Filler(i)
    {
      if p > 0 {
        FillerStep(p - 1);
      }
      while !(32 <= c % 128 <= 126)
        modifies {}
        invariant 0 <= c < 256
        invariant if Filler(p) == 32 then c % 128 == 127 || c % 128 <= 32 else c % 128 == Filler(p)
        invariant 32 <= Filler(p) <= 126
        decreases if c % 128 == 127 then 128 else 127 - c % 128
      {
        NextChar(c);
        c := (c + 1) % 256;
      }
      buf[p] := c % 128;
      NextChar(c);
      c := (c + 1) % 256;
    }
  }

  lemma FillerStarts()
    ensures Filler(0) == 32
  {
  }

  lemma FillerStep(i: nat)
    ensures 32 <= Filler(i) <= 126 && 32 <= Filler(i + 1) <= 126
    ensures Filler(i + 1) == if Filler(i) == 126 then 32 else Filler(i) + 1
  {
  }

  /** The low seven bits of the next character. */
  lemma NextChar(c: nat)
    requires c < 256
    ensures (c + 1) % 256 % 128 == if c % 128 == 127 then 0 else c % 128 + 1
  {
  }

  /** The data packets of a run, with a preloaded or a random body. */
  function DataPackets(sizes: seq<nat>, rndm: bool, random: nat -> nat): (ps: seq<Packet>)
    ensures |ps| == |sizes|
  {
    if rndm then RandomPackets(random, sizes) else PatternPackets(sizes)
  }

  /** The loop that puts the low two bytes of random numbers behind the sequence number. */
  method FillRandomly(buf: array<Byte>, rbuflen: nat, random: nat -> nat, at: nat) returns (next: nat)
    requires 0 < buf.Length && rbuflen <= buf.Length
    modifies buf
    ensures next == at + rbuflen / 2
    ensures buf[0] == old(buf[0])
    ensures forall i :: 1 <= i < rbuflen ==> buf[i] == RandomByte(random, at, i - 1)
  {
    next := at;
    var i := 1;
    while i < rbuflen
      invariant next >= at && (i == 1 + 2 * (next - at) || (i == rbuflen && i == 2 * (next - at)))
      invariant i <= rbuflen || next == at
      invariant buf[0] == old(buf[0])
      invariant forall k :: 1 <= k < i ==> k < buf.Length && buf[k] == RandomByte(random, at, k - 1)
    {
      var data := random(next);
      assert RandomByte(random, at, i - 1) == data % 256;
      assert RandomByte(random, at, i) == data / 256 % 256;
      next := next + 1;
      buf[i] := data % 256;
      i := i + 1;
      if i < rbuflen {
        buf[i] := data / 256 % 256;
        i := i + 1;
      }
    }
  }

  /** The UDP transmit part of main, in sinkmode: buf has been filled by Pattern; random gives the random numbers. */
  method Transmit(buf: array<Byte>, sizes: seq<nat>, rndm: bool, random: nat -> nat) returns (sent: seq<Packet>)
    requires buf.Length > 0 && buf[..] == Filled(buf.Length)
    requires forall k :: 0 <= k < |sizes| ==> sizes[k] <= buf.Length
    modifies buf
    ensures sent == Sent(DataPackets(sizes, rndm, random))
  {
    hide PatternPacket, RandomPacket, Filler, RandomByte, Drawn;
    ghost var datas := DataPackets(sizes, rndm, random);
    sent := [];
    var startCount := 2;
    while startCount > 0
      invariant 0 <= startCount <= 2 && sent == Copies(START_PATTERN, 2 - startCount)
    {
      sent := sent + [START_PATTERN];
      startCount := startCount - 1;
    }

    // the first data packet has number 0
    buf[0] := 0;
    var k, at := 0, 0;
    NothingDrawn(sizes);
    while k < |sizes|
      invariant k <= |sizes|
      invariant at == if rndm then Drawn(sizes, k) else 0
      invariant buf[0] == k % 256
      invariant !rndm ==> forall i :: 0 < i < buf.Length ==> buf[i] == Filler(i)
      invariant sent == Copies(START_PATTERN, 2) + datas[..k]
    {
      ghost var from := at;
      if rndm {
        at := FillRandomly(buf, sizes[k], random, at);
        PrefixIsRandom(buf[..], random, from, k, sizes[k]);
        MoreDrawn(sizes, k);
      } else {
        PrefixIsPattern(buf[..], k, sizes[k]);
      }
      assert buf[..][..sizes[k]] == buf[..sizes[k]];
      assert datas[..k + 1] == datas[..k] + [buf[..sizes[k]]];
      sent := sent + [buf[..sizes[k]]];
      SuccModulo(k);
      var seqNo: int := buf[0];
      buf[0] := (seqNo + 1) % 256;
      k := k + 1;
    }
    assert datas[..k] == datas;

    var endPkt := MakeEndPacket(|sizes|);
    var endCount := 4;
    while endCount > 0
      invariant 0 <= endCount <= 4
      invariant sent == Copies(START_PATTERN, 2) + datas + Copies(EndPacket(|sizes|), 4 - endCount)
    {
      sent := sent + [endPkt];
      endCount := endCount - 1;
    }
  }

  /** The end pattern, then the number of data packets, low-order byte last. */
  method MakeEndPacket(nbuf: nat) returns (p: Packet)
    ensures p == EndPacket(nbuf)
  {
    var endPkt := new Byte[END_PKT_LEN](i requires 0 <= i < END_PKT_LEN => if i < 4 then END_PATTERN[i] else 0);
    var dataCount := nbuf;
    endPkt[7] := dataCount % 256;
    dataCount := dataCount / 256;
    endPkt[6] := dataCount % 256;
    dataCount := dataCount / 256;
    endPkt[5] := dataCount % 256;
    dataCount := dataCount / 256;
    endPkt[4] := dataCount % 256;
    ShiftTwice(nbuf);
    p := endPkt[..];
  }

  lemma NothingDrawn(sizes: seq<nat>)
    ensures Drawn(sizes, 0) == 0
  {
  }

  lemma MoreDrawn(sizes: seq<nat>, k: nat)
    requires k < |sizes|
    ensures Drawn(sizes, k + 1) == Drawn(sizes, k) + sizes[k] / 2
  {
  }

  lemma PrefixIsPattern(buf: Packet, k: nat, m: nat)
    requires m <= |buf| && (|buf| > 0 ==> buf[0] == k % 256)
    requires forall i :: 0 < i < |buf| ==> buf[i] == Filler(i)
    ensures buf[..m] == PatternPacket(k, m)
  {
  }

  lemma PrefixIsRandom(buf: Packet, random: nat -> nat, at: nat, k: nat, m: nat)
    requires m <= |buf| && (|buf| > 0 ==> buf[0] == k % 256)
    requires forall i :: 1 <= i < m ==> buf[i] == RandomByte(random, at, i - 1)
    ensures buf[..m] == RandomPacket(random, at, k, m)
  {
  }

  lemma ShiftTwice(n: nat)
    ensures n / 0x100 / 0x100 == n / 0x1_0000 && n / 0x100 / 0x100 / 0x100 == n / 0x100_0000
  {
  }

  /** udp_rcv_test and the variables it works on. */
  class UdpReceiver {
    const buf: array<Byte>
    /** What the memory holds behind the buffer. */
    const beyond: seq<Byte>
    var rcvState: Phase
    var startPktCnt: nat
    var endPktCnt: nat
    var dataPktCnt: nat
    var expectedPktCnt: nat
    var seqNo: Byte
    var reports: nat
    var nbytes: nat

    function Snapshot(): Receiver
      reads this, buf
    {
      Receiver(rcvState, buf[..], beyond, startPktCnt, endPktCnt, dataPktCnt, expectedPktCnt, seqNo, reports, nbytes)
    }

    constructor (buflen: nat, beyond: seq<Byte>)
      ensures buf.Length == buflen && fresh(buf) && this.beyond == beyond
      ensures Snapshot() == Initial(buflen, beyond)
    {
      buf, this.beyond := new Byte[buflen], beyond;
      rcvState, startPktCnt, endPktCnt, dataPktCnt, expectedPktCnt := StartWait, 0, 0, 0, 0;
      seqNo, reports, nbytes := 0, 0, 0;
      new;
      Pattern(buf, buflen);
      assert buf[..] == buf[..buflen];
    }

    /** Nread: what fits of the next packet goes to the front of the buffer. */
    method Nread(p: Packet) returns (cnt: nat)
      modifies buf
      ensures buf[..] == Overlay(old(buf[..]), p)
      ensures cnt == if |p| <= buf.Length then |p| else buf.Length
    {
      cnt := if |p| <= buf.Length then |p| else buf.Length;
      forall i | 0 <= i < cnt {
        buf[i] := p[i];
      }
    }

    /** The body of the receive loop, once cnt bytes have been read. */
    method Handle(cnt: nat, ghost before: Receiver, ghost p: Packet)
      requires before.Readable() && |before.buf| == buf.Length
      requires Snapshot() == before.(buf := Overlay(before.buf, p))
      requires cnt == (if |p| <= buf.Length then |p| else buf.Length)
      requires rcvState != EndTest
      modifies this
      ensures Snapshot() == Receive(before, p)
    {
      var pktType;
      if buf[..4] == START_PATTERN {
        pktType := StartPkt;
        startPktCnt := startPktCnt + 1;
      } else if buf[..4] == END_PATTERN {
        expectedPktCnt := CountRead(buf[..], beyond);
        pktType := EndPkt;
        endPktCnt := endPktCnt + 1;
      } else {
        dataPktCnt := dataPktCnt + 1;
        pktType := DataPkt;
      }

      if rcvState == StartWait {
        if pktType == StartPkt {
          rcvState := DataWait;
        } else if pktType == DataPkt {
          rcvState := DataRcv;
        } else if pktType == EndPkt {
          rcvState := EndTest;
        }
      } else if rcvState == DataWait {
        if pktType == StartPkt {
        } else if pktType == DataPkt {
          rcvState := DataRcv;
        } else if pktType == EndPkt {
          rcvState := EndTest;
        }
      } else {
        if pktType == StartPkt {
          nbytes := 0;
          rcvState := DataWait;
        } else if pktType == DataPkt {
        } else if pktType == EndPkt {
          rcvState := EndTest;
        }
      }

      if pktType == DataPkt {
        nbytes := nbytes + cnt;
        var bufSeq := buf[0];
        if bufSeq != seqNo {
          reports := reports + 1;
          seqNo := bufSeq;
        }
        seqNo := (seqNo + 1) % 256;
      }
      assert buf[..][..4] == buf[..4];
    }

    /** The whole test over the packets that arrive. */
    method Test(packets: seq<Packet>)
      requires buf.Length >= MIN_UDP_LEN && buf.Length + |beyond| >= END_PKT_LEN
      requires Snapshot() == Initial(buf.Length, beyond)
      modifies this, buf
      ensures Snapshot() == Loop(Initial(buf.Length, beyond), packets)
    {
      hide Receive, Initial, Overlay;
      var next := 0;
      assert packets[0..] == packets;
      while rcvState != EndTest && next < |packets|
        invariant next <= |packets|
        invariant Loop(Snapshot(), packets[next..]) == Loop(Initial(buf.Length, beyond), packets)
      {
        ghost var before, p := Snapshot(), packets[next];
        assert packets[next..][0] == p && packets[next..][1..] == packets[next + 1..];
        if p == [] {
          LoopStops(before, packets[next..]);
        }
        var cnt := Nread(packets[next]);
        if cnt == 0 {
          assert buf[..] == before.buf by { OverlayNothing(before.buf); }
          return;
        }
        Handle(cnt, before, p);
        next := next + 1;
      }
    }
  }

  lemma OverlayNothing(buf: Packet)
    ensures Overlay(buf, []) == buf
  {
  }

  lemma LoopStops(r: Receiver, ps: seq<Packet>)
    requires r.Readable() && ps != [] && ps[0] == []
    ensures Loop(r, ps) == r
  {
  }

  // ------------------------------------------------------------------
  // Random buffer lengths
  // ------------------------------------------------------------------

  /** The buffer length drawn for a 16-bit random number, in 32-bit arithmetic. */
  function DrawLength(draw: nat, bufmin: nat, buflen: nat): (length: nat)
    requires draw < 0x1_0000 && bufmin <= buflen <= 65535
    ensures draw * (buflen - bufmin + 1) < 0x1_0000_0000
    ensures bufmin <= length <= buflen
  {
    var k := buflen - bufmin + 1;
    ProductFits(draw, k);
    draw * k % 0x1_0000_0000 / 0x1_0000 + bufmin
  }

  lemma ProductFits(draw: nat, k: nat)
    requires draw < 0x1_0000 && 0 < k <= 0x1_0000
    ensures draw * k < 0x1_0000 * k <= 0x1_0000_0000
  {
  }

  /** The least draw that gives a length of at least bufmin + v. */
  function FirstDraw(v: nat, k: nat): nat
    requires k > 0
  {
    (v * 0x1_0000 + k - 1) / k
  }

  lemma DivBounds(n: nat, d: nat, q: nat)
    requires d > 0
    ensures q <= n / d <==> q * d <= n
  {
    if q * d <= n {
      assert q * d <= n == (n / d) * d + n % d < (n / d + 1) * d;
      MulLess(q, n / d + 1, d);
    } else {
      assert (n / d) * d <= n < q * d;
      MulLess(n / d, q, d);
    }
  }

  lemma MulLess(a: int, b: int, d: nat)
    requires d > 0 && a * d < b * d
    ensures a < b
  {
  }

  /** A draw gives length bufmin + v or more exactly from the first such draw on. */
  lemma DrawReaches(draw: nat, v: nat, k: nat)
    requires k > 0
    ensures v <= draw * k / 0x1_0000 <==> FirstDraw(v, k) <= draw
  {
    DivBounds(draw * k, 0x1_0000, v);
    DivBounds(v * 0x1_0000 + k - 1, k, draw + 1);
    assert (draw + 1) * k == draw * k + k;
  }

  function DrawsGiving(length: nat, bufmin: nat, buflen: nat): set<nat>
    requires bufmin <= buflen <= 65535
  {
    set draw: nat | draw < 0x1_0000 && DrawLength(draw, bufmin, buflen) == length
  }

  function Interval(lo: nat, hi: nat): (s: set<nat>)
    ensures forall x :: x in s <==> lo <= x < hi
    ensures lo <= hi ==> |s| == hi - lo
    decreases hi
  {
    if lo >= hi then {} else Interval(lo, hi - 1) + {hi - 1}
  }

  /** Adding d = q * k + r to a dividend adds q to the quotient, and one more at most when r is not 0. */
  lemma QuotientGrows(x: nat, k: nat, q: nat, r: nat)
    requires 0 < k && r < k
    ensures
      var grown := (x + q * k + r) / k - x / k;
      grown == q || (r > 0 && grown == q + 1)
  {
    var y, e := x / k, x % k;
    assert x == y * k + e;
    Distribute(y, q, k);
    Distribute(y + q, 1, k);
    Distribute(y + q + 1, 1, k);
    DivIs(x + q * k + r, k, if e + r < k then y + q else y + q + 1);
  }

  lemma Distribute(a: int, b: int, k: int)
    ensures (a + b) * k == a * k + b * k
  {
  }

  lemma DivIs(n: nat, k: nat, d: nat)
    requires k > 0 && d * k <= n < (d + 1) * k
    ensures n / k == d
  {
    DivBounds(n, k, d);
    DivBounds(n, k, d + 1);
  }

  lemma FirstDrawGrows(v: nat, k: nat)
    requires k > 0
    ensures
      var count := FirstDraw(v + 1, k) - FirstDraw(v, k);
      count == 0x1_0000 / k || (0x1_0000 % k > 0 && count == 0x1_0000 / k + 1)
  {
    var q, r := 0x1_0000 / k, 0x1_0000 % k;
    assert 0x1_0000 == q * k + r;
    QuotientGrows(v * 0x1_0000 + k - 1, k, q, r);
    assert (v + 1) * 0x1_0000 + k - 1 == v * 0x1_0000 + k - 1 + q * k + r;
  }

  /**
   * The drawn lengths are as even as 65536 draws over k lengths can be: every length from bufmin to
   * buflen comes from the quotient 65536 / k draws, rounded down or, unless k divides 65536, up.
   */
  lemma DrawsAreEven(length: nat, bufmin: nat, buflen: nat)
    requires bufmin <= length <= buflen <= 65535
    ensures
      var k, count := buflen - bufmin + 1, |DrawsGiving(length, bufmin, buflen)|;
      count == 0x1_0000 / k || (0x1_0000 % k > 0 && count == 0x1_0000 / k + 1)
  {
    hide FirstDraw, DrawLength, DrawsGiving;
    FirstDrawGrows(length - bufmin, buflen - bufmin + 1);
    DrawsAreInterval(length, bufmin, buflen);
  }

  lemma DrawsAreInterval(length: nat, bufmin: nat, buflen: nat)
    requires bufmin <= length <= buflen <= 65535
    ensures
      var k, v := buflen - bufmin + 1, length - bufmin;
      |DrawsGiving(length, bufmin, buflen)| == FirstDraw(v + 1, k) - FirstDraw(v, k) >= 0
  {
    hide FirstDraw, DrawsGiving;
    var k, v := buflen - bufmin + 1, length - bufmin;
    FirstDrawOrdered(v, k);
    forall draw: nat
      ensures draw in DrawsGiving(length, bufmin, buflen) <==> FirstDraw(v, k) <= draw < FirstDraw(v + 1, k)
    {
      DrawIsGiven(draw, length, bufmin, buflen);
    }
    IntervalCount(DrawsGiving(length, bufmin, buflen), FirstDraw(v, k), FirstDraw(v + 1, k));
  }

  /** A set of numbers that is an interval has as many members as the interval is long. */
  lemma IntervalCount(draws: set<nat>, lo: nat, hi: nat)
    requires lo <= hi && forall draw: nat :: draw in draws <==> lo <= draw < hi
    ensures |draws| == hi - lo
  {
    assert draws == Interval(lo, hi);
  }

  lemma DrawIsGiven(draw: nat, length: nat, bufmin: nat, buflen: nat)
    requires bufmin <= length <= buflen <= 65535
    ensures
      var k, v := buflen - bufmin + 1, length - bufmin;
      draw in DrawsGiving(length, bufmin, buflen) <==> FirstDraw(v, k) <= draw < FirstDraw(v + 1, k)
  {
    hide FirstDraw, DrawLength;
    LastDraw(length - bufmin + 1, buflen - bufmin + 1);
    if draw < 0x1_0000 {
      DrawGives(draw, length, bufmin, buflen);
    }
  }

  lemma FirstDrawOrdered(v: nat, k: nat)
    requires k > 0
    ensures FirstDraw(v, k) <= FirstDraw(v + 1, k)
  {
    FirstDrawGrows(v, k);
  }

  lemma LastDraw(v: nat, k: nat)
    requires v <= k && k > 0
    ensures FirstDraw(v, k) <= 0x1_0000
  {
    DrawReaches(0x1_0000, v, k);
  }

  lemma DrawGives(draw: nat, length: nat, bufmin: nat, buflen: nat)
    requires draw < 0x1_0000 && bufmin <= length <= buflen <= 65535
    ensures
      var k, v := buflen - bufmin + 1, length - bufmin;
      DrawLength(draw, bufmin, buflen) == length <==> FirstDraw(v, k) <= draw < FirstDraw(v + 1, k)
  {
    hide FirstDraw, DrawLength;
    var k, v := buflen - bufmin + 1, length - bufmin;
    DrawIs(draw, bufmin, buflen);
    DrawReaches(draw, v, k);
    DrawReaches(draw, v + 1, k);
  }

  /** The 32-bit product is the product. */
  lemma DrawIs(draw: nat, bufmin: nat, buflen: nat)
    requires draw < 0x1_0000 && bufmin <= buflen <= 65535
    ensures DrawLength(draw, bufmin, buflen) == draw * (buflen - bufmin + 1) / 0x1_0000 + bufmin
  {
    ProductFits(draw, buflen - bufmin + 1);
  }
}
