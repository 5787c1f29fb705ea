/**
  Packet stamping and loss accounting of the VANET experiment (scratch/MyVanet.cc). The network is
  any deliverer of packets that were sent: it may delay, drop, reorder and repeat them.
*/
module Vanet {
  import opened Seqs

  type byte = b: nat | b < 256

  const TIME_LIMIT: nat := 0x8000_0000_0000_0000

  const BUCKETS := 100

  /** The key under which a packet is logged. */
  datatype PacketLog = PacketLog(src: int, dst: int, time: int)

  /** Lines 65-85: the comparison by which the log finds its keys. */
  predicate Less(a: PacketLog, b: PacketLog) {
    if a.src < b.src then true
    else if a.src == b.src then
      if a.dst < b.dst then true else if a.dst == b.dst then a.time < b.time else false
    else false
  }

  /**
    It is a strict total order by source first, then by destination and then by time, and keys that it does
    not tell apart are equal: the log is a map.
  */
  lemma LessIsTotalOrder(a: PacketLog, b: PacketLog, c: PacketLog)
    ensures !Less(a, a)
    ensures Less(a, b) && Less(b, c) ==> Less(a, c)
    ensures !Less(a, b) && !Less(b, a) <==> a == b
    ensures a.src < b.src ==> Less(a, b)
    ensures a.src == b.src && a.dst < b.dst ==> Less(a, b)
  {
  }

  // ------------------------------------------------------------------------- stamp codec

  function Pow256(n: nat): (p: nat)
    ensures p > 0
  {
    if n == 0 then 1 else 256 * Pow256(n - 1)
  }

  /** The number that bytes denote, least significant first. */
  function LowFirst(bytes: seq<byte>): nat {
    if bytes == [] then 0 else bytes[0] + 256 * LowFirst(bytes[1..])
  }

  /** The lowest n bytes of a time. */
  function TimeBytes(time: nat, n: nat): seq<byte> {
    if n == 0 then [] else [time % 256] + TimeBytes(time / 256, n - 1)
  }

  lemma {:induction false} TimeBytesRead(time: nat, n: nat)
    requires time < Pow256(n)
    ensures |TimeBytes(time, n)| == n && LowFirst(TimeBytes(time, n)) == time
  {
    if n > 0 {
      TimeBytesRead(time / 256, n - 1);
      assert TimeBytes(time, n)[1..] == TimeBytes(time / 256, n - 1);
    }
  }

  lemma DivideTwice(a: nat, p: nat)
    requires p > 0
    ensures a / 256 / p == a / (256 * p)
  {
    var q, r := a / 256 / p, a / 256 % p;
    assert a == 256 * (q * p + r) + a % 256;
    assert a == q * (256 * p) + (256 * r + a % 256);
    Quotient(a, 256 * p, q, 256 * r + a % 256);
  }

  lemma Quotient(a: nat, d: nat, q: nat, r: nat)
    requires a == q * d + r && r < d
    ensures a / d == q
  {
    var k, s := a / d, a % d;
    assert a == k * d + s;
    assert (k - q) * d == k * d - q * d && (q - k) * d == q * d - k * d;
    if k > q {
      AtLeastOnce(k - q, d);
    } else if k < q {
      AtLeastOnce(q - k, d);
    }
  }

  lemma {:induction false} AtLeastOnce(k: nat, d: nat)
    requires k >= 1
    ensures k * d >= d
  {
    if k > 1 {
      AtLeastOnce(k - 1, d);
      assert k * d == (k - 1) * d + d;
    }
  }

  /** Byte i of a time is its i-th digit to the base 256. */
  lemma {:induction false} TimeByteAt(time: nat, n: nat, i: nat)
    requires i < n
    ensures |TimeBytes(time, n)| == n && TimeBytes(time, n)[i] == time / Pow256(i) % 256
  {
    if i > 0 {
      TimeByteAt(time / 256, n - 1, i - 1);
      DivideTwice(time, Pow256(i - 1));
    } else if n > 1 {
      TimeByteAt(time / 256, n - 1, 0);
    }
  }

  lemma SourceBytes(src: nat)
    ensures src % 65536 / 256 == src / 256 % 256 && src % 65536 % 256 == src % 256
  {
  }

  /** The bytes of a stamp: the time from its lowest byte up, then the source from its higher byte down. */
  lemma StampBytes(src: nat, time: nat)
    ensures |Stamped(src, time)| == 10
    ensures forall i :: 0 <= i < 8 ==> Stamped(src, time)[i] == time / Pow256(i) % 256
    ensures Stamped(src, time)[8] == src / 256 % 256 && Stamped(src, time)[9] == src % 256
  {
    TimeByteAt(time, 8, 0);
    SourceBytes(src);
    forall i | 0 <= i < 8 ensures Stamped(src, time)[i] == time / Pow256(i) % 256 {
      TimeByteAt(time, 8, i);
    }
  }

  lemma Pow256Of8()
    ensures TIME_LIMIT < Pow256(8)
  {
    assert Pow256(2) == 256 * Pow256(1) == 65536;
    assert Pow256(4) == 256 * Pow256(3) == 65536 * Pow256(2) == 4294967296;
    assert Pow256(6) == 256 * Pow256(5) == 65536 * Pow256(4);
    assert Pow256(8) == 256 * Pow256(7) == 65536 * Pow256(6);
  }

  /** Two bytes as a 16-bit number. */
  function Word(high: nat, low: nat): nat {
    256 * high + low
  }

  /** The ten bytes at the head of every packet: the time, low byte first, then the source, high byte first. */
  function Stamped(src: nat, time: nat): seq<byte> {
    TimeBytes(time, 8) + [src % 65536 / 256, src % 65536 % 256]
  }

  /** Lines 195-210: shift the time out byte by byte. */
  method Stamp(src: nat, time: nat) returns (buffer: seq<byte>)
    requires time < TIME_LIMIT
    ensures buffer == Stamped(src, time)
  {
    buffer := [];
    var nano := time;
    for i := 0 to 8
      invariant buffer + TimeBytes(nano, 8 - i) == TimeBytes(time, 8)
    {
      var tmp := nano / 256;
      var val := nano - tmp * 256;
      assert buffer + ([val] + TimeBytes(tmp, 7 - i)) == buffer + [val] + TimeBytes(tmp, 7 - i);
      nano := tmp;
      buffer := buffer + [val];
    }
    var sid := src % 65536;
    var tmp := sid / 256;
    buffer := buffer + [tmp, sid - tmp * 256];
  }

  /** Lines 287-299: shift the bytes back in, the highest first. */
  method Unstamp(buffer: seq<byte>) returns (src: nat, time: nat)
    requires |buffer| >= 10
    ensures time == LowFirst(buffer[..8])
    ensures src == Word(buffer[8], buffer[9])
  {
    time := 0;
    var i := 8;
    while i > 0
      invariant 0 <= i <= 8 && time == LowFirst(buffer[i..8])
    {
      i := i - 1;
      assert buffer[i..8][1..] == buffer[i + 1..8];
      time := time * 256 + buffer[i];
    }
    assert buffer[0..8] == buffer[..8];
    src := Word(buffer[8], buffer[9]);
  }

  /** Decoding gives back the stamped time always, and the source when it fits in 16 bits. */
  lemma StampRoundTrip(src: nat, time: nat)
    requires time < TIME_LIMIT
    ensures var b := Stamped(src, time);
      |b| == 10 && LowFirst(b[..8]) == time && Word(b[8], b[9]) == src % 65536
  {
    Pow256Of8();
    TimeBytesRead(time, 8);
    assert Stamped(src, time)[..8] == TimeBytes(time, 8);
  }

  method Decode(ghost src: nat, ghost time: nat, buffer: seq<byte>) returns (sid: nat, nano: nat)
    requires time < TIME_LIMIT && buffer == Stamped(src, time)
    ensures sid == src % 65536 && nano == time
  {
    StampRoundTrip(src, time);
    sid, nano := Unstamp(buffer);
  }

  // ----------------------------------------------------------------------------- the log

  /** What can happen: a packet is sent, or packet number k reaches the sink, perhaps once more. */
  datatype Happening = Sent(packet: PacketLog) | Arrived(k: nat)

  ghost function SentIn(h: seq<Happening>): seq<PacketLog> {
    if h == [] then [] else
      var init, e := h[..|h| - 1], h[|h| - 1];
      if e.Sent? then SentIn(init) + [e.packet] else SentIn(init)
  }

  ghost function ArrivedIn(h: seq<Happening>): set<nat> {
    if h == [] then {} else
      var init, e := h[..|h| - 1], h[|h| - 1];
      if e.Arrived? then ArrivedIn(init) + {e.k} else ArrivedIn(init)
  }

  ghost predicate PacketOk(p: PacketLog) {
    0 <= p.src && 0 <= p.time < TIME_LIMIT
  }

  /** Packets arrive after they were sent. */
  ghost predicate IsHistory(h: seq<Happening>) {
    h != [] ==>
      var init, e := h[..|h| - 1], h[|h| - 1];
      IsHistory(init) && if e.Sent? then PacketOk(e.packet) else e.k < |SentIn(init)|
  }

  /** The key that the receiver makes of a packet's stamp. */
  function Decoded(p: PacketLog): PacketLog {
    PacketLog(p.src % 65536, p.dst, p.time)
  }

  /** The keys in the log: a sender puts one in, a receiver takes out the one it decodes. */
  ghost function Logged(h: seq<Happening>): set<PacketLog>
    requires IsHistory(h)
  {
    if h == [] then {} else
      var init, e := h[..|h| - 1], h[|h| - 1];
      if e.Sent? then Logged(init) + {e.packet} else Logged(init) - {Decoded(SentIn(init)[e.k])}
  }

  /** The packets that were sent and have not arrived. */
  ghost function Outstanding(sent: seq<PacketLog>, arrived: set<nat>): set<PacketLog> {
    set k | 0 <= k < |sent| && k !in arrived :: sent[k]
  }

  /** Sources fit in 16 bits, and no source sends two packets at one time. */
  ghost predicate Regular(sent: seq<PacketLog>) {
    (forall k :: 0 <= k < |sent| ==> sent[k].src < 65536) && NoDup(sent)
  }

  /** The log holds exactly the outstanding packets. */
  ghost predicate LogOk(h: seq<Happening>)
    requires IsHistory(h)
  {
    && Logged(h) == Outstanding(SentIn(h), ArrivedIn(h))
    && |SentIn(h)| == |Logged(h)| + |ArrivedIn(h)|
  }

  lemma {:induction false} PacketsAreOk(h: seq<Happening>)
    requires IsHistory(h)
    ensures forall k :: 0 <= k < |SentIn(h)| ==> PacketOk(SentIn(h)[k])
    ensures forall k :: k in ArrivedIn(h) ==> k < |SentIn(h)|
  {
    if h != [] {
      PacketsAreOk(h[..|h| - 1]);
    }
  }

  lemma SendKeepsOutstanding(sent: seq<PacketLog>, arrived: set<nat>, p: PacketLog)
    requires forall k :: k in arrived ==> k < |sent|
    ensures Outstanding(sent + [p], arrived) == Outstanding(sent, arrived) + {p}
  {
    var more := sent + [p];
    assert more[|sent|] == p && |sent| !in arrived;
    forall x | x in Outstanding(sent, arrived) ensures x in Outstanding(more, arrived) {
      var k :| 0 <= k < |sent| && k !in arrived && sent[k] == x;
      assert more[k] == x;
    }
  }

  lemma ArrivalKeepsOutstanding(sent: seq<PacketLog>, arrived: set<nat>, k: nat)
    requires NoDup(sent) && k < |sent|
    ensures Outstanding(sent, arrived + {k}) == Outstanding(sent, arrived) - {sent[k]}
    ensures sent[k] in Outstanding(sent, arrived) <==> k !in arrived
  {
  }

  lemma SendKeepsLog(h: seq<Happening>, p: PacketLog)
    requires IsHistory(h) && LogOk(h) && PacketOk(p) && p !in SentIn(h)
    ensures IsHistory(h + [Sent(p)]) && LogOk(h + [Sent(p)])
  {
    AppendInit(h, Sent(p));
    PacketsAreOk(h);
    SendKeepsOutstanding(SentIn(h), ArrivedIn(h), p);
    assert p !in Logged(h);
  }

  lemma DecodedIsSent(p: PacketLog)
    requires PacketOk(p) && p.src < 65536
    ensures Decoded(p) == p
  {
  }

  lemma ArrivalCounts(log: set<PacketLog>, arrived: set<nat>, p: PacketLog, k: nat)
    requires p in log <==> k !in arrived
    ensures |log - {p}| + |arrived + {k}| == |log| + |arrived|
  {
    if k in arrived {
      assert log - {p} == log && arrived + {k} == arrived;
    }
  }

  /** A first arrival takes its packet out of the log; a repeated one changes nothing. */
  lemma ArrivalKeepsLog(h: seq<Happening>, k: nat)
    requires IsHistory(h) && LogOk(h) && Regular(SentIn(h)) && k < |SentIn(h)|
    ensures IsHistory(h + [Arrived(k)]) && LogOk(h + [Arrived(k)])
  {
    var sent, arrived := SentIn(h), ArrivedIn(h);
    AppendInit(h, Arrived(k));
    PacketsAreOk(h);
    DecodedIsSent(sent[k]);
    assert Logged(h + [Arrived(k)]) == Outstanding(sent, arrived) - {sent[k]};
    ArrivalKeepsOutstanding(sent, arrived, k);
    ArrivalCounts(Outstanding(sent, arrived), arrived, sent[k], k);
  }

  lemma RegularBefore(sent: seq<PacketLog>, p: PacketLog)
    requires Regular(sent + [p])
    ensures Regular(sent) && p !in sent
  {
    var more := sent + [p];
    assert more[|sent|] == p && forall k :: 0 <= k < |sent| ==> sent[k] == more[k];
  }

  /** If all packets are regular, the log is exact, in whatever order they arrive and however often. */
  lemma {:induction false} RegularLogIsExact(h: seq<Happening>)
    requires IsHistory(h) && Regular(SentIn(h))
    ensures LogOk(h)
  {
    if h != [] {
      var init, e := h[..|h| - 1], h[|h| - 1];
      InitLast(h);
      match e
      case Sent(p) =>
        RegularBefore(SentIn(init), p);
        RegularLogIsExact(init);
        SendKeepsLog(init, p);
      case Arrived(k) =>
        RegularLogIsExact(init);
        ArrivalKeepsLog(init, k);
    }
  }

  /** All packets are sent before any arrives. */
  ghost function AllSent(sent: seq<PacketLog>): seq<Happening> {
    seq(|sent|, k requires 0 <= k < |sent| => Sent(sent[k]))
  }

  lemma {:induction false} AllSentIsHistory(sent: seq<PacketLog>)
    requires forall k :: 0 <= k < |sent| ==> PacketOk(sent[k])
    ensures var h := AllSent(sent);
      IsHistory(h) && SentIn(h) == sent && ArrivedIn(h) == {} && Logged(h) == ToSet(sent)
  {
    if sent != [] {
      var init := sent[..|sent| - 1];
      AllSentIsHistory(init);
      assert AllSent(sent)[..|sent| - 1] == AllSent(init);
      InitLast(sent);
    }
  }

  /** The first n packets arrive, one after the other. */
  lemma {:induction false} FirstArrive(sent: seq<PacketLog>, n: nat, x: PacketLog) returns (h: seq<Happening>)
    requires n <= |sent| && (forall k :: 0 <= k < |sent| ==> PacketOk(sent[k])) && x in sent && x.src >= 65536
    ensures IsHistory(h) && SentIn(h) == sent && (forall k :: 0 <= k < n ==> k in ArrivedIn(h)) && x in Logged(h)
  {
    if n == 0 {
      h := AllSent(sent);
      AllSentIsHistory(sent);
    } else {
      var g := FirstArrive(sent, n - 1, x);
      h := g + [Arrived(n - 1)];
      AppendInit(g, Arrived(n - 1));
    }
  }

  /** Of two packets with one key the first arrives. */
  lemma OneOfTwoArrives(sent: seq<PacketLog>, i: nat, j: nat) returns (h: seq<Happening>)
    requires forall k :: 0 <= k < |sent| ==> PacketOk(sent[k])
    requires i < j < |sent| && sent[i] == sent[j] && sent[i].src < 65536
    ensures IsHistory(h) && SentIn(h) == sent && !LogOk(h)
  {
    AllSentIsHistory(sent);
    h := AllSent(sent) + [Arrived(i)];
    AppendInit(AllSent(sent), Arrived(i));
    assert Decoded(sent[i]) == sent[j];
    assert sent[j] in Outstanding(sent, ArrivedIn(h));
  }

  /** If some packet is not, then the log goes wrong for some order of arrival. */
  lemma IrregularLogGoesWrong(sent: seq<PacketLog>) returns (h: seq<Happening>)
    requires (forall k :: 0 <= k < |sent| ==> PacketOk(sent[k])) && !Regular(sent)
    ensures IsHistory(h) && SentIn(h) == sent && !LogOk(h)
  {
    if k :| 0 <= k < |sent| && sent[k].src >= 65536 {
      h := FirstArrive(sent, |sent|, sent[k]);
      assert Outstanding(sent, ArrivedIn(h)) == {};
    } else {
      var i, j :| 0 <= i < j < |sent| && sent[i] == sent[j];
      h := OneOfTwoArrives(sent, i, j);
    }
  }

  /** The log stays exact through every history of these packets exactly when they are regular. */
  lemma LogExactIffRegular(sent: seq<PacketLog>)
    requires forall k :: 0 <= k < |sent| ==> PacketOk(sent[k])
    ensures (forall h :: IsHistory(h) && SentIn(h) == sent ==> LogOk(h)) <==> Regular(sent)
  {
    if Regular(sent) {
      forall h | IsHistory(h) && SentIn(h) == sent ensures LogOk(h) {
        RegularLogIsExact(h);
      }
    } else {
      var h := IrregularLogGoesWrong(sent);
    }
  }

  // -------------------------------------------------------------------------- accounting

  lemma SetGrows(s: set<nat>, k: nat)
    ensures |s + {k}| <= |s| + 1
  {
    if k in s {
      assert s + {k} == s;
    }
  }

  lemma SumAppend(s: seq<nat>, x: nat)
    ensures Sum(s + [x]) == Sum(s) + x
  {
    assert (s + [x])[..|s|] == s;
  }

  function Sum(s: seq<nat>): nat {
    if s == [] then 0 else Sum(s[..|s| - 1]) + s[|s| - 1]
  }

  lemma {:induction false} SumUpdate(s: seq<nat>, i: nat)
    requires i < |s|
    ensures Sum(s[i := s[i] + 1]) == Sum(s) + 1
  {
    var k := |s| - 1;
    if i == k {
      assert s[i := s[i] + 1][..k] == s[..k];
    } else {
      SumUpdate(s[..k], i);
      assert s[i := s[i] + 1][..k] == s[..k][i := s[i] + 1];
    }
  }

  lemma {:induction false} SumZeros(n: nat)
    ensures Sum(seq(n, _ => 0)) == 0
  {
    if n > 0 {
      SumZeros(n - 1);
      assert seq(n, _ => 0)[..n - 1] == seq(n - 1, _ => 0);
    }
  }

  /** The delay in whole seconds, rounded up. */
  function Seconds(delay: nat): nat {
    (delay + 999_999_999) / 1_000_000_000
  }

  /** Which counter a delay goes to: its seconds, or number 9 from 99 seconds on. */
  function Bucket(delay: nat): (b: nat)
    ensures b < BUCKETS
  {
    if Seconds(delay) >= 99 then 9 else Seconds(delay)
  }

  /** The bounds of the delays, in nanoseconds, that go to a counter. */
  lemma BucketBounds(delay: nat, b: nat)
    ensures b < 99 && b != 9 ==> (Bucket(delay) == b <==> (b - 1) * 1_000_000_000 < delay <= b * 1_000_000_000)
    ensures Bucket(delay) == 9 <==> 8_000_000_000 < delay <= 9_000_000_000 || delay > 98_000_000_000
    ensures b >= 99 ==> Bucket(delay) != b
  {
  }

  function InBucket(delays: seq<nat>, b: nat): nat {
    if delays == [] then 0
    else InBucket(delays[..|delays| - 1], b) + if Bucket(delays[|delays| - 1]) == b then 1 else 0
  }

  /** Each counter holds the number of delays that belong in it. */
  ghost predicate BucketsOk(pcount: seq<nat>, delays: seq<nat>) {
    |pcount| == BUCKETS && Sum(pcount) == |delays| && forall b :: 0 <= b < BUCKETS ==> pcount[b] == InBucket(delays, b)
  }

  lemma DelayKeepsBuckets(pcount: seq<nat>, delays: seq<nat>, delay: nat)
    requires BucketsOk(pcount, delays)
    ensures BucketsOk(pcount[Bucket(delay) := pcount[Bucket(delay)] + 1], delays + [delay])
  {
    SumUpdate(pcount, Bucket(delay));
    assert (delays + [delay])[..|delays|] == delays;
  }

  class Experiment {
    const sink: nat
    var plog: map<PacketLog, int>
    var sendCount: nat
    var recount: nat
    var pcount: seq<nat>
    var allTime: nat

    // What has happened, and the delays seen.
    ghost var history: seq<Happening>
    ghost var delays: seq<nat>

    /** The log is what the history makes of it, and the counters add up. */
    ghost predicate Valid()
      reads this
    {
      && IsHistory(history) && plog.Keys == Logged(history) && CountersOk()
      && forall k :: 0 <= k < |SentIn(history)| ==> SentIn(history)[k].dst == sink
    }

    ghost predicate CountersOk()
      reads this
    {
      && sendCount == |SentIn(history)| && |ArrivedIn(history)| <= recount == |delays|
      && allTime == Sum(delays) && BucketsOk(pcount, delays)
    }

    constructor (sink: nat)
      ensures Valid() && this.sink == sink && history == [] && delays == []
      ensures sendCount == recount == 0 && plog == map[]
    {
      this.sink := sink;
      plog, sendCount, recount, allTime := map[], 0, 0, 0;
      pcount := seq(BUCKETS, _ => 0);
      history, delays := [], [];
      SumZeros(BUCKETS);
    }

    /** Lines 195-220. */
    method Send(src: nat, now: nat) returns (buffer: seq<byte>)
      requires Valid() && now < TIME_LIMIT
      modifies this
      ensures Valid()
      ensures buffer == Stamped(src, now) && history == old(history) + [Sent(PacketLog(src, sink, now))]
      ensures plog == old(plog)[PacketLog(src, sink, now) := now] && delays == old(delays)
    {
      buffer := Stamp(src, now);
      var log := PacketLog(src, sink, now);
      AppendInit(history, Sent(log));
      plog := plog[log := now];
      sendCount := sendCount + 1;
      history := history + [Sent(log)];
    }

    /** Lines 287-320, for packet number k at the sink. */
    method Receive(ghost k: nat, buffer: seq<byte>, now: nat)
      requires Valid() && k < |SentIn(history)|
      requires var p := SentIn(history)[k]; p.time <= now && PacketOk(p) && buffer == Stamped(p.src, p.time)
      modifies this
      ensures Valid()
      ensures history == old(history) + [Arrived(k)]
      ensures var p := old(SentIn(history)[k]);
        plog == old(plog) - {Decoded(p)} && delays == old(delays) + [now - p.time]
    {
      ghost var p := SentIn(history)[k];
      var sid, nano := Decode(p.src, p.time, buffer);
      CountDelay(now - nano);
      Erase(k, PacketLog(sid, sink, nano));
    }

    /** Lines 317-320: a packet that is not in the log any more changes nothing. */
    method Erase(ghost k: nat, log: PacketLog)
      requires IsHistory(history) && plog.Keys == Logged(history)
      requires k < |SentIn(history)| && log == Decoded(SentIn(history)[k])
      modifies this`plog, this`history
      ensures history == old(history) + [Arrived(k)] && IsHistory(history)
      ensures plog == old(plog) - {log} && plog.Keys == Logged(history)
      ensures SentIn(history) == old(SentIn(history)) && |ArrivedIn(history)| <= |old(ArrivedIn(history))| + 1
    {
      AppendInit(history, Arrived(k));
      SetGrows(ArrivedIn(history), k);
      if log in plog {
        plog := plog - {log};
      }
      history := history + [Arrived(k)];
    }

    /** Lines 301-312: put the delay in its bucket and in the total. */
    method CountDelay(delay: nat)
      requires BucketsOk(pcount, delays) && allTime == Sum(delays)
      modifies this`pcount, this`allTime, this`recount, this`delays
      ensures BucketsOk(pcount, delays) && allTime == Sum(delays)
      ensures recount == old(recount) + 1 && delays == old(delays) + [delay]
    {
      DelayKeepsBuckets(pcount, delays, delay);
      SumAppend(delays, delay);
      var idx := Seconds(delay);
      var bucket := if idx >= 99 then 9 else idx;
      assert bucket == Bucket(delay);
      pcount := pcount[bucket := pcount[bucket] + 1];
      allTime := allTime + delay;
      recount := recount + 1;
      delays := delays + [delay];
    }

    /** What the final report is based on: losses are the packets still in the log. */
    lemma Accounts()
      requires Valid() && Regular(SentIn(history))
      ensures plog.Keys == Outstanding(SentIn(history), ArrivedIn(history))
      ensures sendCount - |plog| == |ArrivedIn(history)| <= recount == Sum(pcount)
    {
      RegularLogIsExact(history);
      assert |plog| == |plog.Keys|;
    }
  }
}
