/** The time-of-flight receiver: an interrupt handler that queues octets and notes the
    arrival time of header octets by queue slot, and a main loop that frames and
    decodes packets. */
module TofFramer {
  import opened MachineTypes
  import opened RingQueue

  const PACKET_LENGTH: nat := 16
  const PACKET_HEADER: u8 := 0x57

  /** ToFData_t; the distance is in millimetres before the division by 1000. */
  datatype Reading = Reading(id: u8, systemTimeMs: u32, distRaw: int, status: u8, signal: u16, receivedTimeUs: nat)

  /** An octet and its arrival time. */
  datatype Stamped = Stamped(octet: u8, time: nat)

  // ---- Packets -------------------------------------------------------------

  function Sum(octets: seq<u8>): u8 {
    if octets == [] then 0 else (Sum(octets[..|octets| - 1]) + octets[|octets| - 1]) % 0x100
  }

  method VerifyCheckSum(data: seq<u8>) returns (ok: bool)
    requires |data| == PACKET_LENGTH
    ensures ok <==> Sum(data[..15]) == data[15]
  {
    var sum: u8 := 0;
    for i := 0 to |data| - 1
      invariant sum == Sum(data[..i])
    {
      assert data[..i + 1][..i] == data[..i];
      sum := (sum + data[i]) % 0x100;
    }
    ok := sum == data[15];
  }

  function Le32(data: seq<u8>, i: nat): u32
    requires i + 4 <= |data|
  {
    (data[i] as int) + 0x100 * (data[i + 1] as int)
    + 0x1_0000 * (data[i + 2] as int) + 0x100_0000 * (data[i + 3] as int)
  }

  /** Three octets shifted into the upper 24 bits and divided by 256. */
  function DistRaw(low: u8, mid: u8, high: u8): int {
    TruncDiv(ToInt32(0x100 * (low as int) + 0x1_0000 * (mid as int) + 0x100_0000 * (high as int)), 0x100)
  }

  /** The detour through 32 bits sign-extends the 24-bit little-endian distance. */
  lemma DistRawIsSigned24(low: u8, mid: u8, high: u8)
    ensures var x := (low as int) + 0x100 * (mid as int) + 0x1_0000 * (high as int);
            DistRaw(low, mid, high) == if x < 0x80_0000 then x else x - 0x100_0000
  {
  }

  predicate PacketOk(p: seq<u8>)
    requires |p| == PACKET_LENGTH
  {
    p[0] == PACKET_HEADER && Sum(p[..15]) == p[15]
  }

  function Decode(p: seq<u8>, time: nat): Reading
    requires |p| == PACKET_LENGTH
  {
    Reading(p[3], Le32(p, 4), DistRaw(p[8], p[9], p[10]), p[11], (p[12] as int) + 0x100 * (p[13] as int), time)
  }

  // ---- The stream, as a whole ----------------------------------------------

  function Octets(s: seq<Stamped>): (r: seq<u8>)
    ensures |r| == |s| && forall i :: 0 <= i < |s| ==> r[i] == s[i].octet
  {
    seq(|s|, i requires 0 <= i < |s| => s[i].octet)
  }

  /** The readings in a stream of octets: skip to a header, take sixteen octets, keep
      them if the checksum is right, go on behind them. A reading carries the arrival
      time of its own header. */
  function Readings(stream: seq<Stamped>): seq<Reading> {
    if stream == [] then []
    else if stream[0].octet != PACKET_HEADER then Readings(stream[1..])
    else if |stream| < PACKET_LENGTH then []
    else
      var p := Octets(stream[..PACKET_LENGTH]);
      (if PacketOk(p) then [Decode(p, stream[0].time)] else []) + Readings(stream[PACKET_LENGTH..])
  }

  // ---- The stream, octet by octet ------------------------------------------

  /** `pending` is the packet being collected; `taken` the octets read so far. */
  datatype Framer = Framer(pending: seq<Stamped>, published: seq<Reading>)

  predicate ValidFramer(f: Framer) {
    |f.pending| < PACKET_LENGTH && (f.pending != [] ==> f.pending[0].octet == PACKET_HEADER)
  }

  function Take(f: Framer, s: Stamped): (r: Framer)
    requires ValidFramer(f)
    ensures ValidFramer(r)
  {
    if f.pending == [] && s.octet != PACKET_HEADER then f
    else
      var collected := f.pending + [s];
      if |collected| < PACKET_LENGTH then f.(pending := collected)
      else
        var p := Octets(collected);
        Framer([], f.published + if PacketOk(p) then [Decode(p, collected[0].time)] else [])
  }

  function TakeAll(f: Framer, stream: seq<Stamped>): (r: Framer)
    requires ValidFramer(f)
    ensures ValidFramer(r)
    decreases |stream|
  {
    if stream == [] then f else TakeAll(Take(f, stream[0]), stream[1..])
  }

  /** Reading octet by octet publishes what the whole stream contains. */
  lemma {:induction false} FramingIsReadings(f: Framer, stream: seq<Stamped>)
    requires ValidFramer(f)
    ensures TakeAll(f, stream).published == f.published + Readings(f.pending + stream)
    decreases |stream|
  {
    var whole := f.pending + stream;
    if stream == [] {
      assert whole == f.pending;
    } else {
      var next := Take(f, stream[0]);
      FramingIsReadings(next, stream[1..]);
      if f.pending == [] && stream[0].octet != PACKET_HEADER {
        assert whole[1..] == stream[1..];
        assert f.pending + stream[1..] == stream[1..];
      } else if |f.pending| + 1 < PACKET_LENGTH {
        assert next.pending + stream[1..] == whole;
      } else {
        assert whole[..PACKET_LENGTH] == f.pending + [stream[0]];
        assert whole[PACKET_LENGTH..] == stream[1..];
        assert next.pending + stream[1..] == stream[1..];
      }
    }
  }

  lemma {:induction false} TakeAllAppend(f: Framer, stream: seq<Stamped>, s: Stamped)
    requires ValidFramer(f)
    ensures TakeAll(f, stream + [s]) == Take(TakeAll(f, stream), s)
    decreases |stream|
  {
    if stream == [] {
      assert (stream + [s])[1..] == [];
    } else {
      assert (stream + [s])[1..] == stream[1..] + [s];
      TakeAllAppend(Take(f, stream[0]), stream[1..], s);
    }
  }

  // ---- Interrupts and main loop --------------------------------------------

  /** An octet arrives, or the main loop makes one iteration. A call of
      ToF_ProcessQueue is a number of iterations with interrupts between them. */
  datatype Event = Receive(s: Stamped) | Iterate

  /** `taken` are the octets the main loop has read, `lost` those the ring dropped. */
  datatype System = System(queue: seq<Stamped>, framer: Framer, taken: seq<Stamped>, lost: nat)

  const START: System := System([], Framer([], []), [], 0)

  function Step(capacity: nat, sys: System, e: Event): (r: System)
    requires capacity > 0 && ValidFramer(sys.framer)
    ensures ValidFramer(r.framer)
  {
    match e
    case Receive(s) =>
      var queue := KeepLast(sys.queue + [s], capacity - 1);
      sys.(queue := queue, lost := sys.lost + |sys.queue| + 1 - |queue|)
    case Iterate =>
      if sys.queue == [] then sys
      else sys.(queue := sys.queue[1..], framer := Take(sys.framer, sys.queue[0]), taken := sys.taken + [sys.queue[0]])
  }

  function Run(capacity: nat, events: seq<Event>): (r: System)
    requires capacity > 0
    ensures ValidFramer(r.framer)
  {
    if events == [] then START
    else Step(capacity, Run(capacity, events[..|events| - 1]), events[|events| - 1])
  }

  function Received(events: seq<Event>): seq<Stamped> {
    if events == [] then []
    else Received(events[..|events| - 1]) + match events[|events| - 1]
                                            case Receive(s) => [s]
                                            case Iterate => []
  }

  /** a arises from b by leaving items out. */
  predicate Subsequence(a: seq<Stamped>, b: seq<Stamped>)
    decreases |b|
  {
    a == [] || (b != [] && (Subsequence(a, b[..|b| - 1]) ||
      (a[|a| - 1] == b[|b| - 1] && Subsequence(a[..|a| - 1], b[..|b| - 1]))))
  }

  ghost predicate Accounted(sys: System, received: seq<Stamped>) {
    && sys.framer == TakeAll(START.framer, sys.taken)
    && Subsequence(sys.taken + sys.queue, received)
    && |sys.taken + sys.queue| + sys.lost == |received|
    && (sys.lost == 0 ==> sys.taken + sys.queue == received)
  }

  lemma ReceiveAccounted(capacity: nat, sys: System, received: seq<Stamped>, s: Stamped)
    requires capacity > 0 && ValidFramer(sys.framer) && Accounted(sys, received)
    ensures Accounted(Step(capacity, sys, Receive(s)), received + [s])
  {
    hide TakeAll;
    var next := Step(capacity, sys, Receive(s));
    var kept := sys.taken + (sys.queue + [s]);
    assert kept[..|kept| - 1] == sys.taken + sys.queue;
    assert (received + [s])[..|received|] == received;
    assert Subsequence(kept, received + [s]);
    if |next.queue| == |sys.queue| + 1 {
      assert next.taken + next.queue == kept;
      assert next.lost == 0 ==> kept == (sys.taken + sys.queue) + [s];
    } else if |next.queue| == |sys.queue| {
      DropOne(sys.taken, sys.queue + [s], received + [s]);
    } else {
      DropMany(sys.taken, sys.queue + [s], |sys.queue| + 1 - |next.queue|, received + [s]);
    }
  }

  lemma {:induction false} DropMany(a: seq<Stamped>, queue: seq<Stamped>, n: nat, b: seq<Stamped>)
    requires n <= |queue| && Subsequence(a + queue, b)
    ensures Subsequence(a + queue[n..], b)
  {
    if n > 0 {
      DropOne(a, queue, b);
      DropMany(a, queue[1..], n - 1, b);
      assert queue[1..][n - 1..] == queue[n..];
    }
  }

  lemma IterateAccounted(capacity: nat, sys: System, received: seq<Stamped>)
    requires capacity > 0 && ValidFramer(sys.framer) && Accounted(sys, received)
    ensures Accounted(Step(capacity, sys, Iterate), received)
  {
    hide TakeAll, Subsequence, Take;
    if sys.queue != [] {
      TakeAllAppend(START.framer, sys.taken, sys.queue[0]);
      assert sys.taken + [sys.queue[0]] + sys.queue[1..] == sys.taken + sys.queue;
    }
  }

  /** Whatever the interleaving: the published readings are those of the octets that
      were read, in order, each octet read or queued was received, in order, and if
      the ring never dropped one, nothing is missing. */
  lemma {:induction false} EveryRun(capacity: nat, events: seq<Event>)
    requires capacity > 0
    ensures Accounted(Run(capacity, events), Received(events))
    ensures Run(capacity, events).framer.published == Readings(Run(capacity, events).taken)
  {
    hide Accounted, Step, TakeAll;
    if events == [] {
      StartAccounted();
    } else {
      var init, e := events[..|events| - 1], events[|events| - 1];
      EveryRun(capacity, init);
      match e
      case Receive(s) => ReceiveAccounted(capacity, Run(capacity, init), Received(init), s);
      case Iterate =>
        IterateAccounted(capacity, Run(capacity, init), Received(init));
        assert Received(events) == Received(init);
    }
    PublishedAre(Run(capacity, events), Received(events));
  }

  lemma StartAccounted()
    ensures Accounted(START, [])
  {
  }

  lemma PublishedAre(sys: System, received: seq<Stamped>)
    requires Accounted(sys, received)
    ensures sys.framer.published == Readings(sys.taken)
  {
    FramingIsReadings(START.framer, sys.taken);
    assert START.framer.pending + sys.taken == sys.taken;
  }

  /** Leaving out one more item, the first behind the prefix `a`. */
  lemma DropOne(a: seq<Stamped>, queue: seq<Stamped>, b: seq<Stamped>)
    requires queue != [] && Subsequence(a + queue, b)
    ensures Subsequence(a + queue[1..], b)
    decreases |b|
  {
    var whole, less := a + queue, a + queue[1..];
    if Subsequence(whole, b[..|b| - 1]) {
      DropOne(a, queue, b[..|b| - 1]);
    } else if |queue| == 1 {
      assert whole[..|whole| - 1] == less;
    } else {
      var shorter := queue[..|queue| - 1];
      assert whole[..|whole| - 1] == a + shorter;
      assert less[..|less| - 1] == a + shorter[1..];
      DropOne(a, shorter, b[..|b| - 1]);
    }
  }

  /** Without overflow and with the queue drained, the published readings are a pure
      function of the received octets: budgets and interleaving do not matter. */
  lemma DrainedIsReadings(capacity: nat, events: seq<Event>)
    requires capacity > 0
    requires Run(capacity, events).lost == 0 && Run(capacity, events).queue == []
    ensures Run(capacity, events).framer.published == Readings(Received(events))
  {
    EveryRun(capacity, events);
    assert Run(capacity, events).taken + [] == Run(capacity, events).taken;
  }
}
