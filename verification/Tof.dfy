/** ToF.c over its static variables, proved to follow the runs of TofFramer. Interrupts
    may come between the iterations of the main loop, and inside an iteration between
    the pop and the look-up of the header's time, as long as they do not fill the ring. */
module Tof {
  import opened MachineTypes
  import opened RingQueue
  import opened TofFramer

  /** Every queued header octet has its arrival time in its own slot. */
  ghost predicate TimesOk(queue: seq<Stamped>, head: int, capacity: int, times: seq<nat>) {
    forall i :: 0 <= i < |queue| && queue[i].octet == PACKET_HEADER ==>
      0 <= SlotOf(head, capacity, i) < |times| && times[SlotOf(head, capacity, i)] == queue[i].time
  }

  /** Noting the time of an octet at the tail and pushing it keeps all times right. */
  lemma TimesAfterPush(queue: seq<Stamped>, s: Stamped, head: int, tail: int, capacity: int,
                       times: seq<nat>, times': seq<nat>)
    requires 0 <= head < capacity <= |times| && 0 <= tail < capacity
    requires |queue| < capacity && SlotOf(head, capacity, |queue|) == tail
    requires forall i :: 0 <= i < |queue| ==> SlotOf(head, capacity, i) != tail
    requires TimesOk(queue, head, capacity, times)
    requires times' == if s.octet == PACKET_HEADER then times[tail := s.time] else times
    ensures var kept := KeepLast(queue + [s], capacity - 1);
            var lost := |queue| + 1 - |kept|;
            TimesOk(kept, SlotOf(head, capacity, lost), capacity, times')
  {
    hide SlotOf, KeepLast;
    var kept := KeepLast(queue + [s], capacity - 1);
    var lost := |queue| + 1 - |kept|;
    KeptSuffix(queue, s, capacity - 1);
    forall i | 0 <= i < |kept| && kept[i].octet == PACKET_HEADER
      ensures var slot := SlotOf(SlotOf(head, capacity, lost), capacity, i);
              0 <= slot < |times'| && times'[slot] == kept[i].time
    {
      SlotsStay(head, tail, capacity, |queue|, lost, i);
      if i + lost < |queue| {
        assert kept[i] == queue[i + lost];
      }
    }
  }

  lemma TimesAfterPop(queue: seq<Stamped>, head: int, capacity: int, times: seq<nat>)
    requires 0 <= head < capacity <= |times| && queue != [] && |queue| <= capacity
    requires TimesOk(queue, head, capacity, times)
    ensures queue[0].octet == PACKET_HEADER ==> times[head] == queue[0].time
    ensures TimesOk(queue[1..], SlotOf(head, capacity, 1), capacity, times)
  {
  }

  // ---- Interrupts inside an iteration ----------------------------------------

  /** What an interrupt changes: the ends of the ring and the times by slot. */
  datatype Slots = Slots(head: int, tail: int, times: seq<nat>)

  predicate SlotsOk(s: Slots, capacity: int) {
    0 <= s.head < capacity <= |s.times| && 0 <= s.tail < capacity
  }

  function Interrupt(s: Slots, capacity: int, a: Stamped): (r: Slots)
    requires SlotsOk(s, capacity)
    ensures SlotsOk(r, capacity)
  {
    var tail := Next(s.tail, capacity);
    Slots(if tail == s.head then Next(s.head, capacity) else s.head, tail,
          if a.octet == PACKET_HEADER then s.times[s.tail := a.time] else s.times)
  }

  function Interrupts(s: Slots, capacity: int, arrivals: seq<Stamped>): (r: Slots)
    requires SlotsOk(s, capacity)
    ensures SlotsOk(r, capacity)
  {
    if arrivals == [] then s
    else Interrupt(Interrupts(s, capacity, arrivals[..|arrivals| - 1]), capacity, arrivals[|arrivals| - 1])
  }

  /** (head - 1 + capacity) % capacity */
  function Previous(slot: int, capacity: int): int {
    if slot == 0 then capacity - 1 else slot - 1
  }

  /** The time that the loop looks up behind head, right after a pop that of the popped
      octet. */
  function TimeRead(s: Slots, capacity: int): nat
    requires SlotsOk(s, capacity)
  {
    s.times[Previous(s.head, capacity)]
  }

  /** Between head and tail lie q slots. */
  predicate Holds(s: Slots, capacity: int, q: int) {
    SlotsOk(s, capacity) && 0 <= q < capacity && SlotOf(s.head, capacity, q) == s.tail
  }

  lemma {:induction false} TimeSurvives(s: Slots, capacity: int, q: int, arrivals: seq<Stamped>)
    requires Holds(s, capacity, q) && q + |arrivals| < capacity
    ensures var after := Interrupts(s, capacity, arrivals);
            && after.head == s.head && Holds(after, capacity, q + |arrivals|)
            && TimeRead(after, capacity) == TimeRead(s, capacity)
  {
    if arrivals != [] {
      TimeSurvives(s, capacity, q, arrivals[..|arrivals| - 1]);
    }
  }

  /** The worst case: the popped header came at 0, every other time is 1. */
  function Worst(capacity: nat, q: nat): Slots
    requires q < capacity
  {
    Slots(0, q, seq(capacity, i requires 0 <= i < capacity => if i == capacity - 1 then 0 else 1))
  }

  function Headers(n: nat): seq<Stamped> {
    seq(n, _ => Stamped(PACKET_HEADER, 1))
  }

  lemma {:induction false} WorstTimes(capacity: nat, q: nat, n: nat)
    requires q < capacity
    ensures var after := Interrupts(Worst(capacity, q), capacity, Headers(n));
            && |after.times| == capacity
            && (forall i :: 0 <= i < capacity - 1 ==> after.times[i] == 1)
            && (q + n >= capacity ==> after.times[capacity - 1] == 1)
  {
    if n > 0 {
      WorstTimes(capacity, q, n - 1);
      assert Headers(n)[..n - 1] == Headers(n - 1);
      if q + n == capacity {
        TimeSurvives(Worst(capacity, q), capacity, q, Headers(n - 1));
      }
    }
  }

  /** Interrupts between the pop and the look-up leave the time right, whatever they
      bring, exactly as long as they do not fill the ring: as many may come as it has
      free slots. */
  lemma TimeSurvivesExactly(capacity: nat, q: nat, n: nat)
    requires q < capacity
    ensures q + n < capacity <==>
            forall s: Slots, arrivals: seq<Stamped> :: Holds(s, capacity, q) && |arrivals| == n ==>
              TimeRead(Interrupts(s, capacity, arrivals), capacity) == TimeRead(s, capacity)
  {
    if q + n < capacity {
      forall s: Slots, arrivals: seq<Stamped> | Holds(s, capacity, q) && |arrivals| == n
        ensures TimeRead(Interrupts(s, capacity, arrivals), capacity) == TimeRead(s, capacity)
      {
        TimeSurvives(s, capacity, q, arrivals);
      }
    } else {
      WorstTimes(capacity, q, n);
      assert Holds(Worst(capacity, q), capacity, q) && |Headers(n)| == n;
      assert TimeRead(Worst(capacity, q), capacity) == 0;
      assert TimeRead(Interrupts(Worst(capacity, q), capacity, Headers(n)), capacity) == 1;
    }
  }

  lemma OctetsTail(s: seq<Stamped>)
    requires s != []
    ensures Octets(s)[0] == s[0].octet && Octets(s)[1..] == Octets(s[1..])
  {
  }

  class Receiver {
    const rxQueue: Ring<u8>
    const headerTimestampUs: array<nat>
    const packet: array<u8>
    var packetIndex: nat
    var packetStartTimeUs: nat
    var maxBytesPerCall: int
    var latestData: Reading
    var dataReady: bool
    /** every interrupt and every loop iteration since initialisation */
    ghost var events: seq<Event>

    ghost predicate Shape()
      reads rxQueue
    {
      && rxQueue.Valid() && rxQueue.capacity > 0
      && headerTimestampUs.Length == MAX_BUF_SIZE && packet.Length == PACKET_LENGTH
      && packet != rxQueue.buffer
    }

    ghost function Sys(): System
      requires Shape()
      reads this`events, rxQueue
    {
      Run(rxQueue.capacity, events)
    }

    ghost predicate TimesKept(queue: seq<Stamped>)
      requires Shape()
      reads rxQueue, headerTimestampUs
    {
      TimesOk(queue, rxQueue.head, rxQueue.capacity, headerTimestampUs[..])
    }

    ghost predicate PacketKept(f: Framer)
      requires packet.Length == PACKET_LENGTH
      reads this`packetIndex, this`packetStartTimeUs, this`latestData, this`dataReady, packet
    {
      && packetIndex == |f.pending| < PACKET_LENGTH
      && packet[..packetIndex] == Octets(f.pending)
      && (f.pending != [] ==> packetStartTimeUs == f.pending[0].time)
      && (dataReady ==> f.published != [])
      && (f.published != [] ==> latestData == f.published[|f.published| - 1])
    }

    ghost predicate QueueKept(queue: seq<Stamped>)
      requires Shape()
      reads rxQueue, rxQueue.buffer, headerTimestampUs
    {
      rxQueue.Contents() == Octets(queue) && TimesKept(queue)
    }

    ghost predicate Valid()
      reads this, rxQueue, rxQueue.buffer, headerTimestampUs, packet
    {
      Shape() && QueueKept(Sys().queue) && PacketKept(Sys().framer)
    }

    ghost function Ends(): Slots
      reads rxQueue, headerTimestampUs
    {
      Slots(rxQueue.head, rxQueue.tail, headerTimestampUs[..])
    }

    /** ToF_Init with a buffer size the queue accepts. */
    constructor (bufferSize: int, maxBytes: int)
      requires 0 < bufferSize <= MAX_BUF_SIZE
      ensures Valid() && events == [] && rxQueue.capacity == bufferSize && maxBytesPerCall == maxBytes
      ensures fresh(rxQueue) && fresh(rxQueue.buffer) && fresh(headerTimestampUs) && fresh(packet)
    {
      var q := new Ring<u8>();
      var ok := q.Init(bufferSize);
      rxQueue := q;
      headerTimestampUs := new nat[MAX_BUF_SIZE](_ => 0);
      packet := new u8[PACKET_LENGTH](_ => 0);
      packetIndex, packetStartTimeUs, maxBytesPerCall := 0, 0, maxBytes;
      latestData, dataReady := Reading(0, 0, 0, 0, 0, 0), false;
      events := [];
    }

    /** The receive interrupt; it leaves the packet that is being collected alone. */
    method RxHandler(octet: u8, now: nat)
      requires Shape() && QueueKept(Sys().queue)
      modifies this`events, rxQueue, rxQueue.buffer, headerTimestampUs
      ensures Shape() && QueueKept(Sys().queue) && rxQueue.capacity == old(rxQueue.capacity)
      ensures events == old(events) + [Receive(Stamped(octet, now))]
      ensures Sys().framer == old(Sys().framer)
      ensures SlotsOk(old(Ends()), rxQueue.capacity) &&
              Ends() == Interrupt(old(Ends()), rxQueue.capacity, Stamped(octet, now))
    {
      hide KeepLast, Window, Take, SlotOf, Run, TimesOk, Octets;
      var e := Receive(Stamped(octet, now));
      ghost var before := Sys();
      ghost var head, tail, capacity := rxQueue.head, rxQueue.tail, rxQueue.capacity;
      ghost var times := headerTimestampUs[..];
      LiveSlots(before.queue);
      TailSlot(rxQueue.buffer[..], head, tail, capacity);
      if octet == PACKET_HEADER {
        headerTimestampUs[rxQueue.tail] := now;
      }
      var pushed := rxQueue.Push(octet);
      events := events + [e];
      RunStep(capacity, old(events), e);
      ghost var after := Sys();
      KeepLastOctets(before.queue + [e.s], capacity - 1);
      assert Octets(before.queue + [e.s]) == Octets(before.queue) + [octet];
      TimesAfterPush(before.queue, e.s, head, tail, capacity, times, headerTimestampUs[..]);
    }

    /** parseToFPacket and what follows it, on a full packet. */
    method ParsePacket()
      requires packet.Length == PACKET_LENGTH
      modifies this`latestData, this`dataReady
      ensures var p := packet[..];
              if PacketOk(p) then dataReady && latestData == Decode(p, packetStartTimeUs)
              else dataReady == old(dataReady) && latestData == old(latestData)
    {
      if packet[0] != PACKET_HEADER {
        return;
      }
      var ok := VerifyCheckSum(packet[..]);
      if !ok {
        return;
      }
      var p := packet[..];
      latestData := Reading(p[3], Le32(p, 4), DistRaw(p[8], p[9], p[10]), p[11],
                            (p[12] as int) + 0x100 * (p[13] as int), packetStartTimeUs);
      dataReady := true;
    }

    /** The body of the loop in ToF_ProcessQueue after a successful pop: `slot` is the
        slot the octet came from. */
    method TakeOctet(octet: u8, slot: int, ghost s: Stamped, ghost f: Framer)
      requires Shape() && ValidFramer(f) && PacketKept(f)
      requires s.octet == octet && 0 <= slot < MAX_BUF_SIZE
      requires octet == PACKET_HEADER ==> headerTimestampUs[slot] == s.time
      modifies this`packetIndex, this`packetStartTimeUs, this`latestData, this`dataReady, packet
      ensures Shape() && PacketKept(Take(f, s))
    {
      hide Decode, PacketOk, Window;
      if packetIndex == 0 {
        if octet == PACKET_HEADER {
          packet[packetIndex] := octet;
          packetIndex := packetIndex + 1;
          packetStartTimeUs := headerTimestampUs[slot];
          assert packet[..1] == Octets([s]);
          assert f.pending + [s] == [s];
        }
      } else {
        packet[packetIndex] := octet;
        packetIndex := packetIndex + 1;
        assert packet[..packetIndex] == Octets(f.pending + [s]);
        if packetIndex >= PACKET_LENGTH {
          assert packet[..] == packet[..packetIndex];
          ParsePacket();
          packetIndex := 0;
        }
      }
    }

    /** Interrupts one after the other. */
    method RxAll(arrivals: seq<Stamped>)
      requires Shape() && QueueKept(Sys().queue)
      modifies this`events, rxQueue, rxQueue.buffer, headerTimestampUs
      ensures Shape() && QueueKept(Sys().queue) && rxQueue.capacity == old(rxQueue.capacity)
      ensures events == old(events) + Receives(arrivals)
      ensures Sys().framer == old(Sys().framer)
      ensures SlotsOk(old(Ends()), rxQueue.capacity) &&
              Ends() == Interrupts(old(Ends()), rxQueue.capacity, arrivals)
    {
      hide Interrupt, Run, QueueKept;
      for i := 0 to |arrivals|
        invariant Shape() && QueueKept(Sys().queue) && rxQueue.capacity == old(rxQueue.capacity)
        invariant events == old(events) + Receives(arrivals[..i])
        invariant Sys().framer == old(Sys().framer)
        invariant Ends() == Interrupts(old(Ends()), rxQueue.capacity, arrivals[..i])
      {
        assert arrivals[..i + 1][..i] == arrivals[..i];
        RxHandler(arrivals[i].octet, arrivals[i].time);
      }
      assert arrivals[..|arrivals|] == arrivals;
    }

    /** One iteration of the loop in ToF_ProcessQueue, with interrupts between the pop and
        the look-up of the time: they count as if they came right after the iteration. */
    method ProcessOne(arrivals: seq<Stamped>) returns (more: bool)
      requires Valid()
      requires rxQueue.Contents() != [] && arrivals != [] ==> |rxQueue.Contents()| + |arrivals| <= rxQueue.capacity
      modifies this`events, this`packetIndex, this`packetStartTimeUs, this`latestData, this`dataReady,
               packet, rxQueue, rxQueue.buffer, headerTimestampUs
      ensures Valid() && rxQueue.capacity == old(rxQueue.capacity)
      ensures more <==> old(rxQueue.Contents()) != []
      ensures !more ==> rxQueue.Contents() == []
      ensures events == old(events) + [Iterate] + if more then Receives(arrivals) else []
    {
      hide Window, Take, Run, Octets, TimesOk, Interrupts, Receives, QueueKept, PacketKept, SlotOf;
      ghost var before := Sys();
      ghost var capacity := rxQueue.capacity;
      var octet: u8;
      more, octet := PopOctet();
      if more {
        ghost var popped := Ends();
        RxAll(arrivals);
        TimeSurvives(popped, capacity, |before.queue| - 1, arrivals);
        var slot := Decrement(rxQueue.head, rxQueue.capacity);
        TakeOctet(octet, slot, before.queue[0], before.framer);
      }
    }

    /** The pop of one iteration: afterwards the header's time lies behind head. */
    method PopOctet() returns (more: bool, octet: u8)
      requires Valid()
      modifies this`events, rxQueue
      ensures Shape() && QueueKept(Sys().queue) && rxQueue.capacity == old(rxQueue.capacity)
      ensures events == old(events) + [Iterate]
      ensures more <==> old(rxQueue.Contents()) != []
      ensures more <==> old(Sys().queue) != []
      ensures !more ==> rxQueue.Contents() == [] && Sys() == old(Sys())
      ensures more ==>
                var s := old(Sys().queue)[0];
                && octet == s.octet && Sys().framer == Take(old(Sys().framer), s)
                && |old(Sys().queue)| == |old(rxQueue.Contents())|
                && Holds(Ends(), rxQueue.capacity, |old(Sys().queue)| - 1)
                && (octet == PACKET_HEADER ==> TimeRead(Ends(), rxQueue.capacity) == s.time)
    {
      hide Window, Take, Run, Octets, TimesOk, PacketKept;
      ghost var before := Sys();
      ghost var capacity := rxQueue.capacity;
      TailSlot(rxQueue.buffer[..], rxQueue.head, rxQueue.tail, capacity);
      if before.queue != [] {
        rxQueue.SlotHolds(0);
        TimesAfterPop(before.queue, rxQueue.head, capacity, headerTimestampUs[..]);
        OctetsTail(before.queue);
      }
      more, octet := rxQueue.Pop(0);
      events := events + [Iterate];
      RunStep(capacity, old(events), Iterate);
      TailSlot(rxQueue.buffer[..], rxQueue.head, rxQueue.tail, capacity);
    }

    /** ToF_ProcessQueue: at most maxBytesPerCall iterations, fewer if the queue runs
        empty. */
    method ProcessQueue() returns (ghost iterations: nat)
      requires Valid()
      modifies this`events, this`packetIndex, this`packetStartTimeUs, this`latestData, this`dataReady,
               packet, rxQueue, rxQueue.buffer, headerTimestampUs
      ensures Valid() && rxQueue.capacity == old(rxQueue.capacity)
      ensures events == old(events) + seq(iterations, _ => Iterate)
      ensures iterations >= maxBytesPerCall || rxQueue.Contents() == []
    {
      hide Run, QueueKept, PacketKept, Window;
      var bytesProcessed := 0;
      iterations := 0;
      while bytesProcessed < maxBytesPerCall
        invariant Valid() && rxQueue.capacity == old(rxQueue.capacity)
        invariant events == old(events) + seq(iterations, _ => Iterate)
        invariant bytesProcessed == iterations
      {
        var more := ProcessOne([]);
        iterations := iterations + 1;
        if !more {
          return;
        }
        bytesProcessed := bytesProcessed + 1;
      }
    }

    /** ToF_GetLatestData: the reading published last, once. */
    method GetLatestData() returns (ok: bool, out: Reading)
      requires Valid()
      modifies this`dataReady
      ensures Valid() && !dataReady
      ensures ok == old(dataReady)
      ensures ok ==> var published := Sys().framer.published;
                     published != [] && out == published[|published| - 1]
    {
      ok, out := dataReady, latestData;
      dataReady := false;
    }

    lemma LiveSlots(queue: seq<Stamped>)
      requires Shape() && rxQueue.Contents() == Octets(queue)
      ensures forall i :: 0 <= i < |queue| ==>
                SlotOf(rxQueue.head, rxQueue.capacity, i) != rxQueue.tail &&
                0 <= SlotOf(rxQueue.head, rxQueue.capacity, i) < MAX_BUF_SIZE
    {
    }
  }

  function Receives(arrivals: seq<Stamped>): seq<Event> {
    if arrivals == [] then []
    else Receives(arrivals[..|arrivals| - 1]) + [Receive(arrivals[|arrivals| - 1])]
  }

  lemma RunStep(capacity: nat, events: seq<Event>, e: Event)
    requires capacity > 0
    ensures Run(capacity, events + [e]) == Step(capacity, Run(capacity, events), e)
  {
  }

  lemma KeepLastOctets(s: seq<Stamped>, n: nat)
    ensures KeepLast(Octets(s), n) == Octets(KeepLast(s, n))
  {
  }

  lemma KeptSuffix(queue: seq<Stamped>, s: Stamped, n: nat)
    requires |queue| <= n
    ensures var kept := KeepLast(queue + [s], n);
            var lost := |queue| + 1 - |kept|;
            && 0 <= lost <= 1
            && (forall i :: 0 <= i < |kept| ==> kept[i] == (queue + [s])[i + lost])
  {
  }
}
