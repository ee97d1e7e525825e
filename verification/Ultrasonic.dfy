/** One ultrasonic sensor: queued echo edges are paired and each rise-fall pair feeds
    one distance to the sliding average. */
module Ultrasonic {
  import opened AverageFilter
  import opened MachineTypes
  import opened RingQueue

  const AVG_FILTER_SIZE: int := 5

  datatype EruEvent = EruEvent(pinState: bool, timestampUs: u64)

  /** CALCULATE_DISTANCE, in millimetres; the product is taken to wrap. */
  function Distance(fall: u64, rise: u64): i32 {
    TruncDiv(ToInt32(ToInt32(fall - rise) * 343), 2000)
  }

  /** For echoes of up to 6.26 seconds nothing wraps. */
  lemma DistanceInRange(fall: u64, rise: u64)
    requires 0 <= fall - rise <= 6_260_885
    ensures Distance(fall, rise) == (fall - rise) * 343 / 2000
  {
  }

  /** The distances of an edge sequence: one for every falling edge right behind a rising
      edge with a non-zero time stamp. */
  function Distances(edges: seq<EruEvent>): seq<i32> {
    if edges == [] then []
    else
      var n, e := |edges| - 1, edges[|edges| - 1];
      Distances(edges[..n]) +
      if !e.pinState && n > 0 && edges[n - 1].pinState && edges[n - 1].timestampUs > 0
      then [Distance(e.timestampUs, edges[n - 1].timestampUs)] else []
  }

  class Sensor {
    const queue: Ring<EruEvent>
    const filter: Filter
    var lastRiseTime: u64
    var distRawMm: int
    var distFiltMm: int
    var receivedTimeUs: u64
    var dataReady: bool
    var maxEventsPerCall: int
    /** the edges taken from the queue so far */
    ghost var consumed: seq<EruEvent>

    ghost predicate Valid()
      reads this, queue, queue.buffer, filter, filter.buffer
    {
      && queue.Valid() && filter.Valid() && filter.filterSize > 0
      && filter.history == Distances(consumed)
      && lastRiseTime == (if consumed != [] && consumed[|consumed| - 1].pinState
                          then consumed[|consumed| - 1].timestampUs else 0)
    }

    /** Ultrasonic_Init for one sensor, with a buffer size the queue accepts. */
    constructor (bufferSize: int, maxEvents: int)
      requires 0 < bufferSize <= MAX_BUF_SIZE
      ensures Valid() && consumed == [] && queue.Contents() == [] && queue.capacity == bufferSize
      ensures filter.filterSize == 5 && maxEventsPerCall == maxEvents && !dataReady
      ensures fresh(queue) && fresh(queue.buffer) && fresh(filter) && fresh(filter.buffer)
    {
      var q := new Ring<EruEvent>();
      var ok := q.Init(bufferSize);
      var f := new Filter();
      ok := f.Init(AVG_FILTER_SIZE);
      queue, filter := q, f;
      lastRiseTime, distRawMm, distFiltMm, receivedTimeUs := 0, 0, 0, 0;
      dataReady, maxEventsPerCall, consumed := false, maxEvents, [];
    }

    /** Ultrasonic_EchoHandler: queue an edge; a full queue drops its oldest edge. */
    method EchoHandler(pinState: bool, now: u64)
      requires Valid() && queue.capacity > 0
      modifies queue, queue.buffer
      ensures Valid() && queue.capacity == old(queue.capacity)
      ensures queue.Contents() ==
              KeepLast(old(queue.Contents()) + [EruEvent(pinState, now)], queue.capacity - 1)
    {
      var ok := queue.Push(EruEvent(pinState, now));
    }

    /** The loop body for one edge. */
    method TakeEdge(evt: EruEvent)
      requires Valid()
      modifies this`lastRiseTime, this`distRawMm, this`distFiltMm, this`receivedTimeUs, this`dataReady, this`consumed,
               filter`nextIndex, filter`dataCnt, filter`sum, filter`history, filter.buffer
      ensures Valid() && consumed == old(consumed) + [evt]
      ensures filter.filterSize == old(filter.filterSize)
      ensures if evt.pinState || old(lastRiseTime) == 0 then
                && filter.history == old(filter.history) && dataReady == old(dataReady)
                && (distRawMm, distFiltMm, receivedTimeUs) == old((distRawMm, distFiltMm, receivedTimeUs))
              else
                && filter.history == old(filter.history) + [Distance(evt.timestampUs, old(lastRiseTime))]
                && dataReady && distRawMm == filter.history[|filter.history| - 1]
                && distFiltMm == Mean(KeepLast(filter.history, filter.filterSize))
                && receivedTimeUs == old(lastRiseTime)
    {
      hide Distance, Mean, KeepLast, StateOk;
      consumed := consumed + [evt];
      assert consumed[..|consumed| - 1] == old(consumed);
      if evt.pinState {
        lastRiseTime := evt.timestampUs;
      } else {
        if lastRiseTime > 0 {
          var distRaw := Distance(evt.timestampUs, lastRiseTime);
          var distFilt := filter.Update(distRaw);
          distRawMm, distFiltMm := distRaw, distFilt;
          receivedTimeUs, dataReady := lastRiseTime, true;
        }
        lastRiseTime := 0;
      }
    }

    /** Ultrasonic_ProcessQueue for this sensor: the edges leave the queue in order, at
        most maxEventsPerCall of them, all of them if fewer are queued. */
    method ProcessQueue()
      requires Valid()
      modifies this`lastRiseTime, this`distRawMm, this`distFiltMm, this`receivedTimeUs, this`dataReady, this`consumed,
               filter`nextIndex, filter`dataCnt, filter`sum, filter`history, filter.buffer, queue
      ensures Valid()
      ensures var taken := |consumed| - |old(consumed)|;
              && 0 <= taken <= |old(queue.Contents())|
              && consumed == old(consumed) + old(queue.Contents())[..taken]
              && queue.Contents() == old(queue.Contents())[taken..]
              && (taken == |old(queue.Contents())| || taken == maxEventsPerCall || (taken == 0 && maxEventsPerCall < 0))
    {
      hide Distances, Mean, KeepLast, StateOk, Window;
      var eventsProcessed := 0;
      ghost var before := queue.Contents();
      while eventsProcessed < maxEventsPerCall
        invariant Valid()
        invariant 0 <= eventsProcessed <= |before| && (eventsProcessed <= maxEventsPerCall || eventsProcessed == 0)
        invariant consumed == old(consumed) + before[..eventsProcessed]
        invariant queue.Contents() == before[eventsProcessed..]
      {
        var more, evt := queue.Pop(EruEvent(false, 0));
        if !more {
          break;
        }
        assert evt == before[eventsProcessed];
        TakeEdge(evt);
        eventsProcessed := eventsProcessed + 1;
      }
    }
  }

  /** The rising edge that a sequence leaves open. */
  function OpenRise(edges: seq<EruEvent>): seq<EruEvent> {
    if edges != [] && edges[|edges| - 1].pinState then [edges[|edges| - 1]] else []
  }

  /** However the edges are cut into calls, each pair counts once, also one that is cut
      apart: only the open rising edge is carried over. */
  lemma {:induction false} DistancesConcat(a: seq<EruEvent>, b: seq<EruEvent>)
    ensures Distances(a + b) == Distances(a) + Distances(OpenRise(a) + b)
  {
    hide Distance;
    var carried := OpenRise(a) + b;
    if b == [] {
      assert a + b == a && carried == OpenRise(a);
      assert Distances(OpenRise(a)) == [];
    } else {
      assert (a + b)[..|a + b| - 1] == a + b[..|b| - 1];
      assert carried[..|carried| - 1] == OpenRise(a) + b[..|b| - 1];
      assert (a + b)[|a + b| - 1] == carried[|carried| - 1] == b[|b| - 1];
      DistancesConcat(a, b[..|b| - 1]);
    }
  }

  // ---- What is measured ------------------------------------------------------

  /** Edges among which no falling edge stands right behind a rising one. */
  predicate Quiet(edges: seq<EruEvent>) {
    forall i :: 0 < i < |edges| ==> !edges[i - 1].pinState || edges[i].pinState
  }

  /** One echo pulse and the stray edges before it. */
  datatype Pulse = Pulse(strays: seq<EruEvent>, rise: u64, fall: u64)

  predicate Measurable(p: Pulse) {
    Quiet(p.strays) && p.rise > 0 && 0 <= p.fall - p.rise <= 6_260_885
  }

  function Heard(pulses: seq<Pulse>): seq<EruEvent> {
    if pulses == [] then []
    else
      var p := pulses[|pulses| - 1];
      Heard(pulses[..|pulses| - 1]) + p.strays + [EruEvent(true, p.rise), EruEvent(false, p.fall)]
  }

  /** Sound covers 343 micrometres in a microsecond, there and back: every pulse counts
      once, in order, with half its way in millimetres, and stray edges count for nothing. */
  lemma {:induction false} PulsesMeasured(pulses: seq<Pulse>, strays: seq<EruEvent>)
    requires (forall i :: 0 <= i < |pulses| ==> Measurable(pulses[i])) && Quiet(strays)
    ensures |Distances(Heard(pulses) + strays)| == |pulses|
    ensures forall i :: 0 <= i < |pulses| ==>
              Distances(Heard(pulses) + strays)[i] == (pulses[i].fall - pulses[i].rise) * 343 / 2000
  {
    hide Distance;
    if pulses != [] {
      var init, p := pulses[..|pulses| - 1], pulses[|pulses| - 1];
      PulsesMeasured(init, p.strays);
      OnePulse(Heard(init) + p.strays, p);
      assert Heard(pulses) == Heard(init) + p.strays + [EruEvent(true, p.rise), EruEvent(false, p.fall)];
    }
    StraysCountNothing(Heard(pulses), strays);
  }

  lemma OnePulse(before: seq<EruEvent>, p: Pulse)
    requires Measurable(p)
    ensures Distances(before + [EruEvent(true, p.rise), EruEvent(false, p.fall)])
         == Distances(before) + [(p.fall - p.rise) * 343 / 2000]
  {
    var risen := before + [EruEvent(true, p.rise)];
    var edges := before + [EruEvent(true, p.rise), EruEvent(false, p.fall)];
    assert edges[..|edges| - 1] == risen && risen[..|risen| - 1] == before;
    DistanceInRange(p.fall, p.rise);
    hide Distance;
    assert Distances(risen) == Distances(before);
  }

  lemma {:induction false} StraysCountNothing(heard: seq<EruEvent>, strays: seq<EruEvent>)
    requires Quiet(strays) && (heard != [] ==> !heard[|heard| - 1].pinState)
    ensures Distances(heard + strays) == Distances(heard)
  {
    hide Distance;
    if strays == [] {
      assert heard + strays == heard;
    } else {
      var n, all := |strays| - 1, heard + strays;
      StraysCountNothing(heard, strays[..n]);
      assert all[..|all| - 1] == heard + strays[..n];
    }
  }
}
