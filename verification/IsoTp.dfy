/** ISO 15765-2 segmentation and reassembly as the ECU (can.c) and the tester
    (can_dash.py) implement it, each on its own. Frames carry eight octets. */
module IsoTp {
  import opened MachineTypes

  type Frame = f: seq<u8> | |f| == 8 witness [0, 0, 0, 0, 0, 0, 0, 0]

  function Zeros(n: nat): (r: seq<u8>)
    ensures |r| == n
  {
    seq(n, _ => 0)
  }

  function Pad(s: seq<u8>): Frame
    requires |s| <= 8
  {
    s + Zeros(8 - |s|)
  }

  function Pci(f: Frame): u8 {
    f[0] / 0x10
  }

  function Low(b: u8): u8 {
    b % 0x10
  }

  // ---- Segmentation --------------------------------------------------------

  function SingleFrame(data: seq<u8>): Frame
    requires |data| <= 7
  {
    Pad([|data|] + data)
  }

  function LengthHigh(len: nat): u8 {
    0x10 + (len / 0x100) % 0x10
  }

  /** The length field has twelve bits. */
  function FirstFrame(data: seq<u8>): Frame
    requires |data| >= 6
  {
    [LengthHigh(|data|), |data| % 0x100] + data[..6]
  }

  /** Position behind the k-th consecutive frame. */
  function Upto(k: nat): nat {
    6 + 7 * k
  }

  /** Consecutive frames of a message of `len` octets: seven octets each, rounded up,
      after the six of the First Frame. */
  function Count(len: nat): nat
    requires len >= 6
  {
    len / 7
  }

  lemma CountExact(len: nat, k: nat)
    requires len >= 6
    ensures Upto(k) < len <==> k < Count(len)
  {
  }

  /** The sequence number of the k-th consecutive frame: 1, 2, ..., 15, 0, 1, ... */
  function Sn(k: nat): u8 {
    (k + 1) % 0x10
  }

  lemma SnStep(k: nat)
    ensures Sn(k) < 0x10 && (Sn(k) + 1) % 0x10 == Sn(k + 1)
  {
  }

  function Consecutive(data: seq<u8>, k: nat): Frame
    requires Upto(k) < |data|
  {
    Pad([0x20 + Sn(k)] + data[Upto(k)..Min(Upto(k + 1), |data|)])
  }

  /** First Frame and Consecutive Frames. */
  function MultiFrame(data: seq<u8>): seq<Frame>
    requires |data| >= 6
  {
    [FirstFrame(data)] + ConsecutiveFrames(data, Count(|data|))
  }

  function ConsecutiveFrames(data: seq<u8>, n: nat): (r: seq<Frame>)
    requires |data| >= 6 && n <= Count(|data|)
    ensures |r| == n
  {
    if n == 0 then [] else ConsecutiveFrames(data, n - 1) + [Consecutive(data, n - 1)]
  }

  lemma {:induction false} ConsecutiveAt(data: seq<u8>, n: nat, k: nat)
    requires |data| >= 6 && k < n <= Count(|data|)
    ensures ConsecutiveFrames(data, n)[k] == Consecutive(data, k)
  {
    if k < n - 1 {
      ConsecutiveAt(data, n - 1, k);
    }
  }

  function Segment(data: seq<u8>): seq<Frame> {
    if |data| <= 7 then [SingleFrame(data)] else MultiFrame(data)
  }

  /** Octet i of frame k of a message, as the standard lays the frames out. */
  function WireOctet(data: seq<u8>, k: nat, i: nat): u8
    requires i < 8
  {
    if |data| <= 7 then
      if i == 0 then |data| else if i <= |data| then data[i - 1] else 0
    else if k == 0 then
      if i == 0 then 16 + (|data| / 256) % 16 else if i == 1 then |data| % 256 else data[i - 2]
    else if i == 0 then 32 + k % 16
    else if 7 * k + i - 2 < |data| then data[7 * k + i - 2] else 0
  }

  /** Every octet of every frame, and how many frames there are: 6 octets travel in the
      first and 7 in each other one. */
  lemma WireFormat(data: seq<u8>)
    ensures |data| <= 7 ==> |Segment(data)| == 1
    ensures |data| > 7 ==> 6 + 7 * (|Segment(data)| - 2) < |data| <= 6 + 7 * (|Segment(data)| - 1)
    ensures forall k, i :: 0 <= k < |Segment(data)| && 0 <= i < 8 ==> Segment(data)[k][i] == WireOctet(data, k, i)
  {
    hide Count, Consecutive, ConsecutiveFrames, WireOctet;
    forall k, i | 0 <= k < |Segment(data)| && 0 <= i < 8
      ensures Segment(data)[k][i] == WireOctet(data, k, i)
    {
      if k == 0 {
        LeadingOctet(data, i);
      } else {
        ConsecutiveAt(data, Count(|data|), k - 1);
        FollowingOctet(data, k, i);
      }
    }
    if |data| > 7 {
      CountBounds(|data|);
    }
  }

  lemma LeadingOctet(data: seq<u8>, i: nat)
    requires i < 8
    ensures Segment(data)[0][i] == WireOctet(data, 0, i)
  {
  }

  lemma FollowingOctet(data: seq<u8>, k: nat, i: nat)
    requires |data| > 7 && 1 <= k <= Count(|data|) && i < 8
    ensures Upto(k - 1) < |data| && Consecutive(data, k - 1)[i] == WireOctet(data, k, i)
  {
  }

  lemma CountBounds(len: nat)
    requires len > 7
    ensures 6 + 7 * (Count(len) - 1) < len <= 6 + 7 * Count(len)
  {
  }

  method BuildSingle(data: seq<u8>) returns (frame: Frame)
    requires |data| <= 7
    ensures frame == SingleFrame(data)
  {
    var sf := new u8[8](_ => 0);
    sf[0] := |data|;
    for i := 0 to |data|
      invariant sf[0] == |data|
      invariant forall j :: 0 <= j < i ==> sf[j + 1] == data[j]
      invariant forall j :: i < j < 8 ==> sf[j] == 0
    {
      sf[i + 1] := data[i];
    }
    frame := sf[..];
  }

  method BuildFirst(data: seq<u8>) returns (frame: Frame)
    requires |data| >= 6
    ensures frame == FirstFrame(data)
  {
    var ff := new u8[8](_ => 0);
    ff[0] := LengthHigh(|data|);
    ff[1] := |data| % 0x100;
    for i := 0 to 6
      invariant ff[0] == LengthHigh(|data|) && ff[1] == |data| % 0x100
      invariant forall j :: 0 <= j < i ==> ff[j + 2] == data[j]
    {
      ff[i + 2] := data[i];
    }
    frame := ff[..];
  }

  /** The inner loop of Can_TpSend: copy until the frame or the message ends. */
  method BuildConsecutive(data: seq<u8>, from: nat, sn: u8) returns (frame: Frame, sent: nat)
    requires from < |data| && sn < 0x10
    ensures sent == Min(from + 7, |data|)
    ensures frame == Pad([0x20 + sn] + data[from..sent])
  {
    var cf := new u8[8](_ => 0);
    cf[0] := 0x20 + sn;
    sent := from;
    var i := 1;
    while i < 8 && sent < |data|
      invariant 1 <= i <= 8 && sent == from + i - 1 <= |data|
      invariant cf[0] == 0x20 + sn
      invariant forall j :: 1 <= j < i ==> cf[j] == data[from + j - 1]
      invariant forall j :: i <= j < 8 ==> cf[j] == 0
    {
      cf[i] := data[sent];
      i, sent := i + 1, sent + 1;
    }
    frame := cf[..];
  }

  /** Can_TpSend; `bus` collects what Can_SendMsg transmits. */
  method CanTpSend(data: seq<u8>) returns (bus: seq<Frame>)
    ensures bus == Segment(data)
  {
    var frame: Frame;
    if |data| <= 7 {
      frame := BuildSingle(data);
      return [frame];
    }
    frame := BuildFirst(data);
    bus := [frame];
    var sent: nat, sn: u8 := 6, 1;
    ghost var k := 0;
    assert Sn(0) == 1 && ConsecutiveFrames(data, 0) == [];
    CountExact(|data|, 0);
    hide Sn, Count, LengthHigh, FirstFrame, Pad;
    while sent < |data|
      invariant if sent < |data| then sent == Upto(k) && k < Count(|data|) else k == Count(|data|)
      invariant sn == Sn(k)
      invariant bus == [FirstFrame(data)] + ConsecutiveFrames(data, k)
      decreases |data| - sent
    {
      SnStep(k);
      frame, sent := BuildConsecutive(data, sent, sn);
      assert frame == Consecutive(data, k);
      bus := bus + [frame];
      sn := NextSn(sn);
      k := k + 1;
      CountExact(|data|, k);
    }
  }

  method NextSn(sn: u8) returns (r: u8)
    requires sn < 0x10
    ensures r == (sn + 1) % 0x10
  {
    r := sn + 1;
    if r > 15 {
      r := 0;
    }
  }

  // ---- The tester's transmission -------------------------------------------

  /** Flow status and block size of the flow control frame that answered the First
      Frame, or none in time. */
  datatype FlowControl = NoFlow | Flow(status: u8, blockSize: u8)

  /** The wait for the g-th block is the first one that fails. */
  predicate FirstRefused(grants: nat -> bool, g: nat) {
    !grants(g) && forall i: nat :: i < g ==> grants(i)
  }

  /** send_uds_tp_write: the First Frame goes out first; without a flow control frame that
      clears the way it stays alone. Blocks of no size end nowhere; otherwise the transfer
      stops after the block whose successor's wait fails first (`grants` says which waits
      succeed), and goes through if every wait it reaches succeeds. */
  method SendUdsTpWrite(data: seq<u8>, flow: FlowControl, grants: nat -> bool) returns (bus: seq<Frame>)
    requires 6 <= |data| < 0x1000
    ensures bus <= MultiFrame(data) && bus != []
    ensures flow.NoFlow? || flow.status % 0x10 != 0 ==> bus == [FirstFrame(data)]
    ensures flow.Flow? && flow.status % 0x10 == 0 && flow.blockSize == 0 ==> bus == MultiFrame(data)
    ensures flow.Flow? && flow.status % 0x10 == 0 && flow.blockSize > 0 ==>
              && (forall g: nat :: FirstRefused(grants, g) ==>
                    bus == [FirstFrame(data)] +
                           ConsecutiveFrames(data, Min(Count(|data|), flow.blockSize * (g + 1))))
              && ((forall i: nat :: flow.blockSize * (i + 1) < Count(|data|) ==> grants(i)) ==> bus == MultiFrame(data))
  {
    var ff: Frame := [LengthHigh(|data|), |data| % 0x100] + data[..6];
    bus := [ff];
    if flow.NoFlow? || Low(flow.status) != 0 {
      return;
    }
    var cfs := SendBlocks(data, flow.blockSize, grants);
    bus := bus + cfs;
    ConsecutivePrefix(data, |cfs|);
  }

  /** Of `count` frames, the blocks before the first wait that fails go out, or all. */
  ghost predicate StopsAt(count: nat, size: nat, grants: nat -> bool, sent: nat) {
    && (forall g: nat :: FirstRefused(grants, g) ==> sent == Min(count, size * (g + 1)))
    && ((forall i: nat :: size * (i + 1) < count ==> grants(i)) ==> sent == count)
  }

  /** The while loop of send_uds_tp_write, which also ends at a wait that fails. */
  method SendBlocks(data: seq<u8>, blockSize: nat, grants: nat -> bool) returns (bus: seq<Frame>)
    requires |data| >= 6
    ensures |bus| <= Count(|data|) && bus == ConsecutiveFrames(data, |bus|)
    ensures blockSize == 0 ==> |bus| == Count(|data|)
    ensures blockSize > 0 ==> StopsAt(Count(|data|), blockSize, grants, |bus|)
  {
    bus := [];
    var sent: nat, sn: u8, blk := 6, 1, 0;
    var waits: nat := 0;
    assert Sn(0) == 1;
    CountExact(|data|, 0);
    hide Sn, Count, Pad, ConsecutiveFrames, StopsAt;
    while sent < |data|
      invariant if sent < |data| then sent == Upto(|bus|) && |bus| < Count(|data|) else |bus| == Count(|data|)
      invariant sn == Sn(|bus|)
      invariant bus == ConsecutiveFrames(data, |bus|)
      invariant blockSize > 0 ==> |bus| == blockSize * waits + blk && 0 <= blk <= blockSize
      invariant blockSize > 0 && sent < |data| ==> blk < blockSize
      invariant forall i: nat :: i < waits ==> grants(i)
    {
      ghost var k := |bus|;
      SnStep(k);
      var payloadSize := Min(7, |data| - sent);
      var cf: Frame := Pad([0x20 + sn] + data[sent..sent + payloadSize]);
      FrameOf(data, k, payloadSize);
      bus := bus + [cf];
      sent := sent + payloadSize;
      sn, blk := (sn + 1) % 0x10, blk + 1;
      CountExact(|data|, k + 1);
      if blockSize != 0 && blk >= blockSize && sent < |data| {
        blk := 0;
        BlockDone(blockSize, waits);
        if !grants(waits) {
          Stopped(Count(|data|), blockSize, grants, waits);
          return;
        }
        waits := waits + 1;
      }
    }
    if blockSize > 0 {
      Through(Count(|data|), blockSize, grants, waits, blk);
    }
  }

  lemma Stopped(count: nat, size: nat, grants: nat -> bool, waits: nat)
    requires size * (waits + 1) < count && !grants(waits) && forall i: nat :: i < waits ==> grants(i)
    ensures StopsAt(count, size, grants, size * (waits + 1))
  {
    assert forall g: nat :: FirstRefused(grants, g) ==> g == waits;
  }

  lemma Through(count: nat, size: nat, grants: nat -> bool, waits: nat, blk: nat)
    requires size * waits + blk == count && blk <= size && forall i: nat :: i < waits ==> grants(i)
    ensures StopsAt(count, size, grants, count)
  {
    forall g: nat | FirstRefused(grants, g)
      ensures count <= size * (g + 1)
    {
      BlocksBefore(size, waits, blk, g);
    }
  }

  lemma FrameOf(data: seq<u8>, k: nat, size: nat)
    requires |data| >= 6 && Upto(k) < |data| && size == Min(7, |data| - Upto(k))
    ensures k < Count(|data|)
    ensures ConsecutiveFrames(data, k + 1)
         == ConsecutiveFrames(data, k) + [Pad([0x20 + Sn(k)] + data[Upto(k)..Upto(k) + size])]
  {
  }

  lemma BlockDone(size: nat, waits: nat)
    ensures size * waits + size == size * (waits + 1)
  {
  }

  lemma BlocksBefore(size: nat, waits: nat, blk: nat, g: nat)
    requires waits <= g && blk <= size
    ensures size * waits + blk <= size * (g + 1)
  {
    if waits < g {
      BlocksBefore(size, waits, blk, g - 1);
    }
  }

  lemma {:induction false} ConsecutivePrefix(data: seq<u8>, k: nat)
    requires |data| >= 6 && k <= Count(|data|)
    ensures [FirstFrame(data)] + ConsecutiveFrames(data, k) <= MultiFrame(data)
    decreases Count(|data|) - k
  {
    if k < Count(|data|) {
      ConsecutivePrefix(data, k + 1);
    }
  }

  // ---- The tester's reassembly ---------------------------------------------

  /** Local variables of the frame loop in parse_uds_response; `seqErrors` counts its
      sequence warnings. */
  datatype Rx = Rx(payload: seq<u8>, total: nat, snExpected: nat, gotFf: bool, seqErrors: nat)

  const RX_START: Rx := Rx([], 0, 1, false, 0)

  function TotalLen(f: Frame): nat {
    0x100 * (Low(f[0]) as int) + f[1]
  }

  /** One turn of the loop. */
  function Collect(rx: Rx, f: Frame, posSid: u8): Rx {
    if Pci(f) == 0 then
      if f[1] == posSid then rx.(payload := rx.payload + f[1..Min(1 + Low(f[0]), 8)]) else rx
    else if Pci(f) == 1 then
      rx.(total := TotalLen(f), payload := rx.payload + f[2..8], snExpected := 1, gotFf := true)
    else if Pci(f) == 2 && rx.gotFf then
      var left := rx.total - |rx.payload|;
      var payload := if left > 0 then rx.payload + f[1..1 + Min(7, left)] else rx.payload;
      rx.(seqErrors := rx.seqErrors + if Low(f[0]) != Low16(rx.snExpected) then 1 else 0,
          snExpected := (rx.snExpected + 1) % 0x10, payload := payload, gotFf := |payload| < rx.total)
    else rx
  }

  function Low16(n: nat): nat {
    n % 0x10
  }

  function CollectAll(frames: seq<Frame>, posSid: u8): Rx {
    if frames == [] then RX_START
    else Collect(CollectAll(frames[..|frames| - 1], posSid), frames[|frames| - 1], posSid)
  }

  /** The loop of parse_uds_response that rebuilds the payload. */
  method Reassemble(frames: seq<Frame>, posSid: u8) returns (payload: seq<u8>, seqErrors: nat)
    ensures payload == CollectAll(frames, posSid).payload
    ensures seqErrors == CollectAll(frames, posSid).seqErrors
  {
    payload, seqErrors := [], 0;
    var totalLen: nat, snExpected: nat, gotFf := 0, 1, false;
    for i := 0 to |frames|
      invariant Rx(payload, totalLen, snExpected, gotFf, seqErrors) == CollectAll(frames[..i], posSid)
    {
      assert frames[..i + 1][..i] == frames[..i];
      var d := frames[i];
      var pciType := Pci(d);
      if pciType == 3 {
        continue;
      }
      if pciType == 0 {
        var sfLen := Low(d[0]);
        if d[1] == posSid {
          payload := payload + d[1..Min(1 + sfLen, 8)];
        }
        continue;
      }
      if pciType == 1 {
        totalLen := TotalLen(d);
        payload := payload + d[2..8];
        snExpected, gotFf := 1, true;
        continue;
      }
      if pciType == 2 && gotFf {
        if Low(d[0]) != snExpected % 0x10 {
          seqErrors := seqErrors + 1;
        }
        snExpected := (snExpected + 1) % 0x10;
        var bytesLeft := totalLen - |payload|;
        var bytesToCopy := Min(7, bytesLeft);
        if bytesToCopy > 0 {
          payload := payload + d[1..1 + bytesToCopy];
        }
        if |payload| >= totalLen {
          gotFf := false;
        }
      }
    }
    assert frames[..|frames|] == frames;
  }

  /** A trace without its flow control frames. */
  function DropFlow(frames: seq<Frame>): seq<Frame> {
    if frames == [] then []
    else
      var init, f := DropFlow(frames[..|frames| - 1]), frames[|frames| - 1];
      if Pci(f) == 3 then init else init + [f]
  }

  lemma {:induction false} FlowIgnored(frames: seq<Frame>, posSid: u8)
    ensures CollectAll(frames, posSid) == CollectAll(DropFlow(frames), posSid)
  {
    if frames != [] {
      FlowIgnored(frames[..|frames| - 1], posSid);
      hide Collect;
      var init := DropFlow(frames[..|frames| - 1]);
      assert (init + [frames[|frames| - 1]])[..|init|] == init;
      FlowStep(CollectAll(init, posSid), frames[|frames| - 1], posSid);
    }
  }

  lemma FlowStep(rx: Rx, f: Frame, posSid: u8)
    ensures Pci(f) == 3 ==> Collect(rx, f, posSid) == rx
  {
  }

  // ---- Sequence warnings -----------------------------------------------------

  /** How many of the first n consecutive frames bear a number that is not their place. */
  function OutOfTurn(frames: seq<Frame>, n: nat): nat
    requires n < |frames|
  {
    if n == 0 then 0 else OutOfTurn(frames, n - 1) + if frames[n][0] % 16 != n % 16 then 1 else 0
  }

  /** The octets of the First Frame and the next n frames, in order of arrival. */
  function Carried(frames: seq<Frame>, n: nat): (r: seq<u8>)
    requires n < |frames|
    ensures |r| == 6 + 7 * n
  {
    if n == 0 then frames[0][2..] else Carried(frames, n - 1) + frames[n][1..]
  }

  predicate FirstThenConsecutive(frames: seq<Frame>) {
    frames != [] && frames[0][0] / 16 == 1 && forall i :: 1 <= i < |frames| ==> frames[i][0] / 16 == 2
  }

  /** The consecutive frames that a First Frame with this length waits for. */
  function Awaited(total: nat): nat {
    if total < 7 then 1 else total / 7
  }

  /** What the tester holds of the frames behind a First Frame. */
  predicate HoldsFirst(rx: Rx, frames: seq<Frame>, n: nat, total: nat)
    requires n < |frames|
  {
    && rx.seqErrors == OutOfTurn(frames, n)
    && rx.payload == Carried(frames, n)[..Min(6 + 7 * n, if total < 6 then 6 else total)]
    && rx.total == total && (rx.gotFf <==> n == 0 || 6 + 7 * n < total)
    && (rx.gotFf ==> n == |frames| - 1 && rx.snExpected == (n + 1) % 16)
  }

  /** Whatever numbers the frames behind a First Frame bear, the tester strings their
      octets together in order of arrival up to the announced length, counts one warning
      for each number that is not the frame's place, and ignores the frames after that. */
  lemma {:induction false} Warnings(frames: seq<Frame>, posSid: u8)
    requires FirstThenConsecutive(frames)
    ensures var total := 256 * (frames[0][0] % 16) as int + frames[0][1];
            HoldsFirst(CollectAll(frames, posSid), frames, Min(|frames| - 1, Awaited(total)), total)
  {
    var last := |frames| - 1;
    hide OutOfTurn, Carried, Collect, Awaited;
    if last == 0 {
      FirstHeld(frames, posSid);
    } else {
      Warnings(frames[..last], posSid);
      hide CollectAll;
      var total := 256 * (frames[0][0] % 16) as int + frames[0][1];
      SameFrames(frames, Min(last - 1, Awaited(total)));
      assert frames == frames[..last] + [frames[last]];
      WarningStep(frames[..last], frames[last], CollectAll(frames[..last], posSid), total, posSid);
      OneMoreCollected(frames, posSid);
    }
  }

  lemma OneMoreCollected(frames: seq<Frame>, posSid: u8)
    requires frames != []
    ensures CollectAll(frames, posSid)
         == Collect(CollectAll(frames[..|frames| - 1], posSid), frames[|frames| - 1], posSid)
  {
  }

  lemma FirstHeld(frames: seq<Frame>, posSid: u8)
    requires FirstThenConsecutive(frames) && |frames| == 1
    ensures HoldsFirst(CollectAll(frames, posSid), frames, 0, 256 * (frames[0][0] % 16) as int + frames[0][1])
  {
    assert frames[..0] == [];
  }

  lemma AwaitedBounds(total: nat, m: nat)
    ensures m >= Awaited(total) ==> m > 0 && 6 + 7 * m >= total
    ensures m < Awaited(total) ==> m == 0 || 6 + 7 * m < total
  {
  }

  lemma WarningStep(init: seq<Frame>, f: Frame, rx: Rx, total: nat, posSid: u8)
    requires init != [] && f[0] / 16 == 2
    requires HoldsFirst(rx, init, Min(|init| - 1, Awaited(total)), total)
    requires var n := Min(|init| - 1, Awaited(total));
             OutOfTurn(init + [f], n) == OutOfTurn(init, n) && Carried(init + [f], n) == Carried(init, n)
    ensures HoldsFirst(Collect(rx, f, posSid), init + [f], Min(|init|, Awaited(total)), total)
  {
    var n := |init| - 1;
    hide Awaited;
    AwaitedBounds(total, n);
    if n < Awaited(total) {
      WarningTaken(init, f, rx, total, posSid);
    } else {
      AwaitedBounds(total, Awaited(total));
      hide OutOfTurn, Carried;
      assert Collect(rx, f, posSid) == rx;
    }
  }

  lemma WarningTaken(init: seq<Frame>, f: Frame, rx: Rx, total: nat, posSid: u8)
    requires init != [] && f[0] / 16 == 2 && (|init| == 1 || 6 + 7 * (|init| - 1) < total)
    requires HoldsFirst(rx, init, |init| - 1, total)
    requires OutOfTurn(init + [f], |init| - 1) == OutOfTurn(init, |init| - 1)
    requires Carried(init + [f], |init| - 1) == Carried(init, |init| - 1)
    ensures HoldsFirst(Collect(rx, f, posSid), init + [f], |init|, total)
  {
    var n := |init| - 1;
    OneMoreCarried(init, f);
    TakenValues(rx, f, n, Carried(init, n), total, posSid);
    hide OutOfTurn, Carried, Collect;
  }

  lemma TakenValues(rx: Rx, f: Frame, n: nat, carried: seq<u8>, total: nat, posSid: u8)
    requires rx.gotFf && f[0] / 16 == 2 && |carried| == 6 + 7 * n && (n == 0 || |carried| < total)
    requires rx.payload == carried && rx.total == total && rx.snExpected == (n + 1) % 16
    ensures var next := Collect(rx, f, posSid);
            && next.seqErrors == rx.seqErrors + (if f[0] % 16 != (n + 1) % 16 then 1 else 0)
            && next.payload == (carried + f[1..])[..Min(|carried| + 7, if total < 6 then 6 else total)]
            && next.total == total && (next.gotFf <==> |carried| + 7 < total) && next.snExpected == (n + 2) % 16
  {
    PlaceStep(n);
    TakenFields(rx, f, posSid);
    hide Collect;
    Glued(carried, f[1..], if total < 6 then 6 else total);
  }

  lemma PlaceStep(n: nat)
    ensures ((n + 1) % 16) % 16 == (n + 1) % 16 && ((n + 1) % 16 + 1) % 16 == (n + 2) % 16
  {
  }

  lemma Glued(a: seq<u8>, b: seq<u8>, limit: nat)
    requires |a| <= limit
    ensures (a + b)[..Min(|a| + |b|, limit)] == a + b[..Min(|b|, limit - |a|)]
  {
  }

  lemma OneMoreCarried(init: seq<Frame>, f: Frame)
    requires init != []
    ensures var n := |init| - 1;
            && OutOfTurn(init + [f], n + 1) == OutOfTurn(init + [f], n) + (if f[0] % 16 != (n + 1) % 16 then 1 else 0)
            && Carried(init + [f], n + 1) == Carried(init + [f], n) + f[1..]
  {
  }

  lemma TakenFields(rx: Rx, f: Frame, posSid: u8)
    requires rx.gotFf && f[0] / 16 == 2
    ensures var next, left := Collect(rx, f, posSid), rx.total - |rx.payload|;
            && next.total == rx.total && next.snExpected == (rx.snExpected + 1) % 16
            && next.seqErrors == rx.seqErrors + (if f[0] % 16 != rx.snExpected % 16 then 1 else 0)
            && next.payload == rx.payload + (if left > 0 then f[1..][..Min(7, left)] else [])
            && (next.gotFf <==> |next.payload| < rx.total)
  {
  }

  lemma {:induction false} SameFrames(frames: seq<Frame>, n: nat)
    requires n < |frames| - 1
    ensures OutOfTurn(frames, n) == OutOfTurn(frames[..|frames| - 1], n)
    ensures Carried(frames, n) == Carried(frames[..|frames| - 1], n)
  {
    if n > 0 {
      SameFrames(frames, n - 1);
    }
  }

  // ---- Round trip ----------------------------------------------------------

  /** The octets of a message that its twelve-bit length field lets through. */
  function Kept(len: nat): nat
    requires len >= 6
  {
    if len % 0x1000 < 6 then 6 else len % 0x1000
  }

  lemma LengthField(data: seq<u8>)
    requires |data| >= 6
    ensures Pci(FirstFrame(data)) == 1 && TotalLen(FirstFrame(data)) == |data| % 0x1000
    ensures FirstFrame(data)[2..8] == data[..6]
  {
    LengthHalves(|data|);
  }

  lemma LengthHalves(len: nat)
    ensures LengthHigh(len) / 0x10 == 1
    ensures 0x100 * (Low(LengthHigh(len)) as int) + len % 0x100 == len % 0x1000
  {
    var hi, lo := len / 0x100, len % 0x100;
    HighHalf(hi % 0x10);
    TwelveBits(len, hi / 0x10, 0x100 * (hi % 0x10) + lo);
  }

  lemma HighHalf(h: nat)
    requires h < 0x10
    ensures (0x10 + h) / 0x10 == 1 && (0x10 + h) % 0x10 == h
  {
  }

  lemma TwelveBits(len: nat, q: nat, r: nat)
    requires len == 0x1000 * q + r && r < 0x1000
    ensures len % 0x1000 == r
  {
  }

  lemma FrameFields(data: seq<u8>, k: nat, m: nat)
    requires Upto(k) < |data| && m <= 7 && Upto(k) + m <= |data|
    ensures var f := Consecutive(data, k);
            Pci(f) == 2 && Low(f[0]) == Sn(k) && f[1..1 + m] == data[Upto(k)..Upto(k) + m]
  {
    var f, last := Consecutive(data, k), Min(Upto(k + 1), |data|);
    var body := [0x20 + Sn(k)] + data[Upto(k)..last];
    assert f == body + Zeros(8 - |body|) && |body| >= 1 + m;
    var carried, part := f[1..1 + m], data[Upto(k)..Upto(k) + m];
    forall i | 0 <= i < m
      ensures carried[i] == part[i]
    {
      assert f[1 + i] == body[1 + i] == data[Upto(k) + i];
    }
    assert carried == part;
  }

  lemma AfterFirst(data: seq<u8>, posSid: u8)
    requires |data| >= 6
    ensures var rx := CollectAll([FirstFrame(data)], posSid);
            rx == Rx(data[..6], |data| % 0x1000, Sn(0), true, 0) && 6 <= Kept(|data|)
  {
    hide Count, LengthHigh, TotalLen;
    LengthField(data);
    var frames := [FirstFrame(data)];
    assert frames[..0] == [];
  }

  /** What the tester holds after the First Frame and k Consecutive Frames. */
  lemma {:induction false} AfterFrames(data: seq<u8>, k: nat, posSid: u8)
    requires |data| >= 6 && k <= Count(|data|)
    ensures var rx := CollectAll([FirstFrame(data)] + ConsecutiveFrames(data, k), posSid);
            && rx.payload == data[..Min(Min(Upto(k), Kept(|data|)), |data|)]
            && rx.total == |data| % 0x1000 && rx.seqErrors == 0
            && (rx.gotFf <==> k == 0 || Upto(k) < rx.total)
            && (rx.gotFf ==> rx.snExpected == Sn(k))
  {
    hide FirstFrame, Consecutive, Count, Sn, Collect;
    var frames := [FirstFrame(data)] + ConsecutiveFrames(data, k);
    if k == 0 {
      AfterFirst(data, posSid);
      assert frames == [FirstFrame(data)];
    } else {
      AfterFrames(data, k - 1, posSid);
      CountExact(|data|, k - 1);
      assert frames[..k] == [FirstFrame(data)] + ConsecutiveFrames(data, k - 1);
      assert frames[k] == Consecutive(data, k - 1);
      SnStep(k - 1);
      FrameFields(data, k - 1, Min(7, |data| - Upto(k - 1)));
      FrameStep(CollectAll(frames[..k], posSid), data, k - 1, posSid);
    }
  }

  lemma FirstSn()
    ensures Sn(0) == 1
  {
  }

  lemma FrameStep(rx: Rx, data: seq<u8>, k: nat, posSid: u8)
    requires |data| >= 6 && Upto(k) < |data|
    requires rx.payload == data[..Min(Upto(k), Kept(|data|))]
    requires rx.total == |data| % 0x1000
    requires rx.gotFf <==> k == 0 || Upto(k) < rx.total
    requires rx.gotFf ==> rx.snExpected == Sn(k)
    ensures var next := Collect(rx, Consecutive(data, k), posSid);
            && next.payload == data[..Min(Min(Upto(k + 1), Kept(|data|)), |data|)]
            && next.total == rx.total && next.seqErrors == rx.seqErrors
            && (next.gotFf <==> Upto(k + 1) < rx.total)
            && (next.gotFf ==> next.snExpected == Sn(k + 1))
  {
    hide Consecutive, Sn;
    SnStep(k);
    FrameFields(data, k, 0);
    if rx.gotFf && rx.total > |rx.payload| {
      FrameFields(data, k, Min(7, rx.total - |rx.payload|));
    }
  }

  /** ISO-TP round trip: the tester rebuilds every response of at least eight octets
      from the ECU's frames, with flow control frames anywhere between them and
      without a sequence warning, exactly when the length fits into twelve bits. */
  lemma RoundTrip(data: seq<u8>, frames: seq<Frame>, posSid: u8)
    requires |data| >= 8 && DropFlow(frames) == Segment(data)
    ensures var rx := CollectAll(frames, posSid);
            && rx.payload == data[..Kept(|data|)] && rx.seqErrors == 0
            && (rx.payload == data <==> |data| <= 0xfff)
  {
    hide Count, Kept, FirstFrame, ConsecutiveFrames, CollectAll, DropFlow;
    FlowIgnored(frames, posSid);
    AfterFrames(data, Count(|data|), posSid);
    CountExact(|data|, Count(|data|));
    KeptExact(|data|);
  }

  lemma KeptExact(len: nat)
    requires len >= 8
    ensures Kept(len) <= len && (Kept(len) == len <==> len <= 0xfff)
  {
  }

  /** A response of up to seven octets travels in a Single Frame; the tester takes it
      exactly when it starts with the expected service. */
  lemma RoundTripSingle(data: seq<u8>, frames: seq<Frame>, posSid: u8)
    requires 1 <= |data| <= 7 && DropFlow(frames) == Segment(data)
    ensures CollectAll(frames, posSid).payload == if data[0] == posSid then data else []
  {
    FlowIgnored(frames, posSid);
    var f := SingleFrame(data);
    assert [f][..0] == [];
    assert f[1..1 + |data|] == data;
  }
}
