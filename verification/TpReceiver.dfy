/** Can_TpRx, the ECU's reassembly of a request, and what an unreliable bus can make
    of it. */
module TpReceiver {
  import opened IsoTp
  import opened MachineTypes

  const BUF_SIZE: nat := 256

  /** The longest message whose seven-octet copies stay inside tpBuf. */
  const MAX_MESSAGE: nat := 251

  /** The static variables of can.c. `dispatched` lists the requests handed to
      UDS_Dispatch_CompletedPdu, `flowControls` counts the flow control frames sent. */
  datatype Tp = Tp(buf: seq<u8>, len: nat, expected: nat, active: bool, nextSn: nat,
                   dispatched: seq<seq<u8>>, flowControls: nat)

  predicate ValidTp(tp: Tp) {
    && |tp.buf| == BUF_SIZE
    && (tp.active ==> tp.expected <= MAX_MESSAGE && tp.len % 7 == 6 && (tp.len == 6 || tp.len < tp.expected))
  }

  /** Only first frames that announce a message fitting into tpBuf. */
  predicate Fits(f: Frame) {
    Pci(f) == 1 ==> TotalLen(f) <= MAX_MESSAGE
  }

  function Splice(buf: seq<u8>, at: nat, data: seq<u8>): seq<u8>
    requires at + |data| <= |buf|
  {
    buf[..at] + data + buf[at + |data|..]
  }

  function Receive(tp: Tp, f: Frame): (r: Tp)
    requires ValidTp(tp) && Fits(f)
    ensures ValidTp(r)
  {
    if Pci(f) == 1 then
      Tp(Splice(tp.buf, 0, f[2..8]), 6, TotalLen(f), true, 1, tp.dispatched, tp.flowControls + 1)
    else if Pci(f) == 2 && tp.active then
      var tp := if Low(f[0]) == tp.nextSn
                then tp.(buf := Splice(tp.buf, tp.len, f[1..8]), len := tp.len + 7, nextSn := (tp.nextSn + 1) % 0x10)
                else tp;
      if tp.len >= tp.expected then tp.(active := false, dispatched := tp.dispatched + [tp.buf[..tp.expected]])
      else tp
    else tp
  }

  class Receiver {
    var tpBuf: array<u8>
    var tpLen: nat
    var tpExpected: nat
    var tpActive: bool
    var tpNextSn: nat
    var dispatched: seq<seq<u8>>
    var flowControls: nat

    ghost function Abs(): Tp
      reads this, tpBuf
    {
      Tp(tpBuf[..], tpLen, tpExpected, tpActive, tpNextSn, dispatched, flowControls)
    }

    ghost predicate Valid()
      reads this, tpBuf
    {
      ValidTp(Abs())
    }

    constructor ()
      ensures Valid() && fresh(tpBuf) && tpBuf.Length == 256
      ensures Abs() == Tp(Zeros(BUF_SIZE), 0, 0, false, 1, [], 0)
    {
      tpBuf := new u8[BUF_SIZE](_ => 0);
      tpLen, tpExpected, tpActive, tpNextSn := 0, 0, false, 1;
      dispatched, flowControls := [], 0;
      new;
      assert tpBuf[..] == Zeros(BUF_SIZE);
    }

    /** memcpy(tpBuf + at, data, n) */
    method Copy(at: nat, data: seq<u8>)
      requires at + |data| <= tpBuf.Length
      modifies tpBuf
      ensures tpBuf[..] == Splice(old(tpBuf[..]), at, data)
    {
      for i := 0 to |data|
        invariant forall j :: 0 <= j < tpBuf.Length ==>
                    tpBuf[j] == if at <= j < at + i then data[j - at] else old(tpBuf[j])
      {
        tpBuf[at + i] := data[i];
      }
    }

    method CanTpRx(data: Frame)
      requires Valid() && Fits(data)
      modifies this, tpBuf
      ensures Valid() && tpBuf == old(tpBuf)
      ensures Abs() == Receive(old(Abs()), data)
    {
      var pci := Pci(data);
      if pci == 1 {
        tpExpected := TotalLen(data);
        Copy(0, data[2..8]);
        tpLen, tpActive, tpNextSn := 6, true, 1;
        flowControls := flowControls + 1;
      } else if pci == 2 && tpActive {
        var sn := Low(data[0]);
        if sn == tpNextSn {
          Copy(tpLen, data[1..8]);
          tpLen := tpLen + 7;
          tpNextSn := (tpNextSn + 1) % 0x10;
        }
        if tpLen >= tpExpected {
          tpActive := false;
          dispatched := dispatched + [tpBuf[..tpExpected]];
        }
      }
    }
  }

  // ---- An unreliable bus ---------------------------------------------------

  /** A tester message that the ECU can hold. */
  predicate Sendable(msg: seq<u8>) {
    7 <= |msg| <= MAX_MESSAGE
  }

  /** Any choice of the message's consecutive frames: lost, repeated, reordered. */
  predicate Delivery(msg: seq<u8>, order: seq<nat>)
    requires Sendable(msg)
  {
    forall i :: 0 <= i < |order| ==> order[i] < Count(|msg|)
  }

  lemma FirstFits(msg: seq<u8>)
    requires Sendable(msg)
    ensures Fits(FirstFrame(msg))
  {
    LengthField(msg);
  }

  /** The receiver after the First Frame and the chosen frames. */
  function Deliver(tp: Tp, msg: seq<u8>, order: seq<nat>): (r: Tp)
    requires ValidTp(tp) && Sendable(msg) && Delivery(msg, order)
    ensures ValidTp(r)
  {
    if order == [] then
      FirstFits(msg);
      Receive(tp, FirstFrame(msg))
    else
      var k := order[|order| - 1];
      CountExact(|msg|, k);
      FrameFields(msg, k, 0);
      Receive(Deliver(tp, msg, order[..|order| - 1]), Consecutive(msg, k))
  }

  /** How many frames the receiver has accepted: the next frame counts when its
      sequence number is the one expected. */
  function Accepted(msg: seq<u8>, order: seq<nat>): (k: nat)
    requires Sendable(msg) && Delivery(msg, order)
    ensures k <= Count(|msg|)
  {
    if order == [] then 0
    else
      var k := Accepted(msg, order[..|order| - 1]);
      if k < Count(|msg|) && Sn(order[|order| - 1]) == Sn(k) then k + 1 else k
  }

  /** tpBuf holds a prefix of the message as far as it was received, and the only
      request dispatched since the First Frame is the message itself, at most once. */
  predicate Faithful(before: Tp, msg: seq<u8>, tp: Tp)
    requires |tp.buf| == BUF_SIZE && Sendable(msg)
  {
    && tp.buf[..Min(tp.len, |msg|)] == msg[..Min(tp.len, |msg|)]
    && (tp.dispatched == before.dispatched || tp.dispatched == before.dispatched + [msg])
  }

  /** Frames that share a sequence number are the same frame. */
  ghost predicate Unambiguous(msg: seq<u8>)
    requires Sendable(msg)
  {
    forall i, j :: 0 <= i < j < Count(|msg|) && Sn(i) == Sn(j) && Upto(j) < |msg| && Upto(i) < |msg| ==>
                     Consecutive(msg, i) == Consecutive(msg, j)
  }

  /** The receiver has accepted k frames of the message since its First Frame. */
  ghost predicate Progress(before: Tp, msg: seq<u8>, r: Tp, k: nat)
    requires Sendable(msg)
  {
    && |r.buf| == BUF_SIZE && r.len == Upto(k) && r.expected == |msg| && r.nextSn == Sn(k)
    && (r.active <==> k < Count(|msg|)) && k <= Count(|msg|)
    && r.flowControls == before.flowControls + 1
    && r.dispatched == before.dispatched + if k < Count(|msg|) then [] else [r.buf[..|msg|]]
  }

  lemma ProgressStep(before: Tp, msg: seq<u8>, r: Tp, k: nat, j: nat)
    requires Sendable(msg) && ValidTp(r) && Progress(before, msg, r, k) && j < Count(|msg|) && Upto(j) < |msg|
    requires Fits(Consecutive(msg, j))
    ensures var next := Receive(r, Consecutive(msg, j));
            var accept := k < Count(|msg|) && Sn(j) == Sn(k);
            && Progress(before, msg, next, if accept then k + 1 else k)
            && next.buf == if accept then Splice(r.buf, Upto(k), Consecutive(msg, j)[1..8]) else r.buf
  {
    CountExact(|msg|, k);
    CountExact(|msg|, k + 1);
    FrameFields(msg, j, 0);
    SnStep(k);
    hide Consecutive, Sn, Count;
  }

  lemma StartProgress(tp: Tp, msg: seq<u8>)
    requires ValidTp(tp) && Sendable(msg) && Fits(FirstFrame(msg))
    ensures Progress(tp, msg, Receive(tp, FirstFrame(msg)), 0)
    ensures Prefix(msg, Receive(tp, FirstFrame(msg)).buf, 0)
  {
    LengthField(msg);
    FirstSn();
    CountExact(|msg|, 0);
    hide FirstFrame, Count, Sn;
  }

  /** What frames cannot corrupt: position, sequence number, and one dispatch at most. */
  lemma {:induction false} Bookkeeping(tp: Tp, msg: seq<u8>, order: seq<nat>)
    requires ValidTp(tp) && Sendable(msg) && Delivery(msg, order)
    ensures Progress(tp, msg, Deliver(tp, msg, order), Accepted(msg, order))
  {
    hide Consecutive, Sn, Count, FirstFrame, Receive, Progress, Upto;
    if order == [] {
      FirstFits(msg);
      StartProgress(tp, msg);
    } else {
      var init, j := order[..|order| - 1], order[|order| - 1];
      Bookkeeping(tp, msg, init);
      CountExact(|msg|, j);
      FrameFields(msg, j, 0);
      ProgressStep(tp, msg, Deliver(tp, msg, init), Accepted(msg, init), j);
    }
  }

  /** tpBuf agrees with the message as far as k frames reach. */
  ghost predicate Prefix(msg: seq<u8>, buf: seq<u8>, k: nat)
    requires |buf| == BUF_SIZE && Sendable(msg)
  {
    buf[..Min(Upto(k), |msg|)] == msg[..Min(Upto(k), |msg|)]
  }

  /** Accepting frame j in the place of frame k writes the same octets if the two
      frames are equal. */
  lemma PrefixStep(before: Tp, msg: seq<u8>, r: Tp, k: nat, j: nat)
    requires Sendable(msg) && Unambiguous(msg)
    requires ValidTp(r) && Progress(before, msg, r, k) && j < Count(|msg|) && Upto(j) < |msg|
    requires Fits(Consecutive(msg, j)) && Prefix(msg, r.buf, k)
    ensures var accept := k < Count(|msg|) && Sn(j) == Sn(k);
            Prefix(msg, Receive(r, Consecutive(msg, j)).buf, if accept then k + 1 else k)
  {
    hide Consecutive, Sn, Count, Receive, Unambiguous, Fits, ValidTp;
    CountExact(|msg|, k);
    ProgressStep(before, msg, r, k, j);
    if k < Count(|msg|) && Sn(j) == Sn(k) {
      var m := Min(7, |msg| - Upto(k));
      FrameFields(msg, k, m);
      SameFrame(msg, j, k);
      assert Consecutive(msg, k)[1..8][..m] == Consecutive(msg, k)[1..1 + m];
      SplicePrefix(r.buf, Upto(k), Consecutive(msg, k)[1..8], msg, m);
    }
  }

  lemma {:induction false} BufferIsPrefix(tp: Tp, msg: seq<u8>, order: seq<nat>)
    requires ValidTp(tp) && Sendable(msg) && Delivery(msg, order) && Unambiguous(msg)
    ensures Prefix(msg, Deliver(tp, msg, order).buf, Accepted(msg, order))
  {
    if order == [] {
      FirstFits(msg);
      StartProgress(tp, msg);
    } else {
      var init, j := order[..|order| - 1], order[|order| - 1];
      CountExact(|msg|, j);
      FrameFields(msg, j, 0);
      hide Consecutive, Sn, Count, Receive, FirstFrame, Progress, Prefix, Unambiguous;
      Bookkeeping(tp, msg, init);
      BufferIsPrefix(tp, msg, init);
      PrefixStep(tp, msg, Deliver(tp, msg, init), Accepted(msg, init), j);
    }
  }

  lemma SameFrame(msg: seq<u8>, i: nat, j: nat)
    requires Sendable(msg) && Unambiguous(msg)
    requires i < Count(|msg|) && j < Count(|msg|) && Sn(i) == Sn(j) && Upto(i) < |msg| && Upto(j) < |msg|
    ensures Consecutive(msg, i) == Consecutive(msg, j)
  {
    hide Consecutive, Sn, Count;
    if i > j {
      SameFrame(msg, j, i);
    }
  }

  lemma SplicePrefix(buf: seq<u8>, at: nat, data: seq<u8>, msg: seq<u8>, m: nat)
    requires at + |data| <= |buf| && m <= |data| && at + m <= |msg|
    requires buf[..at] == msg[..at] && data[..m] == msg[at..at + m]
    ensures Splice(buf, at, data)[..at + m] == msg[..at + m]
  {
  }

  /** However the bus treats the frames, the receiver stays faithful to the message,
      if no sequence number stands for two different frames. */
  lemma FaithfulIfUnambiguous(tp: Tp, msg: seq<u8>, order: seq<nat>)
    requires ValidTp(tp) && Sendable(msg) && Delivery(msg, order) && Unambiguous(msg)
    ensures Faithful(tp, msg, Deliver(tp, msg, order))
    ensures Deliver(tp, msg, order).dispatched ==
            tp.dispatched + if Accepted(msg, order) < Count(|msg|) then [] else [msg]
  {
    var k := Accepted(msg, order);
    Bookkeeping(tp, msg, order);
    BufferIsPrefix(tp, msg, order);
    CountExact(|msg|, k);
    assert msg[..|msg|] == msg;
  }

  /** Reassembly is faithful for every behaviour of the bus exactly when no sequence
      number of the message stands for two different frames. */
  lemma FaithfulExactly(tp: Tp, msg: seq<u8>)
    requires ValidTp(tp) && Sendable(msg)
    ensures Unambiguous(msg) <==>
            forall order :: Delivery(msg, order) ==> Faithful(tp, msg, Deliver(tp, msg, order))
  {
    if Unambiguous(msg) {
      forall order | Delivery(msg, order)
        ensures Faithful(tp, msg, Deliver(tp, msg, order))
      {
        FaithfulIfUnambiguous(tp, msg, order);
      }
    } else {
      var i, j :| 0 <= i < j < Count(|msg|) && Sn(i) == Sn(j) && Upto(j) < |msg| && Upto(i) < |msg| &&
                  Consecutive(msg, i) != Consecutive(msg, j);
      Corrupts(tp, msg, i, j);
    }
  }

  /** The frames 0, 1, ..., i - 1 in order. */
  function InOrder(i: nat): (r: seq<nat>)
    ensures |r| == i && forall k :: 0 <= k < i ==> r[k] == k
  {
    seq(i, k => k)
  }

  lemma {:induction false} InOrderAccepted(msg: seq<u8>, i: nat)
    requires Sendable(msg) && i <= Count(|msg|)
    ensures Accepted(msg, InOrder(i)) == i
  {
    if i > 0 {
      InOrderAccepted(msg, i - 1);
      assert InOrder(i)[..i - 1] == InOrder(i - 1);
    }
  }

  /** Frame j delivered where frame i is expected, with the same sequence number. */
  lemma Corrupts(tp: Tp, msg: seq<u8>, i: nat, j: nat)
    requires ValidTp(tp) && Sendable(msg)
    requires i < j < Count(|msg|) && Sn(i) == Sn(j) && Upto(j) < |msg|
    requires Consecutive(msg, i) != Consecutive(msg, j)
    ensures Delivery(msg, InOrder(i) + [j])
    ensures !Faithful(tp, msg, Deliver(tp, msg, InOrder(i) + [j]))
  {
    hide Consecutive, Sn, Count, Receive, Fits, Progress, Faithful;
    CountExact(|msg|, i);
    InOrderAccepted(msg, i);
    Bookkeeping(tp, msg, InOrder(i));
    ConsecutiveFits(msg, j);
    WrongDelivery(tp, msg, i, j);
    WrongOctet(tp, msg, Deliver(tp, msg, InOrder(i)), i, j);
  }

  lemma ConsecutiveFits(msg: seq<u8>, j: nat)
    requires Upto(j) < |msg|
    ensures Fits(Consecutive(msg, j))
  {
    FrameFields(msg, j, 0);
  }

  /** Where frame i is expected and frame j has its number, the receiver takes an octet
      that is not the message's. */
  lemma WrongOctet(tp: Tp, msg: seq<u8>, before: Tp, i: nat, j: nat)
    requires ValidTp(before) && Sendable(msg) && Progress(tp, msg, before, i)
    requires i < j < Count(|msg|) && Sn(i) == Sn(j) && Upto(j) < |msg|
    requires Consecutive(msg, i) != Consecutive(msg, j) && Fits(Consecutive(msg, j))
    ensures !Faithful(tp, msg, Receive(before, Consecutive(msg, j)))
  {
    hide Consecutive, Sn, Count, Receive, Fits, ValidTp;
    ProgressStep(tp, msg, before, i, j);
    FrameFields(msg, i, 7);
    var x := DifferentOctet(msg, i, j);
    var next := Receive(before, Consecutive(msg, j));
    assert next.buf[Upto(i) + x] == Consecutive(msg, j)[1..8][x];
    assert msg[Upto(i) + x] == Consecutive(msg, i)[1..8][x];
    assert next.buf[..Upto(i + 1)][Upto(i) + x] != msg[..Upto(i + 1)][Upto(i) + x];
  }

  /** Delivering frame j after the first i frames is receiving it there. */
  lemma WrongDelivery(tp: Tp, msg: seq<u8>, i: nat, j: nat)
    requires ValidTp(tp) && Sendable(msg) && i < j < Count(|msg|) && Upto(j) < |msg|
    requires Fits(Consecutive(msg, j))
    ensures Delivery(msg, InOrder(i)) && Delivery(msg, InOrder(i) + [j])
    ensures Deliver(tp, msg, InOrder(i) + [j]) == Receive(Deliver(tp, msg, InOrder(i)), Consecutive(msg, j))
  {
    hide Consecutive, Sn, Receive, Fits;
    assert (InOrder(i) + [j])[..i] == InOrder(i);
  }

  /** Two frames with one header differ in some payload octet. */
  lemma DifferentOctet(msg: seq<u8>, i: nat, j: nat) returns (x: nat)
    requires Upto(i) < |msg| && Upto(j) < |msg| && Sn(i) == Sn(j)
    requires Consecutive(msg, i) != Consecutive(msg, j)
    ensures x < 7 && Consecutive(msg, i)[1..8][x] != Consecutive(msg, j)[1..8][x]
  {
    var y :| 0 <= y < 8 && Consecutive(msg, i)[y] != Consecutive(msg, j)[y];
    x := y - 1;
  }

  /** The next frame of the message, in order, as the bus delivers it. */
  function Greedy(msg: seq<u8>, order: seq<nat>): (k: nat)
    requires Sendable(msg) && Delivery(msg, order)
    ensures k <= Count(|msg|)
  {
    if order == [] then 0
    else
      var k := Greedy(msg, order[..|order| - 1]);
      if order[|order| - 1] == k then k + 1 else k
  }

  /** Up to sixteen consecutive frames all sequence numbers differ: a message of up to
      118 octets survives any loss, repetition and reordering as a true prefix, and it
      is dispatched, once, exactly if its frames arrive in order among the others. */
  lemma ShortMessagesAreSafe(tp: Tp, msg: seq<u8>, order: seq<nat>)
    requires ValidTp(tp) && Sendable(msg) && Delivery(msg, order)
    requires |msg| <= 118
    ensures Unambiguous(msg)
    ensures Faithful(tp, msg, Deliver(tp, msg, order))
    ensures Deliver(tp, msg, order).dispatched ==
            tp.dispatched + if Greedy(msg, order) < Count(|msg|) then [] else [msg]
  {
    hide Count, Sn, Consecutive;
    ShortCount(|msg|);
    forall i, j | 0 <= i < j < 16 { SnDistinct(i, j); }
    FaithfulIfUnambiguous(tp, msg, order);
    GreedyAccepted(msg, order);
  }

  lemma ShortCount(len: nat)
    requires 6 <= len <= 118
    ensures Count(len) <= 16
  {
  }

  lemma SnDistinct(i: nat, j: nat)
    requires i < 16 && j < 16
    ensures Sn(i) == Sn(j) <==> i == j
  {
  }

  lemma {:induction false} GreedyAccepted(msg: seq<u8>, order: seq<nat>)
    requires Sendable(msg) && Delivery(msg, order) && |msg| <= 118
    ensures Accepted(msg, order) == Greedy(msg, order)
  {
    hide Count, Sn;
    if order != [] {
      GreedyAccepted(msg, order[..|order| - 1]);
      ShortCount(|msg|);
      if Greedy(msg, order[..|order| - 1]) < Count(|msg|) {
        SnDistinct(order[|order| - 1], Greedy(msg, order[..|order| - 1]));
      }
    }
  }

  /** One octet more and a message can be corrupted: its seventeenth frame shares the
      number of the first. */
  lemma UnsafeMessage() returns (msg: seq<u8>)
    ensures |msg| == 119 && !Unambiguous(msg)
  {
    msg := seq(119, i => if i == 6 then 1 else 0);
    FrameFields(msg, 0, 1);
    FrameFields(msg, 16, 1);
    assert Sn(0) == Sn(16) && Count(119) == 17;
    assert Consecutive(msg, 0)[1..2][0] == 1 && Consecutive(msg, 16)[1..2][0] == 0;
  }
}
