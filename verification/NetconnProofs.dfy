/** Properties of every run of the netconn state machine. */
module NetconnProofs {
  import opened MachineTypes
  import opened NetconnModel

  // ---- The write loop ------------------------------------------------------

  /** What tcp_write has accepted for a message is exactly the first `offset` octets
      of the concatenated vectors. */
  ghost predicate SentIsPrefix(m: Msg) {
    m.body.WriteBody? ==>
      && CursorOk(m.body.w)
      && m.body.w.offset <= |Concat(m.body.w.vectors)|
      && m.sent == Concat(m.body.w.vectors)[..m.body.w.offset]
  }

  lemma CursorSlice(w: Write, len: nat)
    requires w.cnt > 0 && CursorOk(w) && len <= Diff(w)
    ensures w.offset + len <= |Concat(w.vectors)|
    ensures Concat(w.vectors)[..w.offset + len] ==
            Concat(w.vectors)[..w.offset] + w.vectors[w.vector][w.off..w.off + len]
  {
    ConcatStep(w.vectors, w.vector);
    ConcatPrefix(w.vectors, w.vector + 1);
  }

  lemma {:induction false} ConcatPrefix(vectors: seq<seq<u8>>, k: nat)
    requires k <= |vectors|
    ensures Concat(vectors[..k]) <= Concat(vectors)
    decreases |vectors|
  {
    if k == |vectors| {
      assert vectors[..k] == vectors;
    } else {
      var shorter := vectors[..|vectors| - 1];
      assert shorter[..k] == vectors[..k];
      ConcatPrefix(shorter, k);
    }
  }

  /** Whatever TCP answers, the loop takes octets in order, without gap or repetition. */
  lemma {:induction false} TryWriteKeepsPrefix(w: Write, sent: seq<u8>, dontblock: bool, answers: seq<Answer>)
    requires w.cnt > 0 && CursorOk(w)
    requires w.offset <= |Concat(w.vectors)| && sent == Concat(w.vectors)[..w.offset]
    ensures var r := TryWrite(w, sent, dontblock, answers);
            && r.w.vectors == w.vectors && r.w.dontblock == w.dontblock
            && CursorOk(r.w) && w.offset <= r.w.offset <= |Concat(w.vectors)|
            && r.sent == Concat(w.vectors)[..r.w.offset]
            && (r.w.cnt == 0 ==> r.Attempt? && r.err == Ok && r.w.offset == r.w.len)
    decreases |answers|
  {
    hide Concat, Advance, PlanLen;
    if answers != [] {
      var len := PlanLen(Diff(w), answers[0].sndbuf);
      PlanFits(Diff(w), answers[0].sndbuf);
      AdvanceStep(w, sent, len);
      if WriteMore(Diff(w), len, w.cnt) {
        TryWriteKeepsPrefix(Advance(w, len), sent + Chunk(w, len), dontblock, answers[1..]);
      }
    }
  }

  lemma PlanFits(diff: nat, sndbuf: u16)
    ensures PlanLen(diff, sndbuf) <= diff
  {
  }

  /** One accepted piece extends the prefix and moves the cursor by its length. */
  lemma AdvanceStep(w: Write, sent: seq<u8>, len: nat)
    requires w.cnt > 0 && CursorOk(w) && len <= Diff(w)
    requires w.offset <= |Concat(w.vectors)| && sent == Concat(w.vectors)[..w.offset]
    ensures var next := Advance(w, len);
            && CursorOk(next) && next.vectors == w.vectors && next.dontblock == w.dontblock
            && next.offset == w.offset + len <= |Concat(w.vectors)|
            && sent + Chunk(w, len) == Concat(w.vectors)[..next.offset]
            && (next.cnt == 0 ==> next.offset == next.len)
            && (WriteMore(Diff(w), len, w.cnt) ==> next.cnt > 0)
  {
    AdvanceCursor(w, len);
    CursorSlice(w, len);
    ConcatStep(w.vectors, w.vector);
    assert w.vectors[..|w.vectors|] == w.vectors;
  }

  /** The loop cannot go on without taking an octet or leaving a vector, except at one
      point: nothing fits into the send buffer, what is left of the vector is a
      multiple of 65536, and more vectors follow. The 16-bit comparison then takes
      the empty piece for the end of the vector. */
  predicate Stuck(w: Write, a: Answer)
    requires w.vector < |w.vectors| && w.off <= |w.vectors[w.vector]|
  {
    a.sndbuf == 0 && Diff(w) > 0 && Diff(w) % 0x1_0000 == 0 && w.cnt > 1
  }

  /** Octets and vectors still to go. */
  function Remaining(w: Write): int {
    w.len - w.offset + w.cnt
  }

  /** TCP never offers an empty send buffer while the rest of some vector is a
      multiple of 65536 octets; a buffer that always has room satisfies this. */
  ghost predicate NeverStuck(w: Write, dontblock: bool, answers: seq<Answer>)
    requires w.cnt > 0 && CursorOk(w)
    decreases |answers|
  {
    answers == [] ||
    (!(Stuck(w, answers[0]) && !dontblock) &&
     var len := PlanLen(Diff(w), answers[0].sndbuf);
     AdvanceCursor(w, len);
     (answers[0].err == Ok && WriteMore(Diff(w), len, w.cnt) && !(dontblock && len == 0 && Diff(w) > 0) ==>
        NeverStuck(Advance(w, len), dontblock, answers[1..])))
  }

  /** The loop of writemore ends after at most as many turns as there are octets and
      vectors left, unless TCP leaves it stuck on the way. */
  lemma {:induction false} LoopTerminates(w: Write, sent: seq<u8>, dontblock: bool, answers: seq<Answer>)
    requires w.cnt > 0 && CursorOk(w)
    requires w.offset <= |Concat(w.vectors)| && sent == Concat(w.vectors)[..w.offset]
    requires NeverStuck(w, dontblock, answers)
    requires |answers| >= Remaining(w)
    ensures TryWrite(w, sent, dontblock, answers).Attempt?
    decreases |answers|
  {
    hide Concat;
    var len := PlanLen(Diff(w), answers[0].sndbuf);
    PlanFits(Diff(w), answers[0].sndbuf);
    AdvanceStep(w, sent, len);
    if answers[0].err == Ok && WriteMore(Diff(w), len, w.cnt) && !(dontblock && len == 0 && Diff(w) > 0) {
      LoopTerminates(Advance(w, len), sent + Chunk(w, len), dontblock, answers[1..]);
    }
  }

  /** A send buffer that always has room never leaves the loop stuck. */
  lemma {:induction false} RoomNeverStuck(w: Write, dontblock: bool, answers: seq<Answer>)
    requires w.cnt > 0 && CursorOk(w)
    requires forall i :: 0 <= i < |answers| ==> answers[i].sndbuf > 0
    ensures NeverStuck(w, dontblock, answers)
    decreases |answers|
  {
    if answers != [] {
      var len := PlanLen(Diff(w), answers[0].sndbuf);
      AdvanceCursor(w, len);
      if WriteMore(Diff(w), len, w.cnt) {
        RoomNeverStuck(Advance(w, len), dontblock, answers[1..]);
      }
    }
  }

  /** Stuck is forever: while the send buffer stays empty a blocking write loops on
      with nothing sent, however long TCP's script is. */
  lemma {:induction false} StuckSpins(w: Write, sent: seq<u8>, answers: seq<Answer>)
    requires w.cnt > 0 && CursorOk(w) && Diff(w) > 0
    requires forall i :: 0 <= i < |answers| ==> answers[i] == Answer(0, Ok)
    ensures Stuck(w, Answer(0, Ok)) ==> TryWrite(w, sent, false, answers) == Spinning(w, sent)
    ensures !Stuck(w, Answer(0, Ok)) && answers != [] ==>
              TryWrite(w, sent, false, answers) == Attempt(w, sent, Ok)
    decreases |answers|
  {
    if answers != [] {
      assert Advance(w, 0) == w;
      assert sent + Chunk(w, 0) == sent;
      StuckSpins(w, sent, answers[1..]);
    }
  }

  /** The assertion at the top of writemore: a pending write has octets to go (unless
      the caller's last vector is empty). */
  lemma PendingHasOctets(w: Write)
    requires w.cnt > 0 && CursorOk(w) && w.vectors[|w.vectors| - 1] != []
    ensures w.offset < w.len
  {
    hide Concat;
    ConcatPrefix(w.vectors, w.vector + 1);
    ConcatStep(w.vectors, w.vector);
    if w.vector + 1 < |w.vectors| {
      ConcatStep(w.vectors, |w.vectors| - 1);
      assert w.vectors[..|w.vectors|] == w.vectors;
      PrefixGrows(w.vectors, w.vector + 1, |w.vectors| - 1);
    }
  }

  lemma PrefixGrows(vectors: seq<seq<u8>>, i: nat, j: nat)
    requires i <= j <= |vectors|
    ensures |Concat(vectors[..i])| <= |Concat(vectors[..j])|
  {
    assert vectors[..j][..i] == vectors[..i];
    ConcatPrefix(vectors[..j], i);
  }

  // ---- Runs ----------------------------------------------------------------

  /** A blocking write that reported success delivered everything. */
  ghost predicate Delivered(c: Conn, m: Msg) {
    m.body.WriteBody? && m.signals > 0 && m.err == Ok && !DontBlock(c, m.body.w) ==>
      m.body.w.offset == m.body.w.len
  }

  ghost predicate MsgOk(c: Conn, m: Msg) {
    SentIsPrefix(m) && Delivered(c, m)
  }

  /** current_msg is set exactly while a caller waits for a write, a close or a
      blocking connect; that message is the last one and was not signalled yet, and
      every other message was signalled exactly once. */
  ghost predicate Good(c: Conn) {
    && (c.busy <==> c.state == WRITE || c.state == CLOSE || (c.state == CONNECT && !c.connecting))
    && (c.state != NONE ==> c.pcb)
    && (c.state == WRITE ==> WritePending(c))
    && (c.state == CLOSE ==> ClosePending(c))
    && GoodLog(c)
  }

  ghost predicate GoodLog(c: Conn) {
    && (c.busy ==> c.log != [])
    && (forall i :: 0 <= i < |c.log| ==> c.log[i].signals == if c.busy && i == |c.log| - 1 then 0 else 1)
    && (forall i :: 0 <= i < |c.log| ==> MsgOk(c, c.log[i]))
  }

  /** The error callback finds a caller blocked on a connection that still carries the
      flag of a nonblocking connect. */
  ghost predicate LostWakeup(c: Conn, e: Event) {
    e.ErrTcp? && Enabled(c, e) && c.busy && c.connecting
  }

  /** The caller waits for a message nobody will signal. */
  predicate Orphaned(c: Conn) {
    c.busy && c.state == NONE && !c.pcb && c.log != [] && Last(c).signals == 0
  }

  lemma AckKeepsLog(c: Conn, body: Body, err: Err)
    requires GoodLog(c) && !c.busy
    requires body.WriteBody? ==> err != Ok && body.w.vectors != [] &&
                                 body.w == NewWrite(body.w.vectors, body.w.dontblock)
    ensures GoodLog(Ack(c, body, err))
  {
  }

  lemma BeginKeepsLog(c: Conn, state: NetState, body: Body)
    requires GoodLog(c) && !c.busy
    requires body.WriteBody? ==> body.w.vectors != [] && body.w == NewWrite(body.w.vectors, body.w.dontblock)
    ensures GoodLog(Begin(c, state, body))
  {
  }

  lemma CompleteKeepsLog(c: Conn, err: Err)
    requires GoodLog(c) && c.busy
    requires Delivered(c, Last(c).(err := err, signals := 1))
    ensures GoodLog(Complete(c, err)) && !Complete(c, err).busy
    ensures |Complete(c, err).log| == |c.log|
  {
  }

  lemma WriteMoreKeeps(c: Conn, script: WriteScript)
    requires c.state == WRITE && c.pcb && c.busy && GoodLog(c) && WritePending(c)
    ensures Good(DoWriteMore(c, script))
  {
    hide Concat, CursorOk, TryWrite, Advance;
    var m := Last(c);
    var dontblock := DontBlock(c, m.body.w);
    assert MsgOk(c, m);
    TryWriteKeepsPrefix(m.body.w, m.sent, dontblock, script.answers);
    match TryWrite(m.body.w, m.sent, dontblock, script.answers)
    case Spinning(w, sent) =>
      var m' := m.(body := WriteBody(w), sent := sent);
      assert MsgOk(SetLast(c, m'), m');
    case Attempt(w, sent, err) =>
      var m' := m.(body := WriteBody(w), sent := sent);
      var next := SetLast(c, m');
      assert MsgOk(next, m');
      assert GoodLog(next);
      var (finished, err') := Verdict(w, dontblock, err, script.output);
      if finished {
        CompleteKeepsLog(next, err');
      }
  }

  lemma CloseKeeps(c: Conn, a: CloseAnswer)
    requires c.state == CLOSE && c.pcb && c.busy && GoodLog(c) && ClosePending(c)
    ensures Good(DoCloseInternal(c, a))
  {
    var err := if a.err == Mem && ShutClose(Last(c).body.shut, a) then Ok else a.err;
    CompleteKeepsLog(c, err);
  }

  lemma WriteKeeps(c: Conn, vectors: seq<seq<u8>>, dontblock: bool, script: WriteScript)
    requires Good(c) && !c.busy && vectors != []
    ensures Good(StepWrite(c, vectors, dontblock, script))
  {
    hide Concat, CursorOk, TryWrite, DoWriteMore, NewWrite;
    var w := NewWrite(vectors, dontblock);
    NewWriteFields(vectors, dontblock);
    var body := WriteBody(w);
    var err, c' := c.pendingErr, c.(pendingErr := Ok);
    assert forall i :: 0 <= i < |c.log| ==> MsgOk(c, c.log[i]) ==> MsgOk(c', c.log[i]);
    assert Good(c');
    if err != Ok {
      AckKeepsLog(c', body, err);
    } else if c.state != NONE {
      AckKeepsLog(c', body, InProgress);
    } else if !c.pcb {
      AckKeepsLog(c', body, ConnErr);
    } else {
      NewWriteCursor(vectors, dontblock);
      BeginKeepsLog(c', WRITE, body);
      WriteMoreKeeps(Begin(c', WRITE, body), script);
    }
  }

  lemma NewWriteFields(vectors: seq<seq<u8>>, dontblock: bool)
    ensures var w := NewWrite(vectors, dontblock);
            w.vectors == vectors && w.dontblock == dontblock && w.cnt == |vectors|
  {
  }

  lemma CloseRequestKeeps(c: Conn, body: Body, a: CloseAnswer)
    requires Good(c) && !c.busy && c.pcb && body.CloseBody?
    ensures Good(DoCloseInternal(Begin(c, CLOSE, body), a))
  {
    BeginKeepsLog(c, CLOSE, body);
    CloseKeeps(Begin(c, CLOSE, body), a);
  }

  lemma AckKeeps(c: Conn, body: Body, err: Err)
    requires Good(c) && !c.busy && !body.WriteBody?
    ensures Good(Ack(c, body, err))
  {
  }

  lemma ConnectKeeps(c: Conn, err: Err)
    requires Good(c) && !c.busy
    ensures Good(StepConnect(c, err))
  {
    BeginKeepsLog(c, CONNECT, ConnectBody);
    if c.pcb && c.state == NONE && err == Ok && c.nonblocking {
      var next := c.(state := CONNECT, connecting := true);
      assert forall i :: 0 <= i < |c.log| ==> MsgOk(c, c.log[i]) ==> MsgOk(next, c.log[i]);
      AckKeepsLog(next, ConnectBody, InProgress);
    } else {
      forall e {
        AckKeepsLog(c, ConnectBody, e);
      }
    }
  }

  lemma ResumeKeeps(c: Conn, script: Script, poll: bool)
    requires Good(c)
    ensures Good(StepResume(c, script, poll))
  {
    hide DoWriteMore, DoCloseInternal;
    if c.state == WRITE {
      WriteMoreKeeps(c, script.write);
    } else if c.state == CLOSE {
      var left := Last(c).body.pollsLeft;
      if poll && left > 0 {
        var m := Last(c).(body := Last(c).body.(pollsLeft := left - 1));
        assert MsgOk(c, Last(c));
        assert MsgOk(SetLast(c, m), m);
        CloseKeeps(SetLast(c, m), script.close);
      } else {
        CloseKeeps(c, script.close);
      }
    }
  }

  lemma ConnectedKeeps(c: Conn, err: Err)
    requires Good(c) && c.state == CONNECT && c.pcb
    requires c.busy ==> c.log != [] && !Last(c).body.WriteBody?
    ensures Good(StepConnected(c, err))
  {
  }

  /** An error callback releases the caller of a write, a close or a connect, except
      that a caller behind a leftover connect flag is left waiting. */
  lemma ErrKeeps(c: Conn, err: Err)
    requires Good(c) && err != Ok
    ensures !(c.busy && c.connecting) ==> Good(StepErr(c, err))
    ensures c.busy && c.connecting ==> Orphaned(StepErr(c, err))
  {
  }

  /** A connect request that blocks is the current message of its connection. */
  ghost predicate ConnectCurrent(c: Conn) {
    c.state == CONNECT && c.busy ==> c.log != [] && !Last(c).body.WriteBody?
  }

  lemma StepKeeps(c: Conn, e: Event)
    requires Good(c) && ConnectCurrent(c)
    ensures !LostWakeup(c, e) ==> Good(Step(c, e)) && ConnectCurrent(Step(c, e))
    ensures LostWakeup(c, e) ==> Orphaned(Step(c, e))
  {
    if Enabled(c, e) {
      hide StepWrite, StepResume, StepErr, StepConnected, DoCloseInternal, Concat;
      StepState(c, e);
      match e
      case DoWrite(vectors, dontblock, script) => WriteKeeps(c, vectors, dontblock, script);
      case DoClose(shut, polls, a) =>
        forall err { AckKeeps(c, CloseBody(shut, polls), err); }
        if c.pcb { CloseRequestKeeps(c, CloseBody(shut, polls), a); }
      case DoDelete(polls, a) =>
        forall err { AckKeeps(c, CloseBody(RDWR, polls), err); }
        if c.pcb { CloseRequestKeeps(c, CloseBody(RDWR, polls), a); }
      case DoConnect(err) => ConnectKeeps(c, err);
      case Sent(script) => ResumeKeeps(c, script, false);
      case Poll(script) => ResumeKeeps(c, script, true);
      case Connected(err) => ConnectedKeeps(c, err);
      case ErrTcp(err) => ErrKeeps(c, err);
      case TakeErr =>
        var next := c.(pendingErr := Ok);
        assert forall i :: 0 <= i < |c.log| ==> MsgOk(c, c.log[i]) ==> MsgOk(next, c.log[i]);
    }
  }

  lemma StepState(c: Conn, e: Event)
    requires Good(c) && ConnectCurrent(c) && Enabled(c, e)
    ensures ConnectCurrent(Step(c, e))
    ensures e.DoWrite? ==> e.vectors != []
  {
    hide TryWrite, CursorOk;
  }

  /** Somewhere along the run an error callback left a caller waiting. */
  ghost predicate LosesCaller(c: Conn, events: seq<Event>) {
    exists i :: 0 <= i < |events| && LostWakeup(Run(c, events[..i]), events[i])
  }

  /** Every run of a connection, whatever TCP answers and in whatever order callbacks
      arrive: either each message is signalled exactly once and carries exactly the
      octets TCP accepted, or the run contains the one fatal step, and then its
      caller waits for ever. */
  lemma {:induction false} EveryRun(c: Conn, events: seq<Event>)
    requires Good(c) && ConnectCurrent(c)
    ensures Good(Run(c, events)) <==> !LosesCaller(c, events)
    ensures LosesCaller(c, events) ==> Orphaned(Run(c, events))
    ensures Good(Run(c, events)) ==> ConnectCurrent(Run(c, events))
  {
    hide *;
    if events == [] {
      NothingYet(c);
    } else {
      var k := |events| - 1;
      EveryRun(c, events[..k]);
      LossSplits(c, events);
      var before := Run(c, events[..k]);
      GoodNotOrphaned(before);
      GoodNotOrphaned(Step(before, events[k]));
      if Good(before) {
        StepKeeps(before, events[k]);
      } else {
        OrphanedForever(before, events[k]);
      }
    }
  }

  lemma NothingYet(c: Conn)
    ensures Run(c, []) == c && !LosesCaller(c, [])
  {
  }

  lemma LossSplits(c: Conn, events: seq<Event>)
    requires events != []
    ensures var k := |events| - 1;
            && Run(c, events) == Step(Run(c, events[..k]), events[k])
            && (LosesCaller(c, events) <==>
                LosesCaller(c, events[..k]) || LostWakeup(Run(c, events[..k]), events[k]))
  {
    hide Step, LostWakeup;
    var k := |events| - 1;
    assert forall i :: 0 <= i < k ==> events[..k][..i] == events[..i] && events[..k][i] == events[i];
    assert Run(c, events) == Step(Run(c, events[..k]), events[k]);
    if LosesCaller(c, events[..k]) {
      var i :| 0 <= i < k && LostWakeup(Run(c, events[..k][..i]), events[..k][i]);
      assert LostWakeup(Run(c, events[..i]), events[i]);
    }
    if LosesCaller(c, events) {
      var i :| 0 <= i < |events| && LostWakeup(Run(c, events[..i]), events[i]);
      assert i < k ==> LostWakeup(Run(c, events[..k][..i]), events[..k][i]);
    }
  }

  lemma GoodNotOrphaned(c: Conn)
    ensures !(Good(c) && Orphaned(c))
  {
  }

  lemma OrphanedForever(c: Conn, e: Event)
    requires Orphaned(c)
    ensures Orphaned(Step(c, e)) && Step(c, e).log == c.log
  {
  }

  /** Every close of a connection whose connect is still in progress succeeds. */
  ghost predicate UnconnectedCloses(nonblocking: bool, events: seq<Event>) {
    forall i :: 0 <= i < |events| && events[i].DoDelete? ==>
      Run(Fresh(nonblocking), events[..i]).state == CONNECT ==> events[i].close.err == Ok
  }

  /** TCP frees a pcb that waits for its connection without asking anybody, so that its
      close succeeds; then no run of any connection, blocking or not, loses a caller. */
  lemma {:induction false} NoLoss(nonblocking: bool, events: seq<Event>)
    requires UnconnectedCloses(nonblocking, events)
    ensures Good(Run(Fresh(nonblocking), events)) && !LosesCaller(Fresh(nonblocking), events)
    ensures FlagTame(Run(Fresh(nonblocking), events))
  {
    hide *;
    var c := Fresh(nonblocking);
    FreshIsGood(nonblocking);
    if events == [] {
      NothingYet(c);
    } else {
      var k := |events| - 1;
      var before := Run(c, events[..k]);
      UnconnectedSplits(nonblocking, events);
      NoLoss(nonblocking, events[..k]);
      LossSplits(c, events);
      EveryRun(c, events[..k]);
      FlagStep(before, events[k]);
      EveryRun(c, events);
    }
  }

  /** The flag of a nonblocking connect is set while it is in progress, and may be left
      over on a connection that was deleted meanwhile. */
  predicate FlagTame(c: Conn) {
    c.connecting ==> c.state == CONNECT || (c.state == NONE && !c.pcb && !c.busy)
  }

  lemma FreshIsGood(nonblocking: bool)
    ensures Good(Fresh(nonblocking)) && ConnectCurrent(Fresh(nonblocking)) && FlagTame(Fresh(nonblocking))
  {
  }

  lemma UnconnectedSplits(nonblocking: bool, events: seq<Event>)
    requires events != [] && UnconnectedCloses(nonblocking, events)
    ensures var k := |events| - 1;
            && UnconnectedCloses(nonblocking, events[..k])
            && (events[k].DoDelete? && Run(Fresh(nonblocking), events[..k]).state == CONNECT ==>
                  events[k].close.err == Ok)
  {
    hide Run, Fresh;
    var k := |events| - 1;
    assert forall i :: 0 <= i < k ==> events[..k][..i] == events[..i] && events[..k][i] == events[i];
  }

  lemma FlagStep(c: Conn, e: Event)
    requires Good(c) && FlagTame(c)
    requires e.DoDelete? && c.state == CONNECT ==> e.close.err == Ok
    ensures FlagTame(Step(c, e)) && !LostWakeup(c, e)
  {
    hide TryWrite, Verdict, Concat, CursorOk, DoWriteMore, DoCloseInternal;
    if Enabled(c, e) {
      match e
      case DoWrite(vectors, dontblock, script) =>
        SomeVectors(vectors);
        NewWriteCursor(vectors, dontblock);
        WriteMoreFlag(Begin(c.(pendingErr := Ok), WRITE, WriteBody(NewWrite(vectors, dontblock))), script);
      case DoClose(shut, polls, a) => CloseFlag(Begin(c, CLOSE, CloseBody(shut, polls)), a);
      case DoDelete(polls, a) => CloseFlag(Begin(c, CLOSE, CloseBody(RDWR, polls)), a);
      case Sent(script) => ResumeFlag(c, script, false);
      case Poll(script) => ResumeFlag(c, script, true);
      case _ =>
    }
  }

  lemma SomeVectors(vectors: seq<seq<u8>>)
    requires Concat(vectors) != []
    ensures vectors != []
  {
  }

  lemma ResumeFlag(c: Conn, script: Script, poll: bool)
    requires c.state == WRITE ==> WritePending(c)
    requires c.state == CLOSE ==> ClosePending(c)
    ensures var next := StepResume(c, script, poll);
            && next.nonblocking == c.nonblocking && next.connecting == c.connecting
            && (c.state == CONNECT ==> next.state == CONNECT)
  {
    hide DoWriteMore, DoCloseInternal, CursorOk;
    if c.state == WRITE {
      WriteMoreFlag(c, script.write);
    } else if c.state == CLOSE {
      var left := Last(c).body.pollsLeft;
      CloseFlag(c, script.close);
      if poll && left > 0 {
        CloseFlag(SetLast(c, Last(c).(body := Last(c).body.(pollsLeft := left - 1))), script.close);
      }
    }
  }

  lemma WriteMoreFlag(c: Conn, script: WriteScript)
    requires WritePending(c)
    ensures var next := DoWriteMore(c, script);
            next.nonblocking == c.nonblocking && next.connecting == c.connecting
  {
  }

  lemma CloseFlag(c: Conn, a: CloseAnswer)
    requires ClosePending(c)
    ensures var next := DoCloseInternal(c, a);
            && next.nonblocking == c.nonblocking && next.connecting == c.connecting
            && (Last(c).body.shut == RDWR && a.err == Ok ==> next.state == NONE && !next.pcb && !next.busy)
  {
  }

  /** The condition of NoLoss is needed. In this hypothetical run TCP finds no memory to
      close a connection that waits for its connect, which the repository's own TCP never
      does, and reports an error afterwards: the delete is then never signalled. */
  lemma UnconnectedCloseNeeded()
    ensures var events := [DoConnect(Ok), DoDelete(1, CloseAnswer(false, false, Mem)), ErrTcp(Other(0))];
            LosesCaller(Fresh(true), events) && Orphaned(Run(Fresh(true), events))
  {
    var a := CloseAnswer(false, false, Mem);
    var events := [DoConnect(Ok), DoDelete(1, a), ErrTcp(Other(0))];
    var c := Fresh(true);
    var c1 := Step(c, events[0]);
    var c2 := Step(c1, events[1]);
    assert events[..1] == [events[0]] && events[..2] == [events[0], events[1]];
    assert events[..1][..0] == [] && events[..2][..1] == events[..1];
    assert Run(c, []) == c;
    assert Run(c, events[..1]) == c1;
    assert Run(c, events[..2]) == c2;
    assert LostWakeup(Run(c, events[..2]), events[2]);
    EveryRun(c, events);
  }

  function Polls(events: seq<Event>): nat {
    if events == [] then 0
    else Polls(events[..|events| - 1]) + if events[|events| - 1].Poll? then 1 else 0
  }

  /** A close for which TCP never finds memory ends with the poll that uses up
      `pollsLeft`, not earlier and not later, however many sent callbacks come
      between; its caller is then released. */
  lemma {:induction false} StuckCloseEnds(c: Conn, events: seq<Event>)
    requires Good(c) && c.state == CLOSE && Last(c).body.pollsLeft > 0
    requires forall i :: 0 <= i < |events| ==>
               (events[i].Sent? || events[i].Poll?) && events[i].script.close.err == Mem
    ensures var r := Run(c, events);
            |r.log| == |c.log| &&
            if Polls(events) < Last(c).body.pollsLeft
            then r.state == CLOSE && Good(r) && Last(r).body.pollsLeft == Last(c).body.pollsLeft - Polls(events)
            else r.state == NONE && !r.busy && Last(r).signals == 1
  {
    hide Step, Good;
    GoodClose(c);
    if events != [] {
      var before := Run(c, events[..|events| - 1]);
      StuckCloseEnds(c, events[..|events| - 1]);
      StuckStep(before, events[|events| - 1]);
    }
  }

  lemma GoodClose(c: Conn)
    requires Good(c) && c.state == CLOSE
    ensures c.log != [] && Last(c).body.CloseBody?
  {
  }

  lemma StuckStep(c: Conn, e: Event)
    requires (e.Sent? || e.Poll?) && e.script.close.err == Mem
    requires c.log != []
    requires c.state == NONE || (c.state == CLOSE && Good(c) && Last(c).body.pollsLeft > 0)
    ensures var next := Step(c, e);
            |next.log| == |c.log| &&
            if c.state == NONE then next == c
            else
              var left := Last(c).body.pollsLeft - if e.Poll? then 1 else 0;
              if left > 0 then next.state == CLOSE && Good(next) && Last(next).body.pollsLeft == left
              else next.state == NONE && !next.busy && Last(next).signals == 1
  {
    if c.state == CLOSE {
      ResumeKeeps(c, e.script, e.Poll?);
    }
  }
}
