/** What the caller of a netconn request is told, and when: every outcome in terms of the
    message, the connection and TCP's answers. */
module NetconnOutcomes {
  import opened MachineTypes
  import opened NetconnModel
  import opened NetconnProofs

  /** The current request ends: its caller is signalled once more and told `err`; no other
      message changes. */
  predicate Told(c: Conn, next: Conn, err: Err) {
    && c.log != [] && |next.log| == |c.log| && next.log[..|c.log| - 1] == c.log[..|c.log| - 1]
    && Last(next).err == err && Last(next).signals == Last(c).signals + 1
    && !next.busy && next.state == NONE
    && next.connecting == c.connecting && next.nonblocking == c.nonblocking && next.pendingErr == c.pendingErr
  }

  /** The current request goes on: nobody is signalled. */
  predicate Waits(c: Conn, next: Conn) {
    && c.log != [] && |next.log| == |c.log| && next.log[..|c.log| - 1] == c.log[..|c.log| - 1]
    && Last(next).err == Last(c).err && Last(next).signals == Last(c).signals
    && next.(log := c.log) == c
  }

  /** A request is answered at once with `err` and leaves the connection as it was. */
  predicate Answered(c: Conn, next: Conn, body: Body, err: Err) {
    next.(log := c.log) == c && next.log == c.log + [Msg(body, [], err, 1)]
  }

  /** A request becomes the current one. */
  predicate Begun(c: Conn, next: Conn, body: Body, state: NetState) {
    && next.log == c.log + [Msg(body, [], Ok, 0)] && next.busy && next.state == state
    && next.(log := c.log, busy := c.busy, state := c.state) == c
  }

  // ---- The write loop --------------------------------------------------------

  /** A piece is as long as 16 bits, the vector and the send buffer allow, no longer. */
  lemma PieceIsLargest(diff: nat, sndbuf: u16, n: nat)
    ensures n <= PlanLen(diff, sndbuf) <==> n <= diff && n <= sndbuf && n <= 0xffff
  {
  }

  /** Which answer of TCP ended the loop, and what the loop reports: a write that must not
      block and met a full send buffer reports that nothing or only a part was taken; any
      other end reports tcp_write's own answer. The loop does not give up early: without
      an error everything was taken, or the piece taken last filled the send buffer. */
  lemma {:induction false} LoopReports(w: Write, sent: seq<u8>, dontblock: bool, answers: seq<Answer>) returns (i: nat)
    requires w.cnt > 0 && CursorOk(w) && TryWrite(w, sent, dontblock, answers).Attempt?
    ensures var r := TryWrite(w, sent, dontblock, answers);
            && i < |answers| && (forall j :: 0 <= j < i ==> answers[j].err == Ok)
            && r.w.offset >= w.offset
            && ((&& dontblock && answers[i].sndbuf == 0 && r.w.cnt > 0
                 && r.err == if r.w.offset == 0 then WouldBlock else Ok)
                || r.err == answers[i].err)
            && (!dontblock ==> r.err == answers[i].err)
            && (r.err == Ok && r.w.offset != r.w.len ==>
                  answers[i].sndbuf < 0xffff && w.offset + answers[i].sndbuf <= r.w.offset)
    decreases |answers|
  {
    hide Concat, Advance, PlanLen, CursorOk;
    EndsWithAnswers(w, sent, dontblock, answers);
    TryWriteUnfold(w, sent, dontblock, answers);
    CursorBounds(w);
    var len := PlanLen(Diff(w), answers[0].sndbuf);
    PieceIsLargest(Diff(w), answers[0].sndbuf, len);
    PieceIsLargest(Diff(w), answers[0].sndbuf, len + 1);
    i := 0;
    AdvanceEnds(w, len);
    if !(dontblock && len == 0 && Diff(w) > 0) && answers[0].err == Ok && WriteMore(Diff(w), len, w.cnt) {
      var next := Advance(w, len);
      i := LoopReports(next, sent + Chunk(w, len), dontblock, answers[1..]);
      i := i + 1;
      assert forall j :: 1 <= j < i ==> answers[j] == answers[1..][j - 1];
    }
  }

  lemma CursorBounds(w: Write)
    requires CursorOk(w)
    ensures w.vector < |w.vectors| && w.off <= |w.vectors[w.vector]|
  {
  }

  /** Taking the rest of the last vector finishes the write. */
  lemma AdvanceEnds(w: Write, len: nat)
    requires w.cnt > 0 && CursorOk(w) && len <= Diff(w)
    ensures Advance(w, len).offset == w.offset + len
    ensures len == Diff(w) && w.cnt == 1 ==> Advance(w, len).cnt == 0 && Advance(w, len).offset == Advance(w, len).len
  {
    ConcatStep(w.vectors, w.vector);
    assert w.vectors[..|w.vectors|] == w.vectors;
  }

  /** A write that must not block and finds the send buffer full right away is told that it
      would block, or, if a part went out before, that this part was taken. */
  lemma FullBuffer(w: Write, sent: seq<u8>, answers: seq<Answer>)
    requires w.cnt > 0 && CursorOk(w) && Diff(w) > 0 && answers != [] && answers[0].sndbuf == 0
    ensures TryWrite(w, sent, true, answers) == Attempt(w, sent, if w.offset == 0 then WouldBlock else Ok)
  {
  }

  /** How one turn of writemore ends, by what the loop reported and what tcp_output did:
      ERR_RTE goes to the caller; all octets taken is success; a write that must not block
      ends anyway, with ERR_WOULDBLOCK only if nothing was taken; any other error of
      tcp_write goes to the caller unchanged; a blocking write waits for more room. */
  lemma WriteOutcome(c: Conn, script: WriteScript)
    requires WritePending(c)
    requires TryWrite(Last(c).body.w, Last(c).sent, DontBlock(c, Last(c).body.w), script.answers).Attempt?
    ensures var dontblock := c.nonblocking || Last(c).body.w.dontblock;
            var r := TryWrite(Last(c).body.w, Last(c).sent, dontblock, script.answers);
            var next := DoWriteMore(c, script);
            && next.pcb == c.pcb
            && next.log != [] && Last(next).body == WriteBody(r.w) && Last(next).sent == r.sent
            && ((r.err == Ok || r.err == Mem) && script.output == Rte ==> Told(c, next, Rte))
            && (r.err == Ok && r.w.offset == r.w.len && script.output != Rte ==> Told(c, next, Ok))
            && (dontblock && r.err == Ok && script.output != Rte ==> Told(c, next, Ok))
            && (dontblock && r.err == Mem && script.output != Rte ==>
                  Told(c, next, if r.w.offset == 0 then WouldBlock else Ok))
            && (r.err != Ok && r.err != Mem ==> Told(c, next, r.err))
            && (!dontblock && r.err == Ok && r.w.offset != r.w.len && script.output != Rte ==> Waits(c, next))
            && (!dontblock && r.err == Mem && script.output != Rte ==> Waits(c, next))
  {
    hide TryWrite, Concat, CursorOk;
  }

  // ---- Closing -----------------------------------------------------------------

  /** How one close attempt ends. A half shutdown counts as a full close only when the
      other half is shut down already; only a full close gives up the pcb. Out of memory
      the attempt is repeated while polls are left, and then a full close resets the
      connection and succeeds, while a half shutdown fails. */
  lemma CloseOutcome(c: Conn, a: CloseAnswer)
    requires ClosePending(c)
    ensures var shut, polls := Last(c).body.shut, Last(c).body.pollsLeft;
            var full := match shut case RDWR => true case RD => a.finWait case WR => a.rxClosed;
            var next := DoCloseInternal(c, a);
            if a.err == Mem && polls > 0 then next == c
            else
              && Told(c, next, if a.err == Mem && full then Ok else a.err)
              && Last(next).body == Last(c).body
              && next.pcb == (if full && (a.err == Ok || a.err == Mem) then false else c.pcb)
  {
  }

  /** A poll first takes one off the polls that are left, then tries again; a sent callback
      just tries again; other states ignore both. */
  lemma ResumeOutcome(c: Conn, script: Script, poll: bool)
    requires Pending(c)
    ensures c.state == WRITE ==> StepResume(c, script, poll) == DoWriteMore(c, script.write)
    ensures c.state != WRITE && c.state != CLOSE ==> StepResume(c, script, poll) == c
    ensures c.state == CLOSE ==>
              var polls, next := Last(c).body.pollsLeft, StepResume(c, script, poll);
              if script.close.err == Mem && (if poll then polls > 1 else polls > 0) then
                && Waits(c, next)
                && Last(next).body == CloseBody(Last(c).body.shut, if poll then polls - 1 else polls)
              else !next.busy && next.state == NONE && Last(next).signals == Last(c).signals + 1
  {
    hide DoCloseInternal, DoWriteMore, CursorOk;
    if c.state == CLOSE {
      var left := Last(c).body.pollsLeft;
      CloseOutcome(c, script.close);
      if poll && left > 0 {
        CloseOutcome(SetLast(c, Last(c).(body := Last(c).body.(pollsLeft := left - 1))), script.close);
      }
    }
  }

  // ---- Requests ------------------------------------------------------------------

  /** A write request: a pending error goes to the caller first, and is then forgotten;
      during another operation it is in progress, without a pcb not connected; otherwise
      it starts at the first octet of its vectors and goes straight into the loop. */
  lemma WriteRequest(c: Conn, vectors: seq<seq<u8>>, dontblock: bool, script: WriteScript)
    requires vectors != []
    ensures var next := StepWrite(c, vectors, dontblock, script);
            var body := WriteBody(Write(vectors, 0, |vectors|, 0, 0, |Concat(vectors)|, dontblock));
            var cleared := c.(pendingErr := Ok);
            if c.pendingErr != Ok then Answered(cleared, next, body, c.pendingErr)
            else if c.state != NONE then Answered(c, next, body, InProgress)
            else if !c.pcb then Answered(c, next, body, ConnErr)
            else exists begun :: Begun(c, begun, body, WRITE) && WritePending(begun) &&
                                 next == DoWriteMore(begun, script)
  {
    hide Concat, TryWrite, DoWriteMore;
    if c.pendingErr == Ok && c.state == NONE && c.pcb {
      NewWriteCursor(vectors, dontblock);
      var begun := Begin(c.(pendingErr := Ok), WRITE, WriteBody(NewWrite(vectors, dontblock)));
      assert Begun(c, begun, WriteBody(NewWrite(vectors, dontblock)), WRITE);
    }
  }

  /** A close request: not connected without a pcb or during a connect, in progress during
      a write, else one close attempt at once. */
  lemma CloseRequest(c: Conn, shut: Shut, polls: u8, a: CloseAnswer)
    ensures var next, body := StepClose(c, shut, polls, a), CloseBody(shut, polls);
            if !c.pcb || c.state == CONNECT then Answered(c, next, body, ConnErr)
            else if c.state == WRITE then Answered(c, next, body, InProgress)
            else exists begun :: Begun(c, begun, body, CLOSE) && ClosePending(begun) &&
                                 next == DoCloseInternal(begun, a)
  {
    hide DoCloseInternal;
    assert Begun(c, Begin(c, CLOSE, CloseBody(shut, polls)), CloseBody(shut, polls), CLOSE);
  }

  /** A delete: in progress during a write, a close or a blocking connect; done without a
      pcb; else a full close. */
  lemma DeleteRequest(c: Conn, polls: u8, a: CloseAnswer)
    ensures var next, body := StepDelete(c, polls, a), CloseBody(RDWR, polls);
            if c.state == WRITE || c.state == CLOSE || (c.state == CONNECT && !c.connecting) then
              Answered(c, next, body, InProgress)
            else if !c.pcb then Answered(c, next, body, Ok)
            else exists begun :: Begun(c, begun, body, CLOSE) && ClosePending(begun) &&
                                 next == DoCloseInternal(begun, a)
  {
    hide DoCloseInternal;
    assert Begun(c, Begin(c, CLOSE, CloseBody(RDWR, polls)), CloseBody(RDWR, polls), CLOSE);
  }

  /** A connect: closed without a pcb, already under way, connected otherwise, or refused by
      TCP; a nonblocking one is in progress and leaves the flag, a blocking one waits. */
  lemma ConnectRequest(c: Conn, err: Err)
    ensures var next := StepConnect(c, err);
            if !c.pcb then Answered(c, next, ConnectBody, Clsd)
            else if c.state == CONNECT then Answered(c, next, ConnectBody, Already)
            else if c.state != NONE then Answered(c, next, ConnectBody, IsConn)
            else if err != Ok then Answered(c, next, ConnectBody, err)
            else if c.nonblocking then
              Answered(c.(state := CONNECT, connecting := true), next, ConnectBody, InProgress)
            else Begun(c.(connecting := false), next, ConnectBody, CONNECT)
  {
  }

  /** The connected callback tells a blocked caller its argument and ends the connect. */
  lemma ConnectedOutcome(c: Conn, err: Err)
    requires c.busy ==> c.log != []
    ensures var next := StepConnected(c, err);
            && !next.connecting && next.state == NONE && !next.busy && next.pcb == c.pcb
            && (if c.busy then Told(c, next.(connecting := c.connecting), err) else next.log == c.log)
  {
  }

  /** The error callback takes the pcb away and keeps the error for the next write; it tells
      a blocked caller, to whom a close has succeeded. */
  lemma ErrOutcome(c: Conn, err: Err)
    requires c.state != NONE && !c.connecting ==> c.log != []
    ensures var next := StepErr(c, err);
            && !next.pcb && next.pendingErr == err && next.state == NONE
            && (if c.state != NONE && !c.connecting then
                  Told(c, next.(pendingErr := c.pendingErr), if c.state == CLOSE then Ok else err)
                else next.log == c.log && next.busy == c.busy && !(next.connecting && c.state != NONE))
  {
  }
}
