/** What one TCP netconn does, as a state machine over values: the requests of one
    blocking caller, the callbacks of the TCP layer, and TCP's answers as arbitrary
    scripts. Callbacks run one at a time on the tcpip thread, so a step is one
    request message or one callback. */
module NetconnModel {
  import opened MachineTypes

  /** The error codes the code tests by name; the rest of err_t is `Other`. */
  datatype Err = Ok | Mem | Rte | WouldBlock | InProgress | ConnErr | Clsd | Already | IsConn | Val | Other(code: int)

  datatype NetState = NONE | WRITE | CONNECT | CLOSE

  datatype Shut = RD | WR | RDWR

  /** A vectored write: `vector` and `cnt` are the cursor over `vectors`, `off` the
      position inside the current vector, `offset` the octets taken so far. */
  datatype Write = Write(vectors: seq<seq<u8>>, vector: nat, cnt: nat, off: nat, offset: nat, len: nat,
                         dontblock: bool)

  datatype Body = WriteBody(w: Write) | CloseBody(shut: Shut, pollsLeft: u8) | ConnectBody

  /** A request message. `sent` records what tcp_write accepted for it and `signals`
      how often its semaphore was signalled. */
  datatype Msg = Msg(body: Body, sent: seq<u8>, err: Err, signals: nat)

  /** `busy` is current_msg != NULL; the current message is then the last of `log`.
      `connecting` is NETCONN_FLAG_IN_NONBLOCKING_CONNECT. */
  datatype Conn = Conn(state: NetState, busy: bool, connecting: bool, nonblocking: bool, pcb: bool,
                       pendingErr: Err, log: seq<Msg>)

  // ---- Writing -------------------------------------------------------------

  /** TCP's answers during one turn of the inner loop. */
  datatype Answer = Answer(sndbuf: u16, err: Err)

  /** TCP's answers during one call of writemore. */
  datatype WriteScript = WriteScript(answers: seq<Answer>, output: Err)

  datatype Attempt = Spinning(w: Write, sent: seq<u8>) | Attempt(w: Write, sent: seq<u8>, err: Err)

  function Concat(vectors: seq<seq<u8>>): seq<u8> {
    if vectors == [] then [] else Concat(vectors[..|vectors| - 1]) + vectors[|vectors| - 1]
  }

  /** The cursor points at the octet `offset` of the concatenated vectors. */
  ghost predicate CursorOk(w: Write) {
    && w.vector < |w.vectors|
    && w.off <= |w.vectors[w.vector]|
    && w.offset == |Concat(w.vectors[..w.vector])| + w.off
    && w.len == |Concat(w.vectors)|
    && (if w.cnt > 0 then w.vector + w.cnt == |w.vectors| && (w.off < |w.vectors[w.vector]| || w.off == 0)
        else w.vector + 1 == |w.vectors| && w.off == |w.vectors[w.vector]|)
  }

  function Diff(w: Write): nat
    requires w.vector < |w.vectors| && w.off <= |w.vectors[w.vector]|
  {
    |w.vectors[w.vector]| - w.off
  }

  /** The octets handed to tcp_write. */
  function Chunk(w: Write, len: nat): seq<u8>
    requires w.vector < |w.vectors| && w.off + len <= |w.vectors[w.vector]|
  {
    w.vectors[w.vector][w.off..w.off + len]
  }

  /** At most 0xffff octets, and no more than the send buffer holds. */
  function PlanLen(diff: nat, sndbuf: u16): nat {
    var len := if diff > 0xffff then 0xffff else diff;
    if sndbuf < len then sndbuf else len
  }

  /** write_more: the 16-bit limit cut this vector, or this vector ends and more
      follow. The second test compares with diff cast to 16 bits. */
  predicate WriteMore(diff: nat, len: nat, cnt: nat) {
    (len == 0xffff && diff > 0xffff) || (len == diff % 0x1_0000 && cnt > 1)
  }

  function Advance(w: Write, len: nat): Write
    requires w.vector < |w.vectors| && w.cnt > 0
  {
    var w := w.(offset := w.offset + len, off := w.off + len);
    if w.off != |w.vectors[w.vector]| then w
    else if w.cnt > 1 then w.(cnt := w.cnt - 1, vector := w.vector + 1, off := 0)
    else w.(cnt := 0)
  }

  /** The do-while loop of writemore; `Spinning` if TCP's answers run out before the
      loop ends. */
  function TryWrite(w: Write, sent: seq<u8>, dontblock: bool, answers: seq<Answer>): Attempt
    requires w.cnt > 0 && CursorOk(w)
    decreases |answers|
  {
    if answers == [] then Spinning(w, sent)
    else
      var diff, a := Diff(w), answers[0];
      var len := PlanLen(diff, a.sndbuf);
      if dontblock && len == 0 && diff > 0 then
        Attempt(w, sent, if w.offset == 0 then WouldBlock else Ok)
      else if a.err != Ok then
        Attempt(w, sent, a.err)
      else
        AdvanceCursor(w, len);
        var next := Advance(w, len);
        var sent' := sent + Chunk(w, len);
        if WriteMore(diff, len, w.cnt) then TryWrite(next, sent', dontblock, answers[1..])
        else Attempt(next, sent', Ok)
  }

  lemma TryWriteUnfold(w: Write, sent: seq<u8>, dontblock: bool, answers: seq<Answer>)
    requires w.cnt > 0 && CursorOk(w) && answers != []
    ensures var diff, a := Diff(w), answers[0];
            var len := PlanLen(diff, a.sndbuf);
            && len <= diff && CursorOk(Advance(w, len))
            && (WriteMore(diff, len, w.cnt) ==> Advance(w, len).cnt > 0)
            && TryWrite(w, sent, dontblock, answers) ==
               if dontblock && len == 0 && diff > 0 then Attempt(w, sent, if w.offset == 0 then WouldBlock else Ok)
               else if a.err != Ok then Attempt(w, sent, a.err)
               else if WriteMore(diff, len, w.cnt) then
                 TryWrite(Advance(w, len), sent + Chunk(w, len), dontblock, answers[1..])
               else Attempt(Advance(w, len), sent + Chunk(w, len), Ok)
  {
    AdvanceCursor(w, PlanLen(Diff(w), answers[0].sndbuf));
  }

  lemma EndsWithAnswers(w: Write, sent: seq<u8>, dontblock: bool, answers: seq<Answer>)
    requires w.cnt > 0 && CursorOk(w) && TryWrite(w, sent, dontblock, answers).Attempt?
    ensures answers != []
  {
  }

  /** How an attempt ends: finished or not, and with which error. */
  function Verdict(w: Write, dontblock: bool, err: Err, output: Err): (bool, Err) {
    if err == Ok then
      if output == Rte then (true, Rte) else (w.offset == w.len || dontblock, Ok)
    else if err == Mem then
      if output == Rte then (true, Rte)
      else if dontblock then (true, if w.offset == 0 then WouldBlock else Ok)
      else (false, Mem)
    else (true, err)
  }

  // ---- Steps ---------------------------------------------------------------

  /** TCP's answers to one close attempt: the half-closed states it tests and the
      result of tcp_close or tcp_shutdown. */
  datatype CloseAnswer = CloseAnswer(finWait: bool, rxClosed: bool, err: Err)

  /** TCP's answers for a callback: which one is read depends on the state. */
  datatype Script = Script(write: WriteScript, close: CloseAnswer)

  datatype Event =
    | DoWrite(vectors: seq<seq<u8>>, dontblock: bool, write: WriteScript)
    | DoClose(shut: Shut, polls: u8, close: CloseAnswer)
    | DoDelete(polls: u8, close: CloseAnswer)
    | DoConnect(connect: Err)
    | Sent(script: Script)
    | Poll(script: Script)
    | Connected(err: Err)
    | ErrTcp(err: Err)
    | TakeErr

  function Last(c: Conn): Msg
    requires c.log != []
  {
    c.log[|c.log| - 1]
  }

  function SetLast(c: Conn, m: Msg): Conn
    requires c.log != []
  {
    c.(log := c.log[|c.log| - 1 := m])
  }

  /** Hand the current message back to its caller. */
  function Complete(c: Conn, err: Err): Conn
    requires c.log != []
  {
    SetLast(c, Last(c).(err := err, signals := Last(c).signals + 1)).(busy := false)
  }

  /** Answer a request at once. */
  function Ack(c: Conn, body: Body, err: Err): Conn {
    c.(log := c.log + [Msg(body, [], err, 1)])
  }

  /** Store a request as current_msg. */
  function Begin(c: Conn, state: NetState, body: Body): Conn {
    c.(state := state, busy := true, log := c.log + [Msg(body, [], Ok, 0)])
  }

  ghost predicate WritePending(c: Conn) {
    && c.state == WRITE && c.log != [] && Last(c).body.WriteBody?
    && Last(c).body.w.cnt > 0 && CursorOk(Last(c).body.w)
  }

  predicate ClosePending(c: Conn) {
    c.state == CLOSE && c.log != [] && Last(c).body.CloseBody?
  }

  function DontBlock(c: Conn, w: Write): bool {
    c.nonblocking || w.dontblock
  }

  /** lwip_netconn_do_writemore. */
  function DoWriteMore(c: Conn, script: WriteScript): Conn
    requires WritePending(c)
  {
    var m := Last(c);
    var dontblock := DontBlock(c, m.body.w);
    match TryWrite(m.body.w, m.sent, dontblock, script.answers)
    case Spinning(w, sent) => SetLast(c, m.(body := WriteBody(w), sent := sent))
    case Attempt(w, sent, err) =>
      var next := SetLast(c, m.(body := WriteBody(w), sent := sent));
      var (finished, err') := Verdict(w, dontblock, err, script.output);
      if finished then Complete(next, err').(state := NONE) else next
  }

  predicate ShutClose(shut: Shut, a: CloseAnswer) {
    shut == RDWR || (shut == RD && a.finWait) || (shut == WR && a.rxClosed)
  }

  /** lwip_netconn_do_close_internal. */
  function DoCloseInternal(c: Conn, a: CloseAnswer): Conn
    requires ClosePending(c)
  {
    var body := Last(c).body;
    var shutClose := ShutClose(body.shut, a);
    if a.err == Mem && body.pollsLeft > 0 then c
    else
      var err := if a.err == Mem && shutClose then Ok else a.err;
      var next := Complete(c, err).(state := NONE);
      if err == Ok && shutClose then next.(pcb := false) else next
  }

  function NewWrite(vectors: seq<seq<u8>>, dontblock: bool): Write {
    Write(vectors, 0, |vectors|, 0, 0, |Concat(vectors)|, dontblock)
  }

  lemma NewWriteCursor(vectors: seq<seq<u8>>, dontblock: bool)
    requires vectors != []
    ensures CursorOk(NewWrite(vectors, dontblock))
  {
  }

  lemma ConcatStep(vectors: seq<seq<u8>>, k: nat)
    requires k < |vectors|
    ensures Concat(vectors[..k + 1]) == Concat(vectors[..k]) + vectors[k]
  {
    assert vectors[..k + 1][..k] == vectors[..k];
  }

  lemma AdvanceCursor(w: Write, len: nat)
    requires w.cnt > 0 && CursorOk(w) && len <= Diff(w)
    ensures CursorOk(Advance(w, len))
    ensures WriteMore(Diff(w), len, w.cnt) ==> Advance(w, len).cnt > 0
  {
    ConcatStep(w.vectors, w.vector);
    assert w.vectors[..|w.vectors|] == w.vectors;
  }

  /** lwip_netconn_do_write. */
  function StepWrite(c: Conn, vectors: seq<seq<u8>>, dontblock: bool, script: WriteScript): Conn
    requires vectors != []
  {
    var body := WriteBody(NewWrite(vectors, dontblock));
    var err, c := c.pendingErr, c.(pendingErr := Ok);
    if err != Ok then Ack(c, body, err)
    else if c.state != NONE then Ack(c, body, InProgress)
    else if !c.pcb then Ack(c, body, ConnErr)
    else
      NewWriteCursor(vectors, dontblock);
      DoWriteMore(Begin(c, WRITE, body), script)
  }

  /** lwip_netconn_do_close. */
  function StepClose(c: Conn, shut: Shut, polls: u8, a: CloseAnswer): Conn {
    var body := CloseBody(shut, polls);
    if !c.pcb || c.state == CONNECT then Ack(c, body, ConnErr)
    else if c.state == WRITE then Ack(c, body, InProgress)
    else DoCloseInternal(Begin(c, CLOSE, body), a)
  }

  /** lwip_netconn_do_delconn: a nonblocking connect in progress does not stop it, and
      its flag is not cleared. */
  function StepDelete(c: Conn, polls: u8, a: CloseAnswer): Conn {
    var body := CloseBody(RDWR, polls);
    if c.state == WRITE || c.state == CLOSE || (c.state == CONNECT && !c.connecting) then Ack(c, body, InProgress)
    else if !c.pcb then Ack(c, body, Ok)
    else DoCloseInternal(Begin(c, CLOSE, body), a)
  }

  /** lwip_netconn_do_connect. */
  function StepConnect(c: Conn, err: Err): Conn {
    if !c.pcb then Ack(c, ConnectBody, Clsd)
    else if c.state == CONNECT then Ack(c, ConnectBody, Already)
    else if c.state != NONE then Ack(c, ConnectBody, IsConn)
    else if err != Ok then Ack(c, ConnectBody, err)
    else if c.nonblocking then Ack(c.(state := CONNECT, connecting := true), ConnectBody, InProgress)
    else Begin(c, CONNECT, ConnectBody).(connecting := false)
  }

  /** lwip_netconn_do_connected. */
  function StepConnected(c: Conn, err: Err): Conn {
    var next := if c.busy && c.log != [] then Complete(c, err) else c;
    next.(state := NONE, busy := false, connecting := false)
  }

  lemma ConnectedSteps(c: Conn, err: Err)
    requires c.busy ==> c.log != []
    ensures StepConnected(c, err) ==
            if c.busy then Complete(c.(connecting := false), err).(state := NONE)
            else c.(state := NONE, connecting := false)
  {
  }

  /** sent_tcp, and poll_tcp which first counts a poll off a pending close. */
  function StepResume(c: Conn, script: Script, poll: bool): Conn
    requires c.state == WRITE ==> WritePending(c)
    requires c.state == CLOSE ==> ClosePending(c)
  {
    match c.state
    case WRITE => DoWriteMore(c, script.write)
    case CLOSE =>
      var left := Last(c).body.pollsLeft;
      if poll && left > 0 then
        DoCloseInternal(SetLast(c, Last(c).(body := Last(c).body.(pollsLeft := left - 1))), script.close)
      else DoCloseInternal(c, script.close)
    case _ => c
  }

  /** err_tcp: the pcb is gone; a blocked caller is released unless the connection
      carries the flag of a nonblocking connect. */
  function StepErr(c: Conn, err: Err): Conn
    requires c.state != NONE && !c.connecting ==> c.log != []
  {
    var next := c.(pcb := false, pendingErr := err, state := NONE);
    if c.state == NONE then next
    else if c.connecting then next.(connecting := false)
    else Complete(next, if c.state == CLOSE then Ok else err)
  }

  lemma ErrSteps(c: Conn, err: Err)
    requires c.state != NONE && !c.connecting ==> c.log != []
    ensures var next := c.(pcb := false, pendingErr := err, state := NONE);
            StepErr(c, err) ==
            if c.state == NONE then next
            else if c.connecting then next.(connecting := false)
            else Complete(next.(connecting := false), if c.state == CLOSE then Ok else err).(state := NONE)
  {
  }

  /** The messages and callbacks that can arrive in a state: one caller, blocked while
      a message of its own is current; callbacks need a pcb; `connected` ends a
      connect. TCP's answers need not end the write loop: what it has taken by then is
      recorded, and a later callback goes on from there. */
  ghost predicate Enabled(c: Conn, e: Event) {
    match e
    case DoWrite(vectors, _, _) => !c.busy && Concat(vectors) != []
    case DoClose(_, _, _) => !c.busy
    case DoDelete(_, _) => !c.busy
    case DoConnect(_) => !c.busy
    case Sent(_) => c.pcb && Pending(c)
    case Poll(_) => c.pcb && Pending(c)
    case Connected(_) => c.pcb && c.state == CONNECT
    case ErrTcp(err) => c.pcb && err != Ok && (c.state != NONE && !c.connecting ==> c.log != [])
    case TakeErr => true
  }

  ghost predicate Pending(c: Conn) {
    (c.state == WRITE ==> WritePending(c)) && (c.state == CLOSE ==> ClosePending(c))
  }

  /** TCP's answers end the write loop. */
  ghost predicate LoopEnds(w: Write, sent: seq<u8>, dontblock: bool, script: WriteScript) {
    w.cnt > 0 && CursorOk(w) && TryWrite(w, sent, dontblock, script.answers).Attempt?
  }

  ghost predicate Resumable(c: Conn, script: Script) {
    && Pending(c)
    && (c.state == WRITE ==>
          LoopEnds(Last(c).body.w, Last(c).sent, DontBlock(c, Last(c).body.w), script.write))
  }

  /** One step; what cannot arrive is ignored. */
  ghost function Step(c: Conn, e: Event): Conn {
    if !Enabled(c, e) then c else
      match e
      case DoWrite(vectors, dontblock, script) => StepWrite(c, vectors, dontblock, script)
      case DoClose(shut, polls, a) => StepClose(c, shut, polls, a)
      case DoDelete(polls, a) => StepDelete(c, polls, a)
      case DoConnect(err) => StepConnect(c, err)
      case Sent(script) => StepResume(c, script, false)
      case Poll(script) => StepResume(c, script, true)
      case Connected(err) => StepConnected(c, err)
      case ErrTcp(err) => StepErr(c, err)
      case TakeErr => c.(pendingErr := Ok)
  }

  ghost function Run(c: Conn, events: seq<Event>): Conn {
    if events == [] then c
    else Step(Run(c, events[..|events| - 1]), events[|events| - 1])
  }

  /** A netconn that was just created around a pcb. */
  function Fresh(nonblocking: bool): Conn {
    Conn(NONE, false, false, nonblocking, true, Ok, [])
  }
}
