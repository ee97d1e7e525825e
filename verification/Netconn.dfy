/** The netconn functions of api_msg.c over heap objects, each proved to take the step
    that NetconnModel defines. Variant: no core locking, no full duplex, no linger,
    no send timeout; TCP netconns that do not listen. */
module Netconn {
  import opened MachineTypes
  import opened NetconnModel

  datatype Kind = WriteKind | CloseKind | ConnectKind

  /** struct api_msg: the union arms `w` and `sd`, the result and the semaphore. */
  class ApiMsg {
    const kind: Kind
    var vectors: seq<seq<u8>>
    var vector: nat
    var vectorCnt: nat
    var vectorOff: nat
    var offset: nat
    var len: nat
    var dontblock: bool
    var shut: Shut
    var pollsLeft: u8
    var err: Err
    var signals: nat
    ghost var sent: seq<u8>

    ghost function W(): Write
      reads this
    {
      Write(vectors, vector, vectorCnt, vectorOff, offset, len, dontblock)
    }

    ghost function Body(): Body
      reads this
    {
      match kind
      case WriteKind => WriteBody(W())
      case CloseKind => CloseBody(shut, pollsLeft)
      case ConnectKind => ConnectBody
    }

    ghost function Value(): Msg
      reads this
    {
      Msg(Body(), sent, err, signals)
    }

    /** As netconn_write_vectors_partly fills it in. */
    constructor ForWrite(vectors: seq<seq<u8>>, len: nat, dontblock: bool)
      requires len == |Concat(vectors)|
      ensures Value() == Msg(WriteBody(NewWrite(vectors, dontblock)), [], Ok, 0)
    {
      kind, err, signals, sent := WriteKind, Ok, 0, [];
      this.vectors, vector, vectorCnt, vectorOff := vectors, 0, |vectors|, 0;
      offset, this.len, this.dontblock := 0, len, dontblock;
      shut, pollsLeft := RDWR, 0;
    }

    /** As netconn_close_shutdown and netconn_prepare_delete fill it in. */
    constructor ForClose(shut: Shut, pollsLeft: u8)
      ensures Value() == Msg(CloseBody(shut, pollsLeft), [], Ok, 0)
    {
      kind, err, signals, sent := CloseKind, Ok, 0, [];
      vectors, vector, vectorCnt, vectorOff := [], 0, 0, 0;
      offset, len, dontblock := 0, 0, false;
      this.shut, this.pollsLeft := shut, pollsLeft;
    }

    constructor ForConnect()
      ensures Value() == Msg(ConnectBody, [], Ok, 0)
    {
      kind, err, signals, sent := ConnectKind, Ok, 0, [];
      vectors, vector, vectorCnt, vectorOff := [], 0, 0, 0;
      offset, len, dontblock := 0, 0, false;
      shut, pollsLeft := RDWR, 0;
    }
  }

  class Conn {
    const nonblocking: bool
    var state: NetState
    var currentMsg: ApiMsg?
    var inNonblockingConnect: bool
    var pcb: bool
    var pendingErr: Err
    /** every message ever submitted, in order */
    ghost var log: seq<ApiMsg>

    ghost predicate Valid()
      reads this
    {
      && (forall i, j :: 0 <= i < j < |log| ==> log[i] != log[j])
      && (currentMsg != null ==> log != [] && currentMsg == log[|log| - 1])
    }

    ghost function Values(msgs: seq<ApiMsg>): seq<Msg>
      reads msgs
    {
      seq(|msgs|, i requires 0 <= i < |msgs| reads msgs => msgs[i].Value())
    }

    ghost function Abs(): NetconnModel.Conn
      reads this, log
    {
      NetconnModel.Conn(state, currentMsg != null, inNonblockingConnect, nonblocking, pcb, pendingErr, Values(log))
    }

    constructor (nonblocking: bool)
      ensures Valid() && Abs() == Fresh(nonblocking) && log == [] && this.nonblocking == nonblocking
      ensures state == NONE && currentMsg == null && pcb && !inNonblockingConnect && pendingErr == Ok
    {
      this.nonblocking := nonblocking;
      state, currentMsg, inNonblockingConnect := NONE, null, false;
      pcb, pendingErr, log := true, Ok, [];
    }

    /** TCPIP_APIMSG_ACK after storing the result. */
    method AckMsg(m: ApiMsg, err: Err)
      requires Valid() && currentMsg == null && m !in log
      requires m.Value() == Msg(m.Body(), [], Ok, 0)
      modifies this`log, m`err, m`signals
      ensures Valid() && log == old(log) + [m]
      ensures Abs() == Ack(old(Abs()), old(m.Body()), err)
    {
      m.err := err;
      m.signals := m.signals + 1;
      log := log + [m];
      assert forall i :: 0 <= i < |old(log)| ==> log[i].Value() == old(log[i].Value());
    }

    /** conn->current_msg = msg. */
    method SetCurrent(m: ApiMsg, state: NetState)
      requires Valid() && currentMsg == null && m !in log
      requires m.Value() == Msg(m.Body(), [], Ok, 0)
      modifies this`state, this`currentMsg, this`log
      ensures Valid() && log == old(log) + [m] && currentMsg == m
      ensures Abs() == Begin(old(Abs()), state, m.Body())
    {
      this.state := state;
      currentMsg := m;
      log := log + [m];
      assert forall i :: 0 <= i < |old(log)| ==> log[i].Value() == old(log[i].Value());
    }

    /** Store the result, forget the message and signal its semaphore. */
    method Release(err: Err)
      requires Valid() && currentMsg != null
      modifies this`currentMsg, this`state, currentMsg`err, currentMsg`signals
      ensures Valid() && log == old(log)
      ensures Abs() == Complete(old(Abs()), err).(state := NONE)
    {
      var m := currentMsg;
      m.err := err;
      currentMsg := null;
      state := NONE;
      m.signals := m.signals + 1;
      assert forall i :: 0 <= i < |log| - 1 ==> log[i].Value() == old(log[i].Value());
    }

    /** lwip_netconn_do_writemore. TCP's answers come from `script`. */
    method WriteMore(script: WriteScript)
      requires Valid() && currentMsg != null
      requires WritePending(Abs())
      requires LoopEnds(currentMsg.W(), currentMsg.sent, DontBlock(Abs(), currentMsg.W()), script)
      modifies this`currentMsg, this`state, currentMsg
      ensures Valid() && log == old(log)
      ensures Abs() == DoWriteMore(old(Abs()), script)
    {
      hide CursorOk, TryWrite, Verdict;
      var m := currentMsg;
      var dontblock := nonblocking || m.dontblock;
      var err := TryWriteLoop(m, dontblock, script.answers);
      assert forall i :: 0 <= i < |log| - 1 ==> log[i].Value() == old(log[i].Value());
      ghost var r := old(TryWrite(m.W(), m.sent, dontblock, script.answers));
      assert Abs() == SetLast(old(Abs()), Last(old(Abs())).(body := WriteBody(r.w), sent := r.sent));
      var writeFinished;
      writeFinished, err := Judge(m, dontblock, err, script.output);
      if writeFinished {
        Release(err);
      }
    }

    /** What follows the loop: is the request finished, and with which error? */
    static method Judge(m: ApiMsg, dontblock: bool, loopErr: Err, output: Err) returns (writeFinished: bool, err: Err)
      requires m.kind == WriteKind
      ensures (writeFinished, err) == Verdict(m.W(), dontblock, loopErr, output)
    {
      writeFinished, err := false, loopErr;
      if err == Ok {
        if m.offset == m.len || dontblock {
          writeFinished := true;
        }
        if output == Rte {
          err, writeFinished := Rte, true;
        }
      } else if err == Mem {
        if output == Rte {
          err, writeFinished := Rte, true;
        } else if dontblock {
          err := if m.offset == 0 then WouldBlock else Ok;
          writeFinished := true;
        }
      } else {
        writeFinished := true;
      }
    }

    /** The inner do-while loop: fill the send buffer from the vectors. */
    static method TryWriteLoop(m: ApiMsg, dontblock: bool, answers: seq<Answer>) returns (err: Err)
      requires m.kind == WriteKind && m.vectorCnt > 0 && CursorOk(m.W())
      requires TryWrite(m.W(), m.sent, dontblock, answers).Attempt?
      modifies m`vector, m`vectorCnt, m`vectorOff, m`offset, m`sent
      ensures Attempt(m.W(), m.sent, err) == old(TryWrite(m.W(), m.sent, dontblock, answers))
    {
      hide TryWrite, CursorOk, Advance, Concat;
      err := Ok;
      var i := 0;
      var more := true;
      while more
        invariant 0 <= i <= |answers|
        invariant CursorOk(m.W())
        invariant more ==> m.vectorCnt > 0 && TryWrite(m.W(), m.sent, dontblock, answers[i..]) ==
                             old(TryWrite(m.W(), m.sent, dontblock, answers))
        invariant !more ==> Attempt(m.W(), m.sent, err) == old(TryWrite(m.W(), m.sent, dontblock, answers))
        decreases more, |answers| - i
      {
        CursorInside(m.W());
        EndsWithAnswers(m.W(), m.sent, dontblock, answers[i..]);
        TryWriteUnfold(m.W(), m.sent, dontblock, answers[i..]);
        var diff := |m.vectors[m.vector]| - m.vectorOff;
        var len := if diff > 0xffff then 0xffff else diff;
        var available := answers[i].sndbuf;
        if available < len {
          len := available;
          if dontblock && len == 0 {
            err := if m.offset == 0 then WouldBlock else Ok;
            more := false;
            break;
          }
        }
        var writeMore := (len == 0xffff && diff > 0xffff) || (len == diff % 0x1_0000 && m.vectorCnt > 1);
        err := answers[i].err;
        if err == Ok {
          Accepted(m, len);
        }
        more := writeMore && err == Ok;
        assert answers[i..][1..] == answers[i + 1..];
        i := i + 1;
      }
    }

    static lemma CursorInside(w: Write)
      requires CursorOk(w)
      ensures w.vector < |w.vectors| && w.off <= |w.vectors[w.vector]|
      ensures w.cnt > 0 ==> w.vector + w.cnt == |w.vectors|
    {
    }

    /** tcp_write took `len` octets: move the cursor. */
    static method Accepted(m: ApiMsg, len: nat)
      requires m.kind == WriteKind && m.vectorCnt > 0
      requires m.vector < |m.vectors| && m.vectorOff + len <= |m.vectors[m.vector]|
      requires m.vector + m.vectorCnt <= |m.vectors|
      modifies m`vector, m`vectorCnt, m`vectorOff, m`offset, m`sent
      ensures m.W() == Advance(old(m.W()), len)
      ensures m.sent == old(m.sent) + Chunk(old(m.W()), len)
    {
      m.sent := m.sent + m.vectors[m.vector][m.vectorOff..m.vectorOff + len];
      m.offset := m.offset + len;
      m.vectorOff := m.vectorOff + len;
      if m.vectorOff == |m.vectors[m.vector]| {
        m.vectorCnt := m.vectorCnt - 1;
        if m.vectorCnt > 0 {
          m.vector := m.vector + 1;
          m.vectorOff := 0;
        }
      }
    }

    /** What a close attempt means for its caller: out of memory is retried until the
        polls are used up, and then resets the connection. */
    static method CloseResult(answer: Err, pollsLeft: u8, shutClose: bool) returns (finished: bool, err: Err)
      ensures finished <==> !(answer == Mem && pollsLeft > 0)
      ensures err == if answer == Mem && pollsLeft == 0 && shutClose then Ok else answer
    {
      err, finished := answer, false;
      if err == Ok {
        finished := true;
      } else if err == Mem {
        if pollsLeft == 0 {
          finished := true;
          if shutClose {
            err := Ok;
          }
        }
      } else {
        finished := true;
      }
    }

    /** lwip_netconn_do_close_internal. */
    method CloseInternal(a: CloseAnswer)
      requires Valid() && currentMsg != null
      requires ClosePending(Abs())
      modifies this`currentMsg, this`state, this`pcb, currentMsg`err, currentMsg`signals
      ensures Valid() && log == old(log)
      ensures Abs() == DoCloseInternal(old(Abs()), a)
    {
      hide Complete;
      var m := currentMsg;
      var shutClose := m.shut == RDWR || (m.shut == RD && a.finWait) || (m.shut == WR && a.rxClosed);
      var finished, err := CloseResult(a.err, m.pollsLeft, shutClose);
      if finished {
        Release(err);
        ghost var released := Abs();
        if err == Ok && shutClose {
          pcb := false;
          assert Values(log) == released.log;
          assert Abs() == released.(pcb := false);
        }
      }
    }

    /** lwip_netconn_do_write. */
    method SubmitWrite(m: ApiMsg, script: WriteScript)
      requires Valid() && currentMsg == null && m !in log
      requires m.vectors != [] && m.Value() == Msg(WriteBody(NewWrite(m.vectors, m.dontblock)), [], Ok, 0)
      requires pendingErr == Ok && state == NONE && pcb ==>
                 LoopEnds(m.W(), [], DontBlock(Abs(), m.W()), script)
      modifies this, m
      ensures Valid() && log == old(log) + [m]
      ensures Abs() == StepWrite(old(Abs()), old(m.vectors), old(m.dontblock), script)
    {
      hide CursorOk, TryWrite, NewWrite;
      var err := pendingErr;
      pendingErr := Ok;
      if err == Ok {
        if state != NONE {
          err := InProgress;
        } else if pcb {
          NewWriteCursor(m.vectors, m.dontblock);
          NewWriteCount(m.vectors, m.dontblock);
          SetCurrent(m, WRITE);
          WriteMore(script);
          return;
        } else {
          err := ConnErr;
        }
      }
      AckMsg(m, err);
    }

    lemma NewWriteCount(vectors: seq<seq<u8>>, dontblock: bool)
      ensures NewWrite(vectors, dontblock).cnt == |vectors|
    {
    }

    /** lwip_netconn_do_close. */
    method SubmitClose(m: ApiMsg, a: CloseAnswer)
      requires Valid() && currentMsg == null && m !in log
      requires m.Value() == Msg(CloseBody(m.shut, m.pollsLeft), [], Ok, 0)
      modifies this, m
      ensures Valid() && log == old(log) + [m]
      ensures Abs() == StepClose(old(Abs()), old(m.shut), old(m.pollsLeft), a)
    {
      if pcb {
        if state == CONNECT {
          AckMsg(m, ConnErr);
        } else if state == WRITE {
          AckMsg(m, InProgress);
        } else {
          SetCurrent(m, CLOSE);
          CloseInternal(a);
        }
      } else {
        AckMsg(m, ConnErr);
      }
    }

    /** lwip_netconn_do_delconn. */
    method SubmitDelete(m: ApiMsg, a: CloseAnswer)
      requires Valid() && currentMsg == null && m !in log
      requires m.Value() == Msg(CloseBody(RDWR, m.pollsLeft), [], Ok, 0)
      modifies this, m
      ensures Valid() && log == old(log) + [m]
      ensures Abs() == StepDelete(old(Abs()), old(m.pollsLeft), a)
    {
      if (state != NONE && state != CONNECT) || (state == CONNECT && !inNonblockingConnect) {
        AckMsg(m, InProgress);
      } else if pcb {
        SetCurrent(m, CLOSE);
        CloseInternal(a);
      } else {
        AckMsg(m, Ok);
      }
    }

    /** lwip_netconn_do_connect; `connect` is the answer of tcp_connect. */
    method SubmitConnect(m: ApiMsg, connect: Err)
      requires Valid() && currentMsg == null && m !in log
      requires m.Value() == Msg(ConnectBody, [], Ok, 0)
      modifies this, m
      ensures Valid() && log == old(log) + [m]
      ensures Abs() == StepConnect(old(Abs()), connect)
    {
      var err: Err;
      if !pcb {
        err := Clsd;
      } else if state == CONNECT {
        err := Already;
      } else if state != NONE {
        err := IsConn;
      } else {
        err := connect;
        if err == Ok {
          if nonblocking {
            state, inNonblockingConnect := CONNECT, true;
            err := InProgress;
          } else {
            SetCurrent(m, CONNECT);
            inNonblockingConnect := false;
            return;
          }
        }
      }
      AckMsg(m, err);
    }

    /** lwip_netconn_do_connected. */
    method Connected(err: Err)
      requires Valid() && state == CONNECT
      modifies this, currentMsg
      ensures Valid() && log == old(log)
      ensures Abs() == StepConnected(old(Abs()), err)
    {
      hide Complete, StepConnected;
      ConnectedSteps(Abs(), err);
      inNonblockingConnect := false;
      assert Values(log) == old(Values(log));
      if currentMsg != null {
        Release(err);
      }
      state := NONE;
    }

    /** sent_tcp, without the select events. */
    method SentTcp(script: Script)
      requires Valid() && Resumable(Abs(), script) && (state == WRITE || state == CLOSE ==> currentMsg != null)
      modifies this, currentMsg
      ensures Valid() && log == old(log)
      ensures Abs() == StepResume(old(Abs()), script, false)
    {
      hide CursorOk, TryWrite;
      if state == WRITE {
        WriteMore(script.write);
      } else if state == CLOSE {
        CloseInternal(script.close);
      }
    }

    method CountPoll()
      requires Valid() && currentMsg != null && currentMsg.kind == CloseKind && currentMsg.pollsLeft > 0
      modifies currentMsg`pollsLeft
      ensures Valid()
      ensures var m := Last(old(Abs()));
              Abs() == SetLast(old(Abs()), m.(body := m.body.(pollsLeft := m.body.pollsLeft - 1)))
    {
      currentMsg.pollsLeft := currentMsg.pollsLeft - 1;
      assert forall i :: 0 <= i < |log| - 1 ==> log[i].Value() == old(log[i].Value());
    }

    /** poll_tcp, without the select events. */
    method PollTcp(script: Script)
      requires Valid() && Resumable(Abs(), script) && (state == WRITE || state == CLOSE ==> currentMsg != null)
      modifies this, currentMsg
      ensures Valid() && log == old(log)
      ensures Abs() == StepResume(old(Abs()), script, true)
    {
      hide CursorOk, TryWrite;
      if state == WRITE {
        WriteMore(script.write);
      } else if state == CLOSE {
        if currentMsg.pollsLeft > 0 {
          CountPoll();
        }
        CloseInternal(script.close);
      }
    }

    /** err_tcp, without mailboxes and select events. */
    method ErrTcp(err: Err)
      requires Valid() && (state != NONE && !inNonblockingConnect ==> currentMsg != null)
      modifies this, currentMsg
      ensures Valid() && log == old(log)
      ensures Abs() == StepErr(old(Abs()), err)
    {
      hide Complete, StepErr;
      ErrSteps(Abs(), err);
      pcb := false;
      pendingErr := err;
      var oldState := state;
      state := NONE;
      assert Values(log) == old(Values(log));
      if oldState == WRITE || oldState == CLOSE || oldState == CONNECT {
        var wasNonblockingConnect := inNonblockingConnect;
        inNonblockingConnect := false;
        if !wasNonblockingConnect {
          if oldState == CLOSE {
            Release(Ok);
          } else {
            Release(err);
          }
        }
      }
    }
  }

  // ---- api_lib.c -----------------------------------------------------------

  const SIZE_MAX: nat := 0xffff_ffff
  const SSIZE_MAX: nat := 0x7fff_ffff

  datatype Prepared = Refused(err: Err) | Nothing | Request(len: nat)

  function Total(lens: seq<nat>): nat {
    if lens == [] then 0 else Total(lens[..|lens| - 1]) + lens[|lens| - 1]
  }

  function Lengths(vectors: seq<seq<u8>>): seq<nat> {
    seq(|vectors|, i requires 0 <= i < |vectors| => |vectors[i]|)
  }

  /** The total is the number of octets that the request is to write. */
  lemma {:induction false} TotalIsLength(vectors: seq<seq<u8>>)
    ensures Total(Lengths(vectors)) == |Concat(vectors)|
  {
    if vectors != [] {
      var n := |vectors| - 1;
      TotalIsLength(vectors[..n]);
      assert Lengths(vectors)[..n] == Lengths(vectors[..n]);
    }
  }

  /** netconn_write_vectors_partly up to the request message: sum the lengths in
      size_t with a wrap check after every addition. The check refuses exactly the
      requests whose true total does not fit. */
  method PrepareWrite(lens: seq<nat>, dontblock: bool, wantsCount: bool) returns (r: Prepared)
    requires forall i :: 0 <= i < |lens| ==> lens[i] <= SIZE_MAX
    ensures r == if dontblock && !wantsCount then Refused(Val)
                 else if Total(lens) > 0xffff_ffff then Refused(Val)
                 else if Total(lens) == 0 then Nothing
                 else if Total(lens) <= 0x7fff_ffff then Request(Total(lens))
                 else if wantsCount then Request(0x7fff_ffff) else Refused(Val)
  {
    if dontblock && !wantsCount {
      return Refused(Val);
    }
    var size := 0;
    for i := 0 to |lens|
      invariant size == Total(lens[..i]) <= SIZE_MAX
    {
      assert lens[..i + 1][..i] == lens[..i];
      TotalGrows(lens, i + 1);
      size := (size + lens[i]) % (SIZE_MAX + 1);
      if size < lens[i] {
        return Refused(Val);
      }
    }
    assert lens[..|lens|] == lens;
    if size == 0 {
      return Nothing;
    } else if size > SSIZE_MAX {
      if !wantsCount {
        return Refused(Val);
      }
      size := SSIZE_MAX;
    }
    return Request(size);
  }

  lemma {:induction false} TotalGrows(lens: seq<nat>, k: nat)
    requires k <= |lens|
    ensures Total(lens[..k]) <= Total(lens)
    decreases |lens|
  {
    if k == |lens| {
      assert lens[..k] == lens;
    } else {
      assert lens[..|lens| - 1][..k] == lens[..k];
      TotalGrows(lens[..|lens| - 1], k);
    }
  }
}
