/** Which vehicle nonce a handshake answers with, over whole runs. */
module PairingNonces {
  import opened PairingCache
  import opened Wrappers

  /** What touches the handshake contexts: a handshake, with the nonce drawn for it, and a
      session seed. */
  datatype Op = Shake(sid: string, drawn: Bytes) | Seed(sid: string)

  function Table(ops: seq<Op>): map<string, Bytes> {
    if ops == [] then map[]
    else
      var n := |ops| - 1;
      match ops[n]
      case Shake(sid, drawn) => if sid in Table(ops[..n]) then Table(ops[..n]) else Table(ops[..n])[sid := drawn]
      case Seed(sid) => Table(ops[..n]) - {sid}
  }

  lemma TableShake(ops: seq<Op>, sid: string, drawn: Bytes)
    ensures Table(ops + [Shake(sid, drawn)]) == if sid in Table(ops) then Table(ops) else Table(ops)[sid := drawn]
  {
  }

  lemma DrawnForNew(ops: seq<Op>, sid: string, drawn: Bytes)
    requires sid !in Table(ops)
    ensures Lookup(Table(ops + [Shake(sid, drawn)]), sid) == Some(drawn)
  {
  }

  lemma TableSeed(ops: seq<Op>, sid: string)
    ensures Table(ops + [Seed(sid)]) == Table(ops) - {sid}
  {
  }

  predicate Shakes(op: Op, sid: string) {
    op.Shake? && op.sid == sid
  }

  /** The nonce drawn for the first handshake of a session among these operations. */
  ghost function FirstDrawn(ops: seq<Op>, sid: string): (r: Option<Bytes>)
    ensures r.None? ==> forall k :: 0 <= k < |ops| ==> !Shakes(ops[k], sid)
    ensures r.Some? ==> exists j :: 0 <= j < |ops| && ops[j] == Shake(sid, r.value) &&
                                    forall k :: 0 <= k < j ==> !Shakes(ops[k], sid)
  {
    if ops == [] then None
    else
      var n := |ops| - 1;
      var r := FirstDrawn(ops[..n], sid);
      if r.Some? then
        var j :| 0 <= j < n && ops[..n][j] == Shake(sid, r.value) &&
                 forall k :: 0 <= k < j ==> !Shakes(ops[..n][k], sid);
        assert ops[j] == Shake(sid, r.value) && forall k :: 0 <= k < j ==> !Shakes(ops[k], sid);
        r
      else
        assert forall k :: 0 <= k < n ==> !Shakes(ops[..n][k], sid);
        if Shakes(ops[n], sid) then Some(ops[n].drawn) else None
  }

  function Lookup(table: map<string, Bytes>, sid: string): Option<Bytes> {
    if sid in table then Some(table[sid]) else None
  }

  /** Since the last seed of a session, or since the start, every handshake of it answers
      with the nonce drawn for the first one; without a handshake there is no context. */
  lemma {:induction false} FirstHandshakeDecides(before: seq<Op>, since: seq<Op>, sid: string)
    requires before == [] || before[|before| - 1] == Seed(sid)
    requires Seed(sid) !in since
    ensures Lookup(Table(before + since), sid) == FirstDrawn(since, sid)
  {
    if since == [] {
      assert before + since == before;
    } else {
      var n := |since| - 1;
      assert (before + since)[..|before| + n] == before + since[..n];
      assert since == since[..n] + [since[n]];
      FirstHandshakeDecides(before, since[..n], sid);
    }
  }
}
