/** The pairing manager's books: PKI sessions by id, the current session, handshake
    contexts by id and the pending one, the PIN session and the cached payload. What is
    drawn, decoded, derived, read or written elsewhere comes in as a parameter. */
module PairingManager {
  import opened PairingCache
  import opened PairingNonces
  import opened Wrappers

  /** What checking a signature with one key leads to; a broken key raises an error. */
  datatype KeyCheck = Verifies | Fails | Broken

  /** A client signature: absent, not decodable, or one that keys can be tried on. */
  datatype Signature = Absent | Unreadable | Present(check: string -> KeyCheck)

  datatype HandshakeAck = HandshakeAck(sessionId: string, vehiclePublicKey: string, vehicleNonce: Bytes)

  /** A session recovered from a template: token, nonce, vehicle key and the keys known so
      far come from there, session key, certificate and user key are new. */
  function Recovered(sid: string, t: Session, remoteKey: string, certificate: Option<string>, derived: (Bytes, string),
                     now: real, verified: bool): (r: Session)
  {
    var known := OrNone(t.handshakePublicKey);
    Session(sid, t.pairingToken, if known.Some? then known.value else remoteKey,
            if t.vehiclePublicKey != "" then t.vehiclePublicKey else derived.1, t.vehicleNonce, derived.0, certificate,
            if known.Some? then known else Some(remoteKey), OrNone(t.certificatePublicKey), now, None, verified)
  }

  /** A session that takes note of a handshake's key and client nonce. */
  function Touched(s: Session, userKey: string, clientNonce: Option<Bytes>): Session {
    var t := if userKey != "" then s.(userPublicKey := userKey, handshakePublicKey := Some(userKey)) else s;
    if clientNonce.Some? then t.(clientNonce := clientNonce) else t
  }

  /** A session that takes note of a certificate exchange. */
  function Certified(s: Session, publicKey: string, certificate: Option<string>): Session {
    var t := if publicKey == "" then s
             else if s.userPublicKey == "" then s.(userPublicKey := publicKey, handshakePublicKey := Some(publicKey))
             else s.(certificatePublicKey := Some(publicKey));
    if Truthy(certificate) then t.(userCertificate := certificate) else t
  }

  /** The keys to try: handshake, user and certificate key, each once. */
  function Candidates(s: Session): seq<string> {
    var one := if Truthy(s.handshakePublicKey) then [s.handshakePublicKey.value] else [];
    var two := if s.userPublicKey != "" && s.userPublicKey !in one then one + [s.userPublicKey] else one;
    var three := if Truthy(s.certificatePublicKey) && s.certificatePublicKey.value !in two
                 then two + [s.certificatePublicKey.value] else two;
    if three == [] then [s.userPublicKey] else three
  }

  /** The first key that verifies, unless a broken key comes before it. */
  function FirstVerifying(keys: seq<string>, check: string -> KeyCheck): (r: Option<string>)
    ensures r.Some? <==> exists i :: 0 <= i < |keys| && check(keys[i]) == Verifies &&
                                     forall j :: 0 <= j < i ==> check(keys[j]) == Fails
    ensures r.Some? ==> r.value in keys && check(r.value) == Verifies
    decreases |keys|
  {
    if keys == [] then None
    else
      match check(keys[0])
      case Verifies => Some(keys[0])
      case Broken => None
      case Fails =>
        var r := FirstVerifying(keys[1..], check);
        assert forall i :: 0 < i < |keys| ==> keys[1..][i - 1] == keys[i];
        FirstOfTail(keys, check);
        r
  }

  lemma FirstOfTail(keys: seq<string>, check: string -> KeyCheck)
    requires keys != [] && check(keys[0]) == Fails
    ensures (exists i :: 0 <= i < |keys| && check(keys[i]) == Verifies &&
                         forall j :: 0 <= j < i ==> check(keys[j]) == Fails) <==>
            (exists i :: 0 <= i < |keys[1..]| && check(keys[1..][i]) == Verifies &&
                         forall j :: 0 <= j < i ==> check(keys[1..][j]) == Fails)
  {
    var rest := keys[1..];
    assert forall i :: 0 <= i < |rest| ==> rest[i] == keys[i + 1];
    if i :| 0 <= i < |rest| && check(rest[i]) == Verifies && forall j :: 0 <= j < i ==> check(rest[j]) == Fails {
      assert check(keys[i + 1]) == Verifies;
    }
    if i :| 0 <= i < |keys| && check(keys[i]) == Verifies && forall j :: 0 <= j < i ==> check(keys[j]) == Fails {
      assert check(rest[i - 1]) == Verifies;
    }
  }

  /** A session that a key has verified: a first key becomes handshake key, another key
      than the handshake key is noted as that of the certificate. */
  function Adopted(s: Session, key: string, strip: string -> string): Session {
    var t := s.(signatureVerified := true);
    if key == "" then t
    else if !Truthy(t.handshakePublicKey) then t.(handshakePublicKey := Some(key), userPublicKey := key)
    else if strip(t.handshakePublicKey.value) != strip(key) then t.(certificatePublicKey := Some(key))
    else t
  }

  /** finalize_session_state: the state it leaves, and whether it raises no ValueError. */
  function Finalized(s: Session, nonceText: Option<string>, nonce: Option<Bytes>, signature: Signature,
                     strip: string -> string): (Session, bool)
  {
    if Truthy(nonceText) && nonce.None? then (s, false)
    else
      var noted := if Truthy(nonceText) then s.(clientNonce := nonce) else s;
      match signature
      case Absent => (noted, true)
      case Unreadable => (noted, false)
      case Present(check) =>
        match FirstVerifying(Candidates(noted), check)
        case None => (noted, false)
        case Some(key) => (Adopted(noted, key, strip), true)
  }

  /** The keys to try are those that are there, each once, the handshake key first and the
      certificate key last; without any key the empty one is tried. */
  lemma CandidatesMeaning(s: Session)
    ensures var keys := Candidates(s);
            && keys != [] && (forall i, j :: 0 <= i < j < |keys| ==> keys[i] != keys[j])
            && (forall k :: k != "" ==>
                  (k in keys <==>
                   Some(k) == s.handshakePublicKey || k == s.userPublicKey || Some(k) == s.certificatePublicKey))
            && ("" in keys <==> keys == [""])
            && (Truthy(s.handshakePublicKey) ==> keys[0] == s.handshakePublicKey.value)
            && (!Truthy(s.handshakePublicKey) && s.userPublicKey != "" ==> keys[0] == s.userPublicKey)
            && (Truthy(s.certificatePublicKey) ==>
                  s.certificatePublicKey in [s.handshakePublicKey, Some(s.userPublicKey)] ||
                  keys[|keys| - 1] == s.certificatePublicKey.value)
  {
  }

  /** A handshake notes a key as user and handshake key, and a client nonce, where they
      come along, and touches nothing else. */
  lemma TouchedFields(s: Session, userKey: string, clientNonce: Option<Bytes>)
    ensures var t := Touched(s, userKey, clientNonce);
            && t.clientNonce == (if clientNonce.Some? then clientNonce else s.clientNonce)
            && t.userPublicKey == (if userKey == "" then s.userPublicKey else userKey)
            && t.handshakePublicKey == (if userKey == "" then s.handshakePublicKey else Some(userKey))
            && t.(clientNonce := s.clientNonce, userPublicKey := s.userPublicKey,
                  handshakePublicKey := s.handshakePublicKey) == s
  {
  }

  /** A certificate exchange fills in a missing user key, else notes the certificate's, and
      touches nothing else. */
  lemma CertifiedKeys(s: Session, publicKey: string, certificate: Option<string>)
    ensures var t := Certified(s, publicKey, certificate);
            && t.userCertificate == Or(certificate, s.userCertificate)
            && (publicKey != "" && s.userPublicKey == "" ==>
                  t.userPublicKey == publicKey && t.handshakePublicKey == Some(publicKey))
            && (publicKey == "" || s.userPublicKey != "" ==>
                  t.userPublicKey == s.userPublicKey && t.handshakePublicKey == s.handshakePublicKey)
            && t.certificatePublicKey ==
               (if publicKey != "" && s.userPublicKey != "" then Some(publicKey) else s.certificatePublicKey)
            && t.(userCertificate := s.userCertificate, userPublicKey := s.userPublicKey,
                  handshakePublicKey := s.handshakePublicKey, certificatePublicKey := s.certificatePublicKey) == s
  {
  }

  /** Finalising succeeds when the client nonce decodes, if there is one, and the signature
      is absent or some key verifies it before any key breaks. Only the latter makes a
      session verified, and only it touches the keys: the first key of a session without
      handshake key becomes handshake and user key, one that differs from the handshake
      key becomes the certificate's. A failure changes the client nonce at most. */
  lemma OnlyGoodSignatures(s: Session, nonceText: Option<string>, nonce: Option<Bytes>, signature: Signature,
                           strip: string -> string)
    ensures var (t, ok) := Finalized(s, nonceText, nonce, signature, strip);
            var readable := Truthy(nonceText) ==> nonce.Some?;
            var key := if signature.Present? then FirstVerifying(Candidates(s), signature.check) else None;
            && (ok <==> readable && (signature.Absent? || key.Some?))
            && t.clientNonce == (if Truthy(nonceText) && nonce.Some? then nonce else s.clientNonce)
            && (!(ok && key.Some?) ==> t.(clientNonce := s.clientNonce) == s)
            && (ok && key.Some? ==>
                  var hs, k := s.handshakePublicKey, key.value;
                  && t.signatureVerified
                  && (!Truthy(hs) && k != "" ==> t.handshakePublicKey == Some(k) && t.userPublicKey == k)
                  && (Truthy(hs) || k == "" ==> t.handshakePublicKey == hs && t.userPublicKey == s.userPublicKey)
                  && t.certificatePublicKey == (if Truthy(hs) && k != "" && strip(hs.value) != strip(k) then Some(k)
                                                else s.certificatePublicKey)
                  && t.(clientNonce := s.clientNonce, signatureVerified := s.signatureVerified,
                        handshakePublicKey := hs, userPublicKey := s.userPublicKey,
                        certificatePublicKey := s.certificatePublicKey) == s)
  {
    hide Candidates, FirstVerifying;
    SameCandidates(s, nonce);
  }

  lemma SameCandidates(s: Session, nonce: Option<Bytes>)
    ensures Candidates(s.(clientNonce := nonce)) == Candidates(s)
  {
  }

  lemma TryFirst(keys: seq<string>, check: string -> KeyCheck)
    requires keys != []
    ensures FirstVerifying(keys, check) == match check(keys[0])
                                           case Verifies => Some(keys[0])
                                           case Broken => None
                                           case Fails => FirstVerifying(keys[1..], check)
  {
  }

  class SessionState {
    const sessionId: string
    var pairingToken: string
    var userPublicKey: string
    var vehiclePublicKey: string
    var vehicleNonce: Bytes
    var sessionKey: Bytes
    var userCertificate: Option<string>
    var handshakePublicKey: Option<string>
    var certificatePublicKey: Option<string>
    var establishedAt: real
    var clientNonce: Option<Bytes>
    var signatureVerified: bool

    function Value(): Session
      reads this
    {
      Session(sessionId, pairingToken, userPublicKey, vehiclePublicKey, vehicleNonce, sessionKey, userCertificate,
              handshakePublicKey, certificatePublicKey, establishedAt, clientNonce, signatureVerified)
    }

    constructor (s: Session)
      ensures Value() == s
    {
      sessionId, pairingToken, userPublicKey := s.sessionId, s.pairingToken, s.userPublicKey;
      vehiclePublicKey, vehicleNonce, sessionKey := s.vehiclePublicKey, s.vehicleNonce, s.sessionKey;
      userCertificate, handshakePublicKey := s.userCertificate, s.handshakePublicKey;
      certificatePublicKey, establishedAt := s.certificatePublicKey, s.establishedAt;
      clientNonce, signatureVerified := s.clientNonce, s.signatureVerified;
    }

    method NoteHandshake(userKey: string, nonce: Option<Bytes>)
      modifies this
      ensures Value() == Touched(old(Value()), userKey, nonce)
    {
      if userKey != "" {
        userPublicKey := userKey;
        handshakePublicKey := Some(userKey);
      }
      if nonce.Some? {
        clientNonce := nonce;
      }
    }

    method NoteCertificate(publicKey: string, certificate: Option<string>)
      modifies this
      ensures Value() == Certified(old(Value()), publicKey, certificate)
    {
      if publicKey != "" {
        if userPublicKey == "" {
          userPublicKey := publicKey;
          handshakePublicKey := Some(publicKey);
        } else {
          certificatePublicKey := Some(publicKey);
        }
      }
      if Truthy(certificate) {
        userCertificate := certificate;
      }
    }

    /** finalize_session_state; false stands for a ValueError. */
    method Finalize(nonceText: Option<string>, nonce: Option<Bytes>, signature: Signature, strip: string -> string)
      returns (ok: bool)
      modifies this
      ensures (Value(), ok) == Finalized(old(Value()), nonceText, nonce, signature, strip)
    {
      if Truthy(nonceText) {
        if nonce.None? {
          return false;
        }
        clientNonce := nonce;
      }
      if signature.Absent? {
        return true;
      }
      var keys := ListKeys();
      if signature.Unreadable? {
        return false;
      }
      ok := TryKeys(keys, signature.check, strip);
    }

    method ListKeys() returns (keys: seq<string>)
      ensures keys == Candidates(Value())
    {
      keys := [];
      if Truthy(handshakePublicKey) {
        keys := keys + [handshakePublicKey.value];
      }
      if userPublicKey != "" && userPublicKey !in keys {
        keys := keys + [userPublicKey];
      }
      if Truthy(certificatePublicKey) && certificatePublicKey.value !in keys {
        keys := keys + [certificatePublicKey.value];
      }
      if keys == [] {
        keys := [userPublicKey];
      }
    }

    method TryKeys(keys: seq<string>, check: string -> KeyCheck, strip: string -> string) returns (ok: bool)
      modifies this
      ensures var first := FirstVerifying(keys, check);
              && ok == first.Some?
              && Value() == if ok then Adopted(old(Value()), first.value, strip) else old(Value())
    {
      hide FirstVerifying;
      var i := 0;
      assert keys[0..] == keys;
      while i < |keys|
        invariant 0 <= i <= |keys|
        invariant FirstVerifying(keys[i..], check) == FirstVerifying(keys, check)
        invariant Value() == old(Value())
      {
        TryFirst(keys[i..], check);
        assert keys[i..][1..] == keys[i + 1..];
        var key := keys[i];
        match check(key)
        case Verifies =>
          signatureVerified := true;
          if key != "" {
            if !Truthy(handshakePublicKey) {
              handshakePublicKey := Some(key);
              userPublicKey := key;
            } else if strip(handshakePublicKey.value) != strip(key) {
              certificatePublicKey := Some(key);
            }
          }
          return true;
        case Broken => return false;
        case Fails =>
        i := i + 1;
      }
      return false;
    }

    /** What a seed brings along replaces what the new state holds. */
    method TakeSeed(client: Option<Bytes>, server: Option<Bytes>, expiresAt: Option<real>)
      modifies this
      ensures var was := old(Value());
              Value() == was.(clientNonce := if client.Some? then client else was.clientNonce,
                              vehicleNonce := if server.Some? then server.value else was.vehicleNonce,
                              signatureVerified := true,
                              establishedAt := if expiresAt.Some? then expiresAt.value else was.establishedAt)
    {
      if client.Some? {
        clientNonce := client;
      }
      if server.Some? {
        vehicleNonce := server.value;
      }
      signatureVerified := true;
      if expiresAt.Some? {
        establishedAt := expiresAt.value;
      }
    }

    /** A recovered state takes over the keys known from its template. */
    method TakeKeys(vehicleKey: Option<string>, template: SessionState?)
      requires template != this
      modifies this
      ensures var was := old(Value());
              var known := if template != null then OrNone(template.handshakePublicKey) else None;
              var certified := if template != null then OrNone(template.certificatePublicKey) else None;
              Value() == was.(vehiclePublicKey := if Truthy(vehicleKey) then vehicleKey.value else was.vehiclePublicKey,
                              handshakePublicKey := if known.Some? then known else was.handshakePublicKey,
                              userPublicKey := if known.Some? then known.value else was.userPublicKey,
                              certificatePublicKey := if certified.Some? then certified else was.certificatePublicKey)
    {
      if Truthy(vehicleKey) {
        vehiclePublicKey := vehicleKey.value;
      }
      if template != null && Truthy(template.handshakePublicKey) {
        handshakePublicKey := template.handshakePublicKey;
        userPublicKey := template.handshakePublicKey.value;
      }
      if template != null && Truthy(template.certificatePublicKey) {
        certificatePublicKey := template.certificatePublicKey;
      }
    }
  }

  class HandshakeContext {
    const sessionId: string
    var pairingToken: Option<string>
    var userPublicKey: string
    var userCertificate: Option<string>
    var vehiclePublicKey: string
    var vehicleNonce: Bytes
    var clientNonce: Option<string>
    var certificatePublicKey: Option<string>

    constructor (sessionId: string, pairingToken: Option<string>, userPublicKey: string, vehiclePublicKey: string,
                 vehicleNonce: Bytes, clientNonce: Option<string>)
      ensures this.sessionId == sessionId && this.pairingToken == pairingToken && this.userPublicKey == userPublicKey
      ensures userCertificate == None && this.vehiclePublicKey == vehiclePublicKey
      ensures this.vehicleNonce == vehicleNonce && this.clientNonce == clientNonce && certificatePublicKey == None
    {
      this.sessionId, this.pairingToken, this.userPublicKey := sessionId, pairingToken, userPublicKey;
      userCertificate, this.vehiclePublicKey, this.vehicleNonce := None, vehiclePublicKey, vehicleNonce;
      this.clientNonce, certificatePublicKey := clientNonce, None;
    }

    /** A repeated handshake replaces everything but the vehicle nonce and the certificate. */
    method Refresh(token: Option<string>, userKey: string, nonce: Option<string>, vehicleKey: string)
      modifies this
      ensures pairingToken == Or(token, old(pairingToken)) && userPublicKey == userKey
      ensures clientNonce == Or(nonce, old(clientNonce)) && vehiclePublicKey == vehicleKey
      ensures vehicleNonce == old(vehicleNonce) && userCertificate == old(userCertificate)
      ensures certificatePublicKey == old(certificatePublicKey)
    {
      if Truthy(token) {
        pairingToken := token;
      }
      userPublicKey := userKey;
      clientNonce := Or(nonce, clientNonce);
      if vehiclePublicKey != vehicleKey {
        vehiclePublicKey := vehicleKey;
      }
    }

    method NoteCertificate(publicKey: string, certificate: Option<string>)
      modifies this`userCertificate, this`certificatePublicKey
      ensures userCertificate == if Truthy(certificate) then certificate else old(userCertificate)
      ensures certificatePublicKey == if publicKey != "" then Some(publicKey) else old(certificatePublicKey)
    {
      if Truthy(certificate) {
        userCertificate := certificate;
      }
      if publicKey != "" {
        certificatePublicKey := Some(publicKey);
      }
    }
  }

  class PinSession {
    const sessionId: string
    var pairingToken: Option<string>
    var vehicleNonce: Option<Bytes>
    var active: bool
    var status: string

    constructor (sessionId: string, pairingToken: Option<string>)
      ensures this.sessionId == sessionId && this.pairingToken == pairingToken && vehicleNonce == None
      ensures active && status == "PENDING"
    {
      this.sessionId, this.pairingToken := sessionId, pairingToken;
      vehicleNonce, active, status := None, true, "PENDING";
    }

    method Acknowledge(nonce: Bytes)
      modifies this
      ensures pairingToken == old(pairingToken) && vehicleNonce == Some(nonce)
      ensures !active && status == "HANDSHAKE_ACK"
    {
      active, status, vehicleNonce := false, "HANDSHAKE_ACK", Some(nonce);
    }

    method Verify(token: string, nonce: Bytes, newStatus: string)
      modifies this
      ensures pairingToken == Some(token) && vehicleNonce == Some(nonce)
      ensures !active && status == if newStatus != "" then newStatus else "VERIFIED"
    {
      pairingToken, vehicleNonce, active := Some(token), Some(nonce), false;
      status := if newStatus != "" then newStatus else "VERIFIED";
    }
  }

  class Manager {
    /** base64 decoding, PEM normalisation and trimming. */
    const decode: string -> Option<Bytes>
    const coerce: string -> string
    const strip: string -> string

    var pkiState: SessionState?
    var pkiSessions: map<string, SessionState>
    var contexts: map<string, HandshakeContext>
    var pending: HandshakeContext?
    var lastSessionId: Option<string>
    var cached: Option<Cached>
    var pin: PinSession?
    ghost var log: seq<Op>

    ghost function Nonces(): map<string, Bytes>
      reads this`contexts, contexts.Values
    {
      map k | k in contexts :: contexts[k].vehicleNonce
    }

    /** Every session sits under its own id; the current session, if any, is the very
        object stored there, and without one there is no session at all. */
    ghost predicate SessionsOk()
      reads this`pkiState, this`pkiSessions
    {
      && (forall k :: k in pkiSessions ==> pkiSessions[k].sessionId == k)
      && (if pkiState == null then pkiSessions == map[]
          else pkiState.sessionId in pkiSessions && pkiSessions[pkiState.sessionId] == pkiState)
    }

    /** Every context sits under its own id, which is not empty; the pending handshake, if
        any, is the very object stored there; the nonces are those of the log. */
    ghost predicate ContextsOk()
      reads this`contexts, this`pending, this`log, contexts.Values
    {
      && (forall k :: k in contexts ==> contexts[k].sessionId == k && k != "")
      && (pending != null ==> pending.sessionId in contexts && contexts[pending.sessionId] == pending)
      && Nonces() == Table(log)
    }

    /** Without a current session nothing is left of an earlier one: neither a cached
        payload nor a vehicle nonce in the PIN session. */
    ghost predicate NothingLeft()
      reads this`pkiState, this`cached, this`pin, pin
    {
      pkiState == null ==> cached == None && (pin != null ==> pin.vehicleNonce == None)
    }

    ghost predicate Valid()
      reads this, contexts.Values, pin
    {
      SessionsOk() && ContextsOk() && NothingLeft()
    }

    constructor (decode: string -> Option<Bytes>, coerce: string -> string, strip: string -> string,
                 file: Option<Cached>, now: real)
      ensures Valid() && contexts == map[] && pending == null && pin == null && log == []
      ensures this.decode == decode && this.coerce == coerce && this.strip == strip
      ensures if file.Some? && Restore(file.value, now).Some? then
                && cached == file && pkiState != null && fresh(pkiState)
                && pkiState.Value() == Restore(file.value, now).value
                && pkiSessions == map[file.value.sessionId := pkiState] && lastSessionId == Some(file.value.sessionId)
              else cached == None && pkiState == null && pkiSessions == map[] && lastSessionId == None
    {
      this.decode, this.coerce, this.strip := decode, coerce, strip;
      pkiState, pkiSessions, contexts, pending := null, map[], map[], null;
      lastSessionId, cached, pin, log := None, None, null, [];
      new;
      if file.Some? {
        LoadCached(file.value, now);
      }
    }

    method LoadCached(data: Cached, now: real)
      requires SessionsOk()
      modifies this`cached, this`pkiState, this`pkiSessions, this`lastSessionId
      ensures SessionsOk()
      ensures match Restore(data, now)
              case None =>
                cached == None && pkiState == old(pkiState) && pkiSessions == old(pkiSessions) &&
                lastSessionId == old(lastSessionId)
              case Some(s) =>
                && cached == Some(data) && pkiState != null && fresh(pkiState) && pkiState.Value() == s
                && pkiSessions == old(pkiSessions)[data.sessionId := pkiState] && lastSessionId == Some(data.sessionId)
    {
      cached := Some(data);
      if data.sessionId == "" || !Truthy(data.pairingToken) || !Truthy(data.userPublicKey)
         || !Truthy(data.vehiclePublicKey) || !Truthy(data.vehicleNonce) || !Truthy(data.sessionKey)
         || |data.sessionKey.value| != 32
      {
        cached := None;
        return;
      }
      var handshakeKey := Or(data.handshakePublicKey, data.userPublicKey);
      var state := new SessionState(Session(
        data.sessionId, data.pairingToken.value, data.userPublicKey.value, data.vehiclePublicKey.value,
        data.vehicleNonce.value, data.sessionKey.value, data.userCertificate, OrNone(handshakeKey),
        OrNone(data.certificatePublicKey), if data.establishedAt.Some? then data.establishedAt.value else now,
        None, false));
      if Truthy(data.clientNonce) {
        state.clientNonce := data.clientNonce;
      }
      state.signatureVerified := data.signatureVerified;
      pkiState := state;
      pkiSessions := pkiSessions[data.sessionId := state];
      lastSessionId := Some(data.sessionId);
    }

    /** _export_pki_session_state; `written` says whether the file could be written. */
    method ExportState(written: bool)
      modifies this`cached, this`pkiSessions
      ensures pkiSessions == if pkiState == null then map[] else old(pkiSessions)
      ensures cached == if pkiState == null then None
                        else if written then Some(Export(pkiState.Value())) else old(cached)
    {
      if pkiState == null {
        cached, pkiSessions := None, map[];
        return;
      }
      if written {
        cached := Some(Export(pkiState.Value()));
      }
    }

    /** get_pki_session_state: without an id this is the current session and nothing else,
        because the fallbacks are never reached with a session in the table. */
    method GetState(sessionId: Option<string>) returns (r: SessionState?)
      requires Valid()
      ensures if Truthy(sessionId) then
                r == if sessionId.value in pkiSessions then pkiSessions[sessionId.value] else null
              else r == pkiState
    {
      if Truthy(sessionId) {
        return if sessionId.value in pkiSessions then pkiSessions[sessionId.value] else null;
      }
      if pkiState != null {
        return pkiState;
      }
      if Truthy(lastSessionId) && lastSessionId.value in pkiSessions {
        assert false;
      }
      if pkiSessions.Keys != {} {
        assert false;
      }
      return null;
    }

    // ---- Handshake, certificate, seed ----------------------------------------

    /** The context and the session of an id, if there are any: all that an operation on
        that id may change. */
    ghost function ContextOf(sid: string): set<object>
      reads this
    {
      if sid in contexts then {contexts[sid]} else {}
    }

    ghost function SessionOf(sid: string): set<object>
      reads this
    {
      if sid in pkiSessions then {pkiSessions[sid]} else {}
    }

    /** The session that a handshake belongs to. */
    function ChosenId(sessionId: string, uuid: string): (sid: string)
      requires uuid != ""
      reads this
      ensures sessionId != "" ==> sid == sessionId
    {
      if sessionId != "" then sessionId
      else if pending != null then pending.sessionId
      else if Truthy(lastSessionId) then lastSessionId.value
      else uuid
    }

    /** The context of a session, made if missing; its nonce, once drawn, stays. */
    method OpenContext(sid: string, userKey: string, pairingToken: Option<string>, clientNonce: Option<string>,
                       vehicleKey: string, drawn: Bytes)
      returns (context: HandshakeContext)
      requires ContextsOk() && sid != ""
      modifies this`contexts, this`pending, this`log, ContextOf(sid)
      ensures ContextsOk()
      ensures log == old(log) + [Shake(sid, drawn)] && Lookup(Table(log), sid) == Some(context.vehicleNonce)
      ensures contexts == old(contexts)[sid := context] && pending == context && context.sessionId == sid
      ensures if sid in old(contexts) then context == old(contexts[sid]) else fresh(context)
      ensures context.vehiclePublicKey == vehicleKey && context.userPublicKey == userKey
      ensures context.pairingToken ==
              if sid in old(contexts) then Or(pairingToken, old(contexts[sid].pairingToken)) else pairingToken
      ensures context.clientNonce ==
              if sid in old(contexts) then Or(clientNonce, old(contexts[sid].clientNonce)) else clientNonce
      ensures context.userCertificate == if sid in old(contexts) then old(contexts[sid].userCertificate) else None
      ensures context.certificatePublicKey ==
              if sid in old(contexts) then old(contexts[sid].certificatePublicKey) else None
    {
      hide Table, Or, Truthy;
      if sid !in contexts {
        context := new HandshakeContext(sid, pairingToken, userKey, vehicleKey, drawn, clientNonce);
      } else {
        context := contexts[sid];
        context.Refresh(pairingToken, userKey, clientNonce, vehicleKey);
      }
      contexts := contexts[sid := context];
      pending := context;
      log := log + [Shake(sid, drawn)];
      assert Nonces() == if sid in old(Nonces()) then old(Nonces()) else old(Nonces())[sid := drawn];
      TableShake(old(log), sid, drawn);
    }

    /** A handshake for a session that is already established makes it current. */
    method TouchSession(sid: string, context: HandshakeContext, written: bool)
      requires SessionsOk()
      modifies this`pkiState, this`pkiSessions, this`cached, SessionOf(sid)
      ensures SessionsOk() && pkiSessions == old(pkiSessions)
      ensures old(NothingLeft()) ==> NothingLeft()
      ensures pkiState == if sid in pkiSessions then pkiSessions[sid] else old(pkiState)
      ensures cached == if sid in pkiSessions && written then Some(Export(pkiState.Value())) else old(cached)
      ensures sid in pkiSessions ==>
                pkiSessions[sid].Value() ==
                Touched(old(pkiSessions[sid].Value()), context.userPublicKey, DecodeNonce(context.clientNonce))
    {
      if sid in pkiSessions {
        var state := pkiSessions[sid];
        state.NoteHandshake(context.userPublicKey,
                            if Truthy(context.clientNonce) then decode(context.clientNonce.value) else None);
        pkiState := state;
        pkiSessions := pkiSessions[sid := state];
        ExportState(written);
      }
    }

    method ChooseId(sessionId: string, uuid: string) returns (sid: string)
      requires ContextsOk() && uuid != ""
      ensures sid != "" && sid == ChosenId(sessionId, uuid)
    {
      sid := sessionId;
      if sid == "" {
        if pending != null {
          sid := pending.sessionId;
        } else if Truthy(lastSessionId) {
          sid := lastSessionId.value;
        } else {
          sid := uuid;
        }
      }
    }

    /** The handshake proper, once the session is chosen. */
    method Shakehands(sid: string, userKey: string, pairingToken: Option<string>, clientNonce: Option<string>,
                      vehicleKey: string, drawn: Bytes, written: bool)
      returns (nonce: Bytes)
      requires Valid() && sid != ""
      modifies this, ContextOf(sid), SessionOf(sid)
      ensures Valid() && log == old(log) + [Shake(sid, drawn)] && Lookup(Table(log), sid) == Some(nonce)
      ensures pending != null && contexts == old(contexts)[sid := pending] && lastSessionId == Some(sid)
      ensures if sid in old(contexts) then pending == old(contexts[sid]) else fresh(pending)
      ensures pkiSessions == old(pkiSessions) && pin == old(pin)
      ensures cached == if sid in pkiSessions && written then Some(Export(pkiState.Value())) else old(cached)
      ensures pkiState == if sid in pkiSessions then pkiSessions[sid] else old(pkiState)
      ensures pending.vehiclePublicKey == vehicleKey && pending.userPublicKey == userKey
      ensures pending.pairingToken ==
              if sid in old(contexts) then Or(pairingToken, old(contexts[sid].pairingToken)) else pairingToken
      ensures pending.clientNonce ==
              if sid in old(contexts) then Or(clientNonce, old(contexts[sid].clientNonce)) else clientNonce
      ensures sid in pkiSessions ==>
                pkiSessions[sid].Value() ==
                Touched(old(pkiSessions[sid].Value()), userKey, DecodeNonce(pending.clientNonce))
    {
      hide Table, Nonces, SessionsOk, ContextsOk, NothingLeft, Lookup, Touched, Or, Truthy, DecodeNonce;
      var context := OpenContext(sid, userKey, pairingToken, clientNonce, vehicleKey, drawn);
      lastSessionId := Some(sid);
      nonce := context.vehicleNonce;
      TouchSession(sid, context, written);
    }

    /** begin_pki_handshake: answers with the nonce that the table of all handshakes and
        seeds so far holds for the session. */
    method BeginHandshake(sessionId: string, clientPublicKey: string, pairingToken: Option<string>,
                          clientNonce: Option<string>, vehicleKey: Option<string>, drawn: Bytes, uuid: string,
                          written: bool)
      returns (r: Result<HandshakeAck>)
      requires Valid() && uuid != ""
      modifies this, ContextOf(ChosenId(sessionId, uuid)), SessionOf(ChosenId(sessionId, uuid))
      ensures Valid() && pkiSessions == old(pkiSessions) && pin == old(pin)
      ensures r.Error? <==> clientPublicKey == "" || vehicleKey.None?
      ensures r.Error? ==>
                && log == old(log) && pkiState == old(pkiState) && contexts == old(contexts) && pending == old(pending)
                && cached == old(cached) && lastSessionId == old(lastSessionId)
      ensures r.Ok? ==>
                var sid := r.value.sessionId;
                && sid == (if sessionId != "" then sessionId
                           else if old(pending) != null then old(pending).sessionId
                           else if old(lastSessionId) in [None, Some("")] then uuid
                           else old(lastSessionId).value)
                && sid == old(ChosenId(sessionId, uuid)) && r.value.vehiclePublicKey == vehicleKey.value
                && log == old(log) + [Shake(sid, drawn)] && Lookup(Table(log), sid) == Some(r.value.vehicleNonce)
                && pending != null && contexts == old(contexts)[sid := pending] && lastSessionId == Some(sid)
                && pkiState == (if sid in pkiSessions then pkiSessions[sid] else old(pkiState))
      ensures r.Ok? ==>
                var sid := r.value.sessionId;
                var known := sid in old(contexts);
                && (known ==> pending == old(contexts)[sid])
                && pending.vehiclePublicKey == vehicleKey.value
                && pending.userPublicKey == (if coerce(clientPublicKey) != "" then coerce(clientPublicKey)
                                             else clientPublicKey)
                && pending.pairingToken ==
                   (if known then Or(pairingToken, old(contexts[sid].pairingToken)) else pairingToken)
                && pending.clientNonce ==
                   (if known then Or(clientNonce, old(contexts[sid].clientNonce)) else clientNonce)
      ensures r.Ok? ==>
                cached == if r.value.sessionId in pkiSessions && written then Some(Export(pkiState.Value()))
                          else old(cached)
      ensures r.Ok? && r.value.sessionId in pkiSessions ==>
                var was := old(pkiSessions[ChosenId(sessionId, uuid)].Value());
                var nonce := if Truthy(pending.clientNonce) then decode(pending.clientNonce.value) else None;
                pkiState.Value() == was.(userPublicKey := pending.userPublicKey,
                                         handshakePublicKey := Some(pending.userPublicKey),
                                         clientNonce := if nonce.Some? then nonce else was.clientNonce)
    {
      hide Table, Nonces, SessionsOk, ContextsOk, NothingLeft, Lookup;
      if clientPublicKey == "" {
        return Error;
      }
      var normalized := coerce(clientPublicKey);
      var sid := ChooseId(sessionId, uuid);
      assert sid == if sessionId != "" then sessionId else if pending != null then pending.sessionId
                    else if lastSessionId in [None, Some("")] then uuid else lastSessionId.value;
      if vehicleKey.None? {
        return Error;
      }
      var userKey := if normalized != "" then normalized else clientPublicKey;
      var nonce := Shakehands(sid, userKey, pairingToken, clientNonce, vehicleKey.value, drawn, written);
      return Ok(HandshakeAck(sid, vehicleKey.value, nonce));
    }

    /** cert_exchange: needs a context, fills the certificate in there and in the session. */
    method StoreCertificate(sid: string, material: Option<(string, Option<string>)>, written: bool)
      returns (ok: bool)
      requires Valid()
      modifies this, ContextOf(sid), SessionOf(sid)
      ensures Valid() && log == old(log) && contexts == old(contexts) && pkiSessions == old(pkiSessions)
      ensures ok <==> sid != "" && sid in contexts && material.Some?
      ensures cached ==
              if ok && sid in pkiSessions && written then Some(Export(pkiState.Value())) else old(cached)
      ensures if !ok then pkiState == old(pkiState) && pending == old(pending) && lastSessionId == old(lastSessionId)
              else
                && pending == contexts[sid] && pending.vehicleNonce == old(contexts[sid].vehicleNonce)
                && pending.pairingToken == old(contexts[sid].pairingToken)
                && pending.userPublicKey == old(contexts[sid].userPublicKey)
                && pending.vehiclePublicKey == old(contexts[sid].vehiclePublicKey)
                && pending.clientNonce == old(contexts[sid].clientNonce)
                && contexts[sid].userCertificate == Or(material.value.1, old(contexts[sid].userCertificate))
                && contexts[sid].certificatePublicKey ==
                   (if material.value.0 != "" then Some(material.value.0) else old(contexts[sid].certificatePublicKey))
                && pkiState == (if sid in pkiSessions then pkiSessions[sid] else old(pkiState))
                && lastSessionId == (if sid in pkiSessions then Some(sid) else old(lastSessionId))
                && (sid in pkiSessions ==>
                      pkiSessions[sid].Value() ==
                      Certified(old(pkiSessions[sid].Value()), material.value.0, material.value.1))
    {
      hide Table;
      if sid == "" || sid !in contexts || material.None? {
        return false;
      }
      StoreInContext(sid, material.value.0, material.value.1);
      CertifySession(sid, material.value.0, material.value.1, written);
      return true;
    }

    method StoreInContext(sid: string, publicKey: string, certificate: Option<string>)
      requires ContextsOk() && sid in contexts
      modifies this`contexts, this`pending, contexts[sid]
      ensures ContextsOk() && contexts == old(contexts) && pending == contexts[sid]
      ensures pending.vehicleNonce == old(contexts[sid].vehicleNonce)
      ensures pending.pairingToken == old(contexts[sid].pairingToken)
      ensures pending.userPublicKey == old(contexts[sid].userPublicKey)
      ensures pending.vehiclePublicKey == old(contexts[sid].vehiclePublicKey)
      ensures pending.clientNonce == old(contexts[sid].clientNonce)
      ensures pending.userCertificate == Or(certificate, old(contexts[sid].userCertificate))
      ensures pending.certificatePublicKey ==
              if publicKey != "" then Some(publicKey) else old(contexts[sid].certificatePublicKey)
    {
      hide Table;
      var context := contexts[sid];
      context.NoteCertificate(publicKey, certificate);
      contexts := contexts[sid := context];
      pending := context;
      assert Nonces() == old(Nonces());
    }

    method CertifySession(sid: string, publicKey: string, certificate: Option<string>, written: bool)
      requires SessionsOk()
      modifies this`pkiState, this`pkiSessions, this`cached, this`lastSessionId, SessionOf(sid)
      ensures SessionsOk() && pkiSessions == old(pkiSessions)
      ensures old(NothingLeft()) ==> NothingLeft()
      ensures pkiState == if sid in pkiSessions then pkiSessions[sid] else old(pkiState)
      ensures cached == if sid in pkiSessions && written then Some(Export(pkiState.Value())) else old(cached)
      ensures lastSessionId == if sid in pkiSessions then Some(sid) else old(lastSessionId)
      ensures sid in pkiSessions ==>
                pkiSessions[sid].Value() == Certified(old(pkiSessions[sid].Value()), publicKey, certificate)
    {
      if sid in pkiSessions {
        var state := pkiSessions[sid];
        state.NoteCertificate(publicKey, certificate);
        pkiSessions := pkiSessions[sid := state];
        pkiState := state;
        lastSessionId := Some(sid);
        ExportState(written);
      }
    }

    /** The token of a seeded session: the one at hand, else that of the cached payload. */
    function SeedToken(token: Option<string>, cached: Option<Cached>): string {
      if token.Some? then token.value
      else if cached.Some? && cached.value.pairingToken.Some? then cached.value.pairingToken.value else ""
    }

    function DecodeNonce(text: Option<string>): Option<Bytes> {
      if Truthy(text) then decode(text.value) else None
    }

    /** The context that a seed consumes; the pending handshake is no second chance, since
        it always sits in the table. */
    method FindContext(sid: string, pairingToken: Option<string>, clientNonce: Option<string>,
                       vehicleKey: Option<string>, drawn: Bytes)
      returns (context: HandshakeContext?)
      requires ContextsOk() && sid != ""
      modifies this`contexts, this`pending, this`log, ContextOf(sid)
      ensures ContextsOk()
      ensures context == null <==> sid !in old(contexts) && vehicleKey.None?
      ensures if sid in old(contexts) || vehicleKey.None? then
                log == old(log) && contexts == old(contexts) && pending == old(pending)
              else
                log == old(log) + [Shake(sid, drawn)] && contexts == old(contexts)[sid := context] && pending == context
      ensures context != null ==>
                sid in contexts && context == contexts[sid] && context.sessionId == sid &&
                Lookup(Table(log), sid) == Some(context.vehicleNonce)
      ensures sid !in old(contexts) && context != null ==>
                && context.vehicleNonce == drawn && context.userPublicKey == "" && context.userCertificate == None
                && context.vehiclePublicKey == vehicleKey.value && context.certificatePublicKey == None
                && context.pairingToken == pairingToken && context.clientNonce == clientNonce
      ensures sid in old(contexts) ==>
                && context == old(contexts[sid]) && unchanged(context)
    {
      hide Table;
      context := if sid in contexts then contexts[sid] else null;
      if context == null {
        context := pending;
        if context != null && context.sessionId != sid {
          context := null;
        }
      }
      assert context != null <==> sid in contexts;
      if context == null {
        if vehicleKey.None? {
          return null;
        }
        context := OpenContext(sid, "", pairingToken, clientNonce, vehicleKey.value, drawn);
        DrawnForNew(old(log), sid, drawn);
      } else {
        assert Nonces()[sid] == context.vehicleNonce;
      }
    }

    /** session_seed: the seeded session takes over the context's vehicle nonce, unless the
        seed brings one, and the context is consumed. `key` is the normalised session key. */
    method SeedSession(sid: string, keyText: string, key: Option<Bytes>, pairingToken: Option<string>,
                       clientNonce: Option<string>, serverNonce: Option<string>, expiresAt: Option<real>,
                       vehicleKey: Option<string>, drawn: Bytes, now: real, written: bool)
      returns (r: Result<Bytes>)
      requires Valid()
      modifies this, ContextOf(sid)
      ensures Valid()
      ensures r.Ok? <==> sid != "" && keyText != "" && key.Some? && |key.value| in {16, 24, 32} &&
                         (sid in old(contexts) || vehicleKey.Some?)
      ensures pin == old(pin)
      ensures r.Error? ==> log == old(log) && contexts == old(contexts) && pending == old(pending) &&
                           pkiState == old(pkiState) && pkiSessions == old(pkiSessions) &&
                           cached == old(cached) && lastSessionId == old(lastSessionId)
      ensures r.Ok? ==>
                && log == old(log) + (if sid in old(contexts) then [] else [Shake(sid, drawn)]) + [Seed(sid)]
                && contexts == old(contexts) - {sid}
                && pending == (if sid in old(contexts) && old(pending) != null && old(pending).sessionId != sid
                               then old(pending) else null)
                && pkiState != null && fresh(pkiState) && pkiSessions == old(pkiSessions)[sid := pkiState]
                && lastSessionId == Some(sid)
                && pkiState.sessionKey == key.value && pkiState.signatureVerified
                && pkiState.vehicleNonce == r.value
                && Some(r.value) ==
                   (if Truthy(serverNonce) && decode(serverNonce.value).Some? then decode(serverNonce.value)
                    else if sid in old(contexts) then Lookup(Table(old(log)), sid) else Some(drawn))
                && pkiState.establishedAt == (if expiresAt.Some? then expiresAt.value else now)
                && cached == (if written then Some(Export(pkiState.Value())) else old(cached))
      ensures r.Ok? && sid in old(contexts) ==>
                && pkiState.userPublicKey == old(contexts[sid].userPublicKey)
                && pkiState.vehiclePublicKey == old(contexts[sid].vehiclePublicKey)
                && pkiState.userCertificate == old(contexts[sid].userCertificate)
                && pkiState.handshakePublicKey == OrNone(Some(old(contexts[sid].userPublicKey)))
                && pkiState.certificatePublicKey == old(contexts[sid].certificatePublicKey)
                && pkiState.pairingToken == SeedToken(Or(pairingToken, old(contexts[sid].pairingToken)), old(cached))
                && pkiState.clientNonce == DecodeNonce(Or(clientNonce, old(contexts[sid].clientNonce)))
      ensures r.Ok? && sid !in old(contexts) ==>
                && pkiState.userPublicKey == "" && pkiState.vehiclePublicKey == vehicleKey.value
                && pkiState.userCertificate == None && pkiState.handshakePublicKey == None
                && pkiState.certificatePublicKey == None
                && pkiState.pairingToken == SeedToken(pairingToken, old(cached))
                && pkiState.clientNonce == DecodeNonce(clientNonce)
    {
      hide Table, Lookup, SessionsOk, ContextsOk, Truthy, OrNone, Or, Nonces;
      OrIdle(pairingToken);
      OrIdle(clientNonce);
      if sid == "" || keyText == "" || key.None? || |key.value| !in {16, 24, 32} {
        return Error;
      }
      var context := FindContext(sid, pairingToken, clientNonce, vehicleKey, drawn);
      if context == null {
        return Error;
      }
      var state := NewSession(context, key.value, pairingToken, clientNonce, serverNonce, expiresAt, now);
      Conclude(sid, state, written);
      return Ok(state.vehicleNonce);
    }

    method Conclude(sid: string, state: SessionState, written: bool)
      requires Valid() && state.sessionId == sid
      modifies this
      ensures Valid() && pkiState == state && lastSessionId == Some(sid) && pin == old(pin)
      ensures pkiSessions == old(pkiSessions)[sid := state]
      ensures contexts == old(contexts) - {sid} && log == old(log) + [Seed(sid)]
      ensures pending == if old(pending) != null && old(pending).sessionId == sid then null else old(pending)
      ensures cached == if written then Some(Export(state.Value())) else old(cached)
    {
      hide Table, Nonces, SessionsOk, ContextsOk;
      InstallSession(sid, state);
      CloseContext(sid);
      ExportState(written);
    }

    method NewSession(context: HandshakeContext, key: Bytes, pairingToken: Option<string>, clientNonce: Option<string>,
                      serverNonce: Option<string>, expiresAt: Option<real>, now: real)
      returns (state: SessionState)
      ensures fresh(state)
      ensures var token := Or(pairingToken, context.pairingToken);
              var cachedToken := if token.None? && cached.Some? then cached.value.pairingToken else token;
              var clientText := Or(clientNonce, context.clientNonce);
              var serverRead := if Truthy(serverNonce) then decode(serverNonce.value) else None;
              state.Value() ==
              Session(context.sessionId, if cachedToken.Some? then cachedToken.value else "", context.userPublicKey,
                      context.vehiclePublicKey, if serverRead.Some? then serverRead.value else context.vehicleNonce,
                      key, context.userCertificate, OrNone(Some(context.userPublicKey)), context.certificatePublicKey,
                      if expiresAt.Some? then expiresAt.value else now,
                      if Truthy(clientText) then decode(clientText.value) else None, true)
    {
      hide Or, OrNone;
      var token := Or(pairingToken, context.pairingToken);
      if token.None? && cached.Some? {
        token := cached.value.pairingToken;
      }
      if token.None? {
        token := Some("");
      }
      state := new SessionState(Session(
        context.sessionId, token.value, context.userPublicKey, context.vehiclePublicKey, context.vehicleNonce, key,
        context.userCertificate, OrNone(Some(context.userPublicKey)), context.certificatePublicKey, now, None, false));
      var nonce := Or(clientNonce, context.clientNonce);
      state.TakeSeed(if Truthy(nonce) then decode(nonce.value) else None,
                     if Truthy(serverNonce) then decode(serverNonce.value) else None, expiresAt);
    }

    /** A new state becomes the current session. */
    method InstallSession(sid: string, state: SessionState)
      requires SessionsOk() && state.sessionId == sid
      modifies this`pkiState, this`pkiSessions, this`lastSessionId
      ensures SessionsOk() && pkiState == state && lastSessionId == Some(sid)
      ensures pkiSessions == old(pkiSessions)[sid := state]
    {
      pkiState := state;
      pkiSessions := pkiSessions[sid := state];
      lastSessionId := Some(sid);
    }

    method CloseContext(sid: string)
      requires ContextsOk()
      modifies this`contexts, this`pending, this`log
      ensures ContextsOk() && contexts == old(contexts) - {sid} && log == old(log) + [Seed(sid)]
      ensures pending == if old(pending) != null && old(pending).sessionId == sid then null else old(pending)
    {
      hide Table;
      if pending != null && pending.sessionId == sid {
        pending := null;
      }
      contexts := contexts - {sid};
      log := log + [Seed(sid)];
      assert Nonces() == old(Nonces()) - {sid};
      TableSeed(old(log), sid);
    }

    // ---- PIN sessions and recovery --------------------------------------------

    /** A new PIN session forgets every PKI session and the cached payload, not only what
        belonged to its own id; handshake contexts stay. */
    method InitializePin(sid: string, pairingToken: Option<string>, written: bool)
      requires Valid()
      modifies this
      ensures Valid() && pkiState == null && pkiSessions == map[] && cached == None
      ensures pin != null && fresh(pin) && pin.sessionId == sid && pin.pairingToken == pairingToken
      ensures pin.active && pin.status == "PENDING" && pin.vehicleNonce == None && lastSessionId == old(lastSessionId)
      ensures contexts == old(contexts) && pending == old(pending) && log == old(log)
    {
      hide Table, Nonces;
      pin := new PinSession(sid, pairingToken);
      pkiState := null;
      pkiSessions := pkiSessions - {sid};
      ExportState(written);
    }

    /** A verified PIN status sets up a session with a fresh nonce when key, token and
        derivation are there; `derive` is the key derivation over token, nonce and key, and
        gives the session key and the vehicle's own key. */
    method PinVerified(sid: string, userKey: string, token: Option<string>, certificate: Option<string>, drawn: Bytes,
                       derive: (string, Bytes, string) -> Option<(Bytes, string)>, status: string, now: real)
      returns (done: bool)
      requires Valid()
      modifies this`pkiState, this`pkiSessions, this`lastSessionId, pin
      ensures Valid()
      ensures var chosen := Or(token, if pin == null then None else old(pin.pairingToken));
              && (done <==> userKey != "" && Truthy(chosen) && derive(chosen.value, drawn, userKey).Some?)
              && (done ==>
                    && pkiState != null && fresh(pkiState) && pkiState.sessionId == sid
                    && pkiState.pairingToken == chosen.value && pkiState.vehicleNonce == drawn
                    && pkiState.sessionKey == derive(chosen.value, drawn, userKey).value.0
                    && pkiState.vehiclePublicKey == derive(chosen.value, drawn, userKey).value.1
                    && pkiState.userPublicKey == userKey && pkiState.handshakePublicKey == Some(userKey)
                    && pkiState.userCertificate == certificate && pkiState.certificatePublicKey == None
                    && pkiState.establishedAt == now && pkiState.clientNonce == None && !pkiState.signatureVerified)
      ensures if !done then
                pkiState == old(pkiState) && pkiSessions == old(pkiSessions) && lastSessionId == old(lastSessionId)
              else pkiSessions == old(pkiSessions)[sid := pkiState] && lastSessionId == Some(sid)
      ensures done && pin != null && pin.sessionId == sid ==>
                && !pin.active && pin.vehicleNonce == Some(drawn) && pin.pairingToken == Some(pkiState.pairingToken)
                && pin.status == if status != "" then status else "VERIFIED"
      ensures pin != null && !(done && pin.sessionId == sid) ==> unchanged(pin)
    {
      hide Table, Nonces, SessionsOk, ContextsOk;
      if userKey == "" {
        return false;
      }
      var pairingToken := Or(token, if pin == null then None else pin.pairingToken);
      if !Truthy(pairingToken) {
        return false;
      }
      var derived := derive(pairingToken.value, drawn, userKey);
      if derived.None? {
        return false;
      }
      var state := new SessionState(Session(
        sid, pairingToken.value, userKey, derived.value.1, drawn, derived.value.0, certificate, Some(userKey), None,
        now, None, false));
      InstallSession(sid, state);
      if pin != null && pin.sessionId == sid {
        pin.Verify(state.pairingToken, state.vehicleNonce, status);
      }
      return true;
    }

    /** A pairing result with the client's signature: the session of that id, current or
        not, is finalised; a failure stops there. */
    method PairingHandshake(sid: string, clientNonce: Option<string>, signature: Signature, written: bool)
      returns (ok: bool)
      requires Valid()
      modifies this`cached, this`pkiSessions, SessionOf(sid), pin
      ensures Valid() && pkiSessions == old(pkiSessions)
      ensures sid !in pkiSessions ==> !ok
      ensures sid in pkiSessions ==>
                var nonce := if Truthy(clientNonce) then decode(clientNonce.value) else None;
                (pkiSessions[sid].Value(), ok) ==
                Finalized(old(pkiSessions[sid].Value()), clientNonce, nonce, signature, strip)
      ensures ok && pin != null && pin.sessionId == sid ==>
                !pin.active && pin.status == "HANDSHAKE_ACK" && pin.vehicleNonce == Some(pkiSessions[sid].vehicleNonce)
      ensures pin != null && !(ok && pin.sessionId == sid) ==> unchanged(pin)
      ensures pin != null ==> pin.pairingToken == old(pin.pairingToken)
      ensures cached == if ok && written && pkiState != null then Some(Export(pkiState.Value())) else old(cached)
      ensures ok ==> pkiState != null
    {
      hide Table, Nonces, ContextsOk, Finalized;
      if sid !in pkiSessions {
        return false;
      }
      var state := pkiSessions[sid];
      var nonce := if Truthy(clientNonce) then decode(clientNonce.value) else None;
      var verified := state.Finalize(clientNonce, nonce, signature, strip);
      if !verified {
        return false;
      }
      if pin != null && pin.sessionId == sid {
        pin.Acknowledge(state.vehicleNonce);
      }
      ExportState(written);
      return true;
    }

    /** What a recovery starts from: the session itself, else the current one, else the
        PIN session and the cached payload. */
    method Template(sid: string) returns (template: SessionState?)
      requires SessionsOk()
      ensures template == if sid in pkiSessions then pkiSessions[sid] else pkiState
      ensures template == null <==> pkiState == null
    {
      template := pkiState;
      if sid in pkiSessions {
        template := pkiSessions[sid];
      }
    }

    method RecoveryMaterial(template: SessionState?)
      returns (token: Option<string>, vehicleKey: Option<string>, nonce: Option<Bytes>)
      ensures template != null ==>
                token == Some(template.pairingToken) && vehicleKey == Some(template.vehiclePublicKey) &&
                nonce == Some(template.vehicleNonce)
      ensures template == null ==>
                var pinToken := if pin != null then pin.pairingToken else None;
                var pinNonce := if pin != null then OrNone(pin.vehicleNonce) else None;
                if cached.None? || (pinToken.Some? && pinNonce.Some?) then
                  token == pinToken && vehicleKey == None && nonce == pinNonce
                else
                  && token == Or(pinToken, cached.value.pairingToken)
                  && vehicleKey == cached.value.vehiclePublicKey
                  && nonce == if pinNonce.Some? then pinNonce else OrNone(cached.value.vehicleNonce)
    {
      token, vehicleKey, nonce := None, None, None;
      if template != null {
        token, vehicleKey := Some(template.pairingToken), Some(template.vehiclePublicKey);
        nonce := Some(template.vehicleNonce);
      }
      if token.None? && pin != null {
        token := pin.pairingToken;
        if Truthy(pin.vehicleNonce) {
          nonce := pin.vehicleNonce;
        }
      }
      if (token.None? || nonce.None?) && cached.Some? {
        token := Or(token, cached.value.pairingToken);
        vehicleKey := Or(vehicleKey, cached.value.vehiclePublicKey);
        if nonce.None? && Truthy(cached.value.vehicleNonce) {
          nonce := cached.value.vehicleNonce;
        }
      }
    }

    /** The state that a recovery comes up with, if any; `derive` as for a verified PIN. */
    method RecoveredState(sid: string, remoteKey: string, certificate: Option<string>, markVerified: bool,
                          loadedKey: Option<string>, derive: (string, Bytes, string) -> Option<(Bytes, string)>,
                          now: real, template: SessionState?)
      returns (r: SessionState?)
      requires Valid()
      ensures r != null ==> fresh(r) && r.sessionId == sid
      ensures template != null ==>
                var derived := derive(template.pairingToken, template.vehicleNonce, remoteKey);
                && (r != null <==> derived.Some?)
                && (r != null ==>
                      r.Value() == Recovered(sid, template.Value(), remoteKey, certificate, derived.value, now,
                                             CountsVerified(sid, template, markVerified)))
      ensures template == null && pkiState == null ==> r == null
    {
      hide Table, Nonces, SessionsOk, ContextsOk, CountsVerified;
      var token, vehicleKey, nonce := RecoveryMaterial(template);
      if token.None? || nonce.None? {
        return null;
      }
      if vehicleKey.None? {
        vehicleKey := loadedKey;
      }
      var derived := derive(token.value, nonce.value, remoteKey);
      if derived.None? {
        return null;
      }
      var verified := Verified(sid, template, markVerified);
      r := new SessionState(Session(
        sid, token.value, remoteKey, derived.value.1, nonce.value, derived.value.0, certificate, Some(remoteKey), None,
        now, None, verified));
      r.TakeKeys(vehicleKey, template);
    }

    /** A recovered session counts as verified if the caller says so, or its template, the
        cached payload or the session it replaces was verified. */
    predicate CountsVerified(sid: string, template: SessionState?, markVerified: bool)
      reads this, template, pkiState, pkiSessions.Values
    {
      || markVerified || (template != null && template.signatureVerified)
      || (cached.Some? && cached.value.signatureVerified)
      || (if sid != "" then sid in pkiSessions && pkiSessions[sid].signatureVerified
          else pkiState != null && pkiState.signatureVerified)
    }

    /** The session that a recovery replaces is its template. */
    lemma TemplateCounts(sid: string, template: SessionState, markVerified: bool)
      requires template == if sid in pkiSessions then pkiSessions[sid] else pkiState
      ensures CountsVerified(sid, template, markVerified) <==>
              || markVerified || template.signatureVerified
              || (cached.Some? && cached.value.signatureVerified)
              || (sid == "" && pkiState != null && pkiState.signatureVerified)
    {
    }

    /** A recovery needs a current session: what a PIN session or the cached payload could
        contribute is gone by then. It keeps token and nonce of the session it replaces,
        or of the current session when it replaces none. */
    method RecoverSession(sid: string, remoteKey: Option<string>, certificate: Option<string>, markVerified: bool,
                          loadedKey: Option<string>, derive: (string, Bytes, string) -> Option<(Bytes, string)>,
                          now: real, written: bool)
      returns (r: SessionState?)
      requires Valid()
      modifies this`pkiState, this`pkiSessions, this`lastSessionId, this`cached
      ensures Valid()
      ensures r == null ==> pkiState == old(pkiState) && pkiSessions == old(pkiSessions) && cached == old(cached)
      ensures r != null ==>
                fresh(r) && pkiState == r && pkiSessions == old(pkiSessions)[sid := r] && lastSessionId == Some(sid)
      ensures r != null ==> cached == if written then Some(Export(r.Value())) else old(cached)
      ensures old(pkiState) == null ==> r == null
      ensures old(pkiState) != null ==>
                var t := if sid in old(pkiSessions) then old(pkiSessions)[sid] else old(pkiState);
                var possible := Truthy(remoteKey) && derive(t.pairingToken, t.vehicleNonce, remoteKey.value).Some?;
                && (r != null <==> possible)
                && (r != null ==>
                      && r.pairingToken == t.pairingToken && r.vehicleNonce == t.vehicleNonce
                      && r.sessionKey == derive(t.pairingToken, t.vehicleNonce, remoteKey.value).value.0
                      && r.vehiclePublicKey == (if t.vehiclePublicKey != "" then t.vehiclePublicKey
                         else derive(t.pairingToken, t.vehicleNonce, remoteKey.value).value.1)
                      && r.handshakePublicKey == Or(t.handshakePublicKey, remoteKey)
                      && Some(r.userPublicKey) == Or(t.handshakePublicKey, remoteKey)
                      && r.userCertificate == certificate && r.certificatePublicKey == OrNone(t.certificatePublicKey)
                      && r.establishedAt == now && r.clientNonce == None
                      && (r.signatureVerified <==>
                            || markVerified || old(t.signatureVerified)
                            || (old(cached).Some? && old(cached).value.signatureVerified)
                            || (sid == "" && old(pkiState.signatureVerified))))
    {
      hide Table, Nonces, SessionsOk, ContextsOk, CountsVerified;
      if !Truthy(remoteKey) {
        return null;
      }
      var template := Template(sid);
      if template != null {
        TemplateCounts(sid, template, markVerified);
      }
      r := RecoveredState(sid, remoteKey.value, certificate, markVerified, loadedKey, derive, now, template);
      if r != null {
        InstallSession(sid, r);
        ExportState(written);
      }
    }

    method Verified(sid: string, template: SessionState?, markVerified: bool) returns (verified: bool)
      requires Valid()
      ensures verified <==> CountsVerified(sid, template, markVerified)
    {
      hide Table, Nonces, ContextsOk;
      if markVerified || (template != null && template.signatureVerified)
         || (cached.Some? && cached.value.signatureVerified)
      {
        return true;
      }
      var existing := GetState(Some(sid));
      return existing != null && existing.signatureVerified;
    }
  }
}
