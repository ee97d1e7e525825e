/** PKI sessions as values, and the file that caches the current one across restarts. */
module PairingCache {
  import opened MachineTypes
  import opened Wrappers

  type Bytes = seq<u8>

  /** PkiSessionState, by value. */
  datatype Session = Session(sessionId: string, pairingToken: string, userPublicKey: string, vehiclePublicKey: string,
                             vehicleNonce: Bytes, sessionKey: Bytes, userCertificate: Option<string>,
                             handshakePublicKey: Option<string>, certificatePublicKey: Option<string>,
                             establishedAt: real, clientNonce: Option<Bytes>, signatureVerified: bool)

  /** The cached payload; octet fields are shown without their base64 clothing. */
  datatype Cached = Cached(sessionId: string, pairingToken: Option<string>, userPublicKey: Option<string>,
                           handshakePublicKey: Option<string>, certificatePublicKey: Option<string>,
                           userCertificate: Option<string>, vehiclePublicKey: Option<string>,
                           vehicleNonce: Option<Bytes>, sessionKey: Option<Bytes>, signatureVerified: bool,
                           establishedAt: Option<real>, clientNonce: Option<Bytes>)

  /** Python's truth of an optional string or octet string. */
  predicate Truthy<T>(o: Option<seq<T>>) {
    o.Some? && |o.value| > 0
  }

  function Or<T>(a: Option<seq<T>>, b: Option<seq<T>>): Option<seq<T>> {
    if Truthy(a) then a else b
  }

  function OrNone<T>(o: Option<seq<T>>): Option<seq<T>> {
    Or(o, None)
  }

  /** An alternative counts when the first choice is absent or empty. */
  lemma OrMeaning<T>(a: Option<seq<T>>, b: Option<seq<T>>)
    ensures a.Some? && a.value != [] ==> Or(a, b) == a && OrNone(a) == a
    ensures a.None? || a.value == [] ==> Or(a, b) == b && OrNone(a) == None
  {
  }

  lemma OrIdle(o: Option<string>)
    ensures Or(o, o) == o && OrNone(Some("")) == None
  {
  }

  function Export(s: Session): Cached {
    Cached(s.sessionId, Some(s.pairingToken), Some(s.userPublicKey), s.handshakePublicKey, s.certificatePublicKey,
           s.userCertificate, Some(s.vehiclePublicKey), Some(s.vehicleNonce), Some(s.sessionKey), s.signatureVerified,
           Some(s.establishedAt), OrNone(s.clientNonce))
  }

  /** Restoring fails unless six fields are there and the key has 32 octets. */
  function Restore(c: Cached, now: real): Option<Session> {
    if c.sessionId == "" || !Truthy(c.pairingToken) || !Truthy(c.userPublicKey) || !Truthy(c.vehiclePublicKey)
       || !Truthy(c.vehicleNonce) || !Truthy(c.sessionKey) then None
    else if |c.sessionKey.value| != 32 then None
    else
      Some(Session(c.sessionId, c.pairingToken.value, c.userPublicKey.value, c.vehiclePublicKey.value,
                   c.vehicleNonce.value, c.sessionKey.value, c.userCertificate,
                   OrNone(Or(c.handshakePublicKey, c.userPublicKey)), OrNone(c.certificatePublicKey),
                   if c.establishedAt.Some? then c.establishedAt.value else now,
                   OrNone(c.clientNonce), c.signatureVerified))
  }

  /** The payload shows every field of the session under its own name. */
  lemma ExportNames(s: Session)
    ensures var c := Export(s);
            && c.sessionId == s.sessionId && c.pairingToken == Some(s.pairingToken)
            && c.userPublicKey == Some(s.userPublicKey) && c.vehiclePublicKey == Some(s.vehiclePublicKey)
            && c.handshakePublicKey == s.handshakePublicKey && c.certificatePublicKey == s.certificatePublicKey
            && c.userCertificate == s.userCertificate && c.sessionKey == Some(s.sessionKey)
            && c.vehicleNonce == Some(s.vehicleNonce) && c.establishedAt == Some(s.establishedAt)
            && (c.signatureVerified <==> s.signatureVerified)
            && (c.clientNonce.Some? <==> s.clientNonce.Some? && s.clientNonce.value != [])
            && (c.clientNonce.Some? ==> c.clientNonce == s.clientNonce)
  {
  }

  /** What a cached session must have to come back. */
  predicate Restorable(s: Session) {
    s.sessionId != "" && s.pairingToken != "" && s.userPublicKey != "" && s.vehiclePublicKey != ""
    && s.vehicleNonce != [] && |s.sessionKey| == 32
  }

  /** No optional field holds an empty string, and a session has a handshake key. */
  predicate Canonical(s: Session) {
    Truthy(s.handshakePublicKey) && (s.certificatePublicKey.Some? ==> Truthy(s.certificatePublicKey))
    && (s.clientNonce.Some? ==> Truthy(s.clientNonce))
  }

  /** A cached session survives a restart exactly when the six fields are non-empty and
      the key has 32 octets (the seed also accepts keys of 16 and 24 octets); what comes
      back is the same session if and only if it is canonical. */
  lemma RestartKeepsSession(s: Session, now: real)
    ensures Restore(Export(s), now).Some? <==> Restorable(s)
    ensures Restorable(s) ==>
              var back := Restore(Export(s), now).value;
              && (back == s <==> Canonical(s))
              && Canonical(back)
              && Export(back) == Export(s).(handshakePublicKey := back.handshakePublicKey,
                                           certificatePublicKey := back.certificatePublicKey)
  {
  }
}
