/** The sensor's packets from the sender's side: an encoder, and which octets of a stream
    end up in which reading. */
module TofPackets {
  import opened MachineTypes
  import opened TofFramer

  /** What a sensor sends. Three octets of a packet are not used. */
  datatype Measurement = Measurement(id: u8, systemTimeMs: u32, distMm: int, status: u8, signal: u16)

  predicate Sendable(m: Measurement) {
    -0x80_0000 <= m.distMm < 0x80_0000
  }

  /** The n lowest octets, lowest first; negative numbers in two's complement. */
  function LittleEndian(x: int, n: nat): (r: seq<u8>)
    ensures |r| == n
    decreases n
  {
    if n == 0 then [] else [x % 0x100] + LittleEndian(x / 0x100, n - 1)
  }

  function Total(octets: seq<u8>): nat {
    if octets == [] then 0 else octets[0] + Total(octets[1..])
  }

  function Encode(m: Measurement, unused: (u8, u8, u8)): (p: seq<u8>)
    ensures |p| == PACKET_LENGTH
  {
    var body := [0x57, unused.0, unused.1, m.id] + LittleEndian(m.systemTimeMs, 4) + LittleEndian(m.distMm, 3)
                + [m.status] + LittleEndian(m.signal, 2) + [unused.2];
    body + [Total(body) % 0x100]
  }

  lemma {:induction false} TotalSnoc(a: seq<u8>, b: u8)
    ensures Total(a + [b]) == Total(a) + b
  {
    if a == [] {
      assert a + [b] == [b] && [b][1..] == [];
    } else {
      assert (a + [b])[1..] == a[1..] + [b];
      TotalSnoc(a[1..], b);
    }
  }

  lemma NoTotal()
    ensures Total([]) == 0
  {
  }

  lemma {:induction false} SumIsTotal(octets: seq<u8>)
    ensures Sum(octets) == Total(octets) % 0x100
  {
    hide Total;
    NoTotal();
    if octets != [] {
      var n := |octets| - 1;
      SumIsTotal(octets[..n]);
      TotalSnoc(octets[..n], octets[n]);
      assert octets == octets[..n] + [octets[n]];
      AddModulo(Total(octets[..n]), octets[n]);
    }
  }

  lemma AddModulo(a: nat, b: nat)
    ensures (a % 0x100 + b) % 0x100 == (a + b) % 0x100
  {
  }

  /** A packet is accepted exactly if it starts with 0x57 and its last octet is the sum of
      the others modulo 256. */
  lemma AcceptedExactly(p: seq<u8>)
    requires |p| == PACKET_LENGTH
    ensures PacketOk(p) <==> p[0] == 0x57 && p[15] == Total(p[..15]) % 0x100
  {
    SumIsTotal(p[..15]);
  }

  lemma FourOctets(x: u32)
    ensures var r := LittleEndian(x, 4);
            (r[0] as int) + 0x100 * (r[1] as int) + 0x1_0000 * (r[2] as int) + 0x100_0000 * (r[3] as int) == x
  {
    var y := x / 0x100;
    var z := y / 0x100;
    assert LittleEndian(x, 4) == [x % 0x100] + LittleEndian(y, 3);
    assert LittleEndian(y, 3) == [y % 0x100] + LittleEndian(z, 2);
    assert LittleEndian(z, 2) == [z % 0x100] + LittleEndian(z / 0x100, 1);
    assert LittleEndian(z / 0x100, 1) == [(z / 0x100) % 0x100] + LittleEndian(z / 0x100 / 0x100, 0);
  }

  lemma TwoOctets(x: u16)
    ensures var r := LittleEndian(x, 2); (r[0] as int) + 0x100 * (r[1] as int) == x
  {
    assert LittleEndian(x, 2) == [x % 0x100] + LittleEndian(x / 0x100, 1);
    assert LittleEndian(x / 0x100, 1) == [(x / 0x100) % 0x100] + LittleEndian(x / 0x100 / 0x100, 0);
  }

  lemma ThreeOctets(x: int)
    requires -0x80_0000 <= x < 0x80_0000
    ensures var r := LittleEndian(x, 3);
            (r[0] as int) + 0x100 * (r[1] as int) + 0x1_0000 * (r[2] as int) == if x < 0 then x + 0x100_0000 else x
  {
    var y := x / 0x100;
    var z := y / 0x100;
    assert LittleEndian(x, 3) == [x % 0x100] + LittleEndian(y, 2);
    assert LittleEndian(y, 2) == [y % 0x100] + LittleEndian(z, 1);
    assert LittleEndian(z, 1) == [z % 0x100] + LittleEndian(z / 0x100, 0);
    assert -0x80 <= z < 0x80;
  }

  /** Decoding undoes encoding, whatever the unused octets hold, and a reading carries the
      time it is given. */
  lemma DecodeEncode(m: Measurement, unused: (u8, u8, u8), time: nat)
    requires Sendable(m)
    ensures PacketOk(Encode(m, unused))
    ensures Decode(Encode(m, unused), time) ==
            Reading(m.id, m.systemTimeMs, m.distMm, m.status, m.signal, time)
  {
    hide LittleEndian, Total, Sum, DistRaw, PacketOk;
    var p := Encode(m, unused);
    var t, d, s := LittleEndian(m.systemTimeMs, 4), LittleEndian(m.distMm, 3), LittleEndian(m.signal, 2);
    assert p[4..8] == t && p[8..11] == d && p[12..14] == s;
    assert forall i :: 0 <= i < 4 ==> p[4 + i] == t[i];
    assert forall i :: 0 <= i < 3 ==> p[8 + i] == d[i];
    assert p[12] == s[0] && p[13] == s[1];
    FourOctets(m.systemTimeMs);
    ThreeOctets(m.distMm);
    TwoOctets(m.signal);
    DistRawIsSigned24(p[8], p[9], p[10]);
    AcceptedExactly(p);
    assert p[..15] + [p[15]] == p;
  }

  // ---- Frames in a stream ------------------------------------------------------

  predicate Header(stream: seq<Stamped>, i: int) {
    0 <= i < |stream| && stream[i].octet == 0x57
  }

  /** Between two positions there is no header octet. */
  predicate Quiet(stream: seq<Stamped>, from: int, to: int) {
    forall i :: from <= i < to ==> !Header(stream, i)
  }

  /** Where the search for the k-th frame begins. */
  function Behind(frames: seq<nat>, k: nat, from: nat): nat
    requires k <= |frames|
  {
    if k == 0 then from else frames[k - 1] + PACKET_LENGTH
  }

  /** Frames cut a stream: each starts at the first header octet behind the one before, so
      that no header octet inside a frame counts, and the last is followed by no header
      with a whole frame behind it, but by the first header at most. */
  ghost predicate Cut(stream: seq<Stamped>, frames: seq<nat>, from: nat) {
    && Sized(stream, frames) && (forall k :: 0 <= k < |frames| ==> StartsFrame(stream, frames, k, from))
    && forall i :: FirstHeader(stream, Behind(frames, |frames|, from), i) ==> i + PACKET_LENGTH > |stream|
  }

  predicate FirstHeader(stream: seq<Stamped>, from: nat, i: int) {
    from <= i && Header(stream, i) && Quiet(stream, from, i)
  }

  predicate StartsFrame(stream: seq<Stamped>, frames: seq<nat>, k: nat, from: nat)
    requires k < |frames|
  {
    FirstHeader(stream, Behind(frames, k, from), frames[k])
  }

  /** The reading of the frame at a position, field by field. */
  predicate ReadsFrame(r: Reading, stream: seq<Stamped>, at: nat)
    requires at + PACKET_LENGTH <= |stream|
  {
    && r.receivedTimeUs == stream[at].time
    && r.id == stream[at + 3].octet && r.status == stream[at + 11].octet
    && r.systemTimeMs == Value(stream, at + 4, 4) && r.signal == Value(stream, at + 12, 2)
    && (r.distRaw - Value(stream, at + 8, 3)) % 0x100_0000 == 0 && -0x80_0000 <= r.distRaw < 0x80_0000
  }

  /** n octets as a little-endian number. */
  function Value(stream: seq<Stamped>, at: nat, n: nat): nat
    requires at + n <= |stream|
    decreases n
  {
    if n == 0 then 0 else stream[at].octet + 0x100 * Value(stream, at + 1, n - 1)
  }

  /** The last octet of the frame is the sum of the others modulo 256. */
  predicate Checks(stream: seq<Stamped>, at: nat)
    requires at + PACKET_LENGTH <= |stream|
  {
    stream[at + 15].octet == Total(Octets(stream[at..at + 15])) % 0x100
  }

  predicate Sized(stream: seq<Stamped>, frames: seq<nat>) {
    forall k :: 0 <= k < |frames| ==> frames[k] + PACKET_LENGTH <= |stream|
  }

  /** The frames with the right checksum. */
  function Good(stream: seq<Stamped>, frames: seq<nat>): (r: seq<nat>)
    requires Sized(stream, frames)
    ensures forall k :: 0 <= k < |r| ==> r[k] + PACKET_LENGTH <= |stream| && r[k] in frames && Checks(stream, r[k])
    ensures forall k :: 0 <= k < |frames| && Checks(stream, frames[k]) ==> frames[k] in r
    decreases |frames|
  {
    if frames == [] then [] else (if Checks(stream, frames[0]) then [frames[0]] else []) + Good(stream, frames[1..])
  }

  lemma FrameReads(stream: seq<Stamped>, at: nat)
    requires at + PACKET_LENGTH <= |stream| && Header(stream, at)
    ensures var p := Octets(stream[at..at + PACKET_LENGTH]);
            && (PacketOk(p) <==> Checks(stream, at))
            && ReadsFrame(Decode(p, stream[at].time), stream, at)
  {
    hide Total, Sum, DistRaw;
    var p := Octets(stream[at..at + PACKET_LENGTH]);
    AcceptedExactly(p);
    assert p[..15] == Octets(stream[at..at + 15]);
    assert forall i :: 0 <= i < PACKET_LENGTH ==> p[i] == stream[at + i].octet;
    DistRawIsSigned24(p[8], p[9], p[10]);
    Numbers(stream, at);
  }

  lemma Numbers(stream: seq<Stamped>, at: nat)
    requires at + PACKET_LENGTH <= |stream|
    ensures Value(stream, at + 4, 4) ==
            (stream[at + 4].octet as int) + 0x100 * (stream[at + 5].octet as int)
            + 0x1_0000 * (stream[at + 6].octet as int) + 0x100_0000 * (stream[at + 7].octet as int)
    ensures Value(stream, at + 8, 3) ==
            (stream[at + 8].octet as int) + 0x100 * (stream[at + 9].octet as int)
            + 0x1_0000 * (stream[at + 10].octet as int)
    ensures Value(stream, at + 12, 2) == (stream[at + 12].octet as int) + 0x100 * (stream[at + 13].octet as int)
  {
    assert Value(stream, at + 8, 0) == 0 && Value(stream, at + 11, 0) == 0 && Value(stream, at + 14, 0) == 0;
    assert Value(stream, at + 7, 1) == stream[at + 7].octet;
    assert Value(stream, at + 6, 2) == stream[at + 6].octet + 0x100 * (stream[at + 7].octet as int);
    assert Value(stream, at + 10, 1) == stream[at + 10].octet;
    assert Value(stream, at + 9, 2) == stream[at + 9].octet + 0x100 * (stream[at + 10].octet as int);
    assert Value(stream, at + 13, 1) == stream[at + 13].octet;
  }

  /** Each reading of a stream is that of one well-formed frame, in order, with the arrival
      time of the header octet that opens the frame; no well-formed frame is left out. */
  lemma ReadingsAreFrames(stream: seq<Stamped>) returns (frames: seq<nat>)
    ensures Cut(stream, frames, 0)
    ensures var good := Good(stream, frames);
            && |Readings(stream)| == |good|
            && forall k :: 0 <= k < |good| ==> ReadsFrame(Readings(stream)[k], stream, good[k])
  {
    frames := FramesFrom(stream, 0);
    assert stream[0..] == stream;
  }

  lemma {:induction false} FramesFrom(stream: seq<Stamped>, from: nat) returns (frames: seq<nat>)
    requires from <= |stream|
    ensures Cut(stream, frames, from)
    ensures Sized(stream, frames)
    ensures var good := Good(stream, frames);
            && |Readings(stream[from..])| == |good|
            && forall k :: 0 <= k < |good| ==> ReadsFrame(Readings(stream[from..])[k], stream, good[k])
    decreases |stream| - from
  {
    hide Decode, PacketOk, Octets, ReadsFrame, Checks, Readings, Good, Cut, Header;
    var rest := stream[from..];
    frames := [];
    NoFrames(stream);
    if from + PACKET_LENGTH > |stream| || rest[0].octet != PACKET_HEADER {
      if from < |stream| && rest[0].octet != PACKET_HEADER {
        assert rest[1..] == stream[from + 1..];
        frames := FramesFrom(stream, from + 1);
        NotAHeader(stream, from);
        SkipOne(stream, frames, from);
      } else {
        NoRoom(stream, from);
      }
    } else {
      assert rest[PACKET_LENGTH..] == stream[from + PACKET_LENGTH..];
      assert rest[..PACKET_LENGTH] == stream[from..from + PACKET_LENGTH];
      IsHeader(stream, from);
      FrameReads(stream, from);
      var later := FramesFrom(stream, from + PACKET_LENGTH);
      frames := [from] + later;
      AddFrame(stream, later, from);
      AddGood(stream, later, from);
    }
    ReadingsStep(rest);
  }

  lemma ReadingsStep(stream: seq<Stamped>)
    ensures Readings(stream) ==
            if stream == [] then []
            else if stream[0].octet != PACKET_HEADER then Readings(stream[1..])
            else if |stream| < PACKET_LENGTH then []
            else
              var p := Octets(stream[..PACKET_LENGTH]);
              (if PacketOk(p) then [Decode(p, stream[0].time)] else []) + Readings(stream[PACKET_LENGTH..])
  {
  }

  lemma NoFrames(stream: seq<Stamped>)
    ensures Good(stream, []) == []
  {
  }

  lemma NotAHeader(stream: seq<Stamped>, from: nat)
    requires from < |stream| && stream[from].octet != PACKET_HEADER
    ensures !Header(stream, from)
  {
  }

  lemma IsHeader(stream: seq<Stamped>, from: nat)
    requires from < |stream| && stream[from].octet == PACKET_HEADER
    ensures Header(stream, from) && FirstHeader(stream, from, from)
  {
  }

  lemma NoRoom(stream: seq<Stamped>, from: nat)
    requires from + PACKET_LENGTH > |stream|
    ensures Cut(stream, [], from)
  {
  }

  lemma AddGood(stream: seq<Stamped>, later: seq<nat>, from: nat)
    requires from + PACKET_LENGTH <= |stream|
    requires Cut(stream, later, from + PACKET_LENGTH) && Cut(stream, [from] + later, from)
    ensures Good(stream, [from] + later) == (if Checks(stream, from) then [from] else []) + Good(stream, later)
  {
    hide Checks;
    assert ([from] + later)[1..] == later;
  }

  lemma SkipOne(stream: seq<Stamped>, frames: seq<nat>, from: nat)
    requires from < |stream| && !Header(stream, from) && Cut(stream, frames, from + 1)
    ensures Cut(stream, frames, from)
  {
    forall k | 0 <= k < |frames|
      ensures StartsFrame(stream, frames, k, from)
    {
      assert StartsFrame(stream, frames, k, from + 1);
    }
    forall i | FirstHeader(stream, Behind(frames, |frames|, from), i)
      ensures i + PACKET_LENGTH > |stream|
    {
      assert FirstHeader(stream, Behind(frames, |frames|, from + 1), i);
    }
  }

  lemma AddFrame(stream: seq<Stamped>, later: seq<nat>, from: nat)
    requires FirstHeader(stream, from, from) && from + PACKET_LENGTH <= |stream|
    requires Cut(stream, later, from + PACKET_LENGTH)
    ensures Cut(stream, [from] + later, from)
  {
    hide FirstHeader;
    var frames := [from] + later;
    forall k | 0 <= k < |frames|
      ensures StartsFrame(stream, frames, k, from)
    {
      if k > 0 {
        assert frames[k] == later[k - 1];
        assert StartsFrame(stream, later, k - 1, from + PACKET_LENGTH);
        assert Behind(frames, k, from) == Behind(later, k - 1, from + PACKET_LENGTH);
      }
    }
    assert Behind(frames, |frames|, from) == Behind(later, |later|, from + PACKET_LENGTH);
  }

  /** In every run the published readings are those of the frames of the octets that were
      read, each with the arrival time of its own header octet. */
  lemma PublishedTimes(capacity: nat, events: seq<Event>) returns (frames: seq<nat>)
    requires capacity > 0
    ensures var stream, published := Run(capacity, events).taken, Run(capacity, events).framer.published;
            && Cut(stream, frames, 0)
            && var good := Good(stream, frames);
            && |published| == |good|
            && forall k :: 0 <= k < |good| ==> ReadsFrame(published[k], stream, good[k])
  {
    EveryRun(capacity, events);
    frames := ReadingsAreFrames(Run(capacity, events).taken);
  }
}
