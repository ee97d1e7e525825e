/** Reassembly of a command that the smartphone wrote in numbered chunks. */
module ChunkAssembler {
  import opened MachineTypes

  type Bytes = seq<u8>

  datatype Chunk = Chunk(id: string, index: int, total: int, data: Bytes)

  /** A payload is a chunk, or a command that came in one piece. */
  datatype Payload = Whole(command: string) | Part(chunk: Chunk)

  /** A payload and the monotonic time at which it is ingested. */
  datatype Arrival = Arrival(payload: Payload, now: real)

  /** A buffered sequence of chunks, by value. */
  datatype Buffer = Empty | Buffered(id: string, total: int, created: real, parts: map<int, Bytes>)

  /** What ingest does: hand a whole command through, raise ValueError, wait for more, or
      hand the assembled octets to the decoder. */
  datatype Outcome = Passed(command: string) | Refused | Waiting | Assembled(bytes: Bytes)

  predicate InBounds(c: Chunk) {
    c.total > 0 && 0 <= c.index < c.total
  }

  predicate Complete(parts: map<int, Bytes>, total: int) {
    |parts| == total && forall i :: 0 <= i < total ==> i in parts
  }

  function Join(parts: map<int, Bytes>, n: nat): Bytes
    requires forall i :: 0 <= i < n ==> i in parts
  {
    if n == 0 then [] else Join(parts, n - 1) + parts[n - 1]
  }

  /** A chunk that does not continue the buffered sequence. */
  predicate Restarts(b: Buffer, c: Chunk, now: real, ttl: real)
    requires b.Buffered?
  {
    b.id != c.id || b.total != c.total || now - b.created > ttl || c.index == 0
  }

  function IngestOne(b: Buffer, a: Arrival, ttl: real): (Buffer, Outcome) {
    match a.payload
    case Whole(command) => (Empty, Passed(command))
    case Part(c) =>
      if !InBounds(c) then (b, Refused)
      else
        var kept := if b.Buffered? && !Restarts(b, c, a.now, ttl) then b else Buffered(c.id, c.total, a.now, map[]);
        var parts := kept.parts[c.index := c.data];
        if Complete(parts, c.total) then (Empty, Assembled(Join(parts, c.total))) else (kept.(parts := parts), Waiting)
  }

  // ---- Counting -------------------------------------------------------------

  /** Keys of a sequence of chunks lie below its total. */
  predicate Bounded(parts: map<int, Bytes>, total: int) {
    forall i :: i in parts ==> 0 <= i < total
  }

  function UpTo(n: nat): (s: set<int>)
    ensures |s| == n && forall i :: i in s <==> 0 <= i < n
  {
    if n == 0 then {} else UpTo(n - 1) + {n - 1}
  }

  lemma SameSize(a: set<int>, b: set<int>)
    requires a <= b && |a| == |b|
    ensures a == b
  {
    assert b == a + (b - a);
    assert |b - a| == 0;
    assert forall i :: i in b ==> i !in b - a;
  }

  /** The count alone decides: as many parts as the total are all the parts. */
  lemma CountMeansAll(parts: map<int, Bytes>, total: nat)
    requires Bounded(parts, total)
    ensures |parts| == total <==> Complete(parts, total)
    ensures (forall i :: 0 <= i < total ==> i in parts) <==> Complete(parts, total)
  {
    assert parts.Keys <= UpTo(total);
    if |parts| == total {
      SameSize(parts.Keys, UpTo(total));
    }
    if forall i :: 0 <= i < total ==> i in parts {
      assert parts.Keys == UpTo(total);
    }
  }

  // ---- Whole runs -----------------------------------------------------------

  /** The buffer of a new assembler after these arrivals. */
  function Run(es: seq<Arrival>, ttl: real): Buffer {
    if es == [] then Empty else IngestOne(Run(es[..|es| - 1], ttl), es[|es| - 1], ttl).0
  }

  /** What the last of the arrivals leads to. */
  function Result(es: seq<Arrival>, ttl: real): Outcome
    requires es != []
  {
    IngestOne(Run(es[..|es| - 1], ttl), es[|es| - 1], ttl).1
  }

  predicate Refusable(a: Arrival) {
    a.payload.Part? && !InBounds(a.payload.chunk)
  }

  /** The newest data of every index among well-formed chunks. */
  function Parts(es: seq<Arrival>): map<int, Bytes> {
    if es == [] then map[]
    else
      var a, parts := es[|es| - 1], Parts(es[..|es| - 1]);
      if a.payload.Part? && InBounds(a.payload.chunk)
      then parts[a.payload.chunk.index := a.payload.chunk.data]
      else parts
  }

  /** A stretch of arrivals that is one sequence of chunks: it opens with a well-formed
      chunk; what follows has the same id and total, is no chunk 0 and comes within the
      time limit, refused chunks aside. */
  predicate OneSequence(es: seq<Arrival>, ttl: real) {
    && es != [] && es[0].payload.Part? && InBounds(es[0].payload.chunk)
    && forall k :: 0 < k < |es| ==> Continues(es[0], es[k], ttl)
  }

  /** The stretch brings every index. */
  predicate Covers(es: seq<Arrival>)
    requires es != [] && es[0].payload.Part?
  {
    forall i :: 0 <= i < Total(es) ==> i in Parts(es)
  }

  function Message(es: seq<Arrival>): Bytes
    requires es != [] && es[0].payload.Part? && Covers(es)
  {
    Join(Parts(es), if Total(es) < 0 then 0 else Total(es))
  }

  predicate Continues(first: Arrival, a: Arrival, ttl: real)
    requires first.payload.Part?
  {
    Refusable(a) || (
      && a.payload.Part? && a.payload.chunk.id == first.payload.chunk.id
      && a.payload.chunk.total == first.payload.chunk.total && a.payload.chunk.index != 0
      && a.now - first.now <= ttl
    )
  }

  function Total(es: seq<Arrival>): int
    requires es != [] && es[0].payload.Part?
  {
    es[0].payload.chunk.total
  }

  /** A stretch that opens with chunk 0 and whose last arrival supplies the last missing
      index. */
  predicate FillsUp(es: seq<Arrival>, ttl: real) {
    && OneSequence(es, ttl) && es[0].payload.chunk.index == 0 && !Refusable(es[|es| - 1]) && Covers(es)
    && (|es| > 1 ==> !Covers(es[..|es| - 1]))
  }

  /** A buffer holds exactly what one sequence of the latest arrivals brought. */
  ghost predicate Holds(b: Buffer, es: seq<Arrival>, ttl: real) {
    && OneSequence(es, ttl) && b.Buffered?
    && b.id == es[0].payload.chunk.id && b.total == Total(es) && b.created == es[0].now
    && b.parts == Parts(es) && Bounded(b.parts, b.total) && !Complete(b.parts, b.total)
  }

  lemma {:induction false} PartsBounded(es: seq<Arrival>, ttl: real)
    requires OneSequence(es, ttl)
    ensures Bounded(Parts(es), Total(es))
    ensures 0 in Parts(es) <==> es[0].payload.chunk.index == 0
  {
    var init := es[..|es| - 1];
    if init == [] {
      assert Parts(es) == map[es[0].payload.chunk.index := es[0].payload.chunk.data];
    } else {
      PartsBounded(init, ttl);
      assert Continues(es[0], es[|es| - 1], ttl);
    }
  }

  /** One arrival after a sequence that is not complete. */
  lemma Extend(b: Buffer, es: seq<Arrival>, ttl: real)
    requires |es| >= 2 && OneSequence(es, ttl) && Holds(b, es[..|es| - 1], ttl)
    ensures var (next, out) := IngestOne(b, es[|es| - 1], ttl);
            if Refusable(es[|es| - 1]) then out == Refused && Holds(next, es, ttl)
            else if Covers(es) then next == Empty && out == Assembled(Message(es))
            else out == Waiting && Holds(next, es, ttl)
  {
    hide Join;
    assert Continues(es[0], es[|es| - 1], ttl);
    PartsBounded(es, ttl);
    CountMeansAll(Parts(es), Total(es));
  }

  /** The first chunk of a sequence, whatever was buffered. */
  lemma Open(b: Buffer, a: Arrival, ttl: real)
    requires a.payload.Part? && InBounds(a.payload.chunk)
    requires b.Empty? || Restarts(b, a.payload.chunk, a.now, ttl)
    ensures var (next, out) := IngestOne(b, a, ttl);
            if Covers([a]) then next == Empty && out == Assembled(Message([a]))
            else out == Waiting && Holds(next, [a], ttl)
  {
    hide Join;
    PartsBounded([a], ttl);
    CountMeansAll(Parts([a]), Total([a]));
    var c := a.payload.chunk;
    assert Parts([a]) == map[][c.index := c.data];
  }

  /** What is buffered after any run is one sequence of its latest arrivals; what is
      handed on is a stretch that fills up with the last of them. */
  lemma {:induction false} RunHolds(es: seq<Arrival>, ttl: real) returns (j: nat)
    ensures Run(es, ttl).Buffered? ==> j < |es| && Holds(Run(es, ttl), es[j..], ttl)
    ensures es != [] && Result(es, ttl).Assembled? ==>
              j < |es| && FillsUp(es[j..], ttl) && Result(es, ttl) == Assembled(Message(es[j..]))
  {
    hide Covers, Message, Parts, Complete;
    j := 0;
    if es != [] {
      var n := |es| - 1;
      var b, a := Run(es[..n], ttl), es[n];
      j := RunHolds(es[..n], ttl);
      if a.payload.Part? {
        if b.Buffered? && (Refusable(a) || !Restarts(b, a.payload.chunk, a.now, ttl)) {
          assert es[j..][..n - j] == es[..n][j..];
          ExtendFills(b, es[j..], ttl);
        } else if !Refusable(a) {
          j := n;
          assert es[n..] == [a];
          Open(b, a, ttl);
          if Covers([a]) {
            OpenFills(a, ttl);
          }
        }
      }
    }
  }

  lemma ExtendFills(b: Buffer, es: seq<Arrival>, ttl: real)
    requires |es| >= 2 && Holds(b, es[..|es| - 1], ttl)
    requires Refusable(es[|es| - 1]) ||
             (es[|es| - 1].payload.Part? && !Restarts(b, es[|es| - 1].payload.chunk, es[|es| - 1].now, ttl))
    ensures OneSequence(es, ttl)
    ensures var (next, out) := IngestOne(b, es[|es| - 1], ttl);
            if Refusable(es[|es| - 1]) then out == Refused && Holds(next, es, ttl)
            else if Covers(es) then next == Empty && out == Assembled(Message(es)) && FillsUp(es, ttl)
            else out == Waiting && Holds(next, es, ttl)
  {
    hide Message, Complete, Parts;
    var init, a := es[..|es| - 1], es[|es| - 1];
    assert forall k :: 0 < k < |init| ==> Continues(init[0], init[k], ttl);
    assert forall k :: 0 < k < |es| - 1 ==> es[k] == init[k];
    assert Continues(es[0], a, ttl);
    Extend(b, es, ttl);
    PartsBounded(es, ttl);
    PartsBounded(init, ttl);
    CountMeansAll(Parts(init), Total(init));
  }

  lemma OpenFills(a: Arrival, ttl: real)
    requires a.payload.Part? && InBounds(a.payload.chunk) && Covers([a])
    ensures FillsUp([a], ttl)
  {
    PartsBounded([a], ttl);
    assert 0 in Parts([a]);
  }

  /** A sequence that opens with chunk 0 is buffered until it is complete, whatever came
      before it. */
  lemma {:induction false} Holding(es: seq<Arrival>, j: nat, ttl: real)
    requires j < |es| && OneSequence(es[j..], ttl) && es[j].payload.chunk.index == 0 && !Covers(es[j..])
    ensures Holds(Run(es, ttl), es[j..], ttl)
  {
    hide Covers, Message, Parts, Complete;
    var n := |es| - 1;
    if j == n {
      assert es[n..] == [es[n]];
      Open(Run(es[..n], ttl), es[n], ttl);
    } else {
      Shorter(es, j, ttl);
      Holding(es[..n], j, ttl);
      assert es[j..][..n - j] == es[..n][j..];
      Extend(Run(es[..n], ttl), es[j..], ttl);
    }
  }

  /** A shorter stretch is still one sequence and covers no more. */
  lemma Shorter(es: seq<Arrival>, j: nat, ttl: real)
    requires j < |es| - 1 && OneSequence(es[j..], ttl)
    ensures OneSequence(es[..|es| - 1][j..], ttl)
    ensures Covers(es[..|es| - 1][j..]) ==> Covers(es[j..])
  {
    var n := |es| - 1;
    var long, short := es[j..], es[..n][j..];
    assert long[..n - j] == short;
    assert forall k :: 0 < k < |short| ==> short[k] == long[k];
    assert forall i :: i in Parts(short) ==> i in Parts(long);
  }

  /** A stretch of the run, up to its end, that fills up with the last arrival. */
  predicate FillsFrom(es: seq<Arrival>, j: nat, ttl: real) {
    j < |es| && FillsUp(es[j..], ttl)
  }

  lemma FillingAssembles(es: seq<Arrival>, j: nat, ttl: real)
    requires FillsFrom(es, j, ttl)
    ensures Result(es, ttl) == Assembled(Message(es[j..]))
  {
    hide Covers, Message, Parts, Complete;
    var n := |es| - 1;
    if j == n {
      assert es[n..] == [es[n]];
      Open(Run(es[..n], ttl), es[n], ttl);
    } else {
      assert es[j..][..n - j] == es[..n][j..];
      Shorter(es, j, ttl);
      Holding(es[..n], j, ttl);
      Extend(Run(es[..n], ttl), es[j..], ttl);
    }
  }

  /** In every run, ingest hands a message on exactly when the arrivals end in a stretch
      that opens with chunk 0, stays with one id and total, within the time limit and
      without another chunk 0, and whose last chunk supplies the last missing index; the
      message is made of that stretch alone. */
  lemma AssembledExactly(es: seq<Arrival>, ttl: real)
    requires es != []
    ensures Result(es, ttl).Assembled? <==> exists j: nat :: FillsFrom(es, j, ttl)
    ensures forall j: nat :: FillsFrom(es, j, ttl) ==> Result(es, ttl) == Assembled(Message(es[j..]))
  {
    hide Result, Message, Covers, Run;
    forall j: nat | FillsFrom(es, j, ttl)
      ensures Result(es, ttl) == Assembled(Message(es[j..]))
    {
      FillingAssembles(es, j, ttl);
    }
    if Result(es, ttl).Assembled? {
      AssembledFills(es, ttl);
    }
  }

  lemma AssembledFills(es: seq<Arrival>, ttl: real)
    requires es != [] && Result(es, ttl).Assembled?
    ensures exists j: nat :: FillsFrom(es, j, ttl)
  {
    hide FillsUp, Result;
    var j := RunHolds(es, ttl);
    assert FillsFrom(es, j, ttl);
  }

  // ---- Every outcome ----------------------------------------------------------

  /** Ingest after any run: a command in one piece is handed through and empties the
      buffer; a chunk outside its bounds is refused and changes nothing; any other chunk
      is either the last of a stretch that fills up, and then the buffer is empty, or
      waits in the buffer. */
  lemma EveryOutcome(es: seq<Arrival>, ttl: real)
    requires es != []
    ensures var p, out := es[|es| - 1].payload, Result(es, ttl);
            && (forall c :: out == Passed(c) <==> p == Whole(c))
            && (out == Refused <==>
                  p.Part? && (p.chunk.total <= 0 || p.chunk.index < 0 || p.chunk.total <= p.chunk.index))
            && (out.Assembled? <==> exists j: nat :: FillsFrom(es, j, ttl))
            && (out.Passed? || out.Assembled? ==> Run(es, ttl) == Empty)
            && (out == Refused ==> Run(es, ttl) == Run(es[..|es| - 1], ttl))
            && (out == Waiting ==> Run(es, ttl).Buffered?)
  {
    AssembledExactly(es, ttl);
  }

  /** What follows depends on earlier arrivals through the buffer alone. */
  lemma {:induction false} SameBuffer(a: seq<Arrival>, b: seq<Arrival>, later: seq<Arrival>, ttl: real)
    requires Run(a, ttl) == Run(b, ttl)
    ensures Run(a + later, ttl) == Run(b + later, ttl)
    ensures later != [] ==> Result(a + later, ttl) == Result(b + later, ttl)
  {
    if later == [] {
      assert a + [] == a && b + [] == b;
    } else {
      var n := |later| - 1;
      SameBuffer(a, b, later[..n], ttl);
      assert (a + later)[..|a + later| - 1] == a + later[..n];
      assert (b + later)[..|b + later| - 1] == b + later[..n];
    }
  }

  /** Arrivals behind a command that came in one piece, or behind a message that was
      handed on, fare as they would with a new assembler; a refused chunk might as well
      never have come. */
  lemma Forgets(before: seq<Arrival>, a: Arrival, later: seq<Arrival>, ttl: real)
    requires later != []
    ensures var out := Result(before + [a], ttl);
            && (a.payload.Whole? || out.Assembled? ==> Result(before + [a] + later, ttl) == Result(later, ttl))
            && (out == Refused ==> Result(before + [a] + later, ttl) == Result(before + later, ttl))
  {
    EveryOutcome(before + [a], ttl);
    assert (before + [a])[..|before|] == before;
    if Run(before + [a], ttl) == Empty {
      SameBuffer(before + [a], [], later, ttl);
      assert [] + later == later;
    }
    if Run(before + [a], ttl) == Run(before, ttl) {
      SameBuffer(before + [a], before, later, ttl);
    }
  }

  // ---- One message, chunk 0 first ---------------------------------------------

  function Flatten(pieces: seq<Bytes>): Bytes {
    if pieces == [] then [] else Flatten(pieces[..|pieces| - 1]) + pieces[|pieces| - 1]
  }

  predicate IsPiece(a: Arrival, id: string, pieces: seq<Bytes>) {
    a.payload.Part? && InBounds(a.payload.chunk) && a.payload.chunk.id == id
    && a.payload.chunk.total == |pieces| && a.payload.chunk.data == pieces[a.payload.chunk.index]
  }

  /** Chunks of one message in any order, with any repeats, except that chunk 0 comes
      first and once; all within the time limit. */
  predicate Delivery(es: seq<Arrival>, id: string, pieces: seq<Bytes>, ttl: real) {
    && es != [] && ttl >= 0.0
    && (forall k :: 0 <= k < |es| ==> IsPiece(es[k], id, pieces) && es[k].now - es[0].now <= ttl)
    && (forall k :: 0 <= k < |es| ==> (es[k].payload.chunk.index == 0 <==> k == 0))
  }

  /** Every index has arrived. */
  predicate AllHere(es: seq<Arrival>, pieces: seq<Bytes>) {
    forall i :: 0 <= i < |pieces| ==> Arrived(es, i)
  }

  predicate Arrived(es: seq<Arrival>, i: int) {
    exists k :: 0 <= k < |es| && es[k].payload.Part? && es[k].payload.chunk.index == i
  }

  lemma {:induction false} PartsArePieces(es: seq<Arrival>, id: string, pieces: seq<Bytes>)
    requires forall k :: 0 <= k < |es| ==> IsPiece(es[k], id, pieces)
    ensures forall i :: i in Parts(es) ==> 0 <= i < |pieces| && Parts(es)[i] == pieces[i]
    ensures forall i :: i in Parts(es) <==> Arrived(es, i)
  {
    if es != [] {
      var n := |es| - 1;
      PartsArePieces(es[..n], id, pieces);
      assert IsPiece(es[n], id, pieces);
      var c := es[n].payload.chunk;
      forall i
        ensures Arrived(es, i) <==> i == c.index || Arrived(es[..n], i)
      {
        ArrivedOneMore(es, i);
      }
    }
  }

  lemma ArrivedOneMore(es: seq<Arrival>, i: int)
    requires es != [] && es[|es| - 1].payload.Part?
    ensures Arrived(es, i) <==> i == es[|es| - 1].payload.chunk.index || Arrived(es[..|es| - 1], i)
  {
  }

  lemma {:induction false} JoinIsFlatten(parts: map<int, Bytes>, pieces: seq<Bytes>, n: nat)
    requires n <= |pieces| && forall i :: 0 <= i < n ==> i in parts && parts[i] == pieces[i]
    ensures Join(parts, n) == Flatten(pieces[..n])
  {
    if n > 0 {
      JoinIsFlatten(parts, pieces, n - 1);
      assert pieces[..n][..n - 1] == pieces[..n - 1];
    }
  }

  /** One delivery is one sequence of chunks, and it covers every index when all are here. */
  lemma DeliveryIsSequence(es: seq<Arrival>, id: string, pieces: seq<Bytes>, ttl: real)
    requires Delivery(es, id, pieces, ttl)
    ensures OneSequence(es, ttl) && Total(es) == |pieces| && es[0].payload.chunk.index == 0
    ensures Covers(es) <==> AllHere(es, pieces)
    ensures Covers(es) ==> Message(es) == Flatten(pieces)
  {
    hide Parts;
    PartsArePieces(es, id, pieces);
    assert IsPiece(es[0], id, pieces);
    forall k | 0 < k < |es|
      ensures Continues(es[0], es[k], ttl)
    {
      assert IsPiece(es[k], id, pieces);
    }
    if Covers(es) {
      JoinIsFlatten(Parts(es), pieces, |pieces|);
      assert pieces[..|pieces|] == pieces;
    }
  }

  /** Whatever came before, a delivery hands on nothing until its last missing index, then
      exactly the concatenation of the pieces, and never a second time. */
  lemma DeliversOnce(before: seq<Arrival>, es: seq<Arrival>, id: string, pieces: seq<Bytes>, ttl: real)
    requires Delivery(es, id, pieces, ttl)
    ensures var first := AllHere(es, pieces) && !AllHere(es[..|es| - 1], pieces);
            Result(before + es, ttl) == if first then Assembled(Flatten(pieces)) else Waiting
  {
    hide Result, Message, Covers, AllHere, Delivery, Run, Parts, OneSequence;
    assert es != [] by {
      DeliveryParts(es, id, pieces, ttl);
    }
    var all, init, j := before + es, es[..|es| - 1], |before|;
    assert all[j..] == es;
    DeliveryParts(es, id, pieces, ttl);
    DeliveryIsSequence(es, id, pieces, ttl);
    if init != [] {
      DeliveryIsSequence(init, id, pieces, ttl);
    }
    AssembledExactly(all, ttl);
    if AllHere(es, pieces) && !AllHere(init, pieces) {
      assert FillsFrom(all, j, ttl);
    } else {
      forall i: nat | FillsFrom(all, i, ttl)
        ensures i == j
      {
        OpensAtZero(all, i, j, ttl);
      }
      assert !FillsFrom(all, j, ttl);
      NeverRefused(all, ttl);
    }
  }

  lemma NothingHere(pieces: seq<Bytes>)
    requires pieces != []
    ensures !AllHere([], pieces)
  {
    assert !Arrived([], 0);
  }

  lemma DeliveryParts(es: seq<Arrival>, id: string, pieces: seq<Bytes>, ttl: real)
    requires Delivery(es, id, pieces, ttl)
    ensures es != []
    ensures |es| > 1 ==> Delivery(es[..|es| - 1], id, pieces, ttl)
    ensures !AllHere([], pieces)
    ensures forall k :: 0 <= k < |es| ==> es[k].payload.Part? && InBounds(es[k].payload.chunk)
    ensures forall k :: 0 <= k < |es| ==> (es[k].payload.chunk.index == 0 <==> k == 0)
  {
    assert IsPiece(es[0], id, pieces);
    NothingHere(pieces);
  }

  lemma OnlyFirstIsZero(es: seq<Arrival>, k: nat, ttl: real)
    requires OneSequence(es, ttl) && 0 < k < |es| && !Refusable(es[k])
    ensures es[k].payload.Part? && es[k].payload.chunk.index != 0
  {
  }

  /** A stretch that fills up starts at the latest chunk 0. */
  lemma OpensAtZero(es: seq<Arrival>, i: nat, j: nat, ttl: real)
    requires FillsFrom(es, i, ttl) && j < |es|
    requires forall k :: j <= k < |es| ==> es[k].payload.Part? && InBounds(es[k].payload.chunk)
    requires forall k :: j <= k < |es| ==> (es[k].payload.chunk.index == 0 <==> k == j)
    ensures i == j
  {
    hide Covers, OneSequence;
    if i < j {
      OnlyFirstIsZero(es[i..], j - i, ttl);
    }
  }

  lemma NeverRefused(es: seq<Arrival>, ttl: real)
    requires es != [] && es[|es| - 1].payload.Part? && InBounds(es[|es| - 1].payload.chunk)
    ensures Result(es, ttl).Assembled? || Result(es, ttl) == Waiting
  {
  }

  // ---- The objects ----------------------------------------------------------

  class ChunkState {
    const chunkId: string
    const total: int
    const created: real
    var parts: map<int, Bytes>

    ghost predicate Valid()
      reads this
    {
      total > 0 && Bounded(parts, total)
    }

    ghost function Abs(): Buffer
      reads this
    {
      Buffered(chunkId, total, created, parts)
    }

    constructor (chunkId: string, total: int, created: real)
      requires total > 0
      ensures Valid() && Abs() == Buffered(chunkId, total, created, map[])
    {
      this.chunkId, this.total, this.created, parts := chunkId, total, created, map[];
    }

    method Add(index: int, data: Bytes)
      requires Valid() && 0 <= index < total
      modifies this
      ensures Valid() && parts == old(parts)[index := data]
    {
      parts := parts[index := data];
    }

    method IsComplete() returns (yes: bool)
      ensures yes == Complete(parts, total)
    {
      yes := |parts| == total;
      var idx := 0;
      while yes && idx < total
        invariant idx >= 0
        invariant yes ==> |parts| == total && forall i :: 0 <= i < idx ==> i in parts
        invariant !yes ==> !Complete(parts, total)
        decreases total - idx
      {
        yes := idx in parts;
        idx := idx + 1;
      }
    }

    method Build() returns (bytes: Bytes)
      requires total >= 0 && Complete(parts, total)
      ensures bytes == Join(parts, total)
    {
      bytes := [];
      for idx := 0 to total
        invariant bytes == Join(parts, idx)
      {
        bytes := bytes + parts[idx];
      }
    }
  }

  class CommandChunkAssembler {
    const ttl: real
    var state: ChunkState?

    ghost predicate Valid()
      reads this, state
    {
      state != null ==> state.Valid()
    }

    ghost function Abs(): Buffer
      reads this, state
    {
      if state == null then Empty else state.Abs()
    }

    constructor (ttl: real)
      ensures Valid() && Abs() == Run([], ttl) && this.ttl == ttl
    {
      this.ttl := ttl;
      state := null;
    }

    method Reset()
      modifies this
      ensures Valid() && Abs() == Empty
    {
      state := null;
    }

    /** The buffer is dropped before the octets are decoded, so a payload that does not
        decode is forgotten too. */
    method Ingest(payload: Payload, now: real) returns (out: Outcome)
      requires Valid()
      modifies this, state
      ensures Valid() && (state == old(state) || state == null || fresh(state))
      ensures (Abs(), out) == IngestOne(old(Abs()), Arrival(payload, now), ttl)
    {
      match payload
      case Whole(command) =>
        if state != null {
          state := null;
        }
        return Passed(command);
      case Part(c) =>
        if c.total <= 0 {
          return Refused;
        }
        if !(0 <= c.index < c.total) {
          return Refused;
        }
        if state != null
           && (state.chunkId != c.id || state.total != c.total || now - state.created > ttl || c.index == 0)
        {
          state := null;
        }
        if state == null {
          state := new ChunkState(c.id, c.total, now);
        }
        state.Add(c.index, c.data);
        var complete := state.IsComplete();
        if !complete {
          return Waiting;
        }
        var bytes := state.Build();
        state := null;
        return Assembled(bytes);
    }
  }
}
