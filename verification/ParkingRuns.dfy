/** Whole parking manoeuvres: which reading ends which stage. A run is the sequence of
    readings of the fresh steps since start(); other steps change nothing but the
    outputs (Controller.Step). */
module ParkingRuns {
  import opened AutoParking
  import opened MachineTypes

  type Readings = rs: seq<Reading> | forall i :: 0 <= i < |rs| ==> rs[i].left >= 0 && rs[i].rear >= 0

  function Run(p: Park, rs: seq<Reading>): Park {
    if rs == [] then p else Compute(Run(p, Init(rs)), Last(rs))
  }

  function Init(rs: seq<Reading>): seq<Reading>
    requires rs != []
  {
    rs[..|rs| - 1]
  }

  function Last(rs: seq<Reading>): Reading
    requires rs != []
  {
    rs[|rs| - 1]
  }

  lemma {:induction false} RunConcat(p: Park, a: seq<Reading>, b: seq<Reading>)
    ensures Run(p, a + b) == Run(Run(p, a), b)
  {
    if b == [] {
      assert a + b == a;
    } else {
      assert Init(a + b) == a + Init(b);
      RunConcat(p, a, Init(b));
    }
  }

  // ---- What the readings mean ----------------------------------------------

  function MinLeft(rs: seq<Reading>): int
    requires rs != []
  {
    if |rs| == 1 then Last(rs).left
    else if Last(rs).left < MinLeft(Init(rs)) then Last(rs).left else MinLeft(Init(rs))
  }

  /** The last reading lies more than 100 mm beyond the nearest one so far. */
  predicate SeesSpace(rs: seq<Reading>) {
    rs != [] && Last(rs).left > MinLeft(rs) + 100
  }

  /** When the run of space readings that ends here began. */
  function SpaceSince(rs: seq<Reading>): u64
    requires SeesSpace(rs)
  {
    if SeesSpace(Init(rs)) then SpaceSince(Init(rs)) else Last(rs).now
  }

  /** The last reading is wall again, after at least 300 ms of space. */
  predicate ClosesGap(rs: seq<Reading>) {
    rs != [] && !SeesSpace(rs) && SeesSpace(Init(rs)) && Last(rs).now - SpaceSince(Init(rs)) >= 300_000
  }

  /** The position of the first reading that closes a gap, or the length if none does. */
  function GapClosed(rs: seq<Reading>): (d: nat)
    ensures d <= |rs|
    ensures d < |rs| ==> ClosesGap(rs[..d + 1])
    ensures forall n :: 1 <= n <= d ==> !ClosesGap(rs[..n])
  {
    if rs == [] then 0
    else
      var d := GapClosed(Init(rs));
      assert forall n :: 1 <= n < |rs| ==> Init(rs)[..n] == rs[..n];
      assert rs[..|rs|] == rs;
      if d < |rs| - 1 then d else if ClosesGap(rs) then |rs| - 1 else |rs|
  }

  /** The position of the first space reading, or the length if there is none. */
  function SpaceSeen(rs: seq<Reading>): (e: nat)
    ensures e <= |rs|
    ensures e < |rs| ==> SeesSpace(rs[..e + 1])
    ensures forall n :: 1 <= n <= e ==> !SeesSpace(rs[..n])
  {
    if rs == [] then 0
    else
      var e := SpaceSeen(Init(rs));
      assert forall n :: 1 <= n < |rs| ==> Init(rs)[..n] == rs[..n];
      assert rs[..|rs|] == rs;
      if e < |rs| - 1 then e else if SeesSpace(rs) then |rs| - 1 else |rs|
  }

  /** The first reading, from the thirtieth rotation step on, with the rear obstacle at
      most 100 mm away. */
  function RearReached(rs: seq<Reading>): (c: nat)
    ensures c <= |rs|
    ensures c < |rs| ==> c + 1 >= 30 && 0 <= rs[c].rear <= 100
    ensures forall i :: 29 <= i < c ==> !(0 <= rs[i].rear <= 100)
  {
    if rs == [] then 0
    else
      var c, n := RearReached(Init(rs)), |rs| - 1;
      if c < n then c
      else if n + 1 >= 30 && 0 <= Last(rs).rear <= 100 then n else n + 1
  }

  lemma {:induction false} MinLeftExactly(rs: seq<Reading>)
    requires rs != []
    ensures forall i :: 0 <= i < |rs| ==> MinLeft(rs) <= rs[i].left
    ensures exists i :: 0 <= i < |rs| && MinLeft(rs) == rs[i].left
  {
    if |rs| == 1 || Last(rs).left < MinLeft(Init(rs)) {
      assert rs[|rs| - 1] == Last(rs);
    }
    if |rs| > 1 {
      MinLeftExactly(Init(rs));
      var i :| 0 <= i < |Init(rs)| && MinLeft(Init(rs)) == Init(rs)[i].left;
      assert rs[i] == Init(rs)[i];
    }
  }

  /** Space is what lies more than 100 mm beyond some reading of the same stage. */
  lemma SpaceExactly(rs: seq<Reading>)
    requires rs != []
    ensures SeesSpace(rs) <==> exists i :: 0 <= i < |rs| && rs[|rs| - 1].left > rs[i].left + 100
  {
    MinLeftExactly(rs);
  }

  /** The readings from the k-th on are a run of space that the k-th begins. */
  predicate SpaceFrom(rs: seq<Reading>, k: nat) {
    k < |rs| && !SeesSpace(rs[..k]) && forall n :: k < n <= |rs| ==> SeesSpace(rs[..n])
  }

  lemma {:induction false} SpaceBegins(rs: seq<Reading>) returns (k: nat)
    requires SeesSpace(rs)
    ensures SpaceFrom(rs, k) && rs[k].now == SpaceSince(rs)
    ensures forall j: nat :: SpaceFrom(rs, j) ==> j == k
  {
    hide SeesSpace;
    assert rs[..|rs|] == rs;
    if rs == [] {
      NeedsReference(rs);
    } else if SeesSpace(Init(rs)) {
      k := SpaceBegins(Init(rs));
      assert forall n :: 0 <= n < |rs| ==> rs[..n] == Init(rs)[..n];
    } else {
      k := |rs| - 1;
    }
  }

  /** A gap closes at the reading that ends a run of space at least 300 ms after the first
      reading of that run. */
  lemma GapExactly(rs: seq<Reading>)
    requires rs != []
    ensures ClosesGap(rs) <==>
              !SeesSpace(rs) && exists k: nat :: SpaceFrom(Init(rs), k) && rs[|rs| - 1].now - rs[k].now >= 300_000
  {
    hide SeesSpace, SpaceSince;
    var n := |rs| - 1;
    if SeesSpace(Init(rs)) {
      var k := SpaceBegins(Init(rs));
      assert rs[k] == Init(rs)[k];
    } else {
      assert Init(rs)[..n] == Init(rs);
    }
  }

  // ---- Stage one: looking for a gap ----------------------------------------

  /** The controller's fields while no gap was closed. */
  predicate Searching(p: Park, rs: seq<Reading>) {
    && p.phase == SpaceDetection && !p.done && p.size < MIN_SPACE_CM
    && (p.refReady <==> rs != []) && (rs != [] ==> p.ref == MinLeft(rs))
    && (p.wall == SpaceDetected <==> SeesSpace(rs))
    && (SeesSpace(rs) ==> p.start == SpaceSince(rs))
    && (rs != [] ==> p.x == 50 && p.y == 70)
  }

  /** The fields right after detection. */
  predicate Reversing(p: Park) {
    p.phase == ParkingExecution && p.execution == 1 && p.rotate == 0 && !p.refReady && p.wall == WallDetected && !p.done
  }

  lemma SearchStep(p: Park, rs: Readings)
    requires rs != [] && Searching(p, Init(rs))
    ensures var next := Compute(p, Last(rs));
            if ClosesGap(rs) then Reversing(next) else Searching(next, rs)
  {
  }

  lemma SearchStart()
    ensures Searching(START, [])
  {
  }

  /** Detection ends exactly at the first fresh wall reading that closes a gap. */
  lemma {:induction false} SearchRun(rs: Readings)
    ensures if GapClosed(rs) == |rs| then Searching(Run(START, rs), rs)
            else Reversing(Run(START, rs[..GapClosed(rs) + 1]))
  {
    hide Compute, Searching, ClosesGap, Reversing;
    if rs == [] {
      SearchStart();
    } else {
      var init := Init(rs);
      SearchRun(init);
      if GapClosed(init) == |init| {
        SearchStep(Run(START, init), rs);
        assert rs[..|rs|] == rs;
      } else {
        assert init[..GapClosed(init) + 1] == rs[..GapClosed(init) + 1];
      }
    }
  }

  // ---- Stage two: back to the gap ------------------------------------------

  /** The fields while reversing along readings that saw no space. */
  predicate SeekingGap(p: Park, rs: seq<Reading>) {
    && p.phase == ParkingExecution && p.execution == 1 && p.rotate == 0 && !p.done
    && (p.refReady <==> rs != []) && (rs != [] ==> p.ref == MinLeft(rs) && p.x == 50 && p.y == 35)
  }

  /** The fields when rotation begins. */
  predicate AtGap(p: Park) {
    p.phase == ParkingExecution && p.execution == 2 && p.rotate == 0 && !p.done && p.x == 50 && p.y == 50
  }

  lemma ReverseStart(p: Park)
    requires Reversing(p)
    ensures SeekingGap(p, [])
  {
  }

  lemma ReverseStep(p: Park, rs: Readings)
    requires rs != [] && SeekingGap(p, Init(rs))
    ensures var next := Compute(p, Last(rs)); if SeesSpace(rs) then AtGap(next) else SeekingGap(next, rs)
  {
  }

  lemma {:induction false} ReverseRun(p: Park, rs: Readings)
    requires Reversing(p)
    ensures if SpaceSeen(rs) == |rs| then SeekingGap(Run(p, rs), rs)
            else AtGap(Run(p, rs[..SpaceSeen(rs) + 1]))
  {
    hide Compute, SeekingGap, AtGap, SeesSpace;
    ReverseStart(p);
    if rs != [] {
      var init := Init(rs);
      ReverseRun(p, init);
      if SpaceSeen(init) == |init| {
        ReverseStep(Run(p, init), rs);
        assert rs[..|rs|] == rs;
      } else {
        assert init[..SpaceSeen(init) + 1] == rs[..SpaceSeen(init) + 1];
      }
    }
  }

  // ---- Stage three: into the gap -------------------------------------------

  function Rotations(n: nat): nat {
    if n < 30 then n else 30
  }

  lemma {:induction false} RotateRun(p: Park, rs: Readings)
    requires AtGap(p)
    ensures var r := Run(p, rs);
            if RearReached(rs) == |rs| then
              && r.phase == ParkingExecution && r.execution == 2 && !r.done && r.rotate == Rotations(|rs|)
              && (rs != [] ==> (r.x, r.y) == if |rs| <= 30 then (64, 45) else (50, 35))
            else
              r.phase == Completed && r.done && r.execution == 2 && r.rotate == 30 && r.x == 50 && r.y == 50
  {
    if rs != [] {
      RotateRun(p, Init(rs));
    }
  }

  // ---- Whole manoeuvres ----------------------------------------------------

  /** Where a manoeuvre stands after the readings of its last stage: the stages end at
      the first closed gap, then at the first space seen on the way back (measured
      against a new nearest distance), then at the rear obstacle after thirty
      rotation steps. */
  predicate Parking(r: Park, turn: seq<Reading>) {
    if RearReached(turn) == |turn| then
      r.phase == ParkingExecution && r.execution == 2 && r.rotate == Rotations(|turn|) && !r.done
    else r.phase == Completed && r.done && r.rotate == 30 && r.x == 50 && r.y == 50
  }

  predicate GoingBack(r: Park, back: seq<Reading>) {
    var e := SpaceSeen(back);
    if e == |back| then r.phase == ParkingExecution && r.execution == 1 && r.rotate == 0 && !r.done
    else Parking(r, back[e + 1..])
  }

  predicate Standing(r: Park, rs: seq<Reading>) {
    var d := GapClosed(rs);
    if d == |rs| then r.phase == SpaceDetection && !r.done else GoingBack(r, rs[d + 1..])
  }

  lemma BackRun(p: Park, back: Readings)
    requires Reversing(p)
    ensures GoingBack(Run(p, back), back)
  {
    hide Compute, SpaceSeen, RearReached, Run, SeesSpace, MinLeft;
    ReverseRun(p, back);
    var e := SpaceSeen(back);
    if e < |back| {
      var turn := back[e + 1..];
      RunConcat(p, back[..e + 1], turn);
      assert back[..e + 1] + turn == back;
      RotateRun(Run(p, back[..e + 1]), turn);
    }
  }

  /** Where the controller stands after any fresh readings since start(). */
  lemma Manoeuvre(rs: Readings)
    ensures Standing(Run(START, rs), rs)
  {
    hide Compute, GapClosed, Run, GoingBack, ClosesGap, SeesSpace, MinLeft, SpaceSince;
    SearchRun(rs);
    var d := GapClosed(rs);
    if d < |rs| {
      RunConcat(START, rs[..d + 1], rs[d + 1..]);
      assert rs[..d + 1] + rs[d + 1..] == rs;
      BackRun(Run(START, rs[..d + 1]), rs[d + 1..]);
    }
  }

  /** `done` says exactly that the controller is in its last stage. */
  lemma DoneIsCompleted(rs: Readings)
    ensures Run(START, rs).done <==> Run(START, rs).phase == Completed
  {
  }

  /** Completion takes at least 35 fresh steps (three to close a gap, two to find it again,
      thirty to rotate), the last of its readings with the rear obstacle within 100 mm. */
  lemma CompletionNeeds(rs: Readings)
    requires Run(START, rs).done
    ensures exists k :: 34 <= k < |rs| && 0 <= rs[k].rear <= 100
  {
    hide Compute, Run, MinLeft, SpaceSince;
    Manoeuvre(rs);
    var d := GapClosed(rs);
    var back := rs[d + 1..];
    var e := SpaceSeen(back);
    var c := RearReached(back[e + 1..]);
    assert back[e + 1..][c] == rs[d + e + c + 2];
    NeedsReference(rs[..d + 1]);
    NeedsReference(rs[..d]);
    assert Init(rs[..d + 1]) == rs[..d];
    NeedsReference(back[..e + 1]);
  }

  /** The first reading only sets the reference distance. */
  lemma NeedsReference(rs: seq<Reading>)
    ensures SeesSpace(rs) ==> |rs| >= 2
  {
  }

  /** No step goes back: phase, execution state and rotation counter only advance. */
  function Rank(p: Park): (int, int, int) {
    (match p.phase case SpaceDetection => 0 case ParkingExecution => 1 case Completed => 2,
     if p.phase == SpaceDetection then 0 else p.execution, if p.phase == SpaceDetection then 0 else p.rotate)
  }

  predicate AtMost(a: (int, int, int), b: (int, int, int)) {
    a.0 < b.0 || (a.0 == b.0 && (a.1 < b.1 || (a.1 == b.1 && a.2 <= b.2)))
  }

  lemma StepAdvances(p: Park, r: Reading)
    ensures AtMost(Rank(p), Rank(Compute(p, r)))
  {
  }

  // ---- Steps that are not fresh ---------------------------------------------

  datatype Event = Held | Taken(reading: Reading)

  /** The controller's fields after any steps: one that is not fresh sets the outputs to
      neutral and changes nothing else. */
  function Steps(p: Park, es: seq<Event>): Park {
    if es == [] then p
    else
      var q := Steps(p, es[..|es| - 1]);
      match es[|es| - 1]
      case Held => q.(x := 50, y := 50)
      case Taken(r) => Compute(q, r)
  }

  function TakenOnly(es: seq<Event>): seq<Reading> {
    if es == [] then []
    else TakenOnly(es[..|es| - 1]) + if es[|es| - 1].Taken? then [es[|es| - 1].reading] else []
  }

  predicate SameButOutputs(p: Park, q: Park) {
    p.(x := 0, y := 0) == q.(x := 0, y := 0)
  }

  /** A step overwrites both outputs, whatever they were. */
  lemma OutputsForgotten(p: Park, q: Park, r: Reading)
    requires SameButOutputs(p, q)
    ensures Compute(p, r) == Compute(q, r)
  {
    hide SpaceSize;
  }

  /** Steps that are not fresh can be left out of a run: the state is that of the fresh
      steps alone, and so are the outputs right after a fresh step. */
  lemma {:induction false} HeldStepsDropOut(p: Park, es: seq<Event>)
    ensures SameButOutputs(Steps(p, es), Run(p, TakenOnly(es)))
    ensures es != [] && es[|es| - 1].Taken? ==> Steps(p, es) == Run(p, TakenOnly(es))
    ensures es != [] && es[|es| - 1].Held? ==> Steps(p, es).x == 50 && Steps(p, es).y == 50
  {
    hide Compute;
    if es != [] {
      var before := es[..|es| - 1];
      HeldStepsDropOut(p, before);
      if es[|es| - 1].Taken? {
        var r := es[|es| - 1].reading;
        assert Init(TakenOnly(es)) == TakenOnly(before) && Last(TakenOnly(es)) == r;
        OutputsForgotten(Steps(p, before), Run(p, TakenOnly(before)), r);
      } else {
        assert TakenOnly(es) == TakenOnly(before);
      }
    }
  }
}
