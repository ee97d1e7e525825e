/** The automatic-parking controller: find a gap along a wall, drive back to it, rotate
    into it, stop at the rear obstacle. The `float` gap size is a real here. */
module AutoParking {
  import opened MachineTypes

  const WALL_THRESHOLD_MM: int := 100
  const SPEED_CM_PER_MS: real := 0.5
  const MIN_SPACE_CM: real := 150.0
  const REAR_SAFETY_MM: int := 100
  const ROTATE_LIMIT: int := 30

  datatype Phase = SpaceDetection | ParkingExecution | Completed
  datatype WallState = WallDetected | SpaceDetected

  datatype SensorData = SensorData(frontTofMm: int, leftUltraMm: int, rightUltraMm: int, rearUltraMm: int,
                                   frontTsUs: u64, leftTsUs: u64, rightTsUs: u64, rearTsUs: u64)

  /** What one accepted control step reads. */
  datatype Reading = Reading(now: u64, left: int, rear: int)

  /** The fields that a fresh step may change. */
  datatype Park = Park(phase: Phase, wall: WallState, execution: int, refReady: bool, ref: int,
                       start: u64, size: real, rotate: int, done: bool, x: int, y: int)

  const START: Park := Park(SpaceDetection, WallDetected, 1, false, 0, 0, 0.0, 0, false, 50, 50)

  // ---- One step ------------------------------------------------------------

  function SpaceSize(start: u64, end: u64): real {
    if end <= start then 0.0 else (end - start) as real / 1000.0 * SPEED_CM_PER_MS
  }

  /** 150 cm at half a centimetre per millisecond are 300 ms. */
  lemma SizeIsDuration(start: u64, end: u64)
    ensures SpaceSize(start, end) >= MIN_SPACE_CM <==> end - start >= 300_000
  {
  }

  /** analyzeSpace: track the smallest distance; a distance well above it is a gap. */
  function Analyze(p: Park, distance: int): (Park, WallState) {
    if distance < 0 then (p, WallDetected)
    else if !p.refReady then (p.(ref := distance, refReady := true), WallDetected)
    else
      var ref := if distance < p.ref then distance else p.ref;
      (p.(ref := ref), if distance > ref + WALL_THRESHOLD_MM then SpaceDetected else WallDetected)
  }

  function Transition(p: Park, wall: WallState, now: u64): Park {
    if p.wall == wall then p
    else if wall == SpaceDetected then p.(start := now, wall := wall)
    else p.(size := SpaceSize(p.start, now), wall := wall)
  }

  /** computeOutputs. */
  function Compute(p: Park, r: Reading): Park {
    match p.phase
    case SpaceDetection =>
      var (q, wall) := Analyze(p.(x := 50, y := 70), r.left);
      var q := Transition(q, wall, r.now);
      if q.size >= MIN_SPACE_CM then
        q.(phase := ParkingExecution, execution := 1, rotate := 0, refReady := false, wall := WallDetected)
      else q
    case ParkingExecution =>
      if p.execution == 1 then
        var (q, wall) := Analyze(p, r.left);
        if wall == SpaceDetected then q.(wall := wall, x := 50, y := 50, execution := 2)
        else q.(wall := wall, x := 50, y := 35)
      else
        var q := if p.rotate < ROTATE_LIMIT then p.(x := 64, y := 45, rotate := p.rotate + 1)
                 else p.(x := 50, y := 35);
        if q.rotate >= ROTATE_LIMIT && 0 <= r.rear <= REAR_SAFETY_MM then
          q.(x := 50, y := 50, phase := Completed, done := true)
        else q
    case Completed => p.(x := 50, y := 50, done := true)
  }

  /** The time stamp a sensor's reading is judged by. */
  function Stamp(ts: u64, now: u64): u64 {
    if ts != 0 then ts else now
  }

  function MaxAge(interval: u64): u64 {
    (interval * 5) % 0x1_0000_0000_0000_0000
  }

  predicate Stale(ts: u64, now: u64, interval: u64) {
    now >= Stamp(ts, now) && now - Stamp(ts, now) > MaxAge(interval)
  }

  /** updateSensors accepts a step when left and rear readings exist and none of the four
      readings is older than five sensor intervals. */
  predicate Fresh(s: SensorData, now: u64, interval: u64) {
    && s.leftUltraMm >= 0 && s.rearUltraMm >= 0
    && !Stale(s.frontTsUs, now, interval) && !Stale(s.leftTsUs, now, interval)
    && !Stale(s.rightTsUs, now, interval) && !Stale(s.rearTsUs, now, interval)
  }

  /** Fresh in numbers, for intervals whose five-fold fits 64 bits: left and rear readings
      are there, and each of the four is unstamped, stamped later than now, or at most five
      intervals old. */
  lemma FreshExactly(s: SensorData, now: u64, interval: u64)
    requires 5 * interval < 0x1_0000_0000_0000_0000
    ensures Fresh(s, now, interval) <==>
              && s.leftUltraMm >= 0 && s.rearUltraMm >= 0
              && Recent(s.frontTsUs, now, interval) && Recent(s.leftTsUs, now, interval)
              && Recent(s.rightTsUs, now, interval) && Recent(s.rearTsUs, now, interval)
  {
    assert MaxAge(interval) == 5 * interval;
  }

  predicate Recent(ts: u64, now: u64, interval: u64) {
    ts == 0 || now <= ts || now - ts <= 5 * interval
  }

  class Controller {
    var active: bool
    var done: bool
    var sensorsReady: bool
    var phase: Phase
    var state: WallState
    var executionState: int
    var wallReferenceInitialized: bool
    var wallReferenceMm: int
    var spaceStartUs: u64
    var spaceEndUs: u64
    var measuredSpaceCm: real
    var rotateCounter: int
    var resultX: int
    var resultY: int
    const senseDist: array<int>
    const senseTime: array<int>

    ghost function Abs(): Park
      reads this
    {
      Park(phase, state, executionState, wallReferenceInitialized, wallReferenceMm, spaceStartUs,
           measuredSpaceCm, rotateCounter, done, resultX, resultY)
    }

    ghost predicate Valid()
      reads this
    {
      senseDist.Length == 4 && senseTime.Length == 4 && senseDist != senseTime
    }

    constructor ()
      ensures Valid() && !active && Abs() == START && fresh(senseDist) && fresh(senseTime)
    {
      active, done, sensorsReady, phase, state := false, false, false, SpaceDetection, WallDetected;
      executionState, wallReferenceInitialized, wallReferenceMm := 1, false, 0;
      spaceStartUs, spaceEndUs, measuredSpaceCm := 0, 0, 0.0;
      rotateCounter, resultX, resultY := 0, 50, 50;
      senseDist := new int[4](_ => 0);
      senseTime := new int[4](_ => 0);
    }

    method Reset()
      requires Valid()
      modifies this, senseDist, senseTime
      ensures Valid() && active == old(active) && Abs() == START && !sensorsReady && spaceEndUs == 0
      ensures senseDist[..] == [-1, -1, -1, -1] && senseTime[..] == [0, 0, 0, 0]
    {
      ClearSensors();
      done := false;
      sensorsReady := false;
      phase := SpaceDetection;
      state := WallDetected;
      executionState := 1;
      wallReferenceInitialized := false;
      wallReferenceMm := 0;
      spaceStartUs := 0;
      spaceEndUs := 0;
      measuredSpaceCm := 0.0;
      rotateCounter := 0;
      resultX := 50;
      resultY := 50;
    }

    method ClearSensors()
      requires Valid()
      modifies senseDist, senseTime
      ensures senseDist[..] == [-1, -1, -1, -1] && senseTime[..] == [0, 0, 0, 0]
    {
      for i := 0 to 4
        invariant forall j :: 0 <= j < i ==> senseDist[j] == -1 && senseTime[j] == 0
      {
        senseDist[i], senseTime[i] := -1, 0;
      }
    }

    method Start()
      requires Valid()
      modifies this, senseDist, senseTime
      ensures Valid() && active && Abs() == START
      ensures phase == SpaceDetection && !done && (resultX, resultY) == (50, 50)
    {
      Reset();
      active := true;
    }

    method Stop()
      requires Valid()
      modifies this, senseDist, senseTime
      ensures Valid() && !active && Abs() == START
      ensures phase == SpaceDetection && !done && (resultX, resultY) == (50, 50)
    {
      active := false;
      Reset();
    }

    method AssignSensor(idx: int, distance: int, ts: u64, now: u64)
      requires Valid() && 0 <= idx < 4
      modifies senseDist, senseTime
      ensures senseDist[..] == old(senseDist[..])[idx := distance]
      ensures senseTime[..] == old(senseTime[..])[idx := Stamp(ts, now)]
    {
      senseDist[idx] := distance;
      senseTime[idx] := if ts != 0 then ts else now;
    }

    method UpdateSensors(now: u64, s: SensorData, interval: u64) returns (ok: bool)
      requires Valid()
      modifies this`sensorsReady, senseDist, senseTime
      ensures ok == sensorsReady == Fresh(s, now, interval)
      ensures senseDist[..] ==
              [if s.frontTofMm >= 0 then s.frontTofMm else -1, s.leftUltraMm, s.rightUltraMm, s.rearUltraMm]
    {
      AssignSensor(0, if s.frontTofMm >= 0 then s.frontTofMm else -1, s.frontTsUs, now);
      AssignSensor(1, s.leftUltraMm, s.leftTsUs, now);
      AssignSensor(2, s.rightUltraMm, s.rightTsUs, now);
      AssignSensor(3, s.rearUltraMm, s.rearTsUs, now);
      sensorsReady := senseDist[1] >= 0 && senseDist[3] >= 0;
      if !sensorsReady {
        return false;
      }
      ghost var ts := [s.frontTsUs, s.leftTsUs, s.rightTsUs, s.rearTsUs];
      var maxAge := MaxAge(interval);
      for i := 0 to 4
        modifies senseTime, this`sensorsReady
        invariant sensorsReady
        invariant forall j :: i <= j < 4 ==> senseTime[j] == Stamp(ts[j], now)
        invariant forall j :: 0 <= j < i ==> !Stale(ts[j], now, interval)
      {
        if senseTime[i] == 0 {
          senseTime[i] := now;
        }
        if now >= senseTime[i] && now - senseTime[i] > maxAge {
          assert Stale(ts[i], now, interval);
          sensorsReady := false;
          return false;
        }
      }
      assert !Stale(ts[0], now, interval) && !Stale(ts[1], now, interval) &&
             !Stale(ts[2], now, interval) && !Stale(ts[3], now, interval);
      return true;
    }

    method AnalyzeSpace(distance: int) returns (wall: WallState)
      modifies this`wallReferenceInitialized, this`wallReferenceMm
      ensures (Abs(), wall) == Analyze(old(Abs()), distance)
    {
      if distance < 0 {
        return WallDetected;
      }
      if !wallReferenceInitialized {
        wallReferenceMm := distance;
        wallReferenceInitialized := true;
        return WallDetected;
      }
      if distance < wallReferenceMm {
        wallReferenceMm := distance;
      }
      if distance > wallReferenceMm + WALL_THRESHOLD_MM {
        return SpaceDetected;
      }
      return WallDetected;
    }

    method ProcessStateTransition(newState: WallState, now: u64)
      modifies this`spaceStartUs, this`spaceEndUs, this`measuredSpaceCm, this`state
      ensures Abs() == Transition(old(Abs()), newState, now)
    {
      if state == newState {
        return;
      }
      if state == WallDetected && newState == SpaceDetected {
        spaceStartUs := now;
      } else if state == SpaceDetected && newState == WallDetected {
        spaceEndUs := now;
        measuredSpaceCm := SpaceSize(spaceStartUs, spaceEndUs);
      }
      state := newState;
    }

    method ComputeOutputs(now: u64)
      requires Valid()
      modifies this
      ensures Abs() == Compute(old(Abs()), Reading(now, senseDist[1], senseDist[3]))
      ensures active == old(active) && sensorsReady == old(sensorsReady)
    {
      match phase
      case SpaceDetection =>
        resultX, resultY := 50, 70;
        var analyzed := AnalyzeSpace(senseDist[1]);
        ProcessStateTransition(analyzed, now);
        if measuredSpaceCm >= MIN_SPACE_CM {
          phase, executionState, rotateCounter := ParkingExecution, 1, 0;
          wallReferenceInitialized, state := false, WallDetected;
        }
      case ParkingExecution =>
        if executionState == 1 {
          state := AnalyzeSpace(senseDist[1]);
          if state == SpaceDetected {
            resultX, resultY, executionState := 50, 50, 2;
          } else {
            resultX, resultY := 50, 35;
          }
        } else {
          if rotateCounter < ROTATE_LIMIT {
            resultX, resultY := 64, 45;
            rotateCounter := rotateCounter + 1;
          } else {
            resultX, resultY := 50, 35;
          }
          if rotateCounter >= ROTATE_LIMIT && 0 <= senseDist[3] <= REAR_SAFETY_MM {
            resultX, resultY := 50, 50;
            phase, done := Completed, true;
          }
        }
      case Completed =>
        resultX, resultY, done := 50, 50, true;
    }

    /** step(): a fresh step computes, any other step stops the car and leaves the rest of
        the state alone. */
    method Step(now: u64, s: SensorData, interval: u64)
      requires Valid()
      modifies this, senseDist, senseTime
      ensures Valid() && active == old(active)
      ensures active && Fresh(s, now, interval) ==>
                sensorsReady && Abs() == Compute(old(Abs()), Reading(now, s.leftUltraMm, s.rearUltraMm))
      ensures !(active && Fresh(s, now, interval)) ==>
                !sensorsReady && Abs() == old(Abs()).(x := 50, y := 50)
    {
      if !active {
        resultX, resultY, sensorsReady := 50, 50, false;
        return;
      }
      var ok := UpdateSensors(now, s, interval);
      if !ok {
        resultX, resultY := 50, 50;
        return;
      }
      ComputeOutputs(now);
    }
  }
}
