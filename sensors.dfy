/** The distance stability detector of the firmware (`sensors_tof_wait` in
    src/modules/mod_sensors.c). The filtered distance `dist_mm_kalman` is
    written by another thread; here the t-th time the function reads it, it
    sees `read(t)`. The k-th call of `cal_get_state` in the loop test answers
    `cal[k]`, and false once `cal` is exhausted (the calibration ended). The
    sleeps and LEDs are left out. */
module Sensors {
  import opened Types

  /** Two consecutive readings are close: `abs((int16_t)cur - (int16_t)prev)
      <= distance_threshold`. */
  predicate Stable(current: u16, previous: u16, threshold: byte)
  {
    Abs(Signed16(current) - Signed16(previous)) <= threshold
  }

  /** One pass of the wait loop, from state 0: how many readings it took, and
      whether it reached state 4. */
  datatype Pass = Pass(taken: nat, success: bool)

  /** The pass that starts with the t-th reading. */
  function RunPass(read: nat -> u16, t: nat, distMin: u16, distMax: u16, threshold: byte): (p: Pass)
    ensures 1 <= p.taken <= 4
    ensures p.success <==>
              distMin <= read(t) <= distMax &&
              Stable(read(t + 1), read(t), threshold) &&
              Stable(read(t + 2), read(t + 1), threshold) &&
              Stable(read(t + 3), read(t + 2), threshold)
    ensures p.success ==> p.taken == 4
    ensures !(distMin <= read(t) <= distMax) ==> p.taken == 1
  {
    if !(distMin <= read(t) <= distMax) then Pass(1, false)
    else if !Stable(read(t + 1), read(t), threshold) then Pass(2, false)
    else if !Stable(read(t + 2), read(t + 1), threshold) then Pass(3, false)
    else Pass(4, Stable(read(t + 3), read(t + 2), threshold))
  }

  /** What the wait returns: the last reading taken, whether the distance
      was found steady, the first reading of the last pass, and how many
      loop tests were made. */
  datatype Waited = Waited(distance: u16, success: bool, lastPass: nat, tests: nat)

  function CalState(cal: seq<bool>, k: nat): bool
  {
    k < |cal| && cal[k]
  }

  /** The wait loop from its k-th test, the t-th reading and last reading
      `current`. */
  function WaitFrom(read: nat -> u16, cal: seq<bool>, distMin: u16, distMax: u16, threshold: byte,
                    k: nat, t: nat, current: u16): (w: Waited)
    ensures w.tests > k
    ensures !w.success ==> !CalState(cal, w.tests - 1)
    ensures w.success ==> CalState(cal, w.tests - 1)
    decreases |cal| - k
  {
    if !CalState(cal, k) then Waited(current, false, t, k + 1)
    else
      var p := RunPass(read, t, distMin, distMax, threshold);
      if p.success then Waited(read(t + 3), true, t, k + 1)
      else WaitFrom(read, cal, distMin, distMax, threshold, k + 1, t + p.taken, read(t + p.taken - 1))
  }

  /** `sensors_tof_wait`: `current_dist` starts at 0. */
  function TofWait(read: nat -> u16, cal: seq<bool>, distMin: u16, distMax: u16, threshold: byte): Waited
  {
    WaitFrom(read, cal, distMin, distMax, threshold, 0, 0, 0)
  }

  /** A successful wait ends on a successful pass (its first reading in
      range, each of the next three within the threshold of the one before,
      by `RunPass`) and returns that pass's fourth reading. */
  lemma {:induction false} WaitSuccess(read: nat -> u16, cal: seq<bool>, distMin: u16, distMax: u16, threshold: byte,
                                       k: nat, t: nat, current: u16)
    requires WaitFrom(read, cal, distMin, distMax, threshold, k, t, current).success
    ensures var w := WaitFrom(read, cal, distMin, distMax, threshold, k, t, current);
            RunPass(read, w.lastPass, distMin, distMax, threshold).success &&
            w.distance == read(w.lastPass + 3)
    decreases |cal| - k
  {
    var p := RunPass(read, t, distMin, distMax, threshold);
    assert CalState(cal, k);
    if p.success {
      assert WaitFrom(read, cal, distMin, distMax, threshold, k, t, current) == Waited(read(t + 3), true, t, k + 1);
    } else {
      var t' := t + p.taken;
      assert WaitFrom(read, cal, distMin, distMax, threshold, k, t, current)
          == WaitFrom(read, cal, distMin, distMax, threshold, k + 1, t', read(t' - 1));
      WaitSuccess(read, cal, distMin, distMax, threshold, k + 1, t', read(t' - 1));
    }
  }

  /** A wait that ends without success returns the last reading taken: the
      reading before the pass it stopped at, or the distance it started
      with when it took none. */
  lemma {:induction false} WaitFailure(read: nat -> u16, cal: seq<bool>, distMin: u16, distMax: u16, threshold: byte,
                                       k: nat, t: nat, current: u16)
    requires !WaitFrom(read, cal, distMin, distMax, threshold, k, t, current).success
    ensures var w := WaitFrom(read, cal, distMin, distMax, threshold, k, t, current);
            w.lastPass >= t &&
            w.distance == (if w.lastPass == t then current else read(w.lastPass - 1))
    decreases |cal| - k
  {
    if CalState(cal, k) {
      var p := RunPass(read, t, distMin, distMax, threshold);
      var t' := t + p.taken;
      assert WaitFrom(read, cal, distMin, distMax, threshold, k, t, current)
          == WaitFrom(read, cal, distMin, distMax, threshold, k + 1, t', read(t' - 1));
      WaitFailure(read, cal, distMin, distMax, threshold, k + 1, t', read(t' - 1));
    }
  }

  /** If the calibration has already ended at the first test, the wait
      returns 0 at once. */
  lemma WaitCancelled(read: nat -> u16, cal: seq<bool>, distMin: u16, distMax: u16, threshold: byte)
    requires !CalState(cal, 0)
    ensures TofWait(read, cal, distMin, distMax, threshold) == Waited(0, false, 0, 1)
  {
  }

  /** `sensors_tof_wait` as written: the loop over `state`, each pass
      entered in state 0 and left in state 4 or 0. */
  method SensorsTofWait(read: nat -> u16, cal: seq<bool>, distMin: u16, distMax: u16, threshold: byte)
    returns (distance: u16)
    ensures distance == TofWait(read, cal, distMin, distMax, threshold).distance
  {
    ghost var w := TofWait(read, cal, distMin, distMax, threshold);
    var state := 0;
    var currentDist: u16 := 0;
    var t := 0;
    var k := 0;
    while state != 4 && CalState(cal, k)
      invariant state == 0 || state == 4
      invariant state == 0 ==> WaitFrom(read, cal, distMin, distMax, threshold, k, t, currentDist) == w
      invariant state == 4 ==> w.distance == currentDist
      decreases |cal| - k, 4 - state
    {
      WaitStep(read, cal, distMin, distMax, threshold, k, t, currentDist);
      ghost var p := RunPass(read, t, distMin, distMax, threshold);
      ghost var t0 := t;
      k := k + 1;
      state, currentDist, t := WaitPass(read, t, distMin, distMax, threshold);
      if state == 4 {
        assert w == Waited(read(t0 + 3), true, t0, k);
      } else {
        assert !p.success && t == t0 + p.taken && currentDist == read(t - 1);
        assert w == WaitFrom(read, cal, distMin, distMax, threshold, k, t, currentDist);
      }
    }
    distance := currentDist;
  }

  /** A test that finds the calibration still running makes one pass and
      either ends on its fourth reading or goes on after its last one. */
  lemma WaitStep(read: nat -> u16, cal: seq<bool>, distMin: u16, distMax: u16, threshold: byte,
                 k: nat, t: nat, current: u16)
    requires CalState(cal, k)
    ensures var p := RunPass(read, t, distMin, distMax, threshold);
            WaitFrom(read, cal, distMin, distMax, threshold, k, t, current)
              == if p.success then Waited(read(t + 3), true, t, k + 1)
                 else WaitFrom(read, cal, distMin, distMax, threshold, k + 1, t + p.taken, read(t + p.taken - 1))
  {
  }

  /** One pass of the loop body, entered in state 0 with the t-th reading
      next: the four state tests in a row, each reading the distance again
      when it moves on. Returns the state it leaves in, the last reading and
      the index of the next one. */
  method WaitPass(read: nat -> u16, t: nat, distMin: u16, distMax: u16, threshold: byte)
    returns (state: nat, currentDist: u16, next: nat)
    ensures state == 0 || state == 4
    ensures state == 4 <==> RunPass(read, t, distMin, distMax, threshold).success
    ensures next == t + RunPass(read, t, distMin, distMax, threshold).taken
    ensures currentDist == read(next - 1)
  {
    state := 0;
    var prevDist: u16;
    currentDist := read(t);
    next := t + 1;

    if state == 0 && distMin <= currentDist && distMax >= currentDist {
      state := 1;
      prevDist := currentDist;
      currentDist := read(next);
      next := next + 1;
    } else {
      state := 0;
    }

    if state == 1 && Stable(currentDist, prevDist, threshold) {
      state := 2;
      prevDist := currentDist;
      currentDist := read(next);
      next := next + 1;
    } else {
      state := 0;
    }

    if state == 2 && Stable(currentDist, prevDist, threshold) {
      state := 3;
      prevDist := currentDist;
      currentDist := read(next);
      next := next + 1;
    } else {
      state := 0;
    }

    if state == 3 && Stable(currentDist, prevDist, threshold) {
      state := 4;
      prevDist := currentDist;
    } else {
      state := 0;
    }
  }
}
