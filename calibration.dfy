/** The calibration module of the firmware (src/modules/mod_calibration.c):
    the proportional speed controller `get_speed_p` and the `is_calibrating`
    guard around the calibration thread. */
module Calibration {
  import opened Types

  /** `KP` */
  const Kp := 10
  /** `TOF_DISTANCE_MAX`, in mm: an error below its negative stops the robot. */
  const TofDistanceMax := 300
  /** `TOF_PRECISION_THRESHOLD`, in mm. */
  const TofPrecisionThreshold := 2
  /** `CALIBRATION_SPEED`, in steps/s: the bound on the returned speed. */
  const CalibrationSpeed := 400

  /** `error` of `get_speed_p`: the travelled distance `init_distance - tof`
      and then its difference to the goal, each stored in an `int16_t`. */
  function SpeedError(goal: i16, init: i16, tof: u16): i16
  {
    ToInt16(ToInt16(init - tof) - goal)
  }

  /** What one call of `get_speed_p` returns, and whether it sets
      `reached_goal_distance`. */
  datatype SpeedOutcome = SpeedOutcome(speed: i16, reached: bool)

  /** `get_speed_p` on the error it computes. `KP * error` is a float stored
      in an `int16_t`; the conversion is only defined while the product fits,
      that is for errors up to 3276. */
  function SpeedForError(error: i16): (r: SpeedOutcome)
    requires Kp * error < 0x8000
    ensures -CalibrationSpeed <= r.speed <= CalibrationSpeed
    ensures r.reached <==> Abs(error) < TofPrecisionThreshold
    ensures error < -TofDistanceMax ==> r.speed == 0
    ensures r.speed == 0 <==> error < -TofDistanceMax || Abs(error) < TofPrecisionThreshold
    ensures r.speed > 0 <==> error >= TofPrecisionThreshold
    ensures r.speed != 0 ==> r.speed == Kp * error || Abs(r.speed) == CalibrationSpeed
    ensures r.speed != 0 ==> Abs(r.speed) <= Kp * Abs(error)
  {
    if error < -TofDistanceMax then SpeedOutcome(0, false)
    else if Abs(error) < TofPrecisionThreshold then SpeedOutcome(0, true)
    else
      var speed := Kp * error;
      var upper := if speed > CalibrationSpeed then CalibrationSpeed else speed;
      var lower := if upper < -CalibrationSpeed then -CalibrationSpeed else upper;
      SpeedOutcome(lower, false)
  }

  /** `get_speed_p(goal_distance, init_distance)` with `tof` the filtered
      distance it reads from the sensor. */
  function SpeedP(goal: i16, init: i16, tof: u16): (r: SpeedOutcome)
    requires Kp * SpeedError(goal, init, tof) < 0x8000
    ensures -CalibrationSpeed <= r.speed <= CalibrationSpeed
    ensures -0x8000 <= init - tof - goal < 0x8000 ==>
              var e := init - tof - goal;
              (r.reached <==> Abs(e) < TofPrecisionThreshold) &&
              (r.speed == 0 <==> e < -TofDistanceMax || Abs(e) < TofPrecisionThreshold) &&
              (r.speed > 0 <==> e >= TofPrecisionThreshold) &&
              (r.speed != 0 ==> r.speed == Kp * e || Abs(r.speed) == CalibrationSpeed)
  {
    SpeedForError(SpeedError(goal, init, tof))
  }

  /** Past 300 mm beyond the goal the robot does not back up at full speed
      but stops: the controller is not monotone there. */
  lemma SpeedCutoff()
    ensures SpeedForError(-300).speed == -CalibrationSpeed
    ensures SpeedForError(-301).speed == 0
  {
  }

  /** Between the cut-off and the precision threshold, a larger error never
      asks for a smaller speed. */
  lemma SpeedMonotone(e1: i16, e2: i16)
    requires -TofDistanceMax <= e1 <= e2 && Kp * e2 < 0x8000
    ensures SpeedForError(e1).speed <= SpeedForError(e2).speed
  {
  }

  /** The module state of mod_calibration.c. */
  class Calibrator {
    /** `is_calibrating` */
    var isCalibrating: bool
    /** `reached_goal_distance` */
    var reachedGoalDistance: bool
    /** How many times `thd_calibrate` was created. */
    var threadsCreated: nat
    /** The goal distances sent to the calibration thread, oldest first. */
    var goalsSent: seq<byte>

    constructor ()
      ensures !isCalibrating && !reachedGoalDistance && threadsCreated == 0 && goalsSent == []
    {
      isCalibrating := false;
      reachedGoalDistance := false;
      threadsCreated := 0;
      goalsSent := [];
    }

    /** `cal_get_state` */
    function GetState(): bool
      reads this
    {
      isCalibrating
    }

    /** `cal_create_thd`: a calibration starts only when none is running. */
    method CreateThd()
      modifies this`isCalibrating, this`threadsCreated
      ensures isCalibrating
      ensures threadsCreated == if old(isCalibrating) then old(threadsCreated) else old(threadsCreated) + 1
    {
      if !isCalibrating {
        threadsCreated := threadsCreated + 1;
        isCalibrating := true;
      }
    }

    /** `cal_stop_thd`: with no calibration it returns 0 and changes
        nothing; otherwise it terminates the thread, clears the flag and
        returns the thread's exit value (`exitValue`, the true travelled
        length the thread reports). */
    method StopThd(exitValue: u16) returns (r: u16)
      modifies this`isCalibrating
      ensures !isCalibrating
      ensures !old(isCalibrating) ==> r == 0
      ensures old(isCalibrating) ==> r == exitValue
    {
      if isCalibrating {
        var trueDiffLength := exitValue;
        isCalibrating := false;
        return trueDiffLength;
      }
      return 0;
    }

    /** `cal_set_goal_distance`: while calibrating, the byte that
        `com_receive_length` answers (`received`) is sent to the thread;
        otherwise nothing happens. */
    method SetGoalDistance(received: byte)
      modifies this`goalsSent
      ensures goalsSent == if isCalibrating then old(goalsSent) + [received] else old(goalsSent)
    {
      if isCalibrating {
        goalsSent := goalsSent + [received];
      }
    }

    /** `get_speed_p`: the speed, and the goal flag set when it was reached. */
    method GetSpeedP(goal: i16, init: i16, tof: u16) returns (speed: i16)
      requires Kp * SpeedError(goal, init, tof) < 0x8000
      modifies this`reachedGoalDistance
      ensures speed == SpeedP(goal, init, tof).speed
      ensures reachedGoalDistance == (old(reachedGoalDistance) || SpeedP(goal, init, tof).reached)
    {
      var distance := ToInt16(init - tof);
      var error := ToInt16(distance - goal);
      if error < -TofDistanceMax {
        return 0;
      }
      if Abs(error) < TofPrecisionThreshold {
        reachedGoalDistance := true;
        return 0;
      }
      speed := Kp * error;
      if speed > CalibrationSpeed {
        speed := CalibrationSpeed;
      }
      if speed < -CalibrationSpeed {
        speed := -CalibrationSpeed;
      }
    }

    /** The end of `thd_calibrate`. */
    method ThreadDone()
      modifies this`isCalibrating
      ensures !isCalibrating
    {
      isCalibrating := false;
    }
  }
}
