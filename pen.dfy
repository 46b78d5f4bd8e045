/** The pen changer (arduino/src/main.cpp): an Arduino that turns a stepper
    motor carrying four pens to the goal position of a colour and lifts or
    lowers them with a servo, on one-byte commands from the robot. The
    hardware calls are recorded as effects, in the order they are made. */
module Pen {

  /** `enum Color` of the pen changer (its order differs from the
      firmware's). */
  datatype Colour = White | Black | Red | Green | Blue

  /** A call into the servo, stepper, timer or serial libraries. */
  datatype Effect =
    | ServoLift                 // servo.write(DEFAULT_PULSE_WIDTH + DELTA_PULSE)
    | ServoLower                // servo.write(DEFAULT_PULSE_WIDTH)
    | Delay(ms: nat)
    | Step(delta: int)          // stepper.step(delta)
    | Reply(message: string)    // BTserial.println(message)

  const StepperMaxValue := 690
  const StepperOffset := 30
  const StepperPosition0 := 0 + StepperOffset
  const StepperPosition1 := StepperMaxValue / 4 + StepperOffset / 2
  const StepperPosition2 := StepperMaxValue * 2 / 4 - StepperOffset / 2
  const StepperPosition3 := StepperMaxValue * 3 / 4 - StepperOffset
  const DefaultPosition := StepperPosition0
  /** `SERVO_STEPPER_INTERVAL`, in ms. */
  const ServoStepperInterval: nat := 500
  /** `CONFIMATION_MSG` */
  const ConfirmationMessage := "Ready"

  /** The stepper position of a pen colour. */
  function Goal(c: Colour): int
    requires c != White
  {
    match c
    case Black => StepperPosition0
    case Red => StepperPosition1
    case Green => StepperPosition2
    case Blue => StepperPosition3
  }

  /** The four goals are 30, 187, 330 and 487: strictly increasing and all
      within the stepper's range. */
  lemma GoalValues()
    ensures Goal(Black) == 30 && Goal(Red) == 187 && Goal(Green) == 330 && Goal(Blue) == 487
    ensures 0 <= Goal(Black) < Goal(Red) < Goal(Green) < Goal(Blue) <= StepperMaxValue
    ensures DefaultPosition == Goal(Black)
  {
  }

  predicate IsGoal(p: int)
  {
    p == Goal(Black) || p == Goal(Red) || p == Goal(Green) || p == Goal(Blue)
  }

  /** The action `loop` dispatches on a received byte. */
  datatype Action = ChangeColor(colour: Colour) | ResetMotors | NoAction

  /** The switch of `loop`: W, D, R, G, B select a colour, X a reset, any
      other byte nothing. */
  function ActionFor(cmd: char): (a: Action)
    ensures a == ChangeColor(White) <==> cmd == 'W'
    ensures a == ChangeColor(Black) <==> cmd == 'D'
    ensures a == ChangeColor(Red) <==> cmd == 'R'
    ensures a == ChangeColor(Green) <==> cmd == 'G'
    ensures a == ChangeColor(Blue) <==> cmd == 'B'
    ensures a == ResetMotors <==> cmd == 'X'
    ensures a == NoAction <==> cmd !in "WDRGBX"
  {
    match cmd
    case 'W' => ChangeColor(White)
    case 'D' => ChangeColor(Black)
    case 'R' => ChangeColor(Red)
    case 'G' => ChangeColor(Green)
    case 'B' => ChangeColor(Blue)
    case 'X' => ResetMotors
    case _ => NoAction
  }

  /** The effects of `change_color(c)` from stepper position `position`. */
  function ChangeColorEffects(c: Colour, position: int): seq<Effect>
  {
    if c == White then [ServoLift, Delay(ServoStepperInterval)]
    else [ServoLift, Delay(ServoStepperInterval), Step(Goal(c) - position), Delay(ServoStepperInterval), ServoLower]
  }

  /** The effects of `reset_motors` from stepper position `position`. */
  function ResetEffects(position: int): seq<Effect>
  {
    [ServoLift, Delay(ServoStepperInterval), Step(DefaultPosition - position)]
  }

  /** The stepper position after an action. */
  function PositionAfter(a: Action, position: int): (p: int)
    ensures IsGoal(position) ==> IsGoal(p)
    ensures a == ResetMotors ==> p == DefaultPosition
    ensures a.ChangeColor? && a.colour != White ==> p == Goal(a.colour)
    ensures a == ChangeColor(White) || a == NoAction ==> p == position
  {
    match a
    case ChangeColor(c) => if c == White then position else Goal(c)
    case ResetMotors => DefaultPosition
    case NoAction => position
  }

  /** The effects of one call of `loop`, `available` being the answer of
      `BTserial.available()`. */
  function LoopEffects(available: bool, cmd: char, position: int): seq<Effect>
  {
    if !available then []
    else
      var moves := match ActionFor(cmd)
        case ChangeColor(c) => ChangeColorEffects(c, position)
        case ResetMotors => ResetEffects(position)
        case NoAction => [];
      moves + [Reply(ConfirmationMessage)]
  }

  /** Net stepper movement of a run of effects. */
  function StepSum(es: seq<Effect>): int
  {
    if es == [] then 0
    else (if es[0].Step? then es[0].delta else 0) + StepSum(es[1..])
  }

  /** Number of replies in a run of effects. */
  function Replies(es: seq<Effect>): nat
  {
    if es == [] then 0
    else (if es[0].Reply? then 1 else 0) + Replies(es[1..])
  }

  lemma {:induction false} StepSumAppend(a: seq<Effect>, b: seq<Effect>)
    ensures StepSum(a + b) == StepSum(a) + StepSum(b)
    ensures Replies(a + b) == Replies(a) + Replies(b)
    decreases |a|
  {
    if a == [] {
      assert a + b == b;
    } else {
      assert (a + b)[1..] == a[1..] + b;
      StepSumAppend(a[1..], b);
    }
  }

  lemma {:induction false} NoStepsNoReplies(es: seq<Effect>)
    ensures (forall i | 0 <= i < |es| :: !es[i].Step?) ==> StepSum(es) == 0
    ensures (forall i | 0 <= i < |es| :: !es[i].Reply?) ==> Replies(es) == 0
    decreases |es|
  {
    if es != [] {
      NoStepsNoReplies(es[1..]);
      assert forall i | 0 <= i < |es[1..]| :: es[1..][i] == es[i + 1];
    }
  }

  lemma OneEffect(e: Effect)
    ensures StepSum([e]) == (if e.Step? then e.delta else 0)
    ensures Replies([e]) == (if e.Reply? then 1 else 0)
  {
    assert [e][1..] == [];
  }

  /** The stepper moves by exactly the difference between the new tracked
      position and the old one, so the tracked position follows the motor. */
  lemma {:induction false} LoopStepsTrackPosition(available: bool, cmd: char, position: int)
    ensures var p := if available then PositionAfter(ActionFor(cmd), position) else position;
            StepSum(LoopEffects(available, cmd, position)) == p - position
  {
    if available {
      var es := LoopEffects(available, cmd, position);
      var moves := es[..|es| - 1];
      assert es == moves + [Reply(ConfirmationMessage)];
      StepSumAppend(moves, [Reply(ConfirmationMessage)]);
      OneEffect(Reply(ConfirmationMessage));
      match ActionFor(cmd)
      case ChangeColor(c) => ChangeColorSteps(c, position);
      case ResetMotors => ResetSteps(position);
      case NoAction =>
    }
  }

  /** `change_color` turns the stepper from `position` to the pen's goal. */
  lemma ChangeColorSteps(c: Colour, position: int)
    ensures StepSum(ChangeColorEffects(c, position)) == PositionAfter(ChangeColor(c), position) - position
  {
    var before := [ServoLift, Delay(ServoStepperInterval)];
    NoStepsNoReplies(before);
    if c != White {
      var d := Goal(c) - position;
      var after := [Delay(ServoStepperInterval), ServoLower];
      assert ChangeColorEffects(c, position) == before + [Step(d)] + after;
      NoStepsNoReplies(after);
      OneEffect(Step(d));
      StepSumAppend(before + [Step(d)], after);
      StepSumAppend(before, [Step(d)]);
    }
  }

  /** `reset_motors` turns the stepper from `position` to its default. */
  lemma ResetSteps(position: int)
    ensures StepSum(ResetEffects(position)) == DefaultPosition - position
  {
    var before := [ServoLift, Delay(ServoStepperInterval)];
    var d := DefaultPosition - position;
    assert ResetEffects(position) == before + [Step(d)];
    NoStepsNoReplies(before);
    OneEffect(Step(d));
    StepSumAppend(before, [Step(d)]);
  }

  /** Every received byte, recognised or not, is answered by exactly one
      "Ready"; no byte, no answer. */
  lemma {:induction false} OneReplyPerByte(available: bool, cmd: char, position: int)
    ensures Replies(LoopEffects(available, cmd, position)) == if available then 1 else 0
  {
    if available {
      var es := LoopEffects(available, cmd, position);
      var moves := es[..|es| - 1];
      assert es == moves + [Reply(ConfirmationMessage)];
      StepSumAppend(moves, [Reply(ConfirmationMessage)]);
      OneEffect(Reply(ConfirmationMessage));
      NoStepsNoReplies(moves);
    }
  }

  /** The Arduino's global state. */
  class PenChanger {
    /** `stepper_position` */
    var stepperPosition: int
    /** Library calls made so far, oldest first. */
    var effects: seq<Effect>

    /** The tracked position is a pen goal and equals where the steps made
        so far have taken the motor from its default position. */
    ghost predicate Valid()
      reads this
    {
      IsGoal(stepperPosition) && stepperPosition == DefaultPosition + StepSum(effects)
    }

    /** `setup`, after the static initialisation of `stepper_position`. */
    constructor ()
      ensures Valid() && stepperPosition == DefaultPosition
      ensures effects == [Delay(ServoStepperInterval), ServoLift]
    {
      stepperPosition := DefaultPosition;
      effects := [Delay(ServoStepperInterval), ServoLift];
      new;
      NoStepsNoReplies(effects);
    }

    /** `change_color` */
    method ChangeColorTo(c: Colour)
      modifies this
      ensures effects == old(effects) + ChangeColorEffects(c, old(stepperPosition))
      ensures stepperPosition == PositionAfter(ChangeColor(c), old(stepperPosition))
    {
      effects := effects + [ServoLift, Delay(ServoStepperInterval)];
      if c == White {
        // only lift the pens
        return;
      }
      var goalStep := Goal(c);
      var deltaStep := goalStep - stepperPosition;
      effects := effects + [Step(deltaStep)];
      effects := effects + [Delay(ServoStepperInterval)];
      stepperPosition := goalStep;
      effects := effects + [ServoLower];
    }

    /** `reset_motors` */
    method ResetMotorsNow()
      modifies this
      ensures effects == old(effects) + ResetEffects(old(stepperPosition))
      ensures stepperPosition == DefaultPosition
    {
      effects := effects + [ServoLift, Delay(ServoStepperInterval)];
      var goalStep := DefaultPosition;
      var deltaStep := goalStep - stepperPosition;
      effects := effects + [Step(deltaStep)];
      stepperPosition := goalStep;
    }

    /** One call of `loop`. */
    method Loop(available: bool, cmd: char)
      requires Valid()
      modifies this
      ensures Valid()
      ensures effects == old(effects) + LoopEffects(available, cmd, old(stepperPosition))
      ensures stepperPosition == if available then PositionAfter(ActionFor(cmd), old(stepperPosition))
                                 else old(stepperPosition)
    {
      ghost var p0, e0 := stepperPosition, effects;
      if available {
        match ActionFor(cmd) {
          case ChangeColor(c) => ChangeColorTo(c);
          case ResetMotors => ResetMotorsNow();
          case NoAction =>
        }
        effects := effects + [Reply(ConfirmationMessage)];
      }
      LoopStepsTrackPosition(available, cmd, p0);
      StepSumAppend(e0, LoopEffects(available, cmd, p0));
      assert effects == e0 + LoopEffects(available, cmd, p0);
    }
  }
}
