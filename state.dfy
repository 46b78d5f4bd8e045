/** The command dispatcher of the firmware (`process_command` in
    src/modules/mod_state.c): one received command byte selects one handler,
    each of which calls into the data, drawing, communication and
    calibration modules. */
module State {
  import opened Types
  import opened Data
  import Comm
  import Draw
  import Calibration

  /** The command bytes `CMD_RESET` … `CMD_VALIDATE`. */
  const CmdReset: byte := 'R' as int
  const CmdPause: byte := 'P' as int
  const CmdContinue: byte := 'C' as int
  const CmdCalibrate: byte := 'B' as int
  const CmdGetData: byte := 'G' as int
  const CmdDraw: byte := 'D' as int
  const CmdInteractive: byte := 'I' as int
  const CmdHome: byte := 'H' as int
  const CmdValidate: byte := 'V' as int

  /** `X_DEFAULT` and `Y_DEFAULT` of def_epuck_field.h: the standby point. */
  const XResolution := 1024
  const XDefault: u16 := XResolution / 2
  const YDefault: u16 := 0

  datatype Handler = Reset | Pause | Continue | Calibrate | GetData | StartDrawing | Interactive | Home | Validate

  /** The case of the switch a byte selects; `None` for a byte no case
      matches (the switch has no default). */
  function HandlerFor(cmd: byte): (h: Option<Handler>)
    ensures h.Some? <==> cmd in [CmdReset, CmdPause, CmdContinue, CmdCalibrate, CmdGetData,
                                 CmdDraw, CmdInteractive, CmdHome, CmdValidate]
    ensures h == Some(Reset) <==> cmd == CmdReset
    ensures h == Some(Pause) <==> cmd == CmdPause
    ensures h == Some(Continue) <==> cmd == CmdContinue
    ensures h == Some(Calibrate) <==> cmd == CmdCalibrate
    ensures h == Some(GetData) <==> cmd == CmdGetData
    ensures h == Some(StartDrawing) <==> cmd == CmdDraw
    ensures h == Some(Interactive) <==> cmd == CmdInteractive
    ensures h == Some(Home) <==> cmd == CmdHome
    ensures h == Some(Validate) <==> cmd == CmdValidate
  {
    if cmd == CmdReset then Some(Reset)
    else if cmd == CmdPause then Some(Pause)
    else if cmd == CmdContinue then Some(Continue)
    else if cmd == CmdCalibrate then Some(Calibrate)
    else if cmd == CmdGetData then Some(GetData)
    else if cmd == CmdDraw then Some(StartDrawing)
    else if cmd == CmdInteractive then Some(Interactive)
    else if cmd == CmdHome then Some(Home)
    else if cmd == CmdValidate then Some(Validate)
    else None
  }

  /** The byte a handler answers to. */
  function CodeOf(h: Handler): byte
  {
    match h
    case Reset => CmdReset
    case Pause => CmdPause
    case Continue => CmdContinue
    case Calibrate => CmdCalibrate
    case GetData => CmdGetData
    case StartDrawing => CmdDraw
    case Interactive => CmdInteractive
    case Home => CmdHome
    case Validate => CmdValidate
  }

  /** Each of the nine bytes selects exactly one handler, and distinct
      handlers answer to distinct bytes. */
  lemma {:induction false} HandlersOneToOne(cmd: byte, h: Handler)
    ensures HandlerFor(cmd) == Some(h) <==> cmd == CodeOf(h)
  {
    match h
    case Reset =>
    case Pause =>
    case Continue =>
    case Calibrate =>
    case GetData =>
    case StartDrawing =>
    case Interactive =>
    case Home =>
    case Validate =>
  }

  /** What a command can change apart from the data store and the serial
      link: the count of colour signals, the state of mod_draw.c and the
      state of mod_calibration.c. */
  datatype Snapshot = Snapshot(signals: nat,
                               flags: Draw.DrawFlags, drawThreads: nat, initLengthCm: int,
                               leftSpeed: int, rightSpeed: int, leftPos: int, rightPos: int,
                               moves: seq<Coord>,
                               calibrating: bool, reached: bool, calThreads: nat, goalsSent: seq<byte>)

  /** The snapshot after the case `h` of the switch has run; `received` is
      the length `com_receive_length` answers. */
  function After(h: Option<Handler>, s: Snapshot, received: byte): Snapshot
  {
    match h
    case None => s
    case Some(Reset) =>
      s.(flags := Draw.Stop(s.flags), calibrating := false,
         leftSpeed := 0, rightSpeed := 0, leftPos := 0, rightPos := 0, initLengthCm := 100)
    case Some(Pause) => s.(flags := Draw.Pause(s.flags))
    case Some(Continue) => s.(flags := Draw.Resume(s.flags), signals := s.signals + 1)
    case Some(Calibrate) =>
      s.(calibrating := true, calThreads := if s.calibrating then s.calThreads else s.calThreads + 1)
    case Some(GetData) => s
    case Some(StartDrawing) =>
      s.(flags := Draw.Create(s.flags), drawThreads := if s.flags.drawing then s.drawThreads else s.drawThreads + 1)
    case Some(Interactive) => s
    case Some(Home) => s.(moves := s.moves + [Coord(XDefault, YDefault)])
    case Some(Validate) => s.(goalsSent := if s.calibrating then s.goalsSent + [received] else s.goalsSent)
  }

  /** What each command leaves alone: only `C` signals a colour change, only
      `R` touches the motors and the initial length, only `H` moves, only `D`
      and `B` start threads and only while none runs, only `V` sends a goal,
      only `R` and `B` change whether a calibration runs, and no command
      changes whether the goal was reached. */
  lemma AfterFrame(h: Option<Handler>, s: Snapshot, received: byte)
    ensures var t := After(h, s, received);
            t.signals == s.signals + (if h == Some(Continue) then 1 else 0) &&
            (h != Some(Reset) ==>
               t.initLengthCm == s.initLengthCm && t.leftSpeed == s.leftSpeed && t.rightSpeed == s.rightSpeed &&
               t.leftPos == s.leftPos && t.rightPos == s.rightPos) &&
            (h != Some(Home) ==> t.moves == s.moves) &&
            t.drawThreads == (if h == Some(StartDrawing) && !s.flags.drawing then s.drawThreads + 1 else s.drawThreads) &&
            t.calThreads == (if h == Some(Calibrate) && !s.calibrating then s.calThreads + 1 else s.calThreads) &&
            (h != Some(Validate) ==> t.goalsSent == s.goalsSent) &&
            (h != Some(Reset) && h != Some(Calibrate) ==> t.calibrating == s.calibrating) &&
            t.reached == s.reached
    ensures h != Some(Reset) && h != Some(Pause) && h != Some(Continue) && h != Some(StartDrawing) ==>
              After(h, s, received).flags == s.flags
  {
  }

  /** What the commands do: `R` stops drawing and calibration and resets the
      motors and the length, `P`, `C` and `D` pause, resume and create, `B`
      starts a calibration, `H` moves to the standby point and `V` sends the
      goal only while a calibration runs. */
  lemma AfterEffects(h: Option<Handler>, s: Snapshot, received: byte)
    ensures var t := After(h, s, received);
            (h == Some(Reset) ==>
               t.flags == Draw.Stop(s.flags) && !t.calibrating &&
               (Draw.Consistent(s.flags) ==> t.flags == Draw.Idle) &&
               t.leftSpeed == 0 && t.rightSpeed == 0 && t.leftPos == 0 && t.rightPos == 0 &&
               t.initLengthCm == 100) &&
            (h == Some(Pause) ==> t.flags == Draw.Pause(s.flags)) &&
            (h == Some(Continue) ==> t.flags == Draw.Resume(s.flags)) &&
            (h == Some(StartDrawing) ==> t.flags == Draw.Create(s.flags)) &&
            (h == Some(Calibrate) ==> t.calibrating) &&
            (h == Some(Home) ==> t.moves == s.moves + [Coord(XDefault, YDefault)]) &&
            (h == Some(Validate) ==>
               t.goalsSent == (if s.calibrating then s.goalsSent + [received] else s.goalsSent))
  {
  }

  /** No command breaks the tie between a pause and a running drawing. */
  lemma AfterKeepsConsistent(h: Option<Handler>, s: Snapshot, received: byte)
    requires Draw.Consistent(s.flags)
    ensures Draw.Consistent(After(h, s, received).flags)
  {
    Draw.ControlKeepsConsistent(s.flags);
  }

  /** Because of their guards, sending `R`, `P`, `B`, `D` or `I` twice in a
      row does what sending it once does. */
  lemma AfterIdempotent(h: Option<Handler>, s: Snapshot, received: byte)
    requires h == Some(Reset) || h == Some(Pause) || h == Some(Calibrate) ||
             h == Some(StartDrawing) || h == Some(Interactive)
    ensures After(h, After(h, s, received), received) == After(h, s, received)
  {
    Draw.ControlIdempotent(s.flags);
  }

  /** The firmware state the dispatcher reaches: the modules' globals. */
  class Robot {
    const store: DataStore
    const link: Comm.Link
    const draw: Draw.DrawControl
    const cal: Calibration.Calibrator
    /** Calls of `cal_signal_changed_colors`, which is not part of this model. */
    var changedColorsSignals: nat

    constructor ()
      ensures draw.Flags() == Draw.Idle && !cal.isCalibrating && !link.dataIsReady
      ensures store.length == 0 && store.pos == null && store.color == null
      ensures changedColorsSignals == 0
      ensures fresh(store) && fresh(link) && fresh(draw) && fresh(cal)
    {
      store := new DataStore();
      link := new Comm.Link();
      draw := new Draw.DrawControl();
      cal := new Calibration.Calibrator();
      changedColorsSignals := 0;
    }

    /** The state outside the data store and the link. */
    function Snap(): Snapshot
      reads this, draw, cal
    {
      Snapshot(changedColorsSignals,
               draw.Flags(), draw.threadsCreated, draw.initLengthCm,
               draw.leftSpeed, draw.rightSpeed, draw.leftPos, draw.rightPos, draw.moves,
               cal.isCalibrating, cal.reachedGoalDistance, cal.threadsCreated, cal.goalsSent)
    }

    /** `process_command(cmd)`. The serial stream is `input` from `from`;
        the answers of the code that is not part of this model are
        parameters: `xyOk`/`colorOk` for `malloc`, `calExit` for the
        calibration thread's exit value, and for `com_receive_length` the
        number of bytes it reads from the stream (`consumed`) and the
        length it returns (`received`). Returns where the stream is left. */
    method ProcessCommand(cmd: byte, input: seq<byte>, from: nat,
                          xyOk: bool, colorOk: bool, calExit: u16,
                          consumed: nat, received: byte) returns (next: nat)
      requires from <= |input|
      requires HandlerFor(cmd) == Some(Validate) && cal.isCalibrating ==> from + consumed <= |input|
      modifies this, store, link, draw, cal
      ensures Snap() == After(HandlerFor(cmd), old(Snap()), received)
      ensures HandlerFor(cmd) != Some(GetData) ==> unchanged(link)
      ensures HandlerFor(cmd) != Some(GetData) ==>
                next == (if HandlerFor(cmd) == Some(Validate) && old(cal.isCalibrating) then from + consumed else from)
      ensures HandlerFor(cmd) != Some(GetData) && HandlerFor(cmd) != Some(Reset) ==> unchanged(store)
      ensures HandlerFor(cmd) == Some(Reset) ==> store.length == 0 && store.pos == null && store.color == null
      ensures HandlerFor(cmd) == Some(GetData) ==>
                var r := Comm.ReceiveResult(input, from, xyOk && colorOk);
                next == (if r.Got? then r.next else |input|) &&
                (Comm.MovePayloadAt(input, from).None? ==> unchanged(link, store)) &&
                (Comm.MovePayloadAt(input, from).Some? ==>
                   (link.dataIsReady <==> r.Got? && xyOk && colorOk) &&
                   (link.dataIsReady ==>
                      store.pos != null && store.color != null && fresh(store.pos) && fresh(store.color) &&
                      r.value == store.length == store.pos.Length &&
                      Comm.DecodeMove(input, from) == Comm.Got(Comm.MoveData(store.color[..], store.pos[..]), r.next)))
    {
      match HandlerFor(cmd)
      case None =>
        next := from;
      case Some(h) =>
        if h == GetData {
          next := ReceiveCommandData(input, from, xyOk, colorOk);
        } else {
          next := Control(h, from, calExit, consumed, received);
        }
    }

    /** The `G` case: the stream is handed to `com_receive_data`. */
    method ReceiveCommandData(input: seq<byte>, from: nat, xyOk: bool, colorOk: bool) returns (next: nat)
      requires from <= |input|
      modifies store, link
      ensures Snap() == old(Snap())
      ensures var r := Comm.ReceiveResult(input, from, xyOk && colorOk);
              next == (if r.Got? then r.next else |input|) &&
              (Comm.MovePayloadAt(input, from).None? ==> unchanged(link, store)) &&
              (Comm.MovePayloadAt(input, from).Some? ==>
                 (link.dataIsReady <==> r.Got? && xyOk && colorOk) &&
                 (link.dataIsReady ==>
                    store.pos != null && store.color != null && fresh(store.pos) && fresh(store.color) &&
                    r.value == store.length == store.pos.Length &&
                    Comm.DecodeMove(input, from) == Comm.Got(Comm.MoveData(store.color[..], store.pos[..]), r.next)))
    {
      var r := link.ReceiveData(input, from, store, xyOk, colorOk);
      next := if r.Got? then r.next else |input|;
    }

    /** Every case but `G`: none of them reads the stream except `V` during
        a calibration, which reads `consumed` bytes. */
    method Control(h: Handler, from: nat, calExit: u16, consumed: nat, received: byte) returns (next: nat)
      requires h != GetData
      modifies this, store, draw, cal
      ensures Snap() == After(Some(h), old(Snap()), received)
      ensures next == (if h == Validate && old(cal.isCalibrating) then from + consumed else from)
      ensures h != Reset ==> unchanged(store)
      ensures h == Reset ==> store.length == 0 && store.pos == null && store.color == null
    {
      next := from;
      match h {
        case Reset =>
          store.Free();
          draw.StopThd();
          var _ := cal.StopThd(calExit);
          draw.Reset();
          draw.SetInitLength(100);
        case Pause =>
          draw.PauseThd();
        case Continue =>
          draw.ResumeThd();
          changedColorsSignals := changedColorsSignals + 1;
        case Calibrate =>
          cal.CreateThd();
        case StartDrawing =>
          draw.CreateThd();
        case Interactive =>
        case Home =>
          draw.Move(XDefault, YDefault);
        case Validate =>
          if cal.isCalibrating {
            next := from + consumed;
          }
          cal.SetGoalDistance(received);
      }
    }
  }
}
