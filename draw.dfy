/** The drawing control of the firmware (src/modules/mod_draw.c): the two
    module flags `is_drawing` and `is_paused`, set and cleared under guards by
    the four control functions and by the drawing thread when it ends. The
    cable geometry of `draw_move` is not modelled; a move is recorded by its
    target. */
module Draw {
  import opened Types

  /** The pair (`is_drawing`, `is_paused`). */
  datatype DrawFlags = DrawFlags(drawing: bool, paused: bool)

  /** A pause is only ever requested for a drawing that runs. */
  predicate Consistent(f: DrawFlags)
  {
    f.paused ==> f.drawing
  }

  const Idle := DrawFlags(false, false)

  /** `draw_create_thd`: a new drawing starts only when none is running. */
  function Create(f: DrawFlags): (g: DrawFlags)
    ensures g.drawing
    ensures f.drawing ==> g == f
    ensures !f.drawing ==> g.paused == f.paused
    ensures Consistent(f) ==> Consistent(g)
  {
    if !f.drawing then f.(drawing := true) else f
  }

  /** `draw_stop_thd`: a running drawing is terminated and both flags
      cleared; with no drawing nothing changes. */
  function Stop(f: DrawFlags): (g: DrawFlags)
    ensures f.drawing ==> g == Idle
    ensures !f.drawing ==> g == f
    ensures Consistent(f) ==> g == Idle
  {
    if f.drawing then Idle else f
  }

  /** `draw_pause_thd`: only a running drawing can be paused. */
  function Pause(f: DrawFlags): (g: DrawFlags)
    ensures g.drawing == f.drawing
    ensures g.paused <==> f.paused || f.drawing
    ensures Consistent(f) ==> Consistent(g)
  {
    if f.drawing then f.(paused := true) else f
  }

  /** `draw_resume_thd`: wakes the thread and clears the pause only when a
      drawing runs and is paused. */
  function Resume(f: DrawFlags): (g: DrawFlags)
    ensures g.drawing == f.drawing
    ensures g.paused <==> f.paused && !f.drawing
    ensures Consistent(f) ==> !g.paused
  {
    if f.drawing && f.paused then f.(paused := false) else f
  }

  /** The end of `thd_draw`: it clears `is_drawing` and leaves `is_paused`
      as it is. */
  function ThreadExit(f: DrawFlags): (g: DrawFlags)
    ensures !g.drawing && g.paused == f.paused
  {
    f.(drawing := false)
  }

  /** The four control functions keep a pause tied to a running drawing. */
  lemma ControlKeepsConsistent(f: DrawFlags)
    requires Consistent(f)
    ensures Consistent(Create(f)) && Consistent(Stop(f)) && Consistent(Pause(f)) && Consistent(Resume(f))
  {
  }

  /** The thread's own exit is the one step that can break it: a paused
      drawing whose thread ends leaves `is_paused` set without a drawing. */
  lemma ThreadExitBreaksConsistent()
    ensures Consistent(DrawFlags(true, true)) && !Consistent(ThreadExit(DrawFlags(true, true)))
  {
  }

  /** Create, stop and pause are idempotent because of their guards; so is
      resume. */
  lemma ControlIdempotent(f: DrawFlags)
    ensures Create(Create(f)) == Create(f)
    ensures Stop(Stop(f)) == Stop(f)
    ensures Pause(Pause(f)) == Pause(f)
    ensures Resume(Resume(f)) == Resume(f)
  {
  }

  /** A pause followed by a resume gives back a running, unpaused drawing;
      with no drawing both do nothing. */
  lemma PauseThenResume(f: DrawFlags)
    ensures f.drawing ==> Resume(Pause(f)) == DrawFlags(true, false)
    ensures !f.drawing ==> Resume(Pause(f)) == f
  {
  }

  /** The state of mod_draw.c together with what it asks of the motor
      library: speeds, step counters and the targets handed to `draw_move`. */
  class DrawControl {
    /** `is_drawing` */
    var isDrawing: bool
    /** `is_paused` */
    var isPaused: bool
    /** How many times `thd_draw` was created. */
    var threadsCreated: nat
    /** The length, in centimetres, last given to `draw_set_init_length`. */
    var initLengthCm: int
    /** Motor speeds and step counters, as `right_motor_set_speed` etc. set them. */
    var leftSpeed: int
    var rightSpeed: int
    var leftPos: int
    var rightPos: int
    /** The targets of `draw_move`, oldest first. */
    var moves: seq<Coord>

    constructor ()
      ensures Flags() == Idle && threadsCreated == 0 && moves == []
    {
      isDrawing, isPaused := false, false;
      threadsCreated := 0;
      initLengthCm := 100;
      leftSpeed, rightSpeed, leftPos, rightPos := 0, 0, 0, 0;
      moves := [];
    }

    function Flags(): DrawFlags
      reads this
    {
      DrawFlags(isDrawing, isPaused)
    }

    /** `draw_create_thd` */
    method CreateThd()
      modifies this`isDrawing, this`threadsCreated
      ensures Flags() == Create(old(Flags()))
      ensures threadsCreated == if old(isDrawing) then old(threadsCreated) else old(threadsCreated) + 1
    {
      if !isDrawing {
        threadsCreated := threadsCreated + 1;
        isDrawing := true;
      }
    }

    /** `draw_stop_thd` */
    method StopThd()
      modifies this`isDrawing, this`isPaused
      ensures Flags() == Stop(old(Flags()))
    {
      if isDrawing {
        isDrawing := false;
        isPaused := false;
      }
    }

    /** `draw_pause_thd` */
    method PauseThd()
      modifies this`isPaused
      ensures Flags() == Pause(old(Flags()))
    {
      if isDrawing {
        isPaused := true;
      }
    }

    /** `draw_resume_thd` */
    method ResumeThd()
      modifies this`isPaused
      ensures Flags() == Resume(old(Flags()))
    {
      if isDrawing && isPaused {
        isPaused := false;
      }
    }

    /** The last statement of `thd_draw`. */
    method ThreadDone()
      modifies this`isDrawing
      ensures Flags() == ThreadExit(old(Flags()))
    {
      isDrawing := false;
    }

    /** `draw_reset`: both motors stopped and their step counters zeroed. */
    method Reset()
      modifies this`leftSpeed, this`rightSpeed, this`leftPos, this`rightPos
      ensures leftSpeed == 0 && rightSpeed == 0 && leftPos == 0 && rightPos == 0
    {
      rightSpeed := 0;
      leftSpeed := 0;
      rightPos := 0;
      leftPos := 0;
    }

    /** `draw_set_init_length`, kept as the length it was given. */
    method SetInitLength(yLengthCm: int)
      modifies this`initLengthCm
      ensures initLengthCm == yLengthCm
    {
      initLengthCm := yLengthCm;
    }

    /** `draw_move`, kept as the target it was given. */
    method Move(x: u16, y: u16)
      modifies this`moves
      ensures moves == old(moves) + [Coord(x, y)]
    {
      moves := moves + [Coord(x, y)];
    }
  }
}
