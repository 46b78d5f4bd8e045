# epuck-artist in Dafny

epuck-artist turns an e-puck2 robot into a cable-driven drawing machine.
A Python script on the computer talks to the robot over a serial link.
It sends one-letter commands framed as `CMD` plus the letter, and after a
`G` it sends a `MOVE` frame: a 16-bit count, then records of colour, x and y.
The robot's firmware runs on ChibiOS.
- It scans the stream for the markers and stores the received path in its
  data module.
- It dispatches the commands to the drawing, calibration and data modules.
- It can also derive a path from a camera picture. This covers colour
  classification, a Gaussian blur and a double threshold, followed by path
  planning: contour colouring, contour simplification, compaction,
  re-indexing, greedy nearest-neighbour ordering and final-path assembly.
- It sends the path and images back in fixed frames.

An Arduino with a servo and a stepper changes the pen on a one-letter command.

The model follows the program module by module, one Dafny module per
source file:

| Dafny module | source |
|---|---|
| `Types` | `cartesian_coord`, byte, 16-bit and sign conversions |
| `Host` | `python/epuck-communication.py` |
| `Comm` | `src/modules/mod_communication.c` |
| `Data` | `src/modules/mod_data.c` |
| `Draw` | `src/modules/mod_draw.c` (flag logic) |
| `Calibration` | `src/modules/mod_calibration.c` (controller and guards) |
| `State` | `src/modules/mod_state.c` |
| `Sensors` | `src/modules/mod_sensors.c` (`sensors_tof_wait`) |
| `Pen` | `arduino/src/main.cpp` |
| `SendPath` | `src/main.c` (`send_path`) |
| `Image` | `src/modules/mod_img_processing.c` (integer parts) |
| `PathTypes`, `PathColour`, `PathContour`, `PathCompact`, `PathOrder`, `PathFinal` | `src/modules/mod_path.c` |

State the source changes in place is modelled imperatively.
- Module globals become classes: `Data.DataStore`, `Comm.Link`,
  `Draw.DrawControl`, `Calibration.Calibrator`, `State.Robot` and
  `Pen.PenChanger`.
- Buffers the source rewrites in place (`contours`, `edges`, `status`,
  `img_buffer`, `img_temp_buffer`, `final_path`, `color`) are arrays, and
  each loop is a method with invariants.
- Each method is proved against a specification function on sequences
  (`Optimized`, `Compacted`, `Rounds`, `FinalPath`, `MoveFrame`, `DecodeMove`
  and others), and the promised properties are lemmas about those functions.

Inputs the model cannot see become parameters:
- the serial stream is a finite byte sequence, and running out of bytes is
  `Starved` where the firmware would block;
- `malloc` answers are booleans;
- the float distances of `tools.c` are function-typed parameters returning
  `real`;
- the Kalman-filtered distance readings are a function from reading number
  to value;
- the successive answers of `cal_get_state` are a sequence of booleans.

Places where the code and its comments or documents disagree are modelled
as the code is written:
- `MAX_LENGTH` is 25001 in mod_data.c, because the macro there is not
  parenthesised. The header's parenthesised value of 20000 is kept as
  `Data.HeaderMaxLength`.
- The classification loop masks red with `0xF7`, not `0xF8`.
- `low_threshold` is always 0.
- The marker scanners stop at the first `D` and the first `E`, because
  their switch cases fall through.
- `nearest_neighbour` reuses a stale `min_index`.
- `send_path` sends only the low byte of each coordinate.

## Model

| member | source | states |
|---|---|---|
| Types.Le16 | src/modules/mod_communication.c:141-143 | `(uint16_t)(c1 \| c2<<8)` is the value whose low and high bytes are c1 and c2 |
| Types.LeBytesReadBack | src/modules/mod_communication.c:170-174 | splitting a 16-bit value into its two little-endian bytes and reading them back gives the value again |
| Types.Le16Bytes | python/epuck-communication.py:164-165 | `struct.pack('<H', v)` is two bytes that read back as v |
| Types.ToInt16 | src/modules/mod_sensors.c:175 | conversion to `int16_t` keeps a value that fits and otherwise differs from it by a multiple of 2^16 |
| Types.Signed16IsCast | src/modules/mod_sensors.c:175 | `(int16_t)` of a `uint16_t` is that general conversion |
| Host.SendCommand | python/epuck-communication.py:119-134 | an unrecognised command writes nothing; a valid one writes exactly `C`,`M`,`D` and then the command's one byte |
| Host.AcceptedCommands | python/epuck-communication.py:30-38 | a one-letter command is accepted exactly when it is R, P, C, B, G, D or I; `H` and `V` are rejected |
| Host.Wrap16 | python/epuck-communication.py:155 | `np.uint16(len(data_pos))` never exceeds the length |
| Host.Wrap16IsModulo | python/epuck-communication.py:155 | the count is the length modulo 2^16, and is the length itself below 2^16 |
| Host.Records | python/epuck-communication.py:159-166 | n records take exactly 5n bytes |
| Host.RecordAt | python/epuck-communication.py:159-166 | record i sits at bytes 5i to 5i+5 as colour, x `<H`, y `<H` |
| Host.RecordsPrefix | python/epuck-communication.py:159-166 | the buffer after m records is a prefix of the buffer after n ≥ m records (records are emitted in index order) |
| Host.SendMoveData | python/epuck-communication.py:153-175 | the `while` loop that grows `send_buffer` and the three writes produce `MoveFrame`; it raises exactly when colours run out or the count does not fit `<h` |
| Host.MoveFrameLayout | python/epuck-communication.py:155-174 | a sent frame is 6 + 5N bytes, `MOVE`, the count as two LE bytes, record i at offset 6 + 5i; N is `len(data_pos)` below 2^16 |
| Comm.FirstFrom | src/modules/mod_communication.c:66-90 | the first position at or after `from` holding a byte: it holds it, none before it does, and None means none does |
| Comm.ReceiveCommand | src/modules/mod_communication.c:61-92 | the fall-through state loop stops at the first `D`, and the command returned is exactly the byte after it |
| Comm.LoneDIsACommand | src/modules/mod_communication.c:66-91 | because the cases fall through, a `D` with no `CM` before it already ends the scan |
| Comm.CommandRoundTrip | src/modules/mod_communication.c:61-92 | any command frame built by the host, followed by anything, decodes to its command byte after 4 bytes |
| Comm.RecordColours | src/modules/mod_communication.c:164-166 | one colour per five-byte record |
| Comm.RecordPositions | src/modules/mod_communication.c:167-174 | one position per five-byte record, x then y little-endian |
| Comm.DecodePayload | src/modules/mod_communication.c:141-179 | what follows the marker decodes to as many colours as positions, at most `MAX_LENGTH` |
| Comm.MovePayloadAt | src/modules/mod_communication.c:101-132 | the payload starts right after an `E`; the marker scan ends at the first `E` |
| Comm.DecodeMove | src/modules/mod_communication.c:95-179 | a decoded move frame has equally many colours and positions, at most `MAX_LENGTH` |
| Comm.RecordsReadBack | src/modules/mod_communication.c:164-179 | records laid out by the host read back as the host's colours and positions, in order |
| Comm.RecordIn | src/modules/mod_communication.c:164-179 | record i of a host run reads back as its own colour and position |
| Comm.RecordFields | src/modules/mod_communication.c:164-174 | record i is read from the five bytes at at + 5i |
| Comm.RecordReadBack | src/modules/mod_communication.c:165-174 | one host record reads back as its colour, x and y |
| Comm.MoveRoundTrip | src/modules/mod_communication.c:95-183 | decoding a frame built by `send_move_data` gives the host's first min(N, `MAX_LENGTH`) colours and positions after 6 + 5·min(N, `MAX_LENGTH`) bytes |
| Comm.PayloadReadBack | src/modules/mod_communication.c:141-179 | a count and its records decode to the clamped number of colours and positions, 2 + 5·clamped bytes further on |
| Comm.MarkerAt | src/modules/mod_communication.c:101-132 | a stream starting with `MOVE` has its payload at offset 4 |
| Comm.PayloadResult | src/modules/mod_communication.c:137-183 | returns 0 when a buffer is missing; otherwise returns the clamped length and reads 2 + 5·length bytes |
| Comm.ReceiveResult | src/modules/mod_communication.c:95-183 | the same from the start of the scan, and it succeeds whenever the frame decodes |
| Comm.AwaitMoveMarker | src/modules/mod_communication.c:101-132 | the marker loop as written stops just past the first `E` |
| Comm.ReadRecords | src/modules/mod_communication.c:164-179 | the record loop fills `color` and `pos` with the decoded records exactly when the stream holds 5·length bytes |
| Comm.Link.constructor | src/modules/mod_communication.c:33 | `data_is_ready` starts false |
| Comm.Link.ReceiveData | src/modules/mod_communication.c:95-183 | `com_receive_data` returns `ReceiveResult`; with no marker nothing changes; otherwise `data_is_ready` holds exactly when both buffers exist, which then hold the decoded frame with their length stored |
| Comm.Link.ReceivePayload | src/modules/mod_communication.c:137-183 | old data is freed and the flag cleared first; the stored length is the clamped count; a failed allocation returns 0 with the flag false |
| Comm.Link.FillStore | src/modules/mod_communication.c:150-182 | the stored length is kept; without both buffers it returns 0 with the flag false; otherwise it returns the length and the position after the records exactly when they all arrived, and the buffers then hold the decoded records |
| Comm.FirstFromShift | src/modules/mod_communication.c:66-132 | searching from d + from equals searching the stream without its first d bytes |
| Comm.DecodeShift | src/modules/mod_communication.c:95-179 | decoding from d is decoding the stream without its first d bytes |
| Comm.PayloadShift | src/modules/mod_communication.c:141-179 | the payload read does not depend on bytes before it |
| Comm.RecordsShift | src/modules/mod_communication.c:164-179 | records read at `at` do not depend on bytes before it |
| Comm.GetDataRoundTrip | src/modules/mod_communication.c:61-183 | for the host's `G` step the firmware reads command `G`, then the host's first min(N, `MAX_LENGTH`) records, and returns that length |
| Comm.GetDataCommand | src/modules/mod_communication.c:61-92 | a `G` step's bytes start with the `G` command, whatever happens to the move frame |
| Comm.GetDataMove | src/modules/mod_communication.c:95-179 | after the `G` command, the move frame decodes to the host's colours and positions |
| Comm.DecodeAfter | src/modules/mod_communication.c:95-179 | a move frame decodes the same after any prefix, shifted by its length |
| Data.Clamp | src/modules/mod_data.c:43-50 | the stored length is min(length, `MAX_LENGTH`) |
| Data.ClampIdempotent | src/modules/mod_data.c:43-50 | setting the current length again changes nothing |
| Data.DataStore.constructor | src/modules/mod_data.c:29-32 | the length starts at 0 with no buffers |
| Data.DataStore.SetLength | src/modules/mod_data.c:43-50 | stores the clamped length, so `data_get_length` is at most `MAX_LENGTH` afterwards |
| Data.DataStore.Free | src/modules/mod_data.c:52-59 | leaves length 0 and both buffers null |
| Data.DataStore.AllocXy | src/modules/mod_data.c:69-89 | a new position buffer of min(length, `MAX_LENGTH`) elements, or null on failure; `data_length` is untouched |
| Data.DataStore.AllocColor | src/modules/mod_data.c:98-118 | the same for the colour buffer |
| Draw.Create | src/modules/mod_draw.c:189-195 | a drawing starts only when none runs, and `is_drawing` is then set |
| Draw.Stop | src/modules/mod_draw.c:197-204 | both flags are cleared, but only while drawing |
| Draw.Pause | src/modules/mod_draw.c:206-210 | `is_paused` is set only while drawing |
| Draw.Resume | src/modules/mod_draw.c:212-220 | `is_paused` is cleared only while drawing and paused |
| Draw.ThreadExit | src/modules/mod_draw.c:125 | the thread's end clears `is_drawing` alone |
| Draw.ControlKeepsConsistent | src/modules/mod_draw.c:189-220 | the four control functions keep `is_paused ⇒ is_drawing` |
| Draw.ThreadExitBreaksConsistent | src/modules/mod_draw.c:125 | a paused drawing that ends leaves `is_paused` set with `is_drawing` false |
| Draw.ControlIdempotent | src/modules/mod_draw.c:189-220 | repeated create, stop, pause or resume calls act once |
| Draw.PauseThenResume | src/modules/mod_draw.c:206-220 | pause then resume gives back a running, unpaused drawing, and does nothing when idle |
| Draw.DrawControl.constructor | src/modules/mod_draw.c:72-73 | both flags start false |
| Draw.DrawControl.CreateThd | src/modules/mod_draw.c:189-195 | flags follow `Create`; a thread is created only when none ran |
| Draw.DrawControl.StopThd | src/modules/mod_draw.c:197-204 | flags follow `Stop` |
| Draw.DrawControl.PauseThd | src/modules/mod_draw.c:206-210 | flags follow `Pause` |
| Draw.DrawControl.ResumeThd | src/modules/mod_draw.c:212-220 | flags follow `Resume` |
| Draw.DrawControl.ThreadDone | src/modules/mod_draw.c:125 | flags follow `ThreadExit` |
| Draw.DrawControl.Reset | src/modules/mod_draw.c:180-186 | both motors stopped and their step counters zeroed |
| Draw.DrawControl.SetInitLength | src/modules/mod_draw.c:169-178 | records the length it was given |
| Draw.DrawControl.Move | src/modules/mod_draw.c:242-293 | records the target it was given |
| Calibration.SpeedForError | src/modules/mod_calibration.c:103-119 | below −300 the speed is 0 and the goal flag stays; for \|error\| < 2 the speed is 0 and the goal is reached; otherwise 10·error saturated to ±400, positive exactly for error ≥ 2 |
| Calibration.SpeedP | src/modules/mod_calibration.c:96-120 | the speed stays within ±400. When (init − TOF) − goal fits in `int16_t`, the goal is reached exactly for \|error\| < 2. The speed is 0 exactly below −300 or within the precision band, positive exactly for error ≥ 2, and otherwise 10·error or saturated at ±400 |
| Calibration.SpeedCutoff | src/modules/mod_calibration.c:103-119 | at −300 the robot backs up at full speed, at −301 it stops |
| Calibration.SpeedMonotone | src/modules/mod_calibration.c:103-119 | above the cut-off, a larger error never gives a lower speed |
| Calibration.Calibrator.constructor | src/modules/mod_calibration.c:76-77 | both flags start false |
| Calibration.Calibrator.CreateThd | src/modules/mod_calibration.c:278-284 | a thread is created only when not calibrating, and `is_calibrating` is then set |
| Calibration.Calibrator.StopThd | src/modules/mod_calibration.c:286-301 | returns 0 and changes nothing when not calibrating; otherwise returns the thread's exit value and clears the flag |
| Calibration.Calibrator.SetGoalDistance | src/modules/mod_calibration.c:270-276 | a value is forwarded only while calibrating |
| Calibration.Calibrator.GetSpeedP | src/modules/mod_calibration.c:96-120 | returns `SpeedP` and sets `reached_goal_distance` exactly when the goal is reached |
| Calibration.Calibrator.ThreadDone | src/modules/mod_calibration.c:260 | the thread's end clears `is_calibrating` |
| State.HandlerFor | src/modules/mod_state.c:33-41 | exactly the nine bytes R, P, C, B, G, D, I, H, V select a case, each its own |
| State.HandlersOneToOne | src/modules/mod_state.c:66-99 | each handler answers exactly one byte, and distinct bytes select distinct handlers |
| State.Robot.constructor | src/modules/mod_state.c:64-100 | all modules start idle, with no data |
| State.Robot.ProcessCommand | src/modules/mod_state.c:64-100 | the whole state outside the store and the link becomes `After` of the selected case. Every case but `G` leaves the link alone, and only `V` during a calibration moves the stream, by the bytes `com_receive_length` reads. Only `R` and `G` touch the store: `R` frees it, and `G` gives the guarantees of `ReceiveCommandData` |
| State.Robot.ReceiveCommandData | src/modules/mod_state.c:84-87 | the drawing and calibration state is unchanged. The stream moves past the decoded frame, and once data is ready the store holds exactly the colours and positions `DecodeMove` reads |
| State.Robot.Control | src/modules/mod_state.c:66-99 | for every case but `G` the state becomes `After` of that case. The stream moves only for `V` during a calibration. The store is freed by `R` and otherwise unchanged |
| State.AfterFrame | src/modules/mod_state.c:66-99 | only `C` signals a colour change, and only `R` resets the motors and the length. Only `H` moves; only `D` and `B` start a thread, and only when none runs. Only `V` sends a goal, only `R` and `B` change the calibration flag, and nothing changes the goal-reached flag |
| State.AfterEffects | src/modules/mod_state.c:66-99 | `R` stops drawing (idle from a consistent state) and calibration, zeroes the motors and sets the length to 100. `P`/`C`/`D` apply pause, resume and create, `B` starts calibrating, `H` adds (512, 0) to the moves, and `V` sends the goal only while calibrating |
| State.AfterKeepsConsistent | src/modules/mod_state.c:66-99 | no command leaves a pause without a running drawing |
| State.AfterIdempotent | src/modules/mod_state.c:66-99 | `R`, `P`, `B`, `D` and `I` sent twice do what they do once |
| Sensors.RunPass | src/modules/mod_sensors.c:155-205 | a pass takes 1 to 4 readings. It succeeds exactly when its first reading is in range and each of the next three is within the threshold of the one before. Only the first reading is range-checked, and a success takes four readings |
| Sensors.WaitFrom | src/modules/mod_sensors.c:155-207 | the loop ends with success only if calibration was still running at its last test, and ends without success when calibration stops |
| Sensors.WaitSuccess | src/modules/mod_sensors.c:165-226 | a successful wait ends on a successful pass and returns that pass's fourth reading |
| Sensors.WaitFailure | src/modules/mod_sensors.c:155-226 | a wait that ends without success returns `current_dist`, the last reading taken: the reading before its last pass, or the starting 0 when no pass was made |
| Sensors.WaitCancelled | src/modules/mod_sensors.c:155-226 | when calibration has already stopped at the first test, the wait returns 0 at once after one test |
| Sensors.SensorsTofWait | src/modules/mod_sensors.c:147-227 | the state loop as written returns `TofWait`'s distance |
| Sensors.WaitStep | src/modules/mod_sensors.c:155-207 | a test that finds calibration running makes one pass and continues or stops on its outcome |
| Sensors.WaitPass | src/modules/mod_sensors.c:156-205 | a pass of the loop body starts in state 0 and ends in state 4 exactly on success, else 0, and returns the last reading taken |
| Pen.GoalValues | arduino/src/main.cpp:57-67 | goals are 30, 187, 330, 487, strictly increasing within [0, 690], and the default is black's |
| Pen.ActionFor | arduino/src/main.cpp:160-179 | W, D, R, G and B select white, black, red, green and blue, X selects a reset, and any other byte selects nothing |
| Pen.PositionAfter | arduino/src/main.cpp:94-138 | a colour moves to its goal, a reset to the default; white and other bytes leave the position; a goal position stays a goal |
| Pen.LoopStepsTrackPosition | arduino/src/main.cpp:118-182 | the stepper moves by exactly the new tracked position minus the old |
| Pen.ChangeColorSteps | arduino/src/main.cpp:94-124 | `change_color` steps goal − old |
| Pen.ResetSteps | arduino/src/main.cpp:130-138 | `reset_motors` steps default − old |
| Pen.OneReplyPerByte | arduino/src/main.cpp:158-181 | every received byte, recognised or not, gets exactly one `Ready`, and no byte means no reply |
| Pen.PenChanger.constructor | arduino/src/main.cpp:144-154 | starts at the default position, after a delay and a lift |
| Pen.PenChanger.ChangeColorTo | arduino/src/main.cpp:94-124 | appends `change_color`'s effects and moves the tracked position to the goal |
| Pen.PenChanger.ResetMotorsNow | arduino/src/main.cpp:130-138 | appends `reset_motors`' effects and returns to the default |
| Pen.PenChanger.Loop | arduino/src/main.cpp:156-182 | keeps `stepper_position` a goal equal to where the steps have taken the stepper, and appends exactly one call's effects |
| SendPath.XBytes | src/main.c:53-55 | one byte per point: the low byte of x |
| SendPath.YBytes | src/main.c:56-58 | one byte per point: the low byte of y |
| SendPath.PathFrameLayout | src/main.c:50-61 | the frame is `START\r`, `path\n`, the length as 2 bytes, then x bytes, y bytes, colour bytes; 13 + 3·length bytes |
| SendPath.LowBytesDecide | src/main.c:53-58 | paths that agree on the low bytes give the same frame, so (256, 512) and (0, 0) cannot be told apart |
| SendPath.SendXs | src/main.c:53-55 | the first loop writes exactly the low byte of each x, in order |
| SendPath.SendYs | src/main.c:56-58 | the second loop writes exactly the low byte of each y, in order |
| SendPath.SendColours | src/main.c:59-61 | the third loop writes exactly the first `length` colours, in order |
| SendPath.SendPathFrame | src/main.c:44-62 | the three loops of writes produce `PathFrame` |
| Image.Position | src/modules/mod_img_processing.c:210 | an in-image (x, y) maps inside the buffer |
| Image.RedChannel | src/modules/mod_img_processing.c:173 | `& 0xF8` keeps the top five bits |
| Image.RedClassified | src/modules/mod_img_processing.c:187 | `& 0xF7` clears bit 3 only |
| Image.GreenChannel | src/modules/mod_img_processing.c:174-188 | the logical `\|\|` gives 0 or 1, 1 exactly when a green bit is set |
| Image.BlueChannel | src/modules/mod_img_processing.c:175-189 | `& 0x1F` keeps the low five bits |
| Image.LowThreshold | src/modules/mod_img_processing.c:182-183 | `(uint16_t)COEFF*average` is always 0 |
| Image.ClassifyPixelCases | src/modules/mod_img_processing.c:185-198 | the larger of red and blue decides the class, and a tie keeps the previous colour |
| Image.NeverBlackNorGreen | src/modules/mod_img_processing.c:191-198 | with zero thresholds the black test never fires, and neither does green; such colours survive only from before |
| Image.GreenBitsCountAsRed | src/modules/mod_img_processing.c:187 | a pixel with only green bits in its even byte is classified red |
| Image.ClassifyAndGray | src/modules/mod_img_processing.c:185-202 | each pixel gets its class from bytes 2p, 2p+1 and its grey value written to byte p, and the upper half is untouched |
| Image.ClassifiedStep | src/modules/mod_img_processing.c:185-202 | one turn of the loop keeps the loop invariant |
| Image.KernelSum | src/modules/mod_img_processing.c:49-54 | the kernel weights sum to `KER_DIV` = 159 |
| Image.KernelColumn | src/modules/mod_img_processing.c:214-218 | entry k belongs to column k div 5 − 2 |
| Image.KernelOffset | src/modules/mod_img_processing.c:216 | every kernel offset stays within two rows and two columns |
| Image.KernelOffsetAt | src/modules/mod_img_processing.c:214-218 | the loops reach entry 5(x_ker+2)+(y_ker+2) at offset x_ker + y_ker·100 |
| Image.ConvBounds | src/modules/mod_img_processing.c:212-220 | the accumulator lies between lo·weight and hi·weight of the entries added |
| Image.BlurWithinWindow | src/modules/mod_img_processing.c:212-221 | the blurred value lies within the window's min and max, fits a byte, and the 16-bit accumulator never overflows |
| Image.WindowOfInner | src/modules/mod_img_processing.c:208-216 | every window of the blurred region lies inside the image |
| Image.Convolve | src/modules/mod_img_processing.c:212-220 | the kernel loops compute the full weighted sum |
| Image.ConvolveColumn | src/modules/mod_img_processing.c:215-219 | the inner kernel loop adds one column |
| Image.ConvStep | src/modules/mod_img_processing.c:216 | each step adds value·weight without overflowing 16 bits |
| Image.GaussianBlur | src/modules/mod_img_processing.c:207-223 | every pixel with 2 ≤ x < 98 and 2 ≤ y < 88 gets the blurred value, and border entries are unchanged |
| Image.BlurColumn | src/modules/mod_img_processing.c:209-222 | one column of the blur |
| Image.Level | src/modules/mod_img_processing.c:293-299 | 255 above 0.3·max, 0 at or below 0.2·max, 100 between |
| Image.LevelMonotone | src/modules/mod_img_processing.c:293-299 | a brighter pixel never gets a lower level |
| Image.DoubleThreshold | src/modules/mod_img_processing.c:290-301 | every pixel gets its level, so every pixel is 0, 100 or 255 |
| Image.ChunkWrites | src/modules/mod_img_processing.c:121-129 | each write carries exactly its chunk's size |
| Image.TilesSendAll | src/modules/mod_img_processing.c:121-129 | contiguous, non-overlapping chunks send exactly the bytes they cover, in order |
| Image.ChunkLayouts | src/modules/mod_img_processing.c:121-146 | chunks 4000×4 + 2000 cover the 18000 camera bytes, and 4000, 4000, 1000 cover the 9000 blurred bytes |
| Image.SendImage | src/modules/mod_img_processing.c:119-131 | `START`, then the whole camera buffer, in writes of at most 4000 bytes |
| Image.SendImageHalf | src/modules/mod_img_processing.c:133-156 | `START`, then the whole `img_temp_buffer`, in writes of at most 4000 bytes |
| PathTypes.Span | src/modules/mod_path.c:465-475 | a pair visits its indices upwards or downwards inclusive, and none when they are equal |
| PathTypes.SpanBetween | src/modules/mod_path.c:407-446 | every index a pair visits lies between its two extremity indices |
| PathTypes.OffsetMonotone | src/modules/mod_path.c:451-477 | later pairs start later in the output |
| PathColour.ColoursOf | src/modules/mod_path.c:408-446 | the colour looked up for each visited pixel |
| PathColour.Tally | src/modules/mod_path.c:410-444 | a colour count never exceeds the number of pixels |
| PathColour.Vote | src/modules/mod_path.c:453-463 | red, green or blue win only by strictly exceeding the other three counts; everything else is black |
| PathColour.TallyUniform | src/modules/mod_path.c:406-449 | a uniform run counts its colour for every pixel and the others zero |
| PathColour.UnanimousPair | src/modules/mod_path.c:406-463 | a pair whose pixels all share one colour gets that colour |
| PathColour.EmptyPairIsBlack | src/modules/mod_path.c:406-463 | a pair with equal indices counts nothing and gets black |
| PathColour.ColourIgnoresColours | src/modules/mod_path.c:410-431 | the vote reads positions only, not the stored contour colours |
| PathColour.Tick | src/modules/mod_path.c:410-423 | one switch adds the pixel to its colour's count |
| PathColour.TallyNext | src/modules/mod_path.c:410-423 | counting one more pixel raises its colour's count by one and leaves the other counts |
| PathColour.CountPair | src/modules/mod_path.c:407-447 | a pair's counts are the tallies of its span |
| PathColour.CountUp | src/modules/mod_path.c:407-426 | the ascending loop counts the span |
| PathColour.CountDown | src/modules/mod_path.c:427-446 | the descending loop counts the span |
| PathColour.PaintPair | src/modules/mod_path.c:465-475 | writes the colour into one slot per point the pair spans, from k on, and nothing else |
| PathColour.CountPairs | src/modules/mod_path.c:400-449 | four fresh arrays hold each pair's counts |
| PathColour.SetContoursColor | src/modules/mod_path.c:398-482 | only colours change: slot `Offset(p) + t` gets pair p's vote, with k running from 0 across pairs; slots past the last pair are unchanged |
| PathColour.PaintNext | src/modules/mod_path.c:454-476 | one turn of the second loop extends the painted prefix by one pair |
| PathColour.PaintedStep | src/modules/mod_path.c:454-476 | painting one more pair keeps the invariant |
| PathContour.FarthestFrom | src/modules/mod_path.c:524-533 | the search keeps the strictly largest distance among marked pixels |
| PathContour.Farthest | src/modules/mod_path.c:521-533 | the result is the interval start with 0, or a marked inner pixel at the maximal distance |
| PathContour.Collinear | src/modules/mod_path.c:542-554 | the end is kept and nothing outside the interval changes |
| PathContour.Removal | src/modules/mod_path.c:555-558 | exactly the pixels strictly inside become REMOVE |
| PathContour.StepDecreases | src/modules/mod_path.c:513-560 | one turn keeps the stack within the contour and decreases the sum of squared interval lengths |
| PathContour.Run | src/modules/mod_path.c:513-560 | the loop terminates with one flag per pixel |
| PathContour.Optimized | src/modules/mod_path.c:501-561 | `contour_optimization` produces one flag per pixel |
| PathContour.RunConfined | src/modules/mod_path.c:513-560 | flags change only inside the first interval; ends only become KEEP, inner pixels only KEEP or REMOVE |
| PathContour.EndsKept | src/modules/mod_path.c:544-558 | REMOVE is only set strictly inside, so both outer ends stay KEEP and nothing outside changes |
| PathContour.StraightContour | src/modules/mod_path.c:542-554 | on a straight piece every third pixel from the start, and the end, are kept, and the rest inside is removed |
| PathContour.FindFarthest | src/modules/mod_path.c:521-533 | the search loop computes `Farthest` |
| PathContour.MarkCollinear | src/modules/mod_path.c:542-554 | the three steps of the straight-line branch compute `Collinear` |
| PathContour.RemoveInterior | src/modules/mod_path.c:556-558 | the removal loop computes `Removal` |
| PathContour.ContourOptimization | src/modules/mod_path.c:501-561 | the stack loop computes `Optimized` |
| PathCompact.ConsumedIsStart | src/modules/mod_path.c:576-604 | the running `contours_size` equals the start of the pair being read |
| PathCompact.AllKeep | src/modules/mod_path.c:596-598 | every flag starts KEEP |
| PathCompact.Kept | src/modules/mod_path.c:607-612 | the kept pixels come from the contour and are no more than it |
| PathCompact.KeptAll | src/modules/mod_path.c:607-612 | with every flag KEEP the contour is copied whole |
| PathCompact.KeptFirst | src/modules/mod_path.c:607-612 | a kept first pixel comes first |
| PathCompact.KeptEnds | src/modules/mod_path.c:607-612 | kept ends stay first and last |
| PathCompact.Body | src/modules/mod_path.c:586-591 | a closed contour sets its repeated last pixel aside |
| PathCompact.ThinnedKeepsEnds | src/modules/mod_path.c:605-612 | the optimised contour keeps its first and last pixel |
| PathCompact.PairOutputEnds | src/modules/mod_path.c:580-618 | a pair's output keeps its first and last pixel and is no longer than it |
| PathCompact.TwoPixelPairCopied | src/modules/mod_path.c:580-584 | a two-point contour is copied unchanged |
| PathCompact.Segment | src/modules/mod_path.c:576-577 | a pair's pixels are at least two |
| PathCompact.CompactedFits | src/modules/mod_path.c:575-622 | the compacted front never outgrows what was read, so writing never overtakes reading |
| PathCompact.U8LoopNeverEnds | src/modules/mod_path.c:575-607 | a `uint8_t` counter never reaches a bound of 256 or more |
| PathCompact.U8LoopEnds | src/modules/mod_path.c:575-607 | below 256 the loop takes bound − start turns |
| PathCompact.NewContour | src/modules/mod_path.c:593-604 | the copy of one contour, and its flags all KEEP |
| PathCompact.CopyKept | src/modules/mod_path.c:607-612 | appends the kept pixels in their order after the front, and nothing past the new front changes |
| PathCompact.ThinInto | src/modules/mod_path.c:593-612 | appends the optimised contour after the front |
| PathCompact.OptimizeLong | src/modules/mod_path.c:585-621 | a longer contour's output is the kept pixels of its body, plus its set-aside last pixel when closed |
| PathCompact.OptimizePair | src/modules/mod_path.c:580-621 | one pair appends `PairOutput` of its pixels |
| PathCompact.OptimizeNext | src/modules/mod_path.c:575-622 | one turn of the pair loop appends the next pair's output and stays behind the read position |
| PathCompact.PathOptimization | src/modules/mod_path.c:570-624 | the returned size fits, the front is the kept points of every pair in original order, and the rest of the buffer is unchanged |
| PathOrder.Extremities | src/modules/mod_path.c:637-642 | lists indices of extremities only |
| PathOrder.ExtremitiesExact | src/modules/mod_path.c:637-642 | lists each extremity exactly once, in increasing order |
| PathOrder.ReorderEdgesIndex | src/modules/mod_path.c:634-644 | `edges[k].index` becomes the k-th extremity's position, and the last edge is forced to `opt_contours_size - 1` |
| PathOrder.ReindexExtremities | src/modules/mod_path.c:636-642 | the edges become `Reindexed` by the list of extremities: edge k takes the k-th extremity's position, every later edge is unchanged |
| PathOrder.ExtremitiesPrefix | src/modules/mod_path.c:637-642 | the extremities of a prefix are a prefix of the extremities |
| PathOrder.NearestFrom | src/modules/mod_path.c:664-674 | the search finds the first edge at the strictly smallest distance below the starting bound, or keeps its start |
| PathOrder.Nearest | src/modules/mod_path.c:662-674 | a round's choice is the stale `min_index` or an edge from `start_index` on |
| PathOrder.Swap | src/modules/mod_path.c:678-696 | an exchange keeps the length |
| PathOrder.SwapPermutes | src/modules/mod_path.c:678-696 | an exchange keeps the multiset |
| PathOrder.SwapPair | src/modules/mod_path.c:678-696 | the six assignments keep the length |
| PathOrder.SwapPairPlaces | src/modules/mod_path.c:678-696 | the chosen pair moves to `start_index`, chosen extremity first, and its partner follows; an odd choice reverses the pair |
| PathOrder.SwapPairPermutes | src/modules/mod_path.c:678-696 | a round keeps the edges multiset |
| PathOrder.EvenSwapPermutes | src/modules/mod_path.c:678-686 | the even branch keeps the edges multiset |
| PathOrder.OddSwapPermutes | src/modules/mod_path.c:688-696 | the odd branch keeps the edges multiset |
| PathOrder.Rounds | src/modules/mod_path.c:662-699 | the rounds keep the buffer sizes |
| PathOrder.RoundsStep | src/modules/mod_path.c:662-699 | one round moves the nearest pair into place and records its status |
| PathOrder.RoundsPermute | src/modules/mod_path.c:652-700 | `nearest_neighbour` only reorders the edges (multiset preserved) |
| PathOrder.RoundsStatus | src/modules/mod_path.c:685-695 | each pair from the start gets `start` or `end`, and other entries are unchanged |
| PathOrder.RoundPicksNearest | src/modules/mod_path.c:664-696 | when an extremity is nearer than 190, the round puts the first nearest one at `start_index` with its partner after it |
| PathOrder.FindNearest | src/modules/mod_path.c:663-674 | the search loop computes `NearestFrom` |
| PathOrder.MovePair | src/modules/mod_path.c:678-686 | the even branch computes `SwapPair` |
| PathOrder.ReversePair | src/modules/mod_path.c:688-696 | the odd branch computes `SwapPair` |
| PathOrder.SwapEdges | src/modules/mod_path.c:678-696 | a round's assignments compute `SwapPair` and record `start` for an even choice and `end` for an odd one |
| PathOrder.Round | src/modules/mod_path.c:662-699 | one round advances `Rounds` by one step |
| PathOrder.NearestNeighbour | src/modules/mod_path.c:652-700 | the edges and status left are those of `Rounds` |
| PathFinal.PointsAt | src/modules/mod_path.c:724-743 | one point per visited index |
| PathFinal.PointAt | src/modules/mod_path.c:725-737 | the t-th point is the position of the t-th visited pixel |
| PathFinal.ColoursAt | src/modules/mod_path.c:727-741 | one colour per visited index |
| PathFinal.ColourAt | src/modules/mod_path.c:727-741 | the first colour of a pair is white and the others are the contour's |
| PathFinal.PairPoints | src/modules/mod_path.c:722-744 | a pair contributes one point per index of its span |
| PathFinal.PairColours | src/modules/mod_path.c:722-744 | a pair contributes one colour per index of its span |
| PathFinal.PairPointAt | src/modules/mod_path.c:722-744 | a pair's t-th point is its t-th pixel |
| PathFinal.PairColourAt | src/modules/mod_path.c:722-744 | a pair's t-th colour is white for t = 0 and the pixel's colour otherwise |
| PathFinal.FinalPathLength | src/modules/mod_path.c:719-745 | the path holds the start plus one point per visited pixel, and so do the colours |
| PathFinal.FinalPathStart | src/modules/mod_path.c:717-720 | `final_path[0]` is (50, 0) with colour white |
| PathFinal.FinalPathPrefix | src/modules/mod_path.c:721-745 | later pairs only append to the path |
| PathFinal.FinalColoursPrefix | src/modules/mod_path.c:721-745 | later pairs only append to the colours |
| PathFinal.FinalPointAt | src/modules/mod_path.c:722-745 | point 1 + Offset(p) + t is the t-th pixel of pair p |
| PathFinal.FinalColourAt | src/modules/mod_path.c:722-745 | colour 1 + Offset(p) + t is white for t = 0 and the pixel's colour otherwise |
| PathFinal.WritePoint | src/modules/mod_path.c:725-731 | one turn writes slot k and leaves the slots before it |
| PathFinal.WriteUp | src/modules/mod_path.c:723-732 | the ascending loop appends the span's points and colours |
| PathFinal.WriteDown | src/modules/mod_path.c:733-743 | the descending loop appends the span's points and colours |
| PathFinal.WritePair | src/modules/mod_path.c:723-744 | one pair appends its span, or nothing when its indices are equal |
| PathFinal.FinalPathStep | src/modules/mod_path.c:722-745 | pair p extends the path and colours by its span |
| PathFinal.LayPair | src/modules/mod_path.c:722-745 | one turn of the pair loop keeps the invariant |
| PathFinal.LayPairs | src/modules/mod_path.c:722-745 | after the loop over all pairs the buffers hold the path and colours of every pair, laid end to end after the start point |
| PathFinal.CreateFinalPath | src/modules/mod_path.c:713-746 | `final_path` and `color` hold `FinalPath` and `FinalColours` |
| PathFinal.StrongLeftZero | src/modules/mod_path.c:797-806 | the count is zero exactly when no pixel still to visit is strong |
| PathFinal.NoStrongPixel | src/modules/mod_path.c:797-807 | the planner returns early exactly when no pixel equals `STRONG_PIXEL` |
| PathFinal.CountColumn | src/modules/mod_path.c:798-802 | the inner loop counts the strong pixels of one column |
| PathFinal.CountStrongPixels | src/modules/mod_path.c:797-807 | the counting loops count the strong pixels, and the count is 0 exactly when none is strong |

## Left out

- Threads, scheduling, sleeps, LED toggles and message passing are not modelled. These include `thd_draw`, `thd_calibrate`, `thd_process_cmd` and `thd_tof_kalman`. Each module's flags are modelled, and the end of a thread is a separate method.
- Float numerics are not modelled:
  - the Kalman filter (`kalman1d`);
  - the grey weighting, which is a function parameter (`Image.GrayPixel`);
  - the first averaging loop of `canny_edge`, beyond the fact that its thresholds are always 0;
  - Sobel filtering and non-maximum suppression; `max` of the double threshold is a parameter;
  - `img_resize`, `move_home`, `set_init_length`, and the cable geometry of `draw_move`, `draw_get_length_av_next` and `motor_set_step`.
- `tools.c` is not part of this model. Its two distances are function parameters returning `real`.
- `path_tracing` is not modelled. Its output is the precondition `PathCompact.Chained` on the edge indices.
- Hysteresis tracking is not modelled, so `STRONG_PIXEL` is a parameter.
- `data_get_pos`, `data_realloc_color`, `com_send_data` and `com_receive_length` are defined outside the modules modelled here, so their answers are parameters.
- `position()` is not modelled either. `PathFinal.StrongLeft` and `PathFinal.CountStrongPixels` assume it is the row-major index `x + y * IM_LENGTH_PX` that src/modules/mod_img_processing.c:210 computes inline (`Image.Position`).
- PathOrder.ReorderEdgesIndex: requires `size_edges >= 1`. With no edges, `edges[size_edges - 1]` writes before the buffer, which is undefined behaviour in C.
- State.Robot.ProcessCommand: for `V` during a calibration, the number of bytes `com_receive_length` reads (`consumed`) and the length it returns (`received`) are parameters, because its body is not part of this model. The model promises that the stream moves on by exactly `consumed`, not how `received` is decoded from those bytes.
- `cal_signal_changed_colors` is only counted.
- `capture_image` and all camera I/O are not modelled.
- `parse_arg`, `connect_to_epuck` and the `input` loop of the Python script are not modelled.
- `get_data` returns fixed arrays, so colours and positions are parameters.
- Host.Wrap16: the count is packed with `np.array([n], dtype=np.uint16)`. The modulo-2^16 wrap follows NumPy 1.x; NumPy 2 raises `OverflowError` for 2^16 or more instead. `get_data` always returns 36 positions, so no reachable count differs.
- The reset sent at connection time is an ordinary `R` command.
- Sent bytes are recorded as sequences; the serial driver itself is not modelled.
- On the Arduino, the servo, stepper, delay and serial calls are recorded as effects only.
- `PathContour.ContourOptimization` keeps the interval stack in a sequence. The variable-length arrays of `(end-start)/2` entries, which can overflow for short intervals, are not bounded.
- `PathColour.SetContoursColor`, `PathColour.CountPairs`, `PathFinal.CreateFinalPath`, `PathOrder.ReorderEdgesIndex` and `PathOrder.NearestNeighbour` take `edges` and `contours` as separate values or arrays. The model does not capture the aliasing of the static buffers or the `realloc` calls between steps.
- `path_planning` is modelled only in its counting and early exit (`PathFinal.CountStrongPixels`). The chaining of its steps and the final `data_set_ready`/`com_send_data` are not modelled.
- Calibration.SpeedForError: requires `KP * error < 2^15`. For larger errors the float product converted to `int16_t` is undefined in C.
- Calibration.Calibrator.StopThd: the thread's exit value is a parameter, because `chThdWait` is not modelled.
- Comm.Link.ReceiveData: the serial stream is finite. Where the firmware blocks waiting for bytes, the model returns `Starved`.
- Draw.DrawControl.Move: only records the target. The cable lengths and motor steps are left out because they are float geometry.
- Draw.DrawControl.SetInitLength: only records the length, for the same reason.
- Sensors.SensorsTofWait: the readings are a function of the reading number, and the LED blinking after the loop is not modelled.
- PathContour.RunConfined: proves where flags may change, not the exact flags of a split interval. The exact result is given by `Optimized`, whose values depend on the distance parameter.

## Findings

| source | as written | input that shows it | evidently intended | confidence | as-written member | corrected member |
|---|---|---|---|---|---|---|
| src/modules/mod_path.c:575-607 | the loops over pairs (`i`), over a contour's flags (`m`) and over the kept pixels (`j`) use `uint8_t` counters against `uint16_t` bounds | a contour of 256 pixels or more (`length` = 256): the counter wraps from 255 to 0 and never reaches the bound, so `path_optimization` never returns; likewise 512 edges or more | counters as wide as the bounds, so every loop visits each element once | not executed | PathCompact.U8LoopNeverEnds | PathCompact.PathOptimization |
