# AI Virtual Marker: gesture-driven drawing state machine

A Dafny model of the per-frame logic of the virtual marker `Homepage.py`. A webcam
user paints over their own live image with the index fingertip. The program:

- reads each hand's 21 landmarks as a 5-entry finger vector (thumb to pinky, 1 = up);
- keeps a lock latch that a three-finger pose sets and a four-finger pose releases,
  with a one-second debounce;
- while unlocked, runs five independent branches on the vector:
  - Selection: the pen jumps to the tip and a header swatch may be picked;
  - Standby: does nothing;
  - Draw: appends a line from the previous pen position to the tip;
  - Thickness: the thumb-to-index pinch sets the stroke thickness;
  - Clear: blanks the canvas and forgets the pen;
- lays the header strip and the stroke canvas over the camera frame.

Modules, one per component of `Homepage.py`:

- `Gesture` (`gesture.dfy`): landmarks, the finger-vector loop, the pose tests, and a
  first-match classification of the vector.
- `Palette` (`palette.dfy`): the four swatch bands in the 125-pixel header, their
  colours (OpenCV's blue-green-red order) and the band lookup.
- `StrokeWidth` (`stroke_width.dfy`): `int(np.interp(length, [30, 200], [5, 50]))` as a
  clamped linear map followed by truncation toward zero.
- `LockControl` (`lock_control.dfy`): the latch `(isLocked, lock_time)` and its debounce,
  with a run over many frames and a toggle count.
- `Drawing` (`drawing.dfy`): the session state, `HandStep` as the specification of one
  pass of the per-hand loop body, and the class `Session`. Its fields are the source's
  module-level variables. Its methods `HandleHand` and `ProcessFrame` update them in
  place and are proved equal to `HandStep` and `FrameStep`.
- `Compositor` (`compositor.dfy`): the header overwrite and the per-pixel
  threshold / AND / OR compositing.

How the model represents the environment:

- The wall clock enters as one `now: real` (seconds) per frame.
- A detected hand is a `Hand`: its 21 integer landmarks and its thumb-to-index
  distance `pinch`. The distance is supplied by the caller because `math.hypot` is
  foreign code.
- The stroke canvas is the sequence of segments `(from, to, colour, thickness)` drawn
  since the last Clear. Clearing restores the empty sequence, the initial value.
- The compositor works on a raster canvas that it takes as a parameter, and on a gray
  conversion passed in as a function.

Where the code and its design description disagree, the model follows the code:

- The design says the pen position is reset whenever drawing is interrupted (mode
  change or lock). The code resets it only on Clear (line 140). `IdleBehaviour` and
  `ThicknessBehaviour` show the pen surviving other frames.
- The design says Standby changes nothing. The Draw test (line 123) does not look at
  the pinky, so the Standby vector `[0,1,0,0,1]` also draws (`StandbyDraws`).
- The design asks for a priority match. The model keeps the code's independent `if`s.
  `HandStepIsSingleDispatch` proves they behave as one first-match dispatch, because
  the state-changing poses never overlap (`Classify`).
- The design lets Selection run while locked. In the code, a locked frame skips every
  branch, Selection included (`continue` at line 94).

## Model

| member | source | states |
|---|---|---|
| Gesture.DetectFingers | Homepage.py:68-73 | the loop over the fingertip ids yields exactly `[p4.x<p3.x, p8.y<p6.y, p12.y<p10.y, p16.y<p14.y, p20.y<p18.y]` as 0/1, five entries, thumb to pinky, from those ten coordinates only |
| Gesture.Classify | Homepage.py:98-138 | a first-match mode choice picks each of Selection, Draw, Thickness and Clear exactly when that branch's test holds, so no two of those tests hold at once; the lock and unlock vectors pick none; the Standby vector picks Draw |
| Palette.SwatchAt | Homepage.py:101-113 | a fingertip selects swatch i exactly when y < 125 and x lies strictly inside band i of (170,295), (436,561), (700,825), (980,1105); otherwise nothing is selected |
| Palette.SwatchesDistinct | Homepage.py:104-113 | the four swatch colours are pairwise different |
| StrokeWidth.Interp | Homepage.py:134 | the interpolated thickness always lies in [5, 50] |
| StrokeWidth.Trunc | Homepage.py:134 | `int()` truncates toward zero: within one below a non-negative real, within one above a negative real |
| StrokeWidth.ThicknessFor | Homepage.py:133-134 | the thickness is in [5, 50]; it is 5 for a distance ≤ 30, 50 for a distance ≥ 200, and floor(5 + (L-30)·45/170) in between |
| StrokeWidth.ThicknessMonotone | Homepage.py:134 | the thickness is non-decreasing in the pinch distance |
| StrokeWidth.ThicknessAtMidpoint | Homepage.py:134 | a distance of 115 gives thickness 27 |
| LockControl.LockUpdate | Homepage.py:76-85 | the latch changes exactly when the lock or unlock vector is shown and strictly more than 1 s has passed since the last toggle; it then records `now` and locks for the lock vector, unlocks for the unlock vector |
| LockControl.QuietWithinDebounce | Homepage.py:76-85 | frames no more than 1 s after the last toggle toggle nothing and leave the latch as it was |
| LockControl.AtMostOneToggleWithinDebounce | Homepage.py:76-85 | within any one-second window of frames, whatever vectors they show, the latch toggles at most once |
| LockControl.HeldLockPoseScenario | Homepage.py:76-78 | the lock vector at 1.2 s locks an initially unlocked session; the same vector at 1.5 s changes nothing |
| Drawing.HandStep | Homepage.py:76-94 | the latch after a hand step is exactly the lock check's result; nothing else changes it |
| Drawing.FrameStep | Homepage.py:56-57 | a frame without a hand changes nothing |
| Drawing.HandStepIsSingleDispatch | Homepage.py:92-140 | a locked step only moves the latch; an unlocked step equals performing the single action of the mode `Classify` chooses |
| Drawing.LockPosesDrawNothing | Homepage.py:76-138 | the lock and unlock vectors change only the latch |
| Drawing.LockedStepIsInert | Homepage.py:92-94 | a step that ends locked leaves pen, header, colour, thickness and canvas unchanged |
| Drawing.SelectionBehaviour | Homepage.py:98-113 | unlocked Selection moves the pen to the index tip and sets header/colour to 0/magenta, 1/yellow, 2/green, 3/black by band in the header strip, otherwise keeps them; canvas, thickness and latch unchanged |
| Drawing.DrawBehaviour | Homepage.py:122-128 | unlocked Draw appends one segment from the previous pen position (from the tip itself when the pen is at (0,0)) to the tip, in the current colour and thickness, and moves the pen to the tip; nothing else changes |
| Drawing.StandbyDraws | Homepage.py:117-128 | the Standby vector appends a segment and moves the pen, because the Draw test ignores the pinky |
| Drawing.ConsecutiveDrawsConnect | Homepage.py:122-128 | two Draw frames in a row add two segments that meet at the first tip |
| Drawing.ThicknessBehaviour | Homepage.py:130-135 | unlocked Thickness changes only the thickness, to the mapped pinch distance |
| Drawing.ClearBehaviour | Homepage.py:137-140 | unlocked Clear restores the initial empty canvas and the (0,0) pen; latch, header, colour and thickness unchanged |
| Drawing.IdleBehaviour | Homepage.py:96-140 | a vector that matches no branch changes nothing but, possibly, the latch (the pen in particular survives) |
| Drawing.HandStepPreservesValid | Homepage.py:31-33 | a hand step keeps header and colour a matched swatch pair, and every thickness, current and drawn, in [5, 50] |
| Drawing.FrameStepPreservesValid | Homepage.py:31-35 | the initial state satisfies that invariant and every sequence of hands preserves it |
| Drawing.Session.constructor | Homepage.py:20-39 | the session starts unlocked with lock time 0, pen (0,0), header 0, magenta, thickness 20 and an empty canvas |
| Drawing.Session.HandleHand | Homepage.py:58-140 | the in-place update of the session's variables for one hand equals `HandStep`, and keeps the invariant |
| Drawing.Session.ProcessFrame | Homepage.py:56-57 | processing the frame's hands in order equals `FrameStep`, and keeps the invariant |
| Compositor.ComposePixel | Homepage.py:146-150 | a painted canvas pixel (gray > 5) is shown as is; otherwise the output is frame OR canvas, channel by channel |
| Compositor.BlankCanvasShowsFrame | Homepage.py:146-150 | a black, unpainted canvas pixel leaves the frame pixel unchanged |
| Compositor.WithHeader | Homepage.py:143 | rows 0-124 become the header's rows, the rest of the frame is kept |
| Compositor.Composite | Homepage.py:146-150 | every output pixel is the canvas pixel where painted, else frame OR canvas |
| Compositor.Render | Homepage.py:142-150 | painted canvas pixels cover the header and the video alike |
| Compositor.RenderShowsBackgroundWhereBlank | Homepage.py:142-150 | where the canvas is black and black reads as unpainted, the output shows the header in the top 125 rows and the camera frame below |

## Left out

- Camera capture, FPS and resolution setup, the failed-read exit, display, the quit key
  and release (lines 12-17, 42-46, 152-157): input/output.
- The MediaPipe detector, the colour conversions around it and the denormalisation of
  landmarks (lines 41, 49-54, 59): foreign code. Hands enter as 21 integer points.
- Loading the header images from disk (lines 23-28). The header is an index 0-3; the
  compositor takes the header image as a parameter.
- `cv2.rectangle`, `cv2.circle`, `cv2.putText` and `print` (lines 79, 85, 89, 93, 115,
  124, 135): visual effects only, with no state.
- The rasterisation done by `cv2.line` (line 127). The canvas records segments; the
  compositor receives a raster. The link between the two is not modelled.
- `math.hypot` and the float arithmetic of `np.interp` (lines 133-134). The distance is
  a non-negative real input that the model does not tie to the thumb and index
  landmarks, so every property holds for any distance; the map is computed over exact
  reals.
- The colour-to-gray conversion (line 146). It is a function parameter `gray`.
- The two `time.time()` calls (lines 76 and 78). They are one `now` per frame.
