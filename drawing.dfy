/** The per-hand drawing state machine of the virtual marker (Homepage.py,
    lines 20, 31-39 and 56-140): lock check, then the Selection, Standby, Draw,
    Thickness and Clear branches as independent tests. */
module Drawing {
  import opened Gesture
  import opened Palette
  import opened StrokeWidth
  import opened LockControl

  /** One stroke drawn on the canvas: a line from `from` to `to`. */
  datatype Segment = Segment(from: Point, to: Point, color: Color, thickness: int)

  /** One detected hand: its landmarks and the thumb-to-index distance that
      `math.hypot` measures for it (foreign code, so the distance is given, not computed). */
  datatype Hand = Hand(points: seq<Point>, pinch: real)

  /** A full landmark set with a distance that is not negative. */
  predicate WellFormed(h: Hand) {
    |h.points| == LandmarkCount && h.pinch >= 0.0
  }

  /** The "no previous point" position of the pen. */
  const NoPen: Point := Point(0, 0)

  /** Everything the session keeps from frame to frame. */
  datatype State = State(
    lock: LockState,
    pen: Point,
    header: nat,
    drawColor: Color,
    thickness: int,
    canvas: seq<Segment>)

  const DefaultThickness: int := 20

  /** Header 0 with magenta, thickness 20, an empty canvas, no pen, unlocked. */
  const Initial: State :=
    State(InitialLock, NoPen, 0, Color(255, 0, 255), DefaultThickness, [])

  /** The header image and the colour are a matched swatch pair; the thickness,
      and every segment's colour and thickness, are ones the controls can produce. */
  predicate Valid(s: State) {
    s.header < |Swatches|
    && s.drawColor == Swatches[s.header]
    && 5 <= s.thickness <= 50
    && forall k :: 0 <= k < |s.canvas| ==>
         s.canvas[k].color in Swatches && 5 <= s.canvas[k].thickness <= 50
  }

  /** Selection: the pen moves to the fingertip; a swatch under it is chosen. */
  function Select(s: State, tip: Point): State {
    var s' := s.(pen := tip);
    match SwatchAt(tip.x, tip.y)
    case Some(i) => s'.(header := i, drawColor := Swatches[i])
    case None => s'
  }

  /** Draw: a segment from the previous pen position (or the tip itself when there
      is none) to the tip, in the current colour and thickness; the pen follows. */
  function DrawTo(s: State, tip: Point): State {
    var from := if s.pen == NoPen then tip else s.pen;
    s.(canvas := s.canvas + [Segment(from, tip, s.drawColor, s.thickness)], pen := tip)
  }

  /** Thickness: the pinch distance sets the stroke thickness. */
  function Resize(s: State, pinch: real): State {
    s.(thickness := ThicknessFor(pinch))
  }

  /** Clear: a blank canvas and no pen. */
  function Wipe(s: State): State {
    s.(canvas := Initial.canvas, pen := NoPen)
  }

  /** The state after processing one detected hand at time `now`. When the lock
      check leaves the session locked, the drawing branches are skipped. */
  function HandStep(s: State, h: Hand, now: real): (r: State)
    requires WellFormed(h)
    ensures r.lock == LockUpdate(s.lock, FingerVector(h.points), now)
  {
    var f := FingerVector(h.points);
    var tip := h.points[IndexTip];
    var s0 := s.(lock := LockUpdate(s.lock, f, now));
    if s0.lock.locked then s0
    else
      var s1 := if SelectionPose(f) then Select(s0, tip) else s0;
      // Standby (StandbyPose) changes nothing.
      var s2 := if DrawPose(f) && !s1.lock.locked then DrawTo(s1, tip) else s1;
      var s3 := if ThicknessPose(f) && !s2.lock.locked then Resize(s2, h.pinch) else s2;
      if ClearPose(f) && !s3.lock.locked then Wipe(s3) else s3
  }

  /** The state after processing every hand the detector reports in one frame. */
  function FrameStep(s: State, hands: seq<Hand>, now: real): (r: State)
    requires forall k :: 0 <= k < |hands| ==> WellFormed(hands[k])
    ensures hands == [] ==> r == s
    decreases |hands|
  {
    if hands == [] then s else FrameStep(HandStep(s, hands[0], now), hands[1..], now)
  }

  /** The single action a mode performs. */
  function Apply(s: State, m: Mode, h: Hand): State
    requires |h.points| == LandmarkCount
  {
    match m
    case Selection => Select(s, h.points[IndexTip])
    case Draw => DrawTo(s, h.points[IndexTip])
    case ThicknessAdjust => Resize(s, h.pinch)
    case Clear => Wipe(s)
    case Idle => s
  }

  /** The independent tests amount to one first-match dispatch: at most one of
      Selection, Draw, Thickness and Clear changes the state in a hand step. */
  lemma HandStepIsSingleDispatch(s: State, h: Hand, now: real)
    requires WellFormed(h)
    ensures var f := FingerVector(h.points);
            var l := LockUpdate(s.lock, f, now);
            HandStep(s, h, now) == if l.locked then s.(lock := l) else Apply(s.(lock := l), Classify(f), h)
  {
  }

  /** The lock and unlock poses only ever move the latch. */
  lemma LockPosesDrawNothing(s: State, h: Hand, now: real)
    requires WellFormed(h)
    requires LockPose(FingerVector(h.points)) || UnlockPose(FingerVector(h.points))
    ensures HandStep(s, h, now) == s.(lock := LockUpdate(s.lock, FingerVector(h.points), now))
  {
    HandStepIsSingleDispatch(s, h, now);
  }

  /** A hand step that ends locked leaves pen, header, colour, thickness and canvas as they were. */
  lemma LockedStepIsInert(s: State, h: Hand, now: real)
    requires WellFormed(h)
    requires HandStep(s, h, now).lock.locked
    ensures HandStep(s, h, now) == s.(lock := HandStep(s, h, now).lock)
  {
  }

  /** Selection pose while unlocked: the pen jumps to the index tip and the header
      and colour switch to the swatch under it, or stay when there is none. */
  lemma SelectionBehaviour(s: State, h: Hand, now: real)
    requires WellFormed(h) && !s.lock.locked
    requires SelectionPose(FingerVector(h.points))
    ensures var r := HandStep(s, h, now);
            var tip := h.points[IndexTip];
            r.pen == tip && r.lock == s.lock
            && r.thickness == s.thickness && r.canvas == s.canvas
            && (if tip.y < HeaderHeight && 170 < tip.x < 295 then r.header == 0 && r.drawColor == Color(255, 0, 255)
                else if tip.y < HeaderHeight && 436 < tip.x < 561 then r.header == 1 && r.drawColor == Color(0, 255, 255)
                else if tip.y < HeaderHeight && 700 < tip.x < 825 then r.header == 2 && r.drawColor == Color(0, 255, 0)
                else if tip.y < HeaderHeight && 980 < tip.x < 1105 then r.header == 3 && r.drawColor == Color(0, 0, 0)
                else r.header == s.header && r.drawColor == s.drawColor)
  {
    var tip := h.points[IndexTip];
    assert !Fires(s.lock, FingerVector(h.points), now);
    assert InBand(tip.x, 0) <==> 170 < tip.x < 295;
    assert InBand(tip.x, 1) <==> 436 < tip.x < 561;
    assert InBand(tip.x, 2) <==> 700 < tip.x < 825;
    assert InBand(tip.x, 3) <==> 980 < tip.x < 1105;
  }

  /** Draw pose while unlocked (pinky either way): exactly one segment is appended,
      starting at the previous pen position or at the tip when there is none. */
  lemma DrawBehaviour(s: State, h: Hand, now: real)
    requires WellFormed(h) && !s.lock.locked
    requires DrawPose(FingerVector(h.points))
    ensures var r := HandStep(s, h, now);
            var tip := h.points[IndexTip];
            r.canvas == s.canvas + [Segment(if s.pen == Point(0, 0) then tip else s.pen, tip, s.drawColor, s.thickness)]
            && r.pen == tip
            && r.lock == s.lock && r.header == s.header
            && r.drawColor == s.drawColor && r.thickness == s.thickness
  {
    assert !Fires(s.lock, FingerVector(h.points), now);
  }

  /** The standby pose passes the draw test too, so it draws. */
  lemma StandbyDraws(s: State, h: Hand, now: real)
    requires WellFormed(h) && !s.lock.locked
    requires StandbyPose(FingerVector(h.points))
    ensures |HandStep(s, h, now).canvas| == |s.canvas| + 1
    ensures HandStep(s, h, now).pen == h.points[IndexTip]
  {
    DrawBehaviour(s, h, now);
  }

  /** Two draw frames in a row join into a continuous stroke through the first tip. */
  lemma ConsecutiveDrawsConnect(s: State, h1: Hand, h2: Hand, t1: real, t2: real)
    requires WellFormed(h1) && WellFormed(h2) && !s.lock.locked
    requires DrawPose(FingerVector(h1.points)) && DrawPose(FingerVector(h2.points))
    requires h1.points[IndexTip] != NoPen
    ensures var r := HandStep(HandStep(s, h1, t1), h2, t2);
            var a := h1.points[IndexTip];
            |r.canvas| == |s.canvas| + 2
            && r.canvas[|s.canvas| + 1] == Segment(a, h2.points[IndexTip], s.drawColor, s.thickness)
            && r.canvas[|s.canvas|].to == a
  {
    DrawBehaviour(s, h1, t1);
    DrawBehaviour(HandStep(s, h1, t1), h2, t2);
  }

  /** Thickness pose while unlocked: only the thickness changes, to the mapped pinch distance. */
  lemma ThicknessBehaviour(s: State, h: Hand, now: real)
    requires WellFormed(h) && !s.lock.locked
    requires ThicknessPose(FingerVector(h.points))
    ensures HandStep(s, h, now) == s.(thickness := ThicknessFor(h.pinch))
  {
    assert !Fires(s.lock, FingerVector(h.points), now);
  }

  /** Clear pose while unlocked: canvas and pen return to their initial values;
      lock, header, colour and thickness stay. */
  lemma ClearBehaviour(s: State, h: Hand, now: real)
    requires WellFormed(h) && !s.lock.locked
    requires ClearPose(FingerVector(h.points))
    ensures var r := HandStep(s, h, now);
            r.canvas == Initial.canvas && r.pen == Initial.pen
            && r.lock == s.lock && r.header == s.header
            && r.drawColor == s.drawColor && r.thickness == s.thickness
  {
    assert !Fires(s.lock, FingerVector(h.points), now);
  }

  /** A pose that matches no branch changes nothing but, possibly, the latch. */
  lemma IdleBehaviour(s: State, h: Hand, now: real)
    requires WellFormed(h)
    requires Classify(FingerVector(h.points)) == Idle
    ensures HandStep(s, h, now) == s.(lock := LockUpdate(s.lock, FingerVector(h.points), now))
  {
    HandStepIsSingleDispatch(s, h, now);
  }

  /** A hand step keeps the palette pair matched and all thicknesses in range. */
  lemma HandStepPreservesValid(s: State, h: Hand, now: real)
    requires WellFormed(h) && Valid(s)
    ensures Valid(HandStep(s, h, now))
  {
    var f := FingerVector(h.points);
    var tip := h.points[IndexTip];
    var s0 := s.(lock := LockUpdate(s.lock, f, now));
    assert Valid(s0);
    assert Valid(Select(s0, tip));
    assert Valid(DrawTo(s0, tip));
    assert Valid(Resize(s0, h.pinch));
    assert Valid(Wipe(s0));
    HandStepIsSingleDispatch(s, h, now);
  }

  /** The initial state is valid, and so is every state a sequence of frames reaches. */
  lemma {:induction false} FrameStepPreservesValid(s: State, hands: seq<Hand>, now: real)
    requires forall k :: 0 <= k < |hands| ==> WellFormed(hands[k])
    requires Valid(s)
    ensures Valid(Initial)
    ensures Valid(FrameStep(s, hands, now))
    decreases |hands|
  {
    if hands != [] {
      HandStepPreservesValid(s, hands[0], now);
      FrameStepPreservesValid(HandStep(s, hands[0], now), hands[1..], now);
    }
  }

  /** The session's mutable state as the source keeps it: module-level variables
      updated frame by frame. */
  class Session {
    var isLocked: bool
    var lockTime: real
    var xp: int
    var yp: int
    var header: nat
    var drawColor: Color
    var thickness: int
    var canvas: seq<Segment>

    function Current(): State
      reads this
    {
      State(LockState(isLocked, lockTime), Point(xp, yp), header, drawColor, thickness, canvas)
    }

    constructor ()
      ensures Current() == Initial
      ensures Valid(Current())
    {
      isLocked, lockTime := false, 0.0;
      xp, yp := 0, 0;
      header, drawColor, thickness := 0, Color(255, 0, 255), 20;
      canvas := [];
    }

    /** The body of the per-hand loop: the lock check, then the mode branches. */
    method HandleHand(h: Hand, now: real)
      requires WellFormed(h)
      modifies this
      ensures Current() == HandStep(old(Current()), h, now)
      ensures Valid(old(Current())) ==> Valid(Current())
    {
      ghost var s := Current();
      var fingers := DetectFingers(h.points);
      var x1, y1 := h.points[IndexTip].x, h.points[IndexTip].y;

      if fingers == [0, 1, 1, 1, 0] && now - lockTime > 1.0 {
        isLocked, lockTime := true, now;
      } else if fingers == [0, 1, 1, 1, 1] && now - lockTime > 1.0 {
        isLocked, lockTime := false, now;
      }
      if isLocked {
        if Valid(s) { HandStepPreservesValid(s, h, now); }
        return;
      }

      if SelectionPose(fingers) {
        xp, yp := x1, y1;
        match SwatchAt(x1, y1)
        case Some(i) => header, drawColor := i, Swatches[i];
        case None =>
      }
      // Standby mode: the source's branch does nothing.
      if DrawPose(fingers) && !isLocked {
        if xp == 0 && yp == 0 {
          xp, yp := x1, y1;
        }
        canvas := canvas + [Segment(Point(xp, yp), Point(x1, y1), drawColor, thickness)];
        xp, yp := x1, y1;
      }
      if ThicknessPose(fingers) && !isLocked {
        thickness := ThicknessFor(h.pinch);
      }
      if ClearPose(fingers) && !isLocked {
        canvas := [];
        xp, yp := 0, 0;
      }
      if Valid(s) { HandStepPreservesValid(s, h, now); }
    }

    /** One frame: every hand the detector reports, in order; no hand, no change. */
    method ProcessFrame(hands: seq<Hand>, now: real)
      requires forall k :: 0 <= k < |hands| ==> WellFormed(hands[k])
      modifies this
      ensures Current() == FrameStep(old(Current()), hands, now)
      ensures Valid(old(Current())) ==> Valid(Current())
    {
      for i := 0 to |hands|
        invariant FrameStep(old(Current()), hands, now) == FrameStep(Current(), hands[i..], now)
        invariant Valid(old(Current())) ==> Valid(Current())
      {
        assert hands[i..][1..] == hands[i + 1..];
        HandleHand(hands[i], now);
      }
    }
  }
}
