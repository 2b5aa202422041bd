/** Finger-state extraction and the per-frame pose tests of the virtual marker
    (Homepage.py, lines 34 and 62-138). */
module Gesture {

  /** A hand landmark in frame pixel coordinates. */
  datatype Point = Point(x: int, y: int)

  /** A finger state as the source stores it: the integer 1 (up) or 0 (down). */
  type Bit = b: int | 0 <= b <= 1

  /** Number of landmarks the hand detector reports for one hand. */
  const LandmarkCount: nat := 21

  /** Landmark indexes of the five fingertips, thumb to pinky. */
  const TipIds: seq<nat> := [4, 8, 12, 16, 20]

  /** Landmark of the index fingertip, the pen. */
  const IndexTip: nat := 8

  function Up(c: bool): Bit { if c then 1 else 0 }

  /** The finger vector, thumb to pinky: the thumb is up when its tip lies left of
      the joint below it; every other finger is up when its tip lies above the
      joint two landmarks below it. */
  function FingerVector(p: seq<Point>): (f: seq<Bit>)
    requires |p| == LandmarkCount
  {
    [Up(p[4].x < p[3].x),
     Up(p[8].y < p[6].y),
     Up(p[12].y < p[10].y),
     Up(p[16].y < p[14].y),
     Up(p[20].y < p[18].y)]
  }

  /** The loop that builds the finger vector one fingertip at a time. */
  method DetectFingers(points: seq<Point>) returns (fingers: seq<Bit>)
    requires |points| == LandmarkCount
    ensures |fingers| == 5
    ensures fingers == FingerVector(points)
  {
    fingers := [];
    for id := 0 to 5
      invariant fingers == FingerVector(points)[..id]
    {
      if id == 0 {
        fingers := fingers + [if points[TipIds[id]].x < points[TipIds[id] - 1].x then 1 else 0];
      } else {
        fingers := fingers + [if points[TipIds[id]].y < points[TipIds[id] - 2].y then 1 else 0];
      }
    }
  }

  /** Index, middle and ring up; thumb and pinky down. */
  predicate LockPose(f: seq<Bit>) { f == [0, 1, 1, 1, 0] }

  /** Index, middle, ring and pinky up; thumb down. */
  predicate UnlockPose(f: seq<Bit>) { f == [0, 1, 1, 1, 1] }

  /** Index and middle up; thumb, ring and pinky down. */
  predicate SelectionPose(f: seq<Bit>)
    requires |f| == 5
  {
    f[1] == 1 && f[2] == 1 && !(f[0] == 1 || f[3] == 1 || f[4] == 1)
  }

  /** Index and pinky up; thumb, middle and ring down. */
  predicate StandbyPose(f: seq<Bit>)
    requires |f| == 5
  {
    f[1] == 1 && f[4] == 1 && !(f[0] == 1 || f[2] == 1 || f[3] == 1)
  }

  /** Index up; thumb, middle and ring down. The pinky is not examined. */
  predicate DrawPose(f: seq<Bit>)
    requires |f| == 5
  {
    f[1] == 1 && !(f[0] == 1 || f[2] == 1 || f[3] == 1)
  }

  /** Index and thumb up; middle, ring and pinky down. */
  predicate ThicknessPose(f: seq<Bit>)
    requires |f| == 5
  {
    f[1] == 1 && f[0] == 1 && !(f[2] == 1 || f[3] == 1 || f[4] == 1)
  }

  /** No finger up. */
  predicate ClearPose(f: seq<Bit>)
    requires |f| == 5
  {
    !(f[0] == 1 || f[1] == 1 || f[2] == 1 || f[3] == 1 || f[4] == 1)
  }

  /** The state-changing drawing modes; Idle stands for "no branch fires". */
  datatype Mode = Selection | Draw | ThicknessAdjust | Clear | Idle

  /** A first-match classification of the finger vector. Its contract says that
      the first-match order is immaterial: each mode is chosen exactly when its
      pose holds, so no two state-changing poses overlap. */
  function Classify(f: seq<Bit>): (m: Mode)
    requires |f| == 5
    ensures m == Selection <==> SelectionPose(f)
    ensures m == Draw <==> DrawPose(f)
    ensures m == ThicknessAdjust <==> ThicknessPose(f)
    ensures m == Clear <==> ClearPose(f)
    ensures LockPose(f) || UnlockPose(f) ==> m == Idle
    ensures StandbyPose(f) ==> m == Draw
  {
    if SelectionPose(f) then Selection
    else if DrawPose(f) then Draw
    else if ThicknessPose(f) then ThicknessAdjust
    else if ClearPose(f) then Clear
    else Idle
  }
}
