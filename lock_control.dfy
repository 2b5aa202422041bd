/** The lock latch with its one-second debounce (Homepage.py, lines 37-39 and 76-85). */
module LockControl {
  import opened Gesture

  /** Whether drawing is locked, and the time of the last toggle in seconds. */
  datatype LockState = LockState(locked: bool, lockTime: real)

  const InitialLock: LockState := LockState(false, 0.0)

  /** Minimum time, in seconds, that must strictly elapse between two toggles. */
  const Debounce: real := 1.0

  /** The lock or unlock pose is shown and the debounce time has passed. */
  predicate Fires(l: LockState, f: seq<Bit>, now: real) {
    (LockPose(f) || UnlockPose(f)) && now - l.lockTime > Debounce
  }

  /** One lock check; `now` is the frame's wall-clock time. */
  function LockUpdate(l: LockState, f: seq<Bit>, now: real): (r: LockState)
    ensures r != l <==> Fires(l, f, now)
    ensures Fires(l, f, now) ==> r == LockState(LockPose(f), now)
  {
    if f == [0, 1, 1, 1, 0] && now - l.lockTime > 1.0 then LockState(true, now)
    else if f == [0, 1, 1, 1, 1] && now - l.lockTime > 1.0 then LockState(false, now)
    else l
  }

  /** A timed finger vector: what one frame shows the lock controller. */
  type Sample = (seq<Bit>, real)

  /** The latch after a sequence of frames. */
  function LockRun(l: LockState, frames: seq<Sample>): LockState
    decreases |frames|
  {
    if frames == [] then l else LockRun(LockUpdate(l, frames[0].0, frames[0].1), frames[1..])
  }

  /** How many of the frames toggle the latch. */
  function ToggleCount(l: LockState, frames: seq<Sample>): nat
    decreases |frames|
  {
    if frames == [] then 0
    else
      (if Fires(l, frames[0].0, frames[0].1) then 1 else 0)
      + ToggleCount(LockUpdate(l, frames[0].0, frames[0].1), frames[1..])
  }

  /** Frames no later than one second after the last toggle change nothing. */
  lemma {:induction false} QuietWithinDebounce(l: LockState, frames: seq<Sample>)
    requires forall k :: 0 <= k < |frames| ==> frames[k].1 - l.lockTime <= Debounce
    ensures ToggleCount(l, frames) == 0
    ensures LockRun(l, frames) == l
  {
    if frames != [] {
      assert !Fires(l, frames[0].0, frames[0].1);
      assert forall k :: 0 <= k < |frames[1..]| ==> frames[1..][k] == frames[k + 1];
      QuietWithinDebounce(l, frames[1..]);
    }
  }

  /** Within any window of one second, whatever poses are shown, the latch toggles at most once. */
  lemma {:induction false} AtMostOneToggleWithinDebounce(l: LockState, frames: seq<Sample>, t: real)
    requires forall k :: 0 <= k < |frames| ==> t <= frames[k].1 <= t + Debounce
    ensures ToggleCount(l, frames) <= 1
  {
    if frames != [] {
      var l' := LockUpdate(l, frames[0].0, frames[0].1);
      assert forall k :: 0 <= k < |frames[1..]| ==> frames[1..][k] == frames[k + 1];
      if Fires(l, frames[0].0, frames[0].1) {
        assert l'.lockTime == frames[0].1 >= t;
        QuietWithinDebounce(l', frames[1..]);
      } else {
        AtMostOneToggleWithinDebounce(l', frames[1..], t);
      }
    }
  }

  /** The lock pose held from 1.2 s locks once; showing it again at 1.5 s changes nothing. */
  lemma HeldLockPoseScenario()
    ensures LockUpdate(InitialLock, [0, 1, 1, 1, 0], 1.2) == LockState(true, 1.2)
    ensures LockUpdate(LockState(true, 1.2), [0, 1, 1, 1, 0], 1.5) == LockState(true, 1.2)
  {
  }
}
