/**
 The frame-index arithmetic of player.py `animate`. Image selection and
 rotation are presentation and are not modelled; only which frame index is
 current, when it advances, and when a canned (reload or melee) animation
 ends.
 */
module Animation {
  import opened Options
  import opened Settings
  import opened Player

  /** An animation strip: its number of frames and the milliseconds each frame is held. */
  datatype Strip = Strip(frames: nat, time: int)

  /** Every animation strip has at least one frame. */
  predicate StripsNonEmpty(strips: (Weapon, Action) -> Strip)
  {
    forall wp, act :: strips(wp, act).frames > 0
  }

  /** An index Python accepts for a list of `n` elements (negative indices count from the end). */
  predicate IndexInList(i: int, n: nat)
  {
    -(n as int) <= i < n
  }

  /** The strip `animate` reads: the canned one while it plays, otherwise the current action's. */
  function ActiveStrip(p: PlayerState, strips: (Weapon, Action) -> Strip): Strip
    requires p.playStatic ==> p.canned.Some?
  {
    if p.playStatic then strips(p.weapon, p.canned.value) else strips(p.weapon, p.action)
  }

  /** The active strip's frame time has strictly elapsed since the last frame change. */
  predicate FrameDue(p: PlayerState, now: int, strips: (Weapon, Action) -> Strip)
    requires p.playStatic ==> p.canned.Some?
  {
    now - p.lastUpdate > ActiveStrip(p, strips).time
  }

  /**
   `animate`: a looping animation keeps the frame inside its strip and
   advances it cyclically when due; a canned animation advances when due
   and, once the index runs off its strip, ends and hands back to the
   regular action at frame 0.
   */
  function Animate(p: PlayerState, now: int, strips: (Weapon, Action) -> Strip): (q: PlayerState)
    requires p.playStatic ==> p.canned.Some?
    requires !p.playStatic ==> strips(p.weapon, p.action).frames > 0
    ensures q.playStatic ==> q.canned.Some?
    ensures q == p.(currentFrame := q.currentFrame, lastUpdate := q.lastUpdate,
                    playStatic := q.playStatic, canned := q.canned)
    ensures q.lastUpdate == (if FrameDue(p, now, strips) then now else p.lastUpdate)
    ensures !p.playStatic ==>
              var n := strips(p.weapon, p.action).frames;
              && !q.playStatic && q.canned == p.canned
              && 0 <= q.currentFrame < n
              && (!FrameDue(p, now, strips) ==> q.currentFrame == p.currentFrame % n)
              && (FrameDue(p, now, strips) ==>
                    if p.currentFrame % n == n - 1 then q.currentFrame == 0 else q.currentFrame == p.currentFrame % n + 1)
    ensures p.playStatic && !FrameDue(p, now, strips) ==> q == p
    ensures p.playStatic && FrameDue(p, now, strips) ==>
              if IndexInList(p.currentFrame + 1, ActiveStrip(p, strips).frames)
              then q.playStatic && q.canned == p.canned && q.currentFrame == p.currentFrame + 1
              else !q.playStatic && q.canned == None && q.currentFrame == 0
  {
    if !p.playStatic then
      var n := strips(p.weapon, p.action).frames;
      var frame := p.currentFrame % n;
      if now - p.lastUpdate > strips(p.weapon, p.action).time then
        p.(lastUpdate := now, currentFrame := (frame + 1) % n)
      else
        p.(currentFrame := frame)
    else
      var strip := strips(p.weapon, p.canned.value);
      if now - p.lastUpdate > strip.time then
        var next := p.currentFrame + 1;
        if -(strip.frames as int) <= next < strip.frames then
          p.(lastUpdate := now, currentFrame := next)
        else
          p.(lastUpdate := now, currentFrame := 0, playStatic := false, canned := None)
      else
        p
  }

  /** Animation keeps the player's invariant. */
  lemma AnimateKeepsWellformed(p: PlayerState, now: int, strips: (Weapon, Action) -> Strip, cfg: Config)
    requires Wellformed(p, cfg) && StripsNonEmpty(strips)
    ensures Wellformed(Animate(p, now, strips), cfg)
  {
  }

  /** `animate` called at each tick of `nows` in turn. */
  function AnimateRun(p: PlayerState, nows: seq<int>, strips: (Weapon, Action) -> Strip): (q: PlayerState)
    requires p.playStatic ==> p.canned.Some?
    requires StripsNonEmpty(strips)
    ensures q.playStatic ==> q.canned.Some?
    decreases |nows|
  {
    if |nows| == 0 then p
    else Animate(AnimateRun(p, nows[..|nows| - 1], strips), nows[|nows| - 1], strips)
  }

  /** Every tick of `nows` comes strictly more than `time` ms after the previous one (the first after `last`). */
  predicate EveryTickDue(last: int, nows: seq<int>, time: int)
  {
    && (|nows| > 0 ==> nows[0] - last > time)
    && (forall i :: 0 < i < |nows| ==> nows[i] - nows[i - 1] > time)
  }

  /**
   A canned animation started at frame 0 shows each later frame of its
   strip once per due tick and ends on exactly the tick after its last
   frame: after `k < n` due ticks it is at frame `k`, after `n` it is over.
   */
  lemma {:induction false} CannedAnimationPlaysThrough(p: PlayerState, nows: seq<int>, strips: (Weapon, Action) -> Strip)
    requires StripsNonEmpty(strips)
    requires p.playStatic && p.canned.Some? && p.currentFrame == 0
    requires EveryTickDue(p.lastUpdate, nows, strips(p.weapon, p.canned.value).time)
    requires |nows| <= strips(p.weapon, p.canned.value).frames
    ensures var q := AnimateRun(p, nows, strips);
            && (|nows| < strips(p.weapon, p.canned.value).frames ==>
                  q.playStatic && q.canned == p.canned && q.currentFrame == |nows|)
            && (|nows| == strips(p.weapon, p.canned.value).frames ==>
                  !q.playStatic && q.canned == None && q.currentFrame == 0)
            && (|nows| > 0 ==> q.lastUpdate == nows[|nows| - 1])
            && q.weapon == p.weapon
    decreases |nows|
  {
    if |nows| > 0 {
      var prefix := nows[..|nows| - 1];
      CannedAnimationPlaysThrough(p, prefix, strips);
    }
  }
}
