/**
 The round-robin path-search scheduler of main.py
 (`Game.update_pathfinding_queue`). Once per window of more than 5000 ms,
 the mob at the cursor position of the mob group gets `can_find_path`
 and every other mob loses it; the cursor then moves on by one.

 The mob group is represented by the sequence of the mobs'
 `can_find_path` flags, in group order; its length is the mob count.
 */
module Scheduler {

  /** Milliseconds a window must strictly exceed before the next mob's turn. */
  const Window: int := 5000

  /** `mob_idx` and `last_queue_update`. */
  datatype Schedule = Schedule(mobIdx: nat, lastQueueUpdate: int)

  /** One call's outcome: the new schedule and the mobs' `can_find_path` flags. */
  datatype Tick = Tick(schedule: Schedule, canFindPath: seq<bool>)

  /** The schedule a new level starts with (main.py `Game.new`). */
  function Initial(): (s: Schedule)
    ensures s.mobIdx == 0 && s.lastQueueUpdate == 0
  {
    Schedule(0, 0)
  }

  /** The window has strictly elapsed at tick `now`. */
  predicate Fires(s: Schedule, now: int)
  {
    now - s.lastQueueUpdate > Window
  }

  /** The position whose mob a firing window flags: the cursor, wrapped to 0 only when it equals the mob count. */
  function Cursor(s: Schedule, n: nat): nat
  {
    if s.mobIdx == n then 0 else s.mobIdx
  }

  /**
   One call of `update_pathfinding_queue` at tick `now` on mobs whose
   flags are `mobs`. Nothing changes unless the window fires. A firing
   window stamps `now`, flags exactly the mob at the cursor position (none
   if the cursor is past the last mob) and advances the cursor by one.
   */
  function Step(s: Schedule, now: int, mobs: seq<bool>): (r: Tick)
    ensures |r.canFindPath| == |mobs|
    ensures !Fires(s, now) ==> r == Tick(s, mobs)
    ensures Fires(s, now) ==>
              && r.schedule.lastQueueUpdate == now
              && r.schedule.mobIdx == Cursor(s, |mobs|) + 1
              && (forall i :: 0 <= i < |mobs| ==> (r.canFindPath[i] <==> i == Cursor(s, |mobs|)))
  {
    if now - s.lastQueueUpdate > Window then
      var idx := if s.mobIdx == |mobs| then 0 else s.mobIdx;
      Tick(Schedule(idx + 1, now), seq(|mobs|, i => i == idx))
    else
      Tick(s, mobs)
  }

  /**
   The same call as a loop over the mob group, as the Python code walks it
   with a running `count`.
   */
  method UpdatePathfindingQueue(s: Schedule, now: int, mobs: seq<bool>) returns (s': Schedule, flags: seq<bool>)
    ensures Tick(s', flags) == Step(s, now, mobs)
  {
    if now - s.lastQueueUpdate > Window {
      var idx := s.mobIdx;
      if idx == |mobs| {
        idx := 0;
      }
      flags := [];
      var count := 0;
      while count < |mobs|
        invariant 0 <= count <= |mobs|
        invariant |flags| == count
        invariant forall k :: 0 <= k < count ==> (flags[k] <==> k == idx)
      {
        flags := flags + [count == idx];
        count := count + 1;
      }
      s' := Schedule(idx + 1, now);
    } else {
      s', flags := s, mobs;
    }
  }

  /** With a non-empty group and the cursor at most the mob count, a step keeps the cursor at most the mob count. */
  lemma StepKeepsCursorInRange(s: Schedule, now: int, mobs: seq<bool>)
    requires |mobs| >= 1 && s.mobIdx <= |mobs|
    ensures Step(s, now, mobs).schedule.mobIdx <= |mobs|
    ensures Fires(s, now) ==> Step(s, now, mobs).schedule.mobIdx >= 1
  {
  }

  /** With the cursor in range, a firing window flags exactly one mob. */
  lemma FiringFlagsExactlyOne(s: Schedule, now: int, mobs: seq<bool>)
    requires |mobs| >= 1 && s.mobIdx <= |mobs| && Fires(s, now)
    ensures var c := Cursor(s, |mobs|);
            && 0 <= c < |mobs|
            && Step(s, now, mobs).canFindPath[c]
            && forall i :: 0 <= i < |mobs| && i != c ==> !Step(s, now, mobs).canFindPath[i]
  {
  }

  // ----- consecutive calls -----

  /** The schedule after a run of calls and the flags after each call. */
  datatype Trace = Trace(schedule: Schedule, history: seq<seq<bool>>)

  /** Calls at the ticks `nows`, in order. */
  function Run(s: Schedule, mobs: seq<bool>, nows: seq<int>): (t: Trace)
    ensures |t.history| == |nows|
    ensures forall i :: 0 <= i < |nows| ==> |t.history[i]| == |mobs|
    decreases |nows|
  {
    if |nows| == 0 then
      Trace(s, [])
    else
      var r := Step(s, nows[0], mobs);
      var rest := Run(r.schedule, r.canFindPath, nows[1..]);
      Trace(rest.schedule, [r.canFindPath] + rest.history)
  }

  /** Every tick of `nows` fires: each is more than a window after the previous one (the first after `last`). */
  predicate EveryWindowFires(last: int, nows: seq<int>)
    decreases |nows|
  {
    |nows| == 0 || (nows[0] - last > Window && EveryWindowFires(nows[0], nows[1..]))
  }

  /** The position flagged `i` windows after a window that flags position `c`, in a group of `n` (for `i < n`). */
  function Turn(c: nat, i: nat, n: nat): nat
    requires c < n && i < n
  {
    if c + i < n then c + i else c + i - n
  }

  /** How many windows after position `c` the position `j` comes up: the inverse of `Turn`. */
  function Offset(c: nat, j: nat, n: nat): nat
    requires c < n && j < n
  {
    if j >= c then j - c else j + n - c
  }

  /** `Turn` and `Offset` undo each other, so `n` consecutive turns visit every position exactly once. */
  lemma TurnOffsetInverse(c: nat, n: nat)
    requires c < n
    ensures forall j :: 0 <= j < n ==> Offset(c, j, n) < n && Turn(c, Offset(c, j, n), n) == j
    ensures forall i :: 0 <= i < n ==> Offset(c, Turn(c, i, n), n) == i
  {
  }

  /**
   Over consecutive firing windows with a stable group of `n >= 1` mobs and
   the cursor in range, the `i`-th window flags exactly the mob `i`
   positions after the first flagged one, wrapping around the group.
   */
  lemma {:induction false} RoundRobin(s: Schedule, mobs: seq<bool>, nows: seq<int>)
    requires |mobs| >= 1 && s.mobIdx <= |mobs|
    requires EveryWindowFires(s.lastQueueUpdate, nows) && |nows| <= |mobs|
    ensures Run(s, mobs, nows).schedule.mobIdx <= |mobs|
    ensures forall i, j :: 0 <= i < |nows| && 0 <= j < |mobs| ==>
              (Run(s, mobs, nows).history[i][j] <==> j == Turn(Cursor(s, |mobs|), i, |mobs|))
    decreases |nows|
  {
    if |nows| > 0 {
      var n := |mobs|;
      var c := Cursor(s, n);
      var r := Step(s, nows[0], mobs);
      RoundRobin(r.schedule, r.canFindPath, nows[1..]);
      var t := Run(s, mobs, nows);
      var rest := Run(r.schedule, r.canFindPath, nows[1..]);
      assert t.history == [r.canFindPath] + rest.history;
      forall i, j | 0 <= i < |nows| && 0 <= j < n
        ensures t.history[i][j] <==> j == Turn(c, i, n)
      {
        if i > 0 {
          assert t.history[i] == rest.history[i - 1];
          assert Turn(Cursor(r.schedule, n), i - 1, n) == Turn(c, i, n);
        }
      }
    }
  }

  /** Mob `j` is flagged in exactly one of the windows recorded in `history`. */
  predicate FlaggedOnce(history: seq<seq<bool>>, j: int)
  {
    && (exists i :: 0 <= i < |history| && 0 <= j < |history[i]| && history[i][j])
    && (forall i1, i2 ::
          (0 <= i1 < |history| && 0 <= i2 < |history| && 0 <= j < |history[i1]| && 0 <= j < |history[i2]|
           && history[i1][j] && history[i2][j]) ==> i1 == i2)
  }

  /**
   Fairness: over any `n` consecutive firing windows of a stable group of
   `n >= 1` mobs, starting with the cursor in range, every mob is flagged
   in exactly one window.
   */
  lemma EachMobOncePerRound(s: Schedule, mobs: seq<bool>, nows: seq<int>)
    requires |mobs| >= 1 && s.mobIdx <= |mobs|
    requires EveryWindowFires(s.lastQueueUpdate, nows) && |nows| == |mobs|
    ensures forall j :: 0 <= j < |mobs| ==> FlaggedOnce(Run(s, mobs, nows).history, j)
  {
    var n := |mobs|;
    var c := Cursor(s, n);
    var h := Run(s, mobs, nows).history;
    RoundRobin(s, mobs, nows);
    TurnOffsetInverse(c, n);
    forall j | 0 <= j < n
      ensures FlaggedOnce(h, j)
    {
      assert h[Offset(c, j, n)][j];
    }
  }

  /** The flags the group holds after a run: the last window's flags, or the starting ones when nothing ran. */
  function FinalFlags(t: Trace, mobs: seq<bool>): seq<bool>
  {
    if |t.history| == 0 then mobs else t.history[|t.history| - 1]
  }

  /**
   Running the ticks `a` and then `b` is one run of `a + b`: the second
   part starts from the schedule and the flags the first part left.
   */
  lemma {:induction false} RunAppend(s: Schedule, mobs: seq<bool>, a: seq<int>, b: seq<int>)
    ensures var t := Run(s, mobs, a);
            var u := Run(t.schedule, FinalFlags(t, mobs), b);
            Run(s, mobs, a + b) == Trace(u.schedule, t.history + u.history)
    decreases |a|
  {
    if |a| == 0 {
      assert a + b == b;
    } else {
      var r := Step(s, a[0], mobs);
      assert (a + b)[0] == a[0];
      assert (a + b)[1..] == a[1..] + b;
      RunAppend(r.schedule, r.canFindPath, a[1..], b);
      var t' := Run(r.schedule, r.canFindPath, a[1..]);
      var t := Run(s, mobs, a);
      assert t == Trace(t'.schedule, [r.canFindPath] + t'.history);
      assert FinalFlags(t, mobs) == FinalFlags(t', r.canFindPath);
      var u := Run(t'.schedule, FinalFlags(t', r.canFindPath), b);
      assert [r.canFindPath] + (t'.history + u.history) == ([r.canFindPath] + t'.history) + u.history;
    }
  }

  /** A firing prefix of a run leaves the cursor in range and the remaining ticks still firing. */
  lemma {:induction false} RunPrefixKeepsFiring(s: Schedule, mobs: seq<bool>, a: seq<int>, b: seq<int>)
    requires |mobs| >= 1 && s.mobIdx <= |mobs|
    requires EveryWindowFires(s.lastQueueUpdate, a + b)
    ensures var t := Run(s, mobs, a);
            t.schedule.mobIdx <= |mobs| && EveryWindowFires(t.schedule.lastQueueUpdate, b)
    decreases |a|
  {
    if |a| == 0 {
      assert a + b == b;
    } else {
      var r := Step(s, a[0], mobs);
      assert (a + b)[0] == a[0];
      assert (a + b)[1..] == a[1..] + b;
      StepKeepsCursorInRange(s, a[0], mobs);
      RunPrefixKeepsFiring(r.schedule, r.canFindPath, a[1..], b);
    }
  }

  /**
   Fairness in every round, not just the first: a run of `a + b` over a
   stable group of `n >= 1` mobs is the run of `a` followed by windows `u`
   in which, for any `n` consecutive firing windows `b`, every mob is
   flagged exactly once.
   */
  lemma EveryRoundFair(s: Schedule, mobs: seq<bool>, a: seq<int>, b: seq<int>)
    requires |mobs| >= 1 && s.mobIdx <= |mobs|
    requires EveryWindowFires(s.lastQueueUpdate, a + b) && |b| == |mobs|
    ensures var t := Run(s, mobs, a);
            var u := Run(t.schedule, FinalFlags(t, mobs), b).history;
            && Run(s, mobs, a + b).history == t.history + u
            && forall j :: 0 <= j < |mobs| ==> FlaggedOnce(u, j)
  {
    var t := Run(s, mobs, a);
    var flags := FinalFlags(t, mobs);
    RunAppend(s, mobs, a, b);
    RunPrefixKeepsFiring(s, mobs, a, b);
    assert |flags| == |mobs| by {
      if |t.history| > 0 {
        assert |t.history[|t.history| - 1]| == |mobs|;
      }
    }
    EachMobOncePerRound(t.schedule, flags, b);
  }

  /**
   Once the cursor is past the last mob (the group shrank under it), the
   cursor is never reset: no call flags a mob that was not already flagged,
   and the cursor never decreases.
   */
  lemma {:induction false} PastEndNeverFlags(s: Schedule, mobs: seq<bool>, nows: seq<int>)
    requires s.mobIdx > |mobs|
    ensures Run(s, mobs, nows).schedule.mobIdx >= s.mobIdx
    ensures forall i, j :: 0 <= i < |nows| && 0 <= j < |mobs| && Run(s, mobs, nows).history[i][j] ==> mobs[j]
    decreases |nows|
  {
    if |nows| > 0 {
      var r := Step(s, nows[0], mobs);
      PastEndNeverFlags(r.schedule, r.canFindPath, nows[1..]);
      var t := Run(s, mobs, nows);
      var rest := Run(r.schedule, r.canFindPath, nows[1..]);
      assert t.history == [r.canFindPath] + rest.history;
      forall i, j | 0 <= i < |nows| && 0 <= j < |mobs| && t.history[i][j]
        ensures mobs[j]
      {
        if i > 0 {
          assert t.history[i] == rest.history[i - 1];
        }
      }
    }
  }

  /** Once the cursor is past the last mob, every firing window clears all flags and moves the cursor further out. */
  lemma {:induction false} PastEndStarves(s: Schedule, mobs: seq<bool>, nows: seq<int>)
    requires s.mobIdx > |mobs|
    requires EveryWindowFires(s.lastQueueUpdate, nows)
    ensures Run(s, mobs, nows).schedule.mobIdx == s.mobIdx + |nows|
    ensures forall i, j :: 0 <= i < |nows| && 0 <= j < |mobs| ==> !Run(s, mobs, nows).history[i][j]
    decreases |nows|
  {
    if |nows| > 0 {
      var r := Step(s, nows[0], mobs);
      PastEndStarves(r.schedule, r.canFindPath, nows[1..]);
      var t := Run(s, mobs, nows);
      var rest := Run(r.schedule, r.canFindPath, nows[1..]);
      assert t.history == [r.canFindPath] + rest.history;
      forall i, j | 0 <= i < |nows| && 0 <= j < |mobs|
        ensures !t.history[i][j]
      {
        if i > 0 {
          assert t.history[i] == rest.history[i - 1];
        }
      }
    }
  }

  /**
   A concrete shrink: three mobs, the third was just flagged (cursor 3),
   then one mob dies. In the next three windows no mob is flagged.
   */
  lemma ShrinkStarvesRemainingMobs()
    ensures var t := Run(Schedule(3, 0), [false, false], [5001, 10002, 15003]);
            && t.schedule.mobIdx == 6
            && forall i, j :: 0 <= i < 3 && 0 <= j < 2 ==> !t.history[i][j]
  {
  }

  /**
   The step as evidently intended: the cursor wraps to 0 whenever it is at
   or past the mob count, so a shrinking group cannot strand it.
   */
  function StepCorrected(s: Schedule, now: int, mobs: seq<bool>): (r: Tick)
    ensures |r.canFindPath| == |mobs|
    ensures !Fires(s, now) ==> r == Tick(s, mobs)
    ensures Fires(s, now) && |mobs| >= 1 ==>
              && r.schedule.lastQueueUpdate == now
              && 1 <= r.schedule.mobIdx <= |mobs|
              && (exists c :: 0 <= c < |mobs| && r.canFindPath[c])
              && forall i, k :: 0 <= i < |mobs| && 0 <= k < |mobs| && r.canFindPath[i] && r.canFindPath[k] ==> i == k
  {
    if now - s.lastQueueUpdate > Window then
      var idx := if s.mobIdx >= |mobs| then 0 else s.mobIdx;
      var flags := seq(|mobs|, i => i == idx);
      assert |mobs| >= 1 ==> flags[idx];
      Tick(Schedule(idx + 1, now), flags)
    else
      Tick(s, mobs)
  }

  /**
   While the cursor is in range the corrected step and the code's step
   agree, so the fairness proved for `Step` carries over to
   `StepCorrected`. Unlike `Step`, `StepCorrected` also brings a cursor
   stranded past the end back into range after one window.
   */
  lemma CorrectedAgrees(s: Schedule, now: int, mobs: seq<bool>)
    requires s.mobIdx <= |mobs|
    ensures StepCorrected(s, now, mobs) == Step(s, now, mobs)
  {
  }
}
