/**
 * The stamp by which the sync loop learns of a sweep in another process. The server
 * scans its index when it opens the store, and the loop reads the stamp when it
 * starts. From then on the loop reads the stamp at the top of each cycle and prunes
 * the index if it moved; later in the cycle it sweeps and stamps itself, when its
 * own interval is over.
 */
module SweepStamp {

  datatype Phase = Booting | AtTop | Syncing(checked: int)

  datatype State = State(
    disk: set<string>,
    index: set<string>,
    stamp: int,          // mtime of the stamp file
    seen: int,           // what the loop last saw or wrote
    clock: int,
    unstamped: bool,     // another process has deleted files since its last stamp
    phase: Phase)

  /** Scanned, and the loop not started. */
  ghost predicate Init(s: State) {
    s.index == s.disk && s.stamp <= s.clock && !s.unstamped && s.phase == Booting
  }

  ghost predicate Tick(s: State, s': State) {
    s.clock < s'.clock && s' == s.(clock := s'.clock)
  }

  ghost predicate ExternalDelete(s: State, s': State, h: string) {
    s' == s.(disk := s.disk - {h}, unstamped := true)
  }

  /** The other process stamps once all its deletions are on disk. Two stamps never share a time. */
  ghost predicate ExternalStamp(s: State, s': State) {
    s.stamp < s.clock && s' == s.(stamp := s.clock, unstamped := false)
  }

  /** The loop starts: whatever the stamp is now, it has been seen. */
  ghost predicate StartLoop(s: State, s': State) {
    s.phase.Booting? && s' == s.(seen := s.stamp, phase := AtTop)
  }

  /** Top of the cycle: prune if the stamp is not the loop's own. */
  ghost predicate Check(s: State, s': State) {
    && s.phase.AtTop?
    && s' == s.(index := if s.stamp != s.seen then s.index * s.disk else s.index, seen := s.stamp,
      phase := Syncing(s.clock))
  }

  /** Mirror-down or a push stores and indexes a path. */
  ghost predicate Store(s: State, s': State, h: string) {
    s' == s.(disk := s.disk + {h}, index := s.index + {h})
  }

  /** End of the cycle: sweep if the interval since the last stamp, anyone's, is over. */
  ghost predicate OwnSweep(s: State, s': State, interval: nat, gone: set<string>) {
    && s.phase.Syncing?
    && s' == if s.clock - s.stamp >= interval
             then s.(stamp := s.clock, seen := s.clock, disk := s.disk - gone, index := s.index - gone, phase := AtTop)
             else s.(phase := AtTop)
  }

  ghost predicate Step(s: State, s': State, interval: nat) {
    || Tick(s, s')
    || (exists h :: ExternalDelete(s, s', h))
    || ExternalStamp(s, s')
    || StartLoop(s, s')
    || Check(s, s')
    || (exists h :: Store(s, s', h))
    || (exists gone :: OwnSweep(s, s', interval, gone))
  }

  ghost predicate Run(states: seq<State>, interval: nat) {
    && states != [] && Init(states[0])
    && forall n :: 0 <= n < |states| - 1 ==> Step(states[n], states[n + 1], interval)
  }

  /** Every cycle stays shorter than `bound`, counted from its check. */
  ghost predicate ShortCycles(states: seq<State>, bound: nat) {
    forall n :: 0 <= n < |states| && states[n].phase.Syncing? ==> states[n].clock - states[n].phase.checked < bound
  }

  /** No foreign deletion falls between the scan and the start of the loop. */
  ghost predicate QuietBoot(states: seq<State>) {
    forall n :: 0 <= n < |states| && states[n].phase.Booting? ==> Stale(states[n]) == {}
  }

  /** Index entries whose file is gone. */
  ghost function Stale(s: State): set<string> {
    s.index - s.disk
  }

  /** Right after a check with no foreign sweep under way, the index lists exactly what is on disk. */
  ghost predicate CleanAfter(s: State, s': State) {
    Check(s, s') && !s'.unstamped ==> s'.index == s'.disk
  }

  ghost predicate Sound(states: seq<State>) {
    forall n :: 0 <= n < |states| - 1 ==> CleanAfter(states[n], states[n + 1])
  }

  ghost predicate Inv(s: State) {
    && s.stamp <= s.clock
    && s.disk <= s.index
    && (s.phase.Booting? ==> Stale(s) == {})
    && (!s.phase.Booting? ==> s.seen <= s.stamp && (Stale(s) != {} ==> s.unstamped || s.stamp != s.seen))
    && (s.phase.Syncing? ==> s.phase.checked <= s.clock && (s.stamp != s.seen ==> s.phase.checked <= s.stamp))
  }

  lemma StepKeepsInv(s: State, s': State, interval: nat)
    requires Inv(s) && Step(s, s', interval)
    requires s.phase.Syncing? ==> s.clock - s.phase.checked < interval
    requires s'.phase.Booting? ==> Stale(s') == {}
    ensures Inv(s')
  {
  }

  /**
   * With cycles shorter than the interval no foreign sweep goes unnoticed: right
   * after every check the index lists a missing file only while a foreign sweep is
   * under way.
   */
  lemma {:induction false} HandshakeSound(states: seq<State>, interval: nat, n: int)
    requires Run(states, interval) && ShortCycles(states, interval) && QuietBoot(states)
    requires 0 <= n < |states|
    ensures Inv(states[n])
    ensures n > 0 ==> CleanAfter(states[n - 1], states[n])
    decreases n
  {
    if n > 0 {
      HandshakeSound(states, interval, n - 1);
      assert Step(states[n - 1], states[n], interval);
      var s, s' := states[n - 1], states[n];
      StepKeepsInv(s, s', interval);
      if Check(s, s') && !s'.unstamped {
        CheckCleans(s, s');
      }
    }
  }

  lemma CheckCleans(s: State, s': State)
    requires Inv(s) && Check(s, s') && !s'.unstamped
    ensures s'.index == s'.disk
  {
    if s.stamp == s.seen {
      assert forall h :: h in s.index ==> h in Stale(s) || h in s.disk;
    }
  }

  /** A run in which a foreign sweep, stamped in time, is never pruned for. */
  ghost predicate Missed(states: seq<State>, interval: nat, bound: nat) {
    Run(states, interval) && ShortCycles(states, bound) && !Sound(states)
  }

  /** The longest cycle of the run is this long. */
  ghost predicate LongestCycle(states: seq<State>, length: nat) {
    && ShortCycles(states, length + 1)
    && exists n :: 0 <= n < |states| && states[n].phase.Syncing? && states[n].clock - states[n].phase.checked == length
  }

  /** Boot, check, foreign sweep and stamp, own sweep when the interval is over, next check. */
  ghost function Swallowing(interval: nat, h: string): seq<State> {
    var start := State({h}, {h}, 0, 0, 1, false, Booting);
    var s0 := start.(phase := AtTop);
    var s1 := s0.(phase := Syncing(1));
    var s2 := s1.(disk := {}, unstamped := true);
    var s3 := s2.(stamp := 1, unstamped := false);
    var s4 := s3.(clock := 1 + interval);
    var s5 := s4.(stamp := 1 + interval, seen := 1 + interval, phase := AtTop);
    var s6 := s5.(phase := Syncing(1 + interval));
    if interval == 0 then [start, s0, s1, s2, s3, s5, s6] else [start, s0, s1, s2, s3, s4, s5, s6]
  }

  lemma SwallowingRun(interval: nat, h: string)
    ensures Run(Swallowing(interval, h), interval)
  {
    var r := Swallowing(interval, h);
    var n := |r| - 1;
    assert StartLoop(r[0], r[1]);
    assert Check(r[1], r[2]);
    assert r[2].disk - {h} == {};
    assert ExternalDelete(r[2], r[3], h);
    assert ExternalStamp(r[3], r[4]);
    assert interval > 0 ==> Tick(r[4], r[5]);
    assert r[n - 2].disk - {} == r[n - 1].disk && r[n - 2].index - {} == r[n - 1].index;
    assert OwnSweep(r[n - 2], r[n - 1], interval, {});
    assert Check(r[n - 1], r[n]);
    hide StartLoop, Check, ExternalDelete, ExternalStamp, OwnSweep, Tick;
    assert Step(r[n - 2], r[n - 1], interval) && Step(r[n - 1], r[n], interval);
    forall k | 0 <= k < n
      ensures Step(r[k], r[k + 1], interval)
    {
    }
  }

  lemma SwallowingMissed(interval: nat, h: string)
    ensures
      var r := Swallowing(interval, h);
      !Sound(r) && QuietBoot(r) && LongestCycle(r, interval)
  {
    var r := Swallowing(interval, h);
    var n := |r| - 1;
    assert Check(r[n - 1], r[n]) && h in r[n].index && h !in r[n].disk;
    assert !CleanAfter(r[n - 1], r[n]);
    assert r[n - 2].phase.Syncing? && r[n - 2].clock - r[n - 2].phase.checked == interval;
  }

  /**
   * A cycle exactly as long as the interval swallows a foreign stamp: the loop's own
   * sweep stamps over it, and the entries it announced stay in the index.
   */
  lemma LongCycleSwallowsStamp(interval: nat, bound: nat, h: string)
    requires interval < bound
    ensures exists states ::
      Missed(states, interval, bound) && QuietBoot(states) && LongestCycle(states, interval)
  {
    hide Run, Sound, QuietBoot, Swallowing;
    SwallowingRun(interval, h);
    SwallowingMissed(interval, h);
    assert Missed(Swallowing(interval, h), interval, bound);
  }

  /** A foreign sweep that stamps between the scan and the start of the loop is taken for seen. */
  lemma BootSwallowsStamp(interval: nat, bound: nat, h: string)
    requires 0 < bound
    ensures exists states :: Missed(states, interval, bound)
  {
    var s0 := State({h}, {h}, 0, 0, 1, false, Booting);
    var s1 := s0.(disk := {}, unstamped := true);
    var s2 := s1.(stamp := 1, unstamped := false);
    var s3 := s2.(seen := 1, phase := AtTop);
    var s4 := s3.(phase := Syncing(1));
    assert s0.disk - {h} == {};
    assert ExternalDelete(s0, s1, h);
    assert ExternalStamp(s1, s2);
    assert StartLoop(s2, s3);
    assert Check(s3, s4);
    var states := [s0, s1, s2, s3, s4];
    assert Run(states, interval);
    assert h in s4.index && h !in s4.disk;
    assert !CleanAfter(states[3], states[4]);
    assert Missed(states, interval, bound);
  }

  lemma NoCycle(states: seq<State>, n: int)
    requires ShortCycles(states, 0) && 0 <= n < |states| - 1
    ensures !Check(states[n], states[n + 1])
  {
    var s' := states[n + 1];
    assert s'.phase.Syncing? ==> s'.clock - s'.phase.checked < 0;
  }

  /** Runs the handshake is asked about: cycles below `bound`, and if `quiet` no foreign deletion at boot. */
  ghost predicate Admitted(states: seq<State>, interval: nat, bound: nat, quiet: bool) {
    Run(states, interval) && ShortCycles(states, bound) && (quiet ==> QuietBoot(states))
  }

  /**
   * The stamp handshake is sound on every run whose cycles stay below `bound`
   * exactly when that bound is at most the sweep interval and the boot is quiet
   * (or there are no cycles at all).
   */
  lemma HandshakeIff(interval: nat, bound: nat, quiet: bool)
    ensures (forall states: seq<State> :: Admitted(states, interval, bound, quiet) ==> Sound(states))
            <==> bound == 0 || (quiet && bound <= interval)
  {
    if bound == 0 || (quiet && bound <= interval) {
      forall states: seq<State> | Admitted(states, interval, bound, quiet)
        ensures Sound(states)
      {
        forall n | 0 <= n < |states| - 1
          ensures CleanAfter(states[n], states[n + 1])
        {
          if bound == 0 {
            NoCycle(states, n);
          } else {
            HandshakeSound(states, interval, n + 1);
          }
        }
      }
    } else {
      var states: seq<State>;
      if quiet {
        LongCycleSwallowsStamp(interval, bound, "");
        states :| Missed(states, interval, bound) && QuietBoot(states);
      } else {
        BootSwallowsStamp(interval, bound, "");
        states :| Missed(states, interval, bound);
      }
      assert Admitted(states, interval, bound, quiet) && !Sound(states);
    }
  }
}
