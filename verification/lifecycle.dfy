/** The activity marker and the stop / archive / destroy transitions:
    `touch`, `last_touch_time`, `stop`, `archive` and `destroy`. Killing
    processes, removing the account and unsetting quotas are effects; the
    process counts and the clock are inputs. */
module Lifecycle {
  import opened Wrappers
  import opened Shell
  import opened Settings
  import opened Storage

  /** How many kill rounds `stop` tries before giving up. */
  const MAX_TRIES: nat := 10

  /** `touch()`: the activity marker takes the current time. */
  function Touch(p: Project, clock: real): (q: Project)
    ensures q.repo.touched == Some(clock)
    ensures q == p.(repo := p.repo.(touched := q.repo.touched))
  {
    p.(repo := p.repo.(touched := Some(clock)))
  }

  /** `last_touch_time()`: the marker's time, or the current time when there
      is no marker, since the project may just be being created. */
  function LastTouchTime(p: Project, clock: real): (t: real)
    ensures p.repo.touched.None? ==> t == clock
    ensures p.repo.touched.Some? ==> t == p.repo.touched.value
  {
    if p.repo.touched.Some? then p.repo.touched.value else clock
  }

  /** Right after a touch, the last touch time is the time of that touch,
      whatever the clock says now. */
  lemma LastTouchAfterTouch(p: Project, at: real, now: real)
    ensures LastTouchTime(Touch(p, at), now) == at
  {
  }

  /** What `stop` learns from the world: the clock read inside
      `last_touch_time`, the clock read right after, the number of processes
      left after each kill round, and the two quota-removal commands, which
      raise on failure. */
  datatype StopEnv = StopEnv(
    touchClock: real,
    clock: real,
    procsAfter: nat -> nat,
    unsetProjects: CmdResult,
    unsetScratch: CmdResult)

  /** The number of rounds the kill loop runs when it starts at round `i`:
      it stops right after the first round that leaves no process, and
      never runs more than `MAX_TRIES` rounds. */
  function RoundsFrom(procsAfter: nat -> nat, i: nat): (n: nat)
    requires i < MAX_TRIES
    ensures i < n <= MAX_TRIES
    ensures n < MAX_TRIES ==> procsAfter(n - 1) == 0
    ensures forall j :: i <= j < n - 1 ==> procsAfter(j) != 0
    decreases MAX_TRIES - i
  {
    if procsAfter(i) == 0 || i + 1 == MAX_TRIES then i + 1
    else RoundsFrom(procsAfter, i + 1)
  }

  function KillRounds(procsAfter: nat -> nat): (n: nat)
    ensures 1 <= n <= MAX_TRIES
  {
    RoundsFrom(procsAfter, 0)
  }

  /** The effects of `n` kill rounds, in order. */
  function KillTrace(n: nat): (t: seq<Effect>)
    ensures |t| == n
    ensures forall i :: 0 <= i < n ==> t[i] == KillRound(i)
  {
    if n == 0 then [] else KillTrace(n - 1) + [KillRound(n - 1)]
  }

  /** The idle check of `stop(only_if_idle=True)`: it refuses when the
      stored `mintime` is positive and less time than that has passed since
      the last touch, with Python 2's ordering of the stored value. */
  predicate StaysUp(p: Project, onlyIfIdle: bool, env: StopEnv) {
    onlyIfIdle &&
    var mintime := Load(p.repo.settings)["mintime"];
    !AtMostZero(mintime) && Below(env.clock - LastTouchTime(p, env.touchClock), mintime)
  }

  /** The cleanup after the kill loop: delete the account, remove both quotas
      (each raises on failure), unmount the snapshot view. */
  const CLEANUP: seq<Effect> := [DeleteUser, UnsetQuota("projects"), UnsetQuota("scratch"), UnmountSnapshots]

  /** A trace made of two parts splits back into them. */
  lemma ConcatSplits(a: seq<Effect>, b: seq<Effect>)
    ensures (a + b)[..|a|] == a && (a + b)[|a|..] == b
  {
  }

  /** The stop itself: the bounded kill loop, always followed by the
      cleanup, cut short only by a failing quota removal. */
  function Shutdown(p: Project, env: StopEnv): (r: Run<()>)
    ensures r.st == p
    ensures var n := KillRounds(env.procsAfter);
            && n < |r.trace| <= n + |CLEANUP|
            && r.trace[..n] == KillTrace(n)
            && r.trace[n..] == CLEANUP[..|r.trace| - n]
    ensures r.res.Success? <==> env.unsetProjects.Ok? && env.unsetScratch.Ok?
    ensures r.res.Success? ==> r.trace == KillTrace(KillRounds(env.procsAfter)) + CLEANUP
  {
    var kills := KillTrace(KillRounds(env.procsAfter));
    if env.unsetProjects.Failed? then
      ConcatSplits(kills, CLEANUP[..2]);
      Run(p, kills + CLEANUP[..2], Failure(env.unsetProjects.output))
    else if env.unsetScratch.Failed? then
      ConcatSplits(kills, CLEANUP[..3]);
      Run(p, kills + CLEANUP[..3], Failure(env.unsetScratch.output))
    else
      ConcatSplits(kills, CLEANUP);
      assert CLEANUP[..|CLEANUP|] == CLEANUP;
      Run(p, kills + CLEANUP, Success(()))
  }

  /** `stop(only_if_idle)`: either the idle check refuses and nothing at all
      happens, or the bounded kill loop runs and is always followed by the
      cleanup, cut short only by a failing quota removal. No file changes. */
  function Stop(p: Project, onlyIfIdle: bool, env: StopEnv): (r: Run<()>)
    ensures r.st == p
    ensures r.trace == [] <==> StaysUp(p, onlyIfIdle, env)
    ensures r.trace != [] ==>
              var n := KillRounds(env.procsAfter);
              && n < |r.trace| <= n + |CLEANUP|
              && r.trace[..n] == KillTrace(n)
              && r.trace[n..] == CLEANUP[..|r.trace| - n]
    ensures r.res.Success? <==> StaysUp(p, onlyIfIdle, env) || (env.unsetProjects.Ok? && env.unsetScratch.Ok?)
    ensures r.res.Success? && r.trace != [] ==> r.trace == KillTrace(KillRounds(env.procsAfter)) + CLEANUP
  {
    if StaysUp(p, onlyIfIdle, env) then Run(p, [], Success(())) else Shutdown(p, env)
  }

  /** With a positive whole-number `mintime`, an idle-gated stop does nothing
      exactly when less than `mintime` seconds have passed since the last
      touch. */
  lemma IdleGate(p: Project, env: StopEnv, mintime: int)
    requires Load(p.repo.settings)["mintime"] == Int(mintime) && mintime > 0
    ensures Stop(p, true, env).trace == [] <==>
              env.clock - LastTouchTime(p, env.touchClock) < mintime as real
  {
  }

  /** A missing touch file counts as "just now": as long as the two clock
      readings are closer than `mintime`, an idle-gated stop refuses. */
  lemma NoMarkerNeverIdle(p: Project, env: StopEnv, mintime: int)
    requires p.repo.touched.None?
    requires Load(p.repo.settings)["mintime"] == Int(mintime) && mintime > 0
    requires env.clock - env.touchClock < mintime as real
    ensures Stop(p, true, env) == Run(p, [], Success(()))
  {
  }

  /** A non-positive `mintime`, or a stop that is not idle-gated, always
      goes ahead: the first effect is the first kill round. */
  lemma UngatedStopProceeds(p: Project, onlyIfIdle: bool, env: StopEnv)
    requires !onlyIfIdle || AtMostZero(Load(p.repo.settings)["mintime"])
    ensures Stop(p, onlyIfIdle, env).trace[0] == KillRound(0)
  {
  }

  /** The idle scenario: with `mintime` 3600 and a touch 1800 seconds ago the
      gated stop is a no-op; 3601 seconds after the touch it goes ahead. */
  lemma IdleScenario(p: Project, touchedAt: real, env: StopEnv)
    requires p.repo.settings == Document(map["mintime" := Int(3600)])
    requires p.repo.touched == Some(touchedAt)
    ensures Stop(p, true, env.(clock := touchedAt + 1800.0)).trace == []
    ensures Stop(p, true, env.(clock := touchedAt + 3601.0)).trace != []
  {
    assert Load(p.repo.settings)["mintime"] == Int(3600);
  }

  /** The kill loop stops as soon as a round leaves no process: if the first
      round already does, there is exactly one round. */
  lemma KillLoopStopsEarly(procsAfter: nat -> nat)
    requires procsAfter(0) == 0
    ensures KillRounds(procsAfter) == 1
  {
  }

  /** Processes that never die cost exactly `MAX_TRIES` rounds. */
  lemma KillLoopBounded(procsAfter: nat -> nat)
    requires forall j :: procsAfter(j) > 0
    ensures KillRounds(procsAfter) == MAX_TRIES
  {
  }

  /** `archive()`: a full stop, an unmount, then the live directory is
      removed (raising when it does not exist) and the account deleted. The
      repository is untouched. */
  function Archive(p: Project, env: StopEnv): (r: Run<()>)
    ensures r.res.Success? <==> Stop(p, false, env).res.Success? && p.repo.live
    ensures r.res.Success? ==> r.st == p.(repo := p.repo.(live := false))
    ensures r.res.Failure? ==> r.st == p
    ensures Stop(p, false, env).res.Success? ==>
              |Stop(p, false, env).trace| <= |r.trace| &&
              r.trace[..|Stop(p, false, env).trace|] == Stop(p, false, env).trace
    ensures r.res.Success? ==> RemoveLive in r.trace
  {
    var s := Stop(p, false, env);
    if s.res.Failure? then s
    else if !p.repo.live then
      Run(p, s.trace + [UnmountSnapshots], Failure("[Errno 2] No such file or directory: '" + ProjectMnt(p.id) + "'"))
    else
      Run(p.(repo := p.repo.(live := false)), s.trace + [UnmountSnapshots, RemoveLive, DeleteUser], Success(()))
  }

  /** `destroy()`: `archive()`, then the whole repository directory goes:
      history, tags, settings, marker, save log and `HEAD`. */
  function Destroy(p: Project, env: StopEnv): (r: Run<()>)
    ensures r.res.Success? <==> Archive(p, env).res.Success?
    ensures r.res.Success? ==> r.st == p.(repo := EMPTY_REPO)
    ensures r.res.Success? ==> |r.trace| > 0 && r.trace[|r.trace| - 1] == RemoveRepo
    ensures r.res.Failure? ==> r.st == p
  {
    var a := Archive(p, env);
    if a.res.Failure? then a
    else Run(p.(repo := EMPTY_REPO), a.trace + [RemoveRepo], Success(()))
  }

  /** After `destroy`, the settings read back as the defaults, the branch
      as `master`, and there is no live copy and nothing to list. */
  lemma DestroyForgetsEverything(p: Project, env: StopEnv)
    requires Destroy(p, env).res.Success?
    ensures var q := Destroy(p, env).st;
      && Load(q.repo.settings) == DEFAULTS
      && BranchOf(q.repo.head) == DEFAULT_BRANCH
      && !q.repo.live && !q.repo.initialized
      && q.repo.heads == {} && q.repo.tags == map[] && q.repo.saveLog == []
  {
  }

  /** Archiving twice fails the second time: the live directory is gone. */
  lemma ArchiveTwiceFails(p: Project, env: StopEnv)
    requires Archive(p, env).res.Success?
    ensures Archive(Archive(p, env).st, env).res.Failure?
  {
  }
}
