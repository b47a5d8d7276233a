/** A run in which the kernel walks off a list: fifty processes exit before the
    reaper thread has slept for the first time, and the fiftieth exit looks for
    it on the sleep list. */
module ReaperRace {
  import opened Basics
  import opened Scheduler
  import opened Lifecycle
  import opened LifecycleRuns
  import opened TaskLists

  const FORKS: nat := 50

  // ---------------------------------------------------------------- runs

  lemma {:induction false} ReachesAlso(s: State, es: seq<Event>, r: State, e: Event)
    requires Running(s) && Reaches(s, es, r) && Running(r) && Enabled(r, e) && Step(r, e).Some?
    ensures Reaches(s, es + [e], Step(r, e).value)
    decreases |es|
  {
    hide Inv, Step;
    StepKeepsRunning(r, e);
    if es == [] {
      assert es + [e] == [e] && [e][1..] == [];
    } else {
      StepKeepsRunning(s, es[0]);
      assert (es + [e])[1..] == es[1..] + [e] && (es + [e])[0] == es[0];
      ReachesAlso(Step(s, es[0]).value, es[1..], r, e);
    }
  }

  function Times(e: Event, n: nat): seq<Event> {
    if n == 0 then [] else Times(e, n - 1) + [e]
  }

  // ---------------------------------------------------------------- what the run passes through

  /** n - 1, n - 2, ..., 0. */
  function Down(n: nat): (l: seq<nat>)
    ensures |l| == n && forall i :: 0 <= i < n ==> l[i] == n - 1 - i
  {
    if n == 0 then [] else [n - 1] + Down(n - 1)
  }

  /** Nobody waits, nobody is killed, and the reaper has not slept yet. */
  ghost predicate Quiet(s: State) {
    Running(s) && s.reaper == Booting && forall t :: t in s.tasks ==>
      !s.tasks[t].sigterm && !s.tasks[t].waited && s.tasks[t].waiting.None?
  }

  /** Tasks lo up to hi are active user processes. */
  ghost predicate Users(s: State, lo: nat, hi: nat) {
    forall t :: lo <= t < hi ==> t in s.tasks && s.tasks[t].user && s.tasks[t].at == Active
  }

  ghost predicate Forked(s: State, n: nat, lo: nat) {
    Quiet(s) && s.zombieCount == 0 && s.nextPid == n && On(s, Active) == Down(n) && s.current < n && Users(s, lo, n)
  }

  /** Task j runs, FORKS + 2 and the tasks below j are left. */
  ghost predicate Dying(s: State, j: nat) {
    && Quiet(s) && 3 <= j <= FORKS + 1 && s.current == j && s.zombieCount == FORKS + 2 - j
    && On(s, Active) == [FORKS + 2] + Down(j + 1) && Users(s, 3, j + 1)
  }

  // ---------------------------------------------------------------- the steps

  lemma TickMoves(s: State)
    requires Quiet(s)
    ensures Enabled(s, Tick) && On(s, Active) != [] && Step(s, Tick) == Some(s.(current := Select(s)))
            && Quiet(Step(s, Tick).value)
  {
    hide Listed, Waits, Fresh, Reaping, Select;
    IdleIsActive(s);
    Selected(s);
    TurnIsSchedule(s, 0);
    StepKeepsRunning(s, Tick);
  }

  lemma TickDown(s: State, n: nat, lo: nat)
    requires Forked(s, n, lo)
    ensures Enabled(s, Tick) && Step(s, Tick).Some?
    ensures var r := Step(s, Tick).value;
            Forked(r, n, lo) && r.current == if s.current > 0 then s.current - 1 else n - 1
  {
    hide Inv, Select, Running;
    TickMoves(s);
    NextDown(s, n);
  }

  lemma NextDown(s: State, n: nat)
    requires Quiet(s) && On(s, Active) == Down(n) && s.current < n
    ensures Select(s) == if s.current > 0 then s.current - 1 else n - 1
  {
    hide Listed, Waits, Fresh, Reaping;
    TurnMoves(s, Down(n), n - 1 - s.current);
  }

  lemma BootAt()
    ensures Forked(Boot(), 3, 3) && Boot().current == INIT
  {
    hide Inv;
    BootRunning();
    assert Down(3) == [2, 1, 0];
  }

  lemma SpawnAt(s: State)
    requires Forked(s, 3, 3) && s.current == INIT
    ensures Enabled(s, Spawn) && Step(s, Spawn).Some? && Forked(Step(s, Spawn).value, 4, 4)
    ensures Step(s, Spawn).value.current == INIT
  {
    hide Inv;
    StepKeepsRunning(s, Spawn);
  }

  lemma BecomeUserAt(s: State)
    requires Forked(s, 4, 4) && s.current == 3
    ensures Enabled(s, BecomeUser) && Step(s, BecomeUser).Some? && Forked(Step(s, BecomeUser).value, 4, 3)
    ensures Step(s, BecomeUser).value.current == 3
  {
    hide Inv;
    StepKeepsRunning(s, BecomeUser);
    assert On(Step(s, BecomeUser).value, Active) == On(s, Active);
  }

  lemma ForkAt(s: State, n: nat)
    requires Forked(s, n, 3) && s.current == 3
    ensures Enabled(s, Fork) && Step(s, Fork).Some? && Forked(Step(s, Fork).value, n + 1, 3)
    ensures Step(s, Fork).value.current == 3
  {
    hide Inv;
    StepKeepsRunning(s, Fork);
  }

  /** An exit that leaves an orphan short of the fiftieth, up to schedule. */
  lemma QuitEffect(s: State)
    requires Quiet(s) && s.tasks[s.current].user && s.zombieCount + 1 < ZOMBIE_LIMIT
    ensures Enabled(s, Quit(0)) && Effect(s, Quit(0)).Some?
    ensures var r := Effect(s, Quit(0)).value;
            && Inv(r) && r.reaper == Booting && r.current == s.current && r.zombieCount == s.zombieCount + 1
            && On(r, Active) == Without(On(s, Active), s.current) && r.tasks.Keys == s.tasks.Keys
            && r.tasks[s.current] == s.tasks[s.current].(at := Zombie, status := 0, orphan := true)
            && forall t :: t in s.tasks && t != s.current ==> r.tasks[t] == s.tasks[t]
  {
    hide Listed, Waits, Fresh, Without;
    var t := s.current;
    ExitCrashesExactly(s, t);
    ExitKeepsInv(s, t, 0);
    ExitOrphans(s, t, 0);
    var s0 := s.(tasks := s.tasks[t := s.tasks[t].(status := 0, orphan := true)]);
    MoveOn(s0, t, Zombie, Active);
  }

  /** With the caller gone from the active list, the task after the head is next. */
  lemma QuitMoves(s: State, a: nat, b: nat, rest: seq<nat>)
    requires Quiet(s) && s.tasks[s.current].user && s.zombieCount + 1 < ZOMBIE_LIMIT
    requires Without(On(s, Active), s.current) == [a, b] + rest && s.current !in [a, b] + rest
    ensures Enabled(s, Quit(0)) && Step(s, Quit(0)).Some?
    ensures var r := Step(s, Quit(0)).value;
            && Quiet(r) && r.zombieCount == s.zombieCount + 1 && r.current == b && On(r, Active) == [a, b] + rest
            && forall t :: t in s.tasks && t != s.current ==> t in r.tasks && r.tasks[t] == s.tasks[t]
  {
    hide Listed, Waits, Fresh, Reaping, ExitTask, Without;
    QuitEffect(s);
    var m := Effect(s, Quit(0)).value;
    assert Select(m) == b;
    TurnIsSchedule(m, 0);
    StepKeepsRunning(s, Quit(0));
    assert On(m.(current := b), Active) == On(m, Active);
  }

  lemma FirstQuit(s: State)
    requires Forked(s, FORKS + 4, 3) && s.current == FORKS + 3
    ensures Enabled(s, Quit(0)) && Step(s, Quit(0)).Some? && Dying(Step(s, Quit(0)).value, FORKS + 1)
  {
    hide Inv, Running, Step;
    var l := Down(FORKS + 4);
    assert l[1..] == Down(FORKS + 3) == [FORKS + 2] + Down(FORKS + 2);
    assert Down(FORKS + 2) == [FORKS + 1] + Down(FORKS + 1);
    assert Down(FORKS + 3) == [FORKS + 2, FORKS + 1] + Down(FORKS + 1);
    QuitMoves(s, FORKS + 2, FORKS + 1, Down(FORKS + 1));
  }

  lemma NextQuit(s: State, j: nat)
    requires Dying(s, j) && j > 3
    ensures Enabled(s, Quit(0)) && Step(s, Quit(0)).Some? && Dying(Step(s, Quit(0)).value, j - 1)
  {
    hide Inv, Running, Step;
    var l := [FORKS + 2] + Down(j + 1);
    assert l[1..] == Down(j + 1) && Down(j + 1) == [j] + Down(j) && Down(j + 1)[1..] == Down(j);
    assert Without(l, j) == [FORKS + 2] + Without(l[1..], j);
    assert [FORKS + 2] + Down(j) == [FORKS + 2, j - 1] + Down(j - 1);
    QuitMoves(s, FORKS + 2, j - 1, Down(j - 1));
  }

  lemma LastQuit(s: State)
    requires Dying(s, 3)
    ensures Enabled(s, Quit(0)) && Step(s, Quit(0)).None?
  {
    hide Listed, Waits, Fresh, Reaping, ExitTask;
    ExitCrashesExactly(s, 3);
    EffectKeepsInv(s, Quit(0));
  }

  // ---------------------------------------------------------------- the run

  /** A thread becomes a user process and forks fifty times. */
  function ForkingRun(k: nat): seq<Event> {
    [Spawn, Tick, BecomeUser] + Times(Fork, k)
  }

  /** The reaper, idle and init each get a turn; then the children exit. */
  function CrashRun(k: nat): seq<Event> {
    ForkingRun(FORKS) + Times(Tick, 4) + Times(Quit(0), k)
  }

  lemma {:induction false} ForkingReaches(k: nat) returns (s: State)
    ensures Running(Boot()) && Reaches(Boot(), ForkingRun(k), s) && Forked(s, k + 4, 3) && s.current == 3
  {
    hide Inv, Step, Boot;
    BootAt();
    if k == 0 {
      var b := Boot();
      assert Reaches(b, [], b);
      SpawnAt(b);
      ReachesAlso(b, [], b, Spawn);
      var s1 := Step(b, Spawn).value;
      TickDown(s1, 4, 4);
      ReachesAlso(b, [] + [Spawn], s1, Tick);
      var s2 := Step(s1, Tick).value;
      BecomeUserAt(s2);
      ReachesAlso(b, [] + [Spawn] + [Tick], s2, BecomeUser);
      s := Step(s2, BecomeUser).value;
      assert [] + [Spawn] + [Tick] + [BecomeUser] == ForkingRun(0);
    } else {
      var r := ForkingReaches(k - 1);
      ForkAt(r, k + 3);
      ReachesAlso(Boot(), ForkingRun(k - 1), r, Fork);
      s := Step(r, Fork).value;
      assert ForkingRun(k - 1) + [Fork] == ForkingRun(k);
    }
  }

  lemma {:induction false} TicksReach(k: nat) returns (s: State)
    requires k <= 4
    ensures Running(Boot()) && Reaches(Boot(), ForkingRun(FORKS) + Times(Tick, k), s) && Forked(s, FORKS + 4, 3)
    ensures s.current == if k <= 3 then 3 - k else FORKS + 3
  {
    hide Inv, Step, Boot, ForkingRun;
    if k == 0 {
      s := ForkingReaches(FORKS);
      assert ForkingRun(FORKS) + Times(Tick, 0) == ForkingRun(FORKS);
    } else {
      var r := TicksReach(k - 1);
      TickDown(r, FORKS + 4, 3);
      ReachesAlso(Boot(), ForkingRun(FORKS) + Times(Tick, k - 1), r, Tick);
      s := Step(r, Tick).value;
      assert ForkingRun(FORKS) + Times(Tick, k - 1) + [Tick] == ForkingRun(FORKS) + Times(Tick, k);
    }
  }

  lemma {:induction false} QuitsReach(k: nat) returns (s: State)
    requires 1 <= k <= FORKS - 1
    ensures Running(Boot()) && Reaches(Boot(), CrashRun(k), s) && Dying(s, FORKS + 2 - k)
  {
    hide Inv, Step, Boot, ForkingRun;
    var pre := ForkingRun(FORKS) + Times(Tick, 4);
    var r;
    if k == 1 {
      r := TicksReach(4);
      assert pre == CrashRun(0);
      FirstQuit(r);
    } else {
      r := QuitsReach(k - 1);
      NextQuit(r, FORKS + 3 - k);
    }
    ReachesAlso(Boot(), CrashRun(k - 1), r, Quit(0));
    s := Step(r, Quit(0)).value;
    assert CrashRun(k - 1) + [Quit(0)] == CrashRun(k);
  }

  /** From boot, with nothing but forks, timer ticks and exits, the fiftieth exit
      looks for the reaper on a list that does not hold it. */
  lemma FiftiethExitCrashes() returns (s: State)
    ensures Running(Boot()) && Reaches(Boot(), CrashRun(FORKS - 1), s)
    ensures Sensible(s, Quit(0)) && Step(s, Quit(0)).None?
  {
    hide Inv, Step, Boot;
    s := QuitsReach(FORKS - 1);
    LastQuit(s);
  }
}
