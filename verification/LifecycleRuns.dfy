/** Whole runs of the process machine: what always holds, when the kernel's list
    walks are safe, what a waiter gets, and who runs next. */
module LifecycleRuns {
  import opened Basics
  import opened Scheduler
  import opened Lifecycle

  /** One step; none if a list walk would run off its list. */
  ghost function Step(s: State, e: Event): Option<State>
    requires Sensible(s, e)
  {
    EffectKeepsInv(s, e);
    match Effect(s, e)
    case None => None
    case Some(r) => if Reschedules(e) then Schedule(r) else Some(r)
  }

  lemma StepKeepsRunning(s: State, e: Event)
    requires Sensible(s, e)
    ensures Step(s, e).Some? ==> Running(Step(s, e).value)
  {
    hide Inv, Effect;
    EffectKeepsInv(s, e);
    if Effect(s, e).Some? && Reschedules(e) { ScheduleKeepsInv(Effect(s, e).value); }
  }

  // ---------------------------------------------------------------- every run

  /** State r is reached from s by the events es. */
  ghost predicate Reaches(s: State, es: seq<Event>, r: State)
    requires Running(s)
    decreases |es|
  {
    if es == [] then r == s
    else
      Enabled(s, es[0]) && Step(s, es[0]).Some?
        && (StepKeepsRunning(s, es[0]); Reaches(Step(s, es[0]).value, es[1..], r))
  }

  /** In every reachable state each task is on exactly one list, pids are unique
      and unused before, idle is active (so selection finds a task), and the
      current task is active. */
  lemma {:induction false} ReachableRuns(s: State, es: seq<Event>, r: State)
    requires Running(s) && Reaches(s, es, r)
    ensures Running(r) && IDLE in On(r, Active) && Select(r) in r.tasks
    decreases |es|
  {
    if es == [] {
      IdleIsActive(r);
      Selected(r);
    } else {
      StepKeepsRunning(s, es[0]);
      ReachableRuns(Step(s, es[0]).value, es[1..], r);
    }
  }

  // ---------------------------------------------------------------- the reaper's wake-up

  /** The reaper has slept, and is not between its scan and its next sleep. */
  ghost predicate Calm(s: State) {
    Running(s) && (s.reaper == Asleep || s.reaper == Woken)
  }

  lemma CalmExit(s: State, t: nat, status: int)
    requires Inv(s) && (s.reaper == Asleep || s.reaper == Woken) && t in s.tasks && s.tasks[t].at == Active
             && s.tasks[t].user
    ensures WakeLegal(s, t) && (ExitTask(s, t, status).reaper == Asleep || ExitTask(s, t, status).reaper == Woken)
  {
    Located(s, REAPER, Sleep);
    if s.tasks[t].waited { ExitNotifies(s, t, status); } else { ExitOrphans(s, t, status); }
  }

  lemma {:induction false} CalmSchedule(s: State)
    requires Inv(s) && (s.reaper == Asleep || s.reaper == Woken)
    ensures Schedule(s).Some? && (Schedule(s).value.reaper == Asleep || Schedule(s).value.reaper == Woken)
    decreases |Marked(s)|
  {
    hide Listed, Waits, Fresh, ExitTask, WakeLegal;
    IdleIsActive(s);
    Selected(s);
    var n := Select(s);
    if s.tasks[n].sigterm {
      CalmExit(s, n, 1);
      ExitKeepsInv(s, n, 1);
      ExitShrinksMarked(s, n);
      CalmSchedule(ExitTask(s, n, 1));
    }
  }

  /** From a calm state no step walks off a list, and it stays calm unless the
      reaper itself scans. */
  lemma CalmStep(s: State, e: Event)
    requires Calm(s) && Enabled(s, e) && !e.ReapScan?
    ensures Step(s, e).Some? && Calm(Step(s, e).value)
  {
    hide Listed, Waits, Fresh, Reaping, Kernel, ExitTask, WakeLegal, Move, WakeStdin, Schedule, On, Without;
    EffectKeepsInv(s, e);
    StepKeepsRunning(s, e);
    match e {
      case Quit(status) => CalmExit(s, s.current, status);
      case ReadStdin => MoveRest(s, s.current, Stdin);
      case WaitStart(c) => StartWaitEffect(s, s.current, c);
      case StdinReady => WakeStdinReaper(s, |On(s, Stdin)|);
      case _ =>
    }
    if Reschedules(e) { CalmSchedule(Effect(s, e).value); }
  }

  lemma {:induction false} WakeStdinReaper(s: State, n: nat)
    ensures WakeStdin(s, n).reaper == s.reaper
    decreases n
  {
    WakeStep(s, n);
    if n > 0 && On(s, Stdin) != [] && On(s, Stdin)[0] in s.tasks {
      MoveRest(s, On(s, Stdin)[0], Active);
      WakeStdinReaper(Move(s, On(s, Stdin)[0], Active), n - 1);
    }
  }

  /** The reaper's cycle, if nothing interrupts it between scan and sleep. */
  lemma CalmCycle(s: State)
    requires Calm(s) && Enabled(s, ReapScan)
    ensures Step(s, ReapScan).Some?
    ensures var r := Step(s, ReapScan).value;
            Sensible(r, ReapSleep) && Step(r, ReapSleep).Some? && Calm(Step(r, ReapSleep).value)
  {
    hide Listed, Waits, Fresh, Reap, Move, Schedule;
    EffectKeepsInv(s, ReapScan);
    StepKeepsRunning(s, ReapScan);
    var r := Step(s, ReapScan).value;
    ReapKeepsInv(s, On(s, Zombie));
    EffectKeepsInv(r, ReapSleep);
    StepKeepsRunning(r, ReapSleep);
    MoveRest(r, REAPER, Sleep);
    CalmSchedule(Effect(r, ReapSleep).value);
  }

  /** Each event is one that the task then running may take. */
  ghost predicate Possible(s: State, es: seq<Event>)
    requires Running(s)
    decreases |es|
  {
    es == [] || (Enabled(s, es[0])
      && (Step(s, es[0]).Some? ==> (StepKeepsRunning(s, es[0]); Possible(Step(s, es[0]).value, es[1..]))))
  }

  /** The reaper goes from each scan straight to its sleep. */
  ghost predicate Uninterrupted(es: seq<Event>) {
    forall i :: 0 <= i < |es| && es[i].ReapScan? ==> i + 1 < |es| && es[i + 1].ReapSleep?
  }

  /** Once the reaper has slept, no run in which its scan is not interrupted ever
      walks off a list. */
  lemma {:induction false} CalmRunNeverFails(s: State, es: seq<Event>) returns (r: State)
    requires Calm(s) && Possible(s, es) && Uninterrupted(es)
    ensures Reaches(s, es, r) && Calm(r)
    decreases |es|
  {
    hide Inv, Step;
    if es == [] {
      r := s;
    } else if es[0].ReapScan? {
      CalmCycle(s);
      StepKeepsRunning(s, es[0]);
      var m := Step(s, es[0]).value;
      assert es[1..][0] == es[1] && es[1] == ReapSleep && es[1..][1..] == es[2..];
      StepKeepsRunning(m, es[1]);
      assert Uninterrupted(es[2..]);
      r := CalmRunNeverFails(Step(m, es[1]).value, es[2..]);
    } else {
      CalmStep(s, es[0]);
      assert Uninterrupted(es[1..]);
      r := CalmRunNeverFails(Step(s, es[0]).value, es[1..]);
    }
  }

  /** In a calm state the reaper is on the sleep list exactly when the count of
      zombies left to it is below fifty. */
  lemma SleepsBelowLimit(s: State)
    requires Calm(s)
    ensures REAPER in On(s, Sleep) <==> s.zombieCount < ZOMBIE_LIMIT
  {
    Located(s, REAPER, Sleep);
  }

  /** exit_st, called by the task itself or by schedule's kill loop, goes wrong
      exactly when it makes the fiftieth orphan while the reaper is not asleep:
      before its first sleep, or between its scan and its sleep. */
  lemma ExitCrashesExactly(s: State, t: nat)
    requires Inv(s) && t in s.tasks && s.tasks[t].at == Active && s.tasks[t].user
    ensures !WakeLegal(s, t) <==>
            !s.tasks[t].waited && s.zombieCount == ZOMBIE_LIMIT - 1 && (s.reaper == Booting || s.reaper == Scanned)
  {
    hide Listed, Waits, Fresh, ExitTask, On, Die, Move, Awake, Died;
    Located(s, REAPER, Sleep);
    if s.tasks[t].waited { ExitNotifies(s, t, 0); }
  }

  // ---------------------------------------------------------------- what a waiter gets

  lemma ExitFreezes(s: State, t: nat, status: int, c: nat)
    requires Inv(s) && t in s.tasks && s.tasks[t].at == Active && s.tasks[t].user && WakeLegal(s, t)
    requires c in s.tasks && s.tasks[c].at == Zombie
    ensures var r := ExitTask(s, t, status); c in r.tasks && r.tasks[c] == s.tasks[c] && r.freed == s.freed
  {
    hide Listed, Waits, Fresh, Reaping, ExitTask, WakeLegal;
    if s.tasks[t].waited {
      ExitNotifies(s, t, status);
      ParentSleeps(s, t);
    } else {
      ExitOrphans(s, t, status);
    }
  }

  lemma {:induction false} ScheduleFreezes(s: State, c: nat)
    requires Inv(s) && c in s.tasks && s.tasks[c].at == Zombie && Schedule(s).Some?
    ensures var r := Schedule(s).value; c in r.tasks && r.tasks[c] == s.tasks[c] && r.freed == s.freed
    decreases |Marked(s)|
  {
    hide Listed, Waits, Fresh, Reaping, ExitTask, WakeLegal;
    IdleIsActive(s);
    Selected(s);
    var n := Select(s);
    if s.tasks[n].sigterm {
      ExitKeepsInv(s, n, 1);
      ExitShrinksMarked(s, n);
      ExitFreezes(s, n, 1, c);
      ScheduleFreezes(ExitTask(s, n, 1), c);
    }
  }

  lemma {:induction false} WakeStdinFreezes(s: State, n: nat, c: nat)
    requires Inv(s) && c in s.tasks && s.tasks[c].at == Zombie
    ensures var r := WakeStdin(s, n); c in r.tasks && r.tasks[c] == s.tasks[c] && r.freed == s.freed
    decreases n
  {
    hide Inv, Move, WakeStdin, On;
    WakeStep(s, n);
    if n > 0 && On(s, Stdin) != [] {
      WakeOne(s);
      MoveRest(s, On(s, Stdin)[0], Active);
      WakeStdinFreezes(Move(s, On(s, Stdin)[0], Active), n - 1, c);
    }
  }

  /** A zombie changes no more; it is freed by its own parent's waitpid if it is
      kept for it and by the reaper if it is an orphan, and by nothing else. */
  lemma EffectOnZombie(s: State, e: Event, c: nat)
    requires Sensible(s, e) && c in s.tasks && s.tasks[c].at == Zombie && Effect(s, e).Some?
    ensures var r := Effect(s, e).value;
            if e.WaitFinish? && s.tasks[s.current].waiting == Some(c)
            then c !in r.tasks && !s.tasks[c].orphan && s.tasks[c].ppid == s.current
            else if e.ReapScan? && s.tasks[c].orphan then c !in r.tasks
            else c in r.tasks && r.tasks[c] == s.tasks[c]
  {
    hide Listed, Waits, Fresh, Reaping, ExitTask, WakeLegal, Move, WakeStdin, Reap;
    match e
    case Quit(status) => ExitFreezes(s, s.current, status, c);
    case ReadStdin => MoveRest(s, s.current, Stdin);
    case WaitStart(d) => StartWaitEffect(s, s.current, d);
    case StdinReady => WakeStdinFreezes(s, |On(s, Stdin)|, c);
    case WaitFinish => WaiterFindsZombie(s, s.current);
    case ReapScan => ReapKeepsInv(s, On(s, Zombie)); Located(s, c, Zombie);
    case ReapSleep => MoveRest(s, REAPER, Sleep);
    case Spawn => NewPid(s);
    case Fork => NewPid(s);
    case _ =>
  }

  lemma StepOnZombie(s: State, e: Event, c: nat)
    requires Sensible(s, e) && c in s.tasks && s.tasks[c].at == Zombie && Step(s, e).Some?
    ensures var r := Step(s, e).value;
            if (e.WaitFinish? && s.tasks[s.current].waiting == Some(c)) || (e.ReapScan? && s.tasks[c].orphan)
            then c !in r.tasks
            else c in r.tasks && r.tasks[c] == s.tasks[c]
    ensures c < Step(s, e).value.nextPid
  {
    hide Inv, Effect;
    EffectKeepsInv(s, e);
    EffectOnZombie(s, e, c);
    if Reschedules(e) { ScheduleFreezes(Effect(s, e).value, c); }
    StepKeepsRunning(s, e);
    PidsGrow(s, e, c);
  }

  lemma PidsGrow(s: State, e: Event, c: nat)
    requires Sensible(s, e) && Step(s, e).Some? && c in s.tasks
    ensures c < Step(s, e).value.nextPid
  {
    hide Listed, Waits, Reaping, ExitTask, WakeLegal, Move, WakeStdin, Reap;
    EffectKeepsInv(s, e);
    match e {
      case Quit(status) => ExitKeys(s, s.current, status);
      case ReadStdin => MoveRest(s, s.current, Stdin);
      case WaitStart(d) => StartWaitEffect(s, s.current, d);
      case StdinReady => WakeStdinKeys(s, |On(s, Stdin)|);
      case ReapScan => ReapKeepsInv(s, On(s, Zombie));
      case ReapSleep => MoveRest(s, REAPER, Sleep);
      case _ =>
    }
    if Reschedules(e) { ScheduleKeys(Effect(s, e).value); }
  }

  /** The status of a zombie is the one it exited with, until it is freed. */
  lemma {:induction false} ZombieKeepsStatus(s: State, es: seq<Event>, r: State, c: nat)
    requires Running(s) && Reaches(s, es, r) && c in s.tasks && s.tasks[c].at == Zombie && c in r.tasks
    ensures r.tasks[c] == s.tasks[c]
    decreases |es|
  {
    hide Inv, Step;
    if es != [] {
      StepKeepsRunning(s, es[0]);
      StepOnZombie(s, es[0], c);
      var t := Step(s, es[0]).value;
      if c in t.tasks {
        ZombieKeepsStatus(t, es[1..], r, c);
      } else {
        NeverBack(t, es[1..], r, c);
      }
    }
  }

  lemma {:induction false} NeverBack(s: State, es: seq<Event>, r: State, c: nat)
    requires Running(s) && Reaches(s, es, r) && c !in s.tasks && c < s.nextPid
    ensures c !in r.tasks
    decreases |es|
  {
    if es != [] {
      StepKeepsRunning(s, es[0]);
      StepKeepsPids(s, es[0], c);
      NeverBack(Step(s, es[0]).value, es[1..], r, c);
    }
  }

  lemma StepKeepsPids(s: State, e: Event, c: nat)
    requires Sensible(s, e) && Step(s, e).Some? && c !in s.tasks && c < s.nextPid
    ensures c !in Step(s, e).value.tasks && c < Step(s, e).value.nextPid
  {
    hide Listed, Waits, Fresh, Reaping, ExitTask, WakeLegal, Move, WakeStdin, Reap;
    EffectKeepsInv(s, e);
    match e {
      case Quit(status) => ExitKeys(s, s.current, status);
      case ReadStdin => MoveRest(s, s.current, Stdin);
      case WaitStart(d) => StartWaitEffect(s, s.current, d);
      case StdinReady => WakeStdinKeys(s, |On(s, Stdin)|);
      case ReapScan => ReapKeepsInv(s, On(s, Zombie));
      case ReapSleep => MoveRest(s, REAPER, Sleep);
      case _ =>
    }
    if Reschedules(e) { ScheduleKeys(Effect(s, e).value); }
  }

  lemma ExitKeys(s: State, t: nat, status: int)
    requires Inv(s) && t in s.tasks && s.tasks[t].at == Active && s.tasks[t].user && WakeLegal(s, t)
    ensures ExitTask(s, t, status).tasks.Keys == s.tasks.Keys && ExitTask(s, t, status).nextPid == s.nextPid
    ensures ExitTask(s, t, status).freed == s.freed
  {
    hide Listed, Waits, Fresh, Reaping, ExitTask, WakeLegal;
    if s.tasks[t].waited { ExitNotifies(s, t, status); } else { ExitOrphans(s, t, status); }
  }

  lemma {:induction false} ScheduleKeys(s: State)
    requires Inv(s) && Schedule(s).Some?
    ensures Schedule(s).value.tasks.Keys == s.tasks.Keys && Schedule(s).value.nextPid == s.nextPid
    ensures Schedule(s).value.freed == s.freed
    decreases |Marked(s)|
  {
    hide Listed, Waits, Fresh, Reaping, ExitTask, WakeLegal;
    IdleIsActive(s);
    Selected(s);
    var n := Select(s);
    if s.tasks[n].sigterm {
      ExitKeepsInv(s, n, 1);
      ExitShrinksMarked(s, n);
      ExitKeys(s, n, 1);
      ScheduleKeys(ExitTask(s, n, 1));
    }
  }

  lemma {:induction false} WakeStdinKeys(s: State, n: nat)
    requires Inv(s)
    ensures WakeStdin(s, n).tasks.Keys == s.tasks.Keys && WakeStdin(s, n).nextPid == s.nextPid
    ensures WakeStdin(s, n).freed == s.freed
    decreases n
  {
    hide Inv, Move, WakeStdin, On;
    WakeStep(s, n);
    if n > 0 && On(s, Stdin) != [] {
      WakeOne(s);
      MoveRest(s, On(s, Stdin)[0], Active);
      WakeStdinKeys(Move(s, On(s, Stdin)[0], Active), n - 1);
    }
  }

  /** A step frees tasks only. */
  lemma FreesTasks(s: State, e: Event)
    requires Sensible(s, e) && Step(s, e).Some?
    ensures var r := Step(s, e).value; s.freed <= r.freed <= s.freed + s.tasks.Keys
  {
    hide Listed, Waits, Reaping, ExitTask, WakeLegal, Move, WakeStdin, Reap;
    EffectKeepsInv(s, e);
    match e {
      case Quit(status) => ExitKeys(s, s.current, status);
      case ReadStdin => MoveRest(s, s.current, Stdin);
      case WaitStart(d) => StartWaitEffect(s, s.current, d);
      case WaitFinish => WaiterFindsZombie(s, s.current);
      case StdinReady => WakeStdinKeys(s, |On(s, Stdin)|);
      case ReapScan => ReapKeepsInv(s, On(s, Zombie));
      case ReapSleep => MoveRest(s, REAPER, Sleep);
      case _ =>
    }
    if Reschedules(e) { ScheduleKeys(Effect(s, e).value); }
  }

  /** No pid is freed twice: over any run, what has been freed stays freed and is
      no task, and the next step frees only tasks. */
  lemma {:induction false} FreedOnce(s: State, es: seq<Event>, r: State, e: Event, c: nat)
    requires Running(s) && Reaches(s, es, r) && c in s.freed
    requires Sensible(r, e) && Step(r, e).Some?
    ensures c in r.freed && c !in r.tasks
    ensures Step(r, e).value.freed <= r.freed + r.tasks.Keys
    decreases |es|
  {
    hide Inv, Step;
    if es == [] {
      FreesTasks(r, e);
      FreedIsGone(r, c);
    } else {
      StepKeepsRunning(s, es[0]);
      FreesTasks(s, es[0]);
      FreedOnce(Step(s, es[0]).value, es[1..], r, e, c);
    }
  }

  lemma FreedIsGone(s: State, c: nat)
    requires Inv(s) && c in s.freed
    ensures c !in s.tasks
  {
  }

  // ---------------------------------------------------------------- round robin

  /** No active task has a kill pending; zombies keep their mark until freed. */
  ghost predicate Unmarked(s: State) {
    forall t :: t in s.tasks && s.tasks[t].at == Active ==> !s.tasks[t].sigterm
  }

  /** The current task after j calls of schedule with nothing in between. */
  ghost function Turn(s: State, j: nat): State
    requires Inv(s) && Unmarked(s)
    ensures Inv(Turn(s, j)) && Unmarked(Turn(s, j)) && Turn(s, j).lists == s.lists
  {
    if j == 0 then s
    else
      var r := Turn(s, j - 1);
      IdleIsActive(r);
      Selected(r);
      CurrentKeepsInv(r, Select(r));
      r.(current := Select(r))
  }

  lemma TurnIsSchedule(s: State, j: nat)
    requires Inv(s) && Unmarked(s)
    ensures Schedule(Turn(s, j)) == Some(Turn(s, j + 1))
  {
    IdleIsActive(Turn(s, j));
    Selected(Turn(s, j));
  }

  lemma IndexUnique(l: seq<nat>, i: nat)
    requires NoDup(l) && i < |l|
    ensures IndexOf(l, l[i]) == i
  {
    var k := IndexOf(l, l[i]);
    assert l[k] == l[i];
  }

  /** Place k + j of a list of n, once around. */
  function Around(k: nat, j: nat, n: nat): (p: nat)
    requires k < n && j <= n
    ensures p < n
  {
    if k + j < n then k + j else k + j - n
  }

  lemma TurnMoves(s: State, l: seq<nat>, i: nat)
    requires Inv(s) && Unmarked(s) && On(s, Active) == l && i < |l| && s.current == l[i]
    ensures Select(s) == if i + 1 < |l| then l[i + 1] else l[0]
  {
    assert NoDup(On(s, Active));
    IndexUnique(l, i);
  }

  /** The j-th pick is j places further around the active list. */
  lemma {:induction false} TurnPosition(s: State, k: nat, j: nat)
    requires Inv(s) && Unmarked(s) && k < |On(s, Active)| && On(s, Active)[k] == s.current && j <= |On(s, Active)|
    ensures On(s, Active)[Around(k, j, |On(s, Active)|)] == Turn(s, j).current
  {
    hide Inv, Select, IndexOf;
    var l := On(s, Active);
    if j > 0 {
      TurnPosition(s, k, j - 1);
      TurnMoves(Turn(s, j - 1), l, Around(k, j - 1, |l|));
    }
  }

  lemma ActiveNoDup(s: State)
    requires Inv(s)
    ensures NoDup(On(s, Active))
  {
  }

  lemma PicksDiffer(s: State, k: nat, i: nat, j: nat)
    requires Inv(s) && Unmarked(s) && k < |On(s, Active)| && On(s, Active)[k] == s.current
             && 1 <= i < j <= |On(s, Active)|
    ensures Turn(s, i).current != Turn(s, j).current
  {
    hide Inv, Turn, On, Unmarked;
    var n := |On(s, Active)|;
    ActiveNoDup(s);
    TurnPosition(s, k, i);
    TurnPosition(s, k, j);
    var a, b := Around(k, i, n), Around(k, j, n);
    assert a < b || b < a;
  }

  /** Round robin: with n active tasks, n consecutive calls of schedule pick every
      active task, each exactly once. */
  lemma RoundRobin(s: State, x: nat)
    requires Inv(s) && Unmarked(s) && s.current in On(s, Active) && x in On(s, Active)
    ensures forall j: nat :: Schedule(Turn(s, j)) == Some(Turn(s, j + 1))
    ensures exists j :: 1 <= j <= |On(s, Active)| && Turn(s, j).current == x
    ensures forall i, j :: 1 <= i < j <= |On(s, Active)| ==> Turn(s, i).current != Turn(s, j).current
  {
    hide Inv, Turn, On, Unmarked;
    var n := |On(s, Active)|;
    var k := IndexOf(On(s, Active), s.current);
    var p := IndexOf(On(s, Active), x);
    var j := if p > k then p - k else p + n - k;
    TurnPosition(s, k, j);
    forall i: nat ensures Schedule(Turn(s, i)) == Some(Turn(s, i + 1)) { TurnIsSchedule(s, i); }
    forall i, m | 1 <= i < m <= n ensures Turn(s, i).current != Turn(s, m).current {
      PicksDiffer(s, k, i, m);
    }
  }
}
