/** What exit, kill, wait, fork and the sleeping calls do to each process, said of
    whole steps with their call of schedule, and of whole runs. */
module Fates {
  import opened Basics
  import opened Scheduler
  import opened Lifecycle
  import opened LifecycleRuns

  // ---------------------------------------------------------------- one task, before and after

  ghost predicate Roused(a: Task, b: Task) {
    b == a || (a.at == Sleep && b == a.(at := Active))
  }

  /** It died with this status, left to the reaper unless somebody waits for it. */
  ghost predicate Dead(a: Task, b: Task, status: int) {
    b == a.(status := status, at := Zombie, orphan := !a.waited)
  }

  /** schedule leaves a task alone, wakes it, or kills it for its mark. */
  ghost predicate Scheduled(a: Task, b: Task) {
    Roused(a, b) || (a.sigterm && (a.at == Active || a.at == Sleep) && Dead(a, b, 1))
  }

  lemma ExitFate(s: State, t: nat, status: int, x: nat)
    requires Inv(s) && t in s.tasks && s.tasks[t].at == Active && s.tasks[t].user && WakeLegal(s, t) && x in s.tasks
    ensures var r := ExitTask(s, t, status);
            && x in r.tasks && r.current == s.current
            && if x == t then Dead(s.tasks[x], r.tasks[x], status) else Roused(s.tasks[x], r.tasks[x])
  {
    hide Listed, Waits, Fresh, Reaping, ExitTask, WakeLegal;
    NotOrphan(s, t);
    if s.tasks[t].waited {
      ExitNotifies(s, t, status);
      ParentSleeps(s, t);
    } else {
      ExitOrphans(s, t, status);
    }
  }

  lemma {:induction false} ScheduleFate(s: State, x: nat)
    requires Inv(s) && Schedule(s).Some? && x in s.tasks
    ensures x in Schedule(s).value.tasks && Scheduled(s.tasks[x], Schedule(s).value.tasks[x])
    decreases |Marked(s)|
  {
    hide Listed, Waits, Fresh, Reaping, ExitTask, WakeLegal, On, Select;
    IdleIsActive(s);
    Selected(s);
    var n := Select(s);
    if s.tasks[n].sigterm {
      ExitKeepsInv(s, n, 1);
      ExitShrinksMarked(s, n);
      ExitFate(s, n, 1, x);
      ScheduleFate(ExitTask(s, n, 1), x);
    }
  }

  /** A marked task that the selection comes to is dead when schedule is done. */
  lemma SelectedDies(s: State)
    requires Inv(s) && Schedule(s).Some? && On(s, Active) != []
    requires Select(s) in s.tasks && s.tasks[Select(s)].sigterm
    ensures Select(s) in Schedule(s).value.tasks
    ensures Dead(s.tasks[Select(s)], Schedule(s).value.tasks[Select(s)], 1)
  {
    hide Listed, Waits, Fresh, Reaping, ExitTask, WakeLegal, On, Select;
    Selected(s);
    var n := Select(s);
    ExitKeepsInv(s, n, 1);
    ExitShrinksMarked(s, n);
    ExitFate(s, n, 1, n);
    ScheduleFate(ExitTask(s, n, 1), n);
  }

  // ---------------------------------------------------------------- exit

  /** exit(n): the caller is a zombie that holds n, an orphan iff nobody waits. */
  lemma QuitDies(s: State, n: int)
    requires Sensible(s, Quit(n)) && Step(s, Quit(n)).Some?
    ensures var r := Step(s, Quit(n)).value;
            s.current in r.tasks && Dead(s.tasks[s.current], r.tasks[s.current], n) && r.current != s.current
  {
    hide Listed, Waits, Fresh, Reaping, Kernel, ExitTask, Schedule, WakeLegal;
    EffectKeepsInv(s, Quit(n));
    ExitFate(s, s.current, n, s.current);
    ScheduleFate(Effect(s, Quit(n)).value, s.current);
    StepKeepsRunning(s, Quit(n));
  }

  /** Whatever happens between, a parent whose waitpid ends for that child finds
      the number the child gave to exit. */
  lemma ExitReachesParent(s: State, n: int, es: seq<Event>, r: State)
    requires Sensible(s, Quit(n)) && Step(s, Quit(n)).Some?
    requires (StepKeepsRunning(s, Quit(n)); Reaches(Step(s, Quit(n)).value, es, r))
    requires Sensible(r, WaitFinish) && r.tasks[r.current].waiting == Some(s.current)
    ensures s.current in r.tasks && r.tasks[s.current].status == n && r.current == s.tasks[s.current].ppid
  {
    hide Inv, Step;
    StepKeepsRunning(s, Quit(n));
    QuitDies(s, n);
    WaiterFindsZombie(r, r.current);
    ZombieKeepsStatus(Step(s, Quit(n)).value, es, r, s.current);
  }

  // ---------------------------------------------------------------- kill

  /** kill marks its target and does nothing else. */
  lemma KillMarks(s: State, p: nat)
    requires Sensible(s, Kill(p))
    ensures Step(s, Kill(p)).Some?
    ensures var r := Step(s, Kill(p)).value;
            && r.(tasks := s.tasks) == s && r.tasks.Keys == s.tasks.Keys
            && r.tasks[p].sigterm && r.tasks[p].(sigterm := s.tasks[p].sigterm) == s.tasks[p]
            && forall x :: x in s.tasks && x != p ==> r.tasks[x] == s.tasks[x]
  {
  }

  /** Before schedule, no event but the task's own exit makes a zombie, takes a
      mark away or frees a task that is alive. */
  lemma EffectSpares(s: State, e: Event, x: nat)
    requires Sensible(s, e) && Effect(s, e).Some? && x in s.tasks && s.tasks[x].at != Zombie
    requires !(e.Quit? && x == s.current)
    ensures var r := Effect(s, e).value;
            && x in r.tasks && r.tasks[x].at != Zombie && r.tasks[x].ppid == s.tasks[x].ppid
            && (s.tasks[x].sigterm ==> r.tasks[x].sigterm) && r.current == s.current
  {
    hide Listed, Waits, Fresh, Reaping, ExitTask, WakeLegal, Move, WakeStdin, Reap, On;
    NotOrphan(s, x);
    match e
    case Quit(status) => ExitFate(s, s.current, status, x);
    case ReadStdin => MoveRest(s, s.current, Stdin);
    case WaitStart(d) => StartWaitEffect(s, s.current, d);
    case StdinReady => WakeStdinSpares(s, |On(s, Stdin)|, x);
    case WaitFinish => WaiterFindsZombie(s, s.current);
    case ReapScan => ReapKeepsInv(s, On(s, Zombie));
    case ReapSleep => MoveRest(s, REAPER, Sleep);
    case Spawn => NewPid(s);
    case Fork => NewPid(s);
    case _ =>
  }

  lemma {:induction false} WakeStdinSpares(s: State, n: nat, x: nat)
    requires Inv(s) && x in s.tasks
    ensures var r := WakeStdin(s, n);
            && x in r.tasks && r.current == s.current
            && (r.tasks[x] == s.tasks[x] || (s.tasks[x].at == Stdin && r.tasks[x] == s.tasks[x].(at := Active)))
    decreases n
  {
    hide Inv, Move, WakeStdin, On;
    WakeStep(s, n);
    if n > 0 && On(s, Stdin) != [] {
      WakeOne(s);
      WakeStdinSpares(Move(s, On(s, Stdin)[0], Active), n - 1, x);
    }
  }

  /** A marked task keeps its mark, dies of nothing but the mark and its own exit,
      and does not run after a step that reschedules. */
  lemma StepKeepsMark(s: State, e: Event, p: nat)
    requires Sensible(s, e) && Step(s, e).Some? && p in s.tasks && s.tasks[p].sigterm && s.tasks[p].at != Zombie
    requires !(e.Quit? && p == s.current)
    ensures var r := Step(s, e).value;
            && p in r.tasks && r.tasks[p].sigterm && (r.tasks[p].at == Zombie ==> r.tasks[p].status == 1)
            && (p != s.current || Reschedules(e) ==> p != r.current)
  {
    hide Listed, Waits, Fresh, Reaping, Kernel, Effect, Schedule, Enabled;
    EffectKeepsInv(s, e);
    EffectSpares(s, e, p);
    if Reschedules(e) {
      ScheduleFate(Effect(s, e).value, p);
      ScheduleKeepsInv(Effect(s, e).value);
    }
  }

  /** Once marked by another process, a task never runs again, and it ends as a
      zombie with status 1. */
  lemma {:induction false} MarkedForGood(s: State, es: seq<Event>, r: State, p: nat)
    requires Running(s) && Reaches(s, es, r) && p in s.tasks && s.tasks[p].sigterm && p != s.current
    requires s.tasks[p].at == Zombie ==> s.tasks[p].status == 1
    ensures p != r.current
    ensures p in r.tasks ==> r.tasks[p].sigterm && (r.tasks[p].at == Zombie ==> r.tasks[p].status == 1)
    decreases |es|
  {
    hide Inv, Step;
    if es != [] {
      var t := Step(s, es[0]).value;
      StepKeepsRunning(s, es[0]);
      if s.tasks[p].at == Zombie {
        StepOnZombie(s, es[0], p);
      } else {
        StepKeepsMark(s, es[0], p);
      }
      if p in t.tasks {
        MarkedForGood(t, es[1..], r, p);
      } else {
        NeverBack(t, es[1..], r, p);
        ReachableRuns(t, es[1..], r);
      }
    }
  }

  /** So kill of another process is final, and a parent whose waitpid ends for the
      killed child finds 1. */
  lemma KillIsFinal(s: State, p: nat, es: seq<Event>, r: State)
    requires Sensible(s, Kill(p)) && p != s.current
    requires (KillMarks(s, p); StepKeepsRunning(s, Kill(p)); Reaches(Step(s, Kill(p)).value, es, r))
    ensures p != r.current && (p in r.tasks ==> r.tasks[p].sigterm)
    ensures Sensible(r, WaitFinish) && r.tasks[r.current].waiting == Some(p) ==>
              p in r.tasks && r.tasks[p].status == 1
  {
    hide Inv, Step;
    KillMarks(s, p);
    StepKeepsRunning(s, Kill(p));
    MarkedForGood(Step(s, Kill(p)).value, es, r, p);
    if Sensible(r, WaitFinish) && r.tasks[r.current].waiting == Some(p) { WaiterFindsZombie(r, r.current); }
  }

  // ---------------------------------------------------------------- the other calls

  /** fork: one new task, an active user process whose parent is the caller. */
  lemma ForkedChild(s: State)
    requires Sensible(s, Fork)
    ensures Step(s, Fork).Some? && s.nextPid !in s.tasks && s.nextPid !in s.freed
    ensures var r, c := Step(s, Fork).value, s.nextPid;
            && r.tasks.Keys == s.tasks.Keys + {c} && (forall x :: x in s.tasks ==> r.tasks[x] == s.tasks[x])
            && r.tasks[c].ppid == s.current && r.tasks[c].user && r.tasks[c].at == Active
            && !r.tasks[c].waited && !r.tasks[c].sigterm && r.tasks[c].waiting.None?
            && On(r, Active) == [c] + On(s, Active) && r.current == s.current
  {
    NewPid(s);
  }

  /** kernel_thread: the same, for a kernel task of the boot thread. */
  lemma SpawnedThread(s: State)
    requires Sensible(s, Spawn)
    ensures Step(s, Spawn).Some?
    ensures var r, c := Step(s, Spawn).value, s.nextPid;
            && c !in s.tasks && r.tasks == s.tasks[c := NewTask(s.current, false)] && r.current == s.current
            && On(r, Active) == [c] + On(s, Active)
  {
    NewPid(s);
  }

  /** A read with no input: the caller is on the stdin list and does not run. */
  lemma ReadSleeps(s: State)
    requires Sensible(s, ReadStdin) && Step(s, ReadStdin).Some?
    ensures var r := Step(s, ReadStdin).value;
            s.current in r.tasks && r.current != s.current
              && r.tasks[s.current] == s.tasks[s.current].(at := Stdin) && s.current in On(r, Stdin)
  {
    hide Listed, Waits, Fresh, Reaping, Kernel, Move, Schedule, On;
    EffectKeepsInv(s, ReadStdin);
    MoveRest(s, s.current, Stdin);
    ScheduleFate(Effect(s, ReadStdin).value, s.current);
    StepKeepsRunning(s, ReadStdin);
    Located(Step(s, ReadStdin).value, s.current, Stdin);
  }

  /** waitpid: the caller is blocked on the child, and runs only if the child has
      died already. */
  lemma WaitSleeps(s: State, c: nat)
    requires Sensible(s, WaitStart(c)) && Step(s, WaitStart(c)).Some?
    ensures var r, p := Step(s, WaitStart(c)).value, s.current;
            && p in r.tasks && c in r.tasks && r.tasks[p].waiting == Some(c) && r.tasks[c].waited
            && (r.tasks[p].at == Sleep <==> r.tasks[c].at != Zombie)
            && (r.tasks[c].at == Zombie ==> s.tasks[c].sigterm && r.tasks[c].status == 1)
  {
    hide Listed, Fresh, Reaping, Kernel, Move, Schedule, StartWait;
    var e, p := WaitStart(c), s.current;
    EffectKeepsInv(s, e);
    StartWaitEffect(s, p, c);
    ScheduleFate(Effect(s, e).value, p);
    ScheduleFate(Effect(s, e).value, c);
    StepKeepsRunning(s, e);
    assert WaitOk(Step(s, e).value.tasks, p);
  }

  function Reverse(l: seq<nat>): seq<nat> {
    if l == [] then [] else Reverse(l[1..]) + [l[0]]
  }

  /** Input arrives: the stdin list is empty, and its members are active, in turn
      at the head of the active list. */
  lemma StdinWakes(s: State)
    requires Sensible(s, StdinReady)
    ensures Step(s, StdinReady).Some?
    ensures var r := Step(s, StdinReady).value;
            && On(r, Stdin) == [] && On(r, Active) == Reverse(On(s, Stdin)) + On(s, Active)
            && On(r, Sleep) == On(s, Sleep) && On(r, Zombie) == On(s, Zombie)
            && r.tasks.Keys == s.tasks.Keys && r.current == s.current && r.zombieCount == s.zombieCount
            && r.nextPid == s.nextPid && r.reaper == s.reaper && r.freed == s.freed
            && forall x :: x in s.tasks ==>
                 r.tasks[x] == if x in On(s, Stdin) then s.tasks[x].(at := Active) else s.tasks[x]
  {
    hide Inv, WakeStdin, On;
    WakeAllStdin(s, |On(s, Stdin)|);
  }

  lemma WakeHead(s: State)
    requires Inv(s) && On(s, Stdin) != []
    ensures var l, h := On(s, Stdin), On(s, Stdin)[0];
            && h in s.tasks && h !in l[1..] && s.tasks[h].at == Stdin
            && On(Move(s, h, Active), Stdin) == l[1..]
            && On(Move(s, h, Active), Active) == [h] + On(s, Active)
            && On(Move(s, h, Active), Sleep) == On(s, Sleep) && On(Move(s, h, Active), Zombie) == On(s, Zombie)
  {
    Located(s, On(s, Stdin)[0], Stdin);
    assert NoDup(On(s, Stdin));
  }

  lemma {:induction false} WakeAllStdin(s: State, n: nat)
    requires Inv(s) && n == |On(s, Stdin)|
    ensures var r := WakeStdin(s, n);
            && On(r, Stdin) == [] && On(r, Active) == Reverse(On(s, Stdin)) + On(s, Active)
            && On(r, Sleep) == On(s, Sleep) && On(r, Zombie) == On(s, Zombie)
            && r.tasks.Keys == s.tasks.Keys && r.current == s.current && r.zombieCount == s.zombieCount
            && r.nextPid == s.nextPid && r.reaper == s.reaper && r.freed == s.freed
            && forall x :: x in s.tasks ==>
                 r.tasks[x] == if x in On(s, Stdin) then s.tasks[x].(at := Active) else s.tasks[x]
    decreases n
  {
    hide Inv, Move, WakeStdin, On;
    WakeStep(s, n);
    var l := On(s, Stdin);
    if n > 0 {
      WakeOne(s);
      WakeHead(s);
      MoveRest(s, l[0], Active);
      WakeAllStdin(Move(s, l[0], Active), n - 1);
      assert l == [l[0]] + l[1..];
    }
  }

  // ---------------------------------------------------------------- the count of orphans

  ghost function Orphans(s: State): set<nat> {
    set t | t in s.tasks && s.tasks[t].orphan
  }

  /** zombie_count is the number of zombies left to the reaper. */
  ghost predicate CountsOrphans(s: State) {
    |Orphans(s)| == s.zombieCount
  }

  lemma ExitCounts(s: State, t: nat, status: int)
    requires Inv(s) && t in s.tasks && s.tasks[t].at == Active && s.tasks[t].user && WakeLegal(s, t)
    requires CountsOrphans(s)
    ensures CountsOrphans(ExitTask(s, t, status))
  {
    hide Listed, Waits, Fresh, Reaping, ExitTask, WakeLegal;
    NotOrphan(s, t);
    var r := ExitTask(s, t, status);
    if s.tasks[t].waited {
      ExitNotifies(s, t, status);
      assert Orphans(r) == Orphans(s);
    } else {
      ExitOrphans(s, t, status);
      assert Orphans(r) == Orphans(s) + {t};
    }
  }

  lemma {:induction false} ScheduleCounts(s: State)
    requires Inv(s) && Schedule(s).Some? && CountsOrphans(s)
    ensures CountsOrphans(Schedule(s).value)
    decreases |Marked(s)|
  {
    hide Listed, Waits, Fresh, Reaping, ExitTask, WakeLegal, On, Select;
    IdleIsActive(s);
    Selected(s);
    var n := Select(s);
    if s.tasks[n].sigterm {
      ExitKeepsInv(s, n, 1);
      ExitShrinksMarked(s, n);
      ExitCounts(s, n, 1);
      ScheduleCounts(ExitTask(s, n, 1));
    } else {
      assert Orphans(s.(current := n)) == Orphans(s);
    }
  }

  /** The reaper's pass frees every orphan and starts the count anew. */
  lemma ScanCounts(s: State)
    requires Sensible(s, ReapScan)
    ensures Effect(s, ReapScan).Some? && Orphans(Effect(s, ReapScan).value) == {}
    ensures Effect(s, ReapScan).value.zombieCount == 0
  {
    hide Listed, Waits, Fresh, Reaping, Reap, On;
    ReapKeepsInv(s, On(s, Zombie));
    forall t | t in s.tasks && s.tasks[t].orphan ensures t in On(s, Zombie) { OrphanListed(s, t); }
  }

  lemma OrphanListed(s: State, t: nat)
    requires Inv(s) && t in s.tasks && s.tasks[t].orphan
    ensures t in On(s, Zombie)
  {
    assert ChildOk(s.tasks, t);
    Located(s, t, Zombie);
  }

  /** Every other event leaves both alone. */
  lemma EffectSameOrphans(s: State, e: Event)
    requires Sensible(s, e) && Effect(s, e).Some? && !e.Quit? && !e.ReapScan?
    ensures var r := Effect(s, e).value; Orphans(r) == Orphans(s) && r.zombieCount == s.zombieCount
  {
    hide Listed, Waits, Fresh, Reaping, Kernel, Move, WakeStdin, On, StartWait;
    match e {
      case ReadStdin => MoveRest(s, s.current, Stdin);
      case WaitStart(d) => StartWaitEffect(s, s.current, d);
      case StdinReady => WakeAllStdin(s, |On(s, Stdin)|);
      case WaitFinish => WaiterFindsZombie(s, s.current);
      case ReapSleep => MoveRest(s, REAPER, Sleep);
      case Spawn => NewPid(s);
      case Fork => NewPid(s);
      case _ =>
    }
    assert forall t :: t in Orphans(Effect(s, e).value) <==> t in Orphans(s);
  }

  lemma EffectCounts(s: State, e: Event)
    requires Sensible(s, e) && Effect(s, e).Some? && CountsOrphans(s)
    ensures CountsOrphans(Effect(s, e).value)
  {
    hide Listed, Waits, Fresh, Reaping, Kernel, ExitTask, WakeLegal, Orphans;
    match e {
      case Quit(status) => ExitCounts(s, s.current, status);
      case ReapScan => ScanCounts(s);
      case _ => EffectSameOrphans(s, e);
    }
  }

  /** So the reaper is woken by the fiftieth orphan and by no other event. */
  lemma {:induction false} CountStaysExact(s: State, es: seq<Event>, r: State)
    requires Running(s) && Reaches(s, es, r) && CountsOrphans(s)
    ensures CountsOrphans(r) && (r.reaper == Woken <==> |Orphans(r)| >= ZOMBIE_LIMIT)
    decreases |es|
  {
    hide Listed, Waits, Fresh, Effect, Schedule, Enabled;
    if es != [] {
      EffectKeepsInv(s, es[0]);
      EffectCounts(s, es[0]);
      if Reschedules(es[0]) { ScheduleCounts(Effect(s, es[0]).value); }
      StepKeepsRunning(s, es[0]);
      CountStaysExact(Step(s, es[0]).value, es[1..], r);
    }
  }

  // ---------------------------------------------------------------- how soon a kill kills

  /** How many picks around the list l lead from c to p. */
  function Ahead(l: seq<nat>, c: nat, p: nat): (a: nat)
    requires c in l && p in l
    ensures 1 <= a <= |l|
  {
    var i, k := IndexOf(l, c), IndexOf(l, p);
    if k > i then k - i else k + |l| - i
  }

  /** The place after i, around the list. */
  function NextPlace(l: seq<nat>, i: nat): nat { if i + 1 < |l| then i + 1 else 0 }

  lemma AheadAt(l: seq<nat>, i: nat, k: nat)
    requires NoDup(l) && i < |l| && k < |l|
    ensures Ahead(l, l[i], l[k]) == if k > i then k - i else k + |l| - i
  {
    IndexUnique(l, i);
    IndexUnique(l, k);
  }

  lemma WithoutStep(l: seq<nat>, t: nat)
    requires l != []
    ensures Without(l, t) == if l[0] == t then l[1..] else [l[0]] + Without(l[1..], t)
  {
  }

  lemma {:induction false} WithoutAt(l: seq<nat>, j: nat)
    requires NoDup(l) && j < |l|
    ensures Without(l, l[j]) == l[..j] + l[j + 1..]
  {
    hide Without;
    WithoutStep(l, l[j]);
    if j > 0 {
      var t := l[1..];
      assert t[j - 1] == l[j] && l[0] != l[j] && t[..j - 1] == l[1..j] && t[j..] == l[j + 1..];
      WithoutAt(t, j - 1);
      assert [l[0]] + l[1..j] == l[..j];
    }
  }

  lemma AheadNext(l: seq<nat>, i: nat, k: nat)
    requires NoDup(l) && i < |l| && k < |l| && NextPlace(l, i) != k
    ensures Ahead(l, l[NextPlace(l, i)], l[k]) == Ahead(l, l[i], l[k]) - 1
  {
    hide Ahead;
    AheadAt(l, i, k);
    AheadAt(l, NextPlace(l, i), k);
  }

  /** Taking out the next task brings every other one a place nearer. */
  lemma AheadRemove(l: seq<nat>, i: nat, k: nat)
    requires NoDup(l) && i < |l| && k < |l| && NextPlace(l, i) != k
    ensures var m := Without(l, l[NextPlace(l, i)]);
            NoDup(m) && l[i] in m && l[k] in m && Ahead(m, l[i], l[k]) == Ahead(l, l[i], l[k]) - 1
  {
    hide Ahead;
    var j := NextPlace(l, i);
    assert j != i;
    WithoutMembers(l, l[j]);
    WithoutAt(l, j);
    var m := Without(l, l[j]);
    var i', k' := if i > j then i - 1 else i, if k > j then k - 1 else k;
    assert m[i'] == l[i] && m[k'] == l[k];
    AheadAt(l, i, k);
    AheadAt(m, i', k');
  }

  /** A task that enters at the head comes between at most once. */
  lemma AheadPush(l: seq<nat>, x: nat, c: nat, p: nat)
    requires NoDup(l) && x !in l && c in l && p in l
    ensures c in [x] + l && p in [x] + l && Ahead([x] + l, c, p) <= Ahead(l, c, p) + 1
  {
    var m := [x] + l;
    var i, k := IndexOf(l, c), IndexOf(l, p);
    assert m[i + 1] == c && m[k + 1] == p && NoDup(m);
    AheadAt(m, i + 1, k + 1);
  }

  /** What an exit does to the active list. */
  lemma ExitActive(s: State, t: nat, status: int) returns (m: seq<nat>)
    requires Inv(s) && t in s.tasks && s.tasks[t].at == Active && s.tasks[t].user && WakeLegal(s, t)
    ensures m == Without(On(s, Active), t)
    ensures var l := On(ExitTask(s, t, status), Active); l == m || (l != [] && l[0] !in m && l == [l[0]] + m)
  {
    hide Without, Waits, Fresh, Reaping;
    m := Without(On(s, Active), t);
    ActiveNoDup(s);
    WithoutMembers(On(s, Active), t);
    if s.tasks[t].waited {
      ParentSleeps(s, t);
      Located(s, s.tasks[t].ppid, Active);
    } else {
      Located(s, REAPER, Active);
    }
  }

  /** Places from the current task to p on the active list. */
  ghost predicate Within(s: State, p: nat, n: nat) {
    var l := On(s, Active);
    s.current in l && p in l && Ahead(l, s.current, p) <= n
  }

  lemma PickNearer(s: State, p: nat, n: nat)
    requires Inv(s) && Within(s, p, n) && Select(s) != p
    ensures Within(s.(current := Select(s)), p, n - 1)
  {
    hide Inv, On, Ahead;
    ActiveNoDup(s);
    var l := On(s, Active);
    AheadNext(l, IndexOf(l, s.current), IndexOf(l, p));
    assert On(s.(current := Select(s)), Active) == l by { SameActive(s, Select(s)); }
  }

  lemma SameActive(s: State, n: nat)
    ensures On(s.(current := n), Active) == On(s, Active)
  {
  }

  lemma ExitNoFarther(s: State, p: nat, n: nat)
    requires Inv(s) && Within(s, p, n) && Select(s) in s.tasks && Select(s) != p
    requires s.tasks[Select(s)].at == Active && s.tasks[Select(s)].user && WakeLegal(s, Select(s))
    ensures Within(ExitTask(s, Select(s), 1), p, n)
  {
    hide Listed, Waits, Fresh, Reaping, ExitTask, Without, WakeLegal, Ahead;
    ActiveNoDup(s);
    var l, t := On(s, Active), Select(s);
    var i, k := IndexOf(l, s.current), IndexOf(l, p);
    assert t == l[NextPlace(l, i)];
    AheadRemove(l, i, k);
    var m := ExitActive(s, t, 1);
    ExitFate(s, t, 1, t);
    var a := On(ExitTask(s, t, 1), Active);
    if a != m { AheadPush(m, a[0], s.current, p); }
  }

  /** One call of schedule kills p or comes at least one place nearer to it. */
  lemma {:induction false} ScheduleNearer(s: State, p: nat, n: nat)
    requires Inv(s) && Within(s, p, n) && p in s.tasks && s.tasks[p].sigterm && Schedule(s).Some?
    ensures var r := Schedule(s).value;
            p in r.tasks && (r.tasks[p].at == Zombie || Within(r, p, n - 1))
    decreases |Marked(s)|
  {
    hide Listed, Waits, Fresh, Reaping, ExitTask, WakeLegal, Select, Within, On;
    IdleIsActive(s);
    Selected(s);
    var t := Select(s);
    if t == p {
      SelectedDies(s);
    } else if !s.tasks[t].sigterm {
      PickNearer(s, p, n);
    } else {
      ExitKeepsInv(s, t, 1);
      ExitShrinksMarked(s, t);
      ExitNoFarther(s, p, n);
      ExitFate(s, t, 1, p);
      ScheduleNearer(ExitTask(s, t, 1), p, n);
    }
  }

  ghost function Ticks(n: nat): seq<Event> { seq(n, _ => Tick) }

  /** A marked active task is dead, with status 1, after at most as many ticks of
      the timer as there are active tasks. */
  lemma {:induction false} TicksKill(s: State, n: nat, r: State, p: nat)
    requires Running(s) && Reaches(s, Ticks(n), r) && p in s.tasks && s.tasks[p].sigterm
    requires if s.tasks[p].at == Zombie then s.tasks[p].status == 1 else Within(s, p, n)
    ensures p in r.tasks && r.tasks[p].at == Zombie && r.tasks[p].status == 1
    decreases n
  {
    hide Listed, Waits, Fresh, Reaping, Kernel, Schedule, Within;
    if n == 0 {
      assert Ticks(0) == [];
      NotWithinNone(s, p);
    } else {
      var es := Ticks(n);
      assert es[0] == Tick && es[1..] == Ticks(n - 1);
      var t := Step(s, Tick).value;
      StepKeepsRunning(s, Tick);
      if s.tasks[p].at == Zombie {
        StepOnZombie(s, Tick, p);
      } else {
        ScheduleNearer(s, p, n);
        StepKeepsMark(s, Tick, p);
      }
      TicksKill(t, n - 1, r, p);
    }
  }

  lemma NotWithinNone(s: State, p: nat)
    ensures !Within(s, p, 0)
  {
  }

  lemma KilledInOneRound(s: State, r: State, p: nat)
    requires Running(s) && p in s.tasks && s.tasks[p].sigterm && s.tasks[p].at == Active
    requires Reaches(s, Ticks(|On(s, Active)|), r)
    ensures p in r.tasks && r.tasks[p].at == Zombie && r.tasks[p].status == 1
  {
    hide Waits, Fresh, Reaping, Kernel, Reaches;
    Located(s, p, Active);
    Located(s, s.current, Active);
    TicksKill(s, |On(s, Active)|, r, p);
  }
}
