/** The life of processes as steps of one machine: creation, sleep and wake-up,
    exit, wait and kill, the reaper thread, and round-robin scheduling. A step
    that would walk off the end of a kernel list gives no state. */
module Lifecycle {
  import opened Basics
  import opened Scheduler

  // ---------------------------------------------------------------- selection

  function IndexOf(l: seq<nat>, t: nat): (i: nat)
    requires t in l
    ensures i < |l| && l[i] == t
  {
    if l[0] == t then 0 else 1 + IndexOf(l[1..], t)
  }

  /** select_task_struct: the task after the current one, around the list; after
      the head if the current task is not active. */
  function Select(s: State): (t: nat)
    requires On(s, Active) != []
    ensures t in On(s, Active)
  {
    var l := On(s, Active);
    var k := if s.current in l then IndexOf(l, s.current) else 0;
    if k + 1 < |l| then l[k + 1] else l[0]
  }

  /** The tasks that a kill has marked and that have not died yet. */
  ghost function Marked(s: State): set<nat> {
    set t | t in s.tasks && s.tasks[t].sigterm && s.tasks[t].at != Zombie
  }

  lemma IdleIsActive(s: State)
    requires Inv(s)
    ensures IDLE in On(s, Active) && On(s, Active) != []
  {
    Located(s, IDLE, Active);
  }

  lemma ExitShrinksMarked(s: State, t: nat)
    requires Inv(s) && t in s.tasks && s.tasks[t].at == Active && s.tasks[t].user && s.tasks[t].sigterm
             && WakeLegal(s, t)
    ensures |Marked(ExitTask(s, t, 1))| < |Marked(s)|
  {
    hide Listed, Waits, ExitTask, LeftToReaper, WakeLegal;
    var r := ExitTask(s, t, 1);
    if s.tasks[t].waited {
      ExitNotifies(s, t, 1);
      NotifiedWaits(s.tasks, t, 1);
      ParentSleeps(s, t);
    } else {
      ExitOrphans(s, t, 1);
    }
    assert Marked(r) == Marked(s) - {t};
    assert t in Marked(s);
  }

  lemma ParentSleeps(s: State, t: nat)
    requires Inv(s) && t in s.tasks && s.tasks[t].waited && s.tasks[t].at != Zombie
    ensures s.tasks[t].ppid in s.tasks && s.tasks[s.tasks[t].ppid].at == Sleep
  {
    assert ChildOk(s.tasks, t);
    assert WaitOk(s.tasks, s.tasks[t].ppid);
  }

  lemma Selected(s: State)
    requires Inv(s) && On(s, Active) != []
    ensures Select(s) in s.tasks && s.tasks[Select(s)].at == Active
    ensures s.tasks[Select(s)].sigterm ==> s.tasks[Select(s)].user
  {
    Located(s, Select(s), Active);
  }

  /** schedule: marked tasks are killed as they come up; each kill leaves fewer. */
  ghost function Schedule(s: State): Option<State>
    requires Inv(s)
    decreases |Marked(s)|
  {
    IdleIsActive(s);
    Selected(s);
    var n := Select(s);
    if !s.tasks[n].sigterm then Some(s.(current := n))
    else if !WakeLegal(s, n) then None
    else
      ExitKeepsInv(s, n, 1);
      ExitShrinksMarked(s, n);
      Schedule(ExitTask(s, n, 1))
  }

  lemma CurrentKeepsInv(s: State, n: nat)
    requires Inv(s)
    ensures Inv(s.(current := n))
  {
    SameLists(s, s.(current := n));
  }

  /** Whatever was pending, the task that schedule picks is active and unmarked. */
  lemma {:induction false} ScheduleKeepsInv(s: State)
    requires Inv(s)
    ensures Schedule(s).Some? ==>
              var r := Schedule(s).value;
              Inv(r) && r.current in On(r, Active) && r.current in r.tasks && r.tasks[r.current].at == Active
                && !r.tasks[r.current].sigterm
    decreases |Marked(s)|
  {
    hide Listed, Waits, Fresh, Reaping, ExitTask, WakeLegal;
    IdleIsActive(s);
    Selected(s);
    var n := Select(s);
    if !s.tasks[n].sigterm {
      CurrentKeepsInv(s, n);
      assert On(s.(current := n), Active) == On(s, Active);
    } else if WakeLegal(s, n) {
      ExitKeepsInv(s, n, 1);
      ExitShrinksMarked(s, n);
      ScheduleKeepsInv(ExitTask(s, n, 1));
    }
  }

  // ---------------------------------------------------------------- steps

  datatype Event =
    | Tick                       // the timer, or a yield
    | Spawn                      // kernel_thread
    | Fork
    | BecomeUser                 // exec in a kernel thread
    | ReadStdin                  // sleep on the stdin list
    | StdinReady                 // wake the whole stdin list
    | WaitStart(c: nat)          // waitpid up to its sleep
    | WaitFinish                 // waitpid after its sleep
    | Quit(status: int)          // exit
    | Kill(p: nat)
    | ReapScan                   // thread_clear: one pass and the reset of the count
    | ReapSleep                  // thread_clear: sleep again

  function NewTask(ppid: nat, user: bool): Task {
    Task(ppid, user, false, false, 0, false, None, Active)
  }

  /** wakeup of a whole list: head by head, each to the head of the active list. */
  function WakeStdin(s: State, n: nat): State
    decreases n
  {
    if n == 0 || On(s, Stdin) == [] || On(s, Stdin)[0] !in s.tasks then s
    else WakeStdin(Move(s, On(s, Stdin)[0], Active), n - 1)
  }

  /** thread_clear's pass: every orphan on the list is freed. */
  function Reap(s: State, l: seq<nat>): State
    decreases |l|
  {
    if l == [] then s
    else Reap(if l[0] in s.tasks && s.tasks[l[0]].orphan then Drop(s, l[0]) else s, l[1..])
  }

  function StartWait(s: State, t: nat, c: nat): State
    requires t in s.tasks && c in s.tasks && t != c
  {
    Move(s.(tasks := s.tasks[c := s.tasks[c].(waited := true)][t := s.tasks[t].(waiting := Some(c))]), t, Sleep)
  }

  function FinishWait(s: State, t: nat, c: nat): State
    requires t in s.tasks
  {
    Drop(s.(tasks := s.tasks[t := s.tasks[t].(waiting := None)]), c)
  }

  /** At rest between steps: the current task is active. */
  ghost predicate Running(s: State) {
    Inv(s) && s.current in s.tasks && s.tasks[s.current].at == Active
  }

  /** Who may take a step: user tasks make system calls when not inside waitpid,
      the boot thread creates and awaits, the reaper reaps. */
  predicate Enabled(s: State, e: Event)
    requires s.current in s.tasks
  {
    var t := s.tasks[s.current];
    match e
    case Tick => true
    case Spawn => s.current == INIT && t.waiting.None?
    case Fork => t.user && t.waiting.None?
    case BecomeUser => s.current > REAPER && t.waiting.None?
    case ReadStdin => t.user && t.waiting.None?
    case StdinReady => true
    case WaitStart(c) => (t.user || s.current == INIT) && t.waiting.None? && c > REAPER && c != s.current
                         && c in s.tasks && s.tasks[c].at != Zombie && s.tasks[c].ppid == s.current
    case WaitFinish => t.waiting.Some?
    case Quit(_) => t.user && t.waiting.None?
    case Kill(p) => p in s.tasks && s.tasks[p].at != Zombie && s.tasks[p].user
    case ReapScan => s.current == REAPER && s.reaper != Asleep && s.reaper != Scanned
    case ReapSleep => s.current == REAPER && s.reaper == Scanned
  }

  ghost predicate Sensible(s: State, e: Event) {
    Running(s) && Enabled(s, e)
  }

  /** The state before the step's call of schedule, if it makes one. */
  ghost function Effect(s: State, e: Event): Option<State>
    requires Sensible(s, e)
  {
    var t := s.current;
    match e
    case Tick => Some(s)
    case Spawn => Some(Enter(s, s.nextPid, NewTask(INIT, false)))
    case Fork => Some(Enter(s, s.nextPid, NewTask(t, true)))
    case BecomeUser => Some(s.(tasks := s.tasks[t := s.tasks[t].(user := true)]))
    case ReadStdin => Some(Move(s, t, Stdin))
    case StdinReady => Some(WakeStdin(s, |On(s, Stdin)|))
    case WaitStart(c) => Some(StartWait(s, t, c))
    case WaitFinish => Some(FinishWait(s, t, s.tasks[t].waiting.value))
    case Quit(status) => if WakeLegal(s, t) then Some(ExitTask(s, t, status)) else None
    case Kill(p) => Some(s.(tasks := s.tasks[p := s.tasks[p].(sigterm := true)]))
    case ReapScan => Some(Reap(s, On(s, Zombie)).(zombieCount := 0, reaper := Scanned))
    case ReapSleep => Some(Move(s, REAPER, Sleep).(reaper := Asleep))
  }

  predicate Reschedules(e: Event) {
    e.Tick? || e.ReadStdin? || e.WaitStart? || e.Quit? || e.ReapSleep?
  }

  // ---------------------------------------------------------------- each step keeps the invariant

  /** The waiting relation depends on five fields only. */
  lemma SameWaits(ts: Tasks, us: Tasks)
    requires Waits(ts) && us.Keys == ts.Keys
    requires forall x :: x in ts ==>
               us[x].ppid == ts[x].ppid && us[x].waited == ts[x].waited && us[x].orphan == ts[x].orphan
                                     && us[x].waiting == ts[x].waiting && us[x].at == ts[x].at
    ensures Waits(us)
  {
    forall x | x in us ensures WaitOk(us, x) && ChildOk(us, x) { assert WaitOk(ts, x) && ChildOk(ts, x); }
  }

  lemma MoveWaits(ts: Tasks, t: nat, to: Which)
    requires Waits(ts) && t in ts && ts[t].waiting.None? && ts[t].at != Zombie && to != Zombie
             && (to == Sleep ==> t == REAPER)
    ensures Waits(ts[t := ts[t].(at := to)])
  {
    var us := ts[t := ts[t].(at := to)];
    forall x | x in us ensures WaitOk(us, x) && ChildOk(us, x) { assert WaitOk(ts, x) && ChildOk(ts, x); }
  }

  lemma EnterWaits(ts: Tasks, t: nat, ppid: nat, user: bool)
    requires Waits(ts) && t !in ts
    ensures Waits(ts[t := NewTask(ppid, user)])
  {
    var us := ts[t := NewTask(ppid, user)];
    forall x | x in us ensures WaitOk(us, x) && ChildOk(us, x) {
      if x != t { assert WaitOk(ts, x) && ChildOk(ts, x); }
    }
  }

  lemma DropWaits(ts: Tasks, c: nat)
    requires Waits(ts) && c in ts && ts[c].at == Zombie && forall t :: t in ts ==> ts[t].waiting != Some(c)
    ensures Waits(ts - {c})
  {
    var us := ts - {c};
    assert WaitOk(ts, c);
    forall x | x in us ensures WaitOk(us, x) && ChildOk(us, x) { assert WaitOk(ts, x) && ChildOk(ts, x); }
  }

  lemma DropListed(s: State, c: nat)
    requires Listed(s) && c in s.tasks && s.tasks[c].at == Zombie
    ensures Listed(Drop(s, c))
  {
    var r := Drop(s, c);
    WithoutMembers(On(s, Zombie), c);
    forall w ensures On(r, w) == if w == Zombie then Without(On(s, Zombie), c) else On(s, w) {}
    hide On, Without;
    forall w ensures NoDup(On(r, w)) {}
    forall w, x | x in On(r, w) ensures x in r.tasks && r.tasks[x].at == w { assert x in On(s, w); }
    forall x | x in r.tasks ensures x in On(r, r.tasks[x].at) { assert x in On(s, s.tasks[x].at); }
  }

  lemma EnterListed(s: State, t: nat, k: Task)
    requires Listed(s) && t !in s.tasks && k.at == Active
    ensures Listed(Enter(s, t, k))
  {
    var r := Enter(s, t, k);
    assert t !in On(s, Active);
    forall w ensures On(r, w) == if w == Active then [t] + On(s, Active) else On(s, w) {}
    hide On;
    forall w ensures NoDup(On(r, w)) {}
    forall w, x | x in On(r, w) ensures x in r.tasks && r.tasks[x].at == w {
      if x != t { assert x in On(s, w); }
    }
    forall x | x in r.tasks ensures x in On(r, r.tasks[x].at) {
      if x != t { assert x in On(s, s.tasks[x].at); }
    }
  }

  /** kernel_thread and fork. */
  lemma EnterKeepsInv(s: State, ppid: nat, user: bool)
    requires Inv(s)
    ensures Inv(Enter(s, s.nextPid, NewTask(ppid, user)))
  {
    hide Listed, Waits;
    EnterListed(s, s.nextPid, NewTask(ppid, user));
    EnterWaits(s.tasks, s.nextPid, ppid, user);
  }

  /** Changing a task's user or kill mark. */
  lemma MarkKeepsInv(s: State, t: nat, user: bool, sigterm: bool)
    requires Inv(s) && t in s.tasks && (s.tasks[t].user ==> user) && (user ==> t > REAPER || s.tasks[t].user)
             && (sigterm ==> user)
    ensures Inv(s.(tasks := s.tasks[t := s.tasks[t].(user := user, sigterm := sigterm)]))
  {
    hide Listed, Waits;
    var r := s.(tasks := s.tasks[t := s.tasks[t].(user := user, sigterm := sigterm)]);
    SameLists(s, r);
    SameWaits(s.tasks, r.tasks);
  }

  lemma MoveKeepsInv(s: State, t: nat, to: Which)
    requires Inv(s) && t in s.tasks && t != REAPER && t != IDLE && s.tasks[t].waiting.None?
    requires s.tasks[t].at != Zombie && s.tasks[t].at != Sleep && to != Zombie && to != Sleep && s.tasks[t].at != to
    ensures Inv(Move(s, t, to))
  {
    hide Listed, Waits, Move;
    MoveListed(s, t, to);
    MoveRest(s, t, to);
    MoveWaits(s.tasks, t, to);
  }

  lemma WakeOne(s: State)
    requires Inv(s) && On(s, Stdin) != []
    ensures var t := On(s, Stdin)[0];
            && t in s.tasks && t != REAPER && t != IDLE && s.tasks[t].at == Stdin && s.tasks[t].waiting.None?
            && Inv(Move(s, t, Active)) && Move(s, t, Active).current == s.current
            && Move(s, t, Active).tasks == s.tasks[t := s.tasks[t].(at := Active)]
  {
    var t := On(s, Stdin)[0];
    Located(s, t, Stdin);
    assert WaitOk(s.tasks, t);
    MoveKeepsInv(s, t, Active);
    MoveRest(s, t, Active);
  }

  lemma WakeStep(s: State, n: nat)
    ensures WakeStdin(s, n) == if n == 0 || On(s, Stdin) == [] || On(s, Stdin)[0] !in s.tasks then s
                               else WakeStdin(Move(s, On(s, Stdin)[0], Active), n - 1)
  {
  }

  lemma {:induction false} WakeStdinKeepsInv(s: State, n: nat)
    requires Inv(s)
    ensures Inv(WakeStdin(s, n)) && WakeStdin(s, n).current == s.current
    ensures s.current in s.tasks && s.tasks[s.current].at == Active ==>
              s.current in WakeStdin(s, n).tasks && WakeStdin(s, n).tasks[s.current].at == Active
    decreases n
  {
    hide Inv, Move, WakeStdin, On;
    WakeStep(s, n);
    if n > 0 && On(s, Stdin) != [] {
      WakeOne(s);
      WakeStdinKeepsInv(Move(s, On(s, Stdin)[0], Active), n - 1);
    }
  }

  lemma StartWaits(ts: Tasks, t: nat, c: nat)
    requires Waits(ts) && t in ts && c in ts && t != c && ts[t].waiting.None? && ts[t].at == Active
    requires ts[c].at != Zombie && ts[c].ppid == t
    ensures !ts[c].waited
    ensures Waits(ts[c := ts[c].(waited := true)][t := ts[t].(waiting := Some(c), at := Sleep)])
  {
    assert ChildOk(ts, c);
    var us := ts[c := ts[c].(waited := true)][t := ts[t].(waiting := Some(c), at := Sleep)];
    forall x | x in us ensures WaitOk(us, x) && ChildOk(us, x) { assert WaitOk(ts, x) && ChildOk(ts, x); }
  }

  lemma StartWaitEffect(s: State, t: nat, c: nat)
    requires Listed(s) && t in s.tasks && c in s.tasks && t != c && s.tasks[t].at == Active
    ensures var r := StartWait(s, t, c);
            && Listed(r)
            && r.tasks == s.tasks[c := s.tasks[c].(waited := true)][t := s.tasks[t].(waiting := Some(c), at := Sleep)]
            && r.current == s.current && r.nextPid == s.nextPid && r.zombieCount == s.zombieCount
               && r.reaper == s.reaper && r.freed == s.freed
  {
    hide Listed, Move;
    var s0 := s.(tasks := s.tasks[c := s.tasks[c].(waited := true)][t := s.tasks[t].(waiting := Some(c))]);
    SameLists(s, s0);
    MoveListed(s0, t, Sleep);
    MoveRest(s0, t, Sleep);
  }

  lemma StartWaitKeepsInv(s: State, t: nat, c: nat)
    requires Inv(s) && t in s.tasks && c in s.tasks && t != c && s.tasks[t].waiting.None? && s.tasks[t].at == Active
    requires s.tasks[c].at != Zombie && s.tasks[c].ppid == t && c > REAPER && t != IDLE && t != REAPER
    ensures Inv(StartWait(s, t, c))
  {
    hide Listed, Waits, StartWait;
    StartWaits(s.tasks, t, c);
    StartWaitEffect(s, t, c);
  }

  /** A waiter that runs again finds its child dead, kept for it and not freed. */
  lemma WaiterFindsZombie(s: State, t: nat)
    requires Inv(s) && t in s.tasks && s.tasks[t].at == Active && s.tasks[t].waiting.Some?
    ensures var c := s.tasks[t].waiting.value;
            && c in s.tasks && s.tasks[c].at == Zombie && c in On(s, Zombie) && !s.tasks[c].orphan && c !in s.freed
            && s.tasks[c].ppid == t && s.tasks[c].user && c != t && c != REAPER && c != IDLE && c != INIT
            && forall x :: x in s.tasks && x != t ==> s.tasks[x].waiting != Some(c)
  {
    assert WaitOk(s.tasks, t);
    var c := s.tasks[t].waiting.value;
    assert ChildOk(s.tasks, c);
    Located(s, c, Zombie);
    forall x | x in s.tasks && s.tasks[x].waiting == Some(c) ensures x == t { assert WaitOk(s.tasks, x); }
  }

  lemma DropKeepsInv(s: State, c: nat)
    requires Inv(s) && c in s.tasks && s.tasks[c].at == Zombie
    requires forall t :: t in s.tasks ==> s.tasks[t].waiting != Some(c)
    ensures Inv(Drop(s, c)) && c !in s.freed
  {
    hide Listed, Waits;
    DropListed(s, c);
    DropWaits(s.tasks, c);
  }

  lemma FinishWaits(ts: Tasks, t: nat, c: nat)
    requires Waits(ts) && t in ts && ts[t].waiting == Some(c) && ts[t].at == Active
    ensures c in ts && c != t && Waits((ts - {c})[t := ts[t].(waiting := None)])
  {
    assert WaitOk(ts, t);
    var us := (ts - {c})[t := ts[t].(waiting := None)];
    assert WaitOk(ts, c);
    forall x | x in us ensures WaitOk(us, x) && ChildOk(us, x) { assert WaitOk(ts, x) && ChildOk(ts, x); }
  }

  lemma FinishWaitKeepsInv(s: State, t: nat)
    requires Inv(s) && t in s.tasks && s.tasks[t].at == Active && s.tasks[t].waiting.Some?
    ensures Inv(FinishWait(s, t, s.tasks[t].waiting.value)) && s.tasks[t].waiting.value !in s.freed
  {
    hide Listed, Waits;
    WaiterFindsZombie(s, t);
    var c := s.tasks[t].waiting.value;
    FinishWaits(s.tasks, t, c);
    var s0 := s.(tasks := s.tasks[t := s.tasks[t].(waiting := None)]);
    SameLists(s, s0);
    DropListed(s0, c);
    assert s0.tasks - {c} == (s.tasks - {c})[t := s.tasks[t].(waiting := None)];
  }

  lemma ReapOne(s: State, t: nat)
    requires Inv(s) && t in s.tasks && s.tasks[t].orphan
    ensures Inv(Drop(s, t)) && t !in s.freed
  {
    assert ChildOk(s.tasks, t);
    forall x | x in s.tasks ensures s.tasks[x].waiting != Some(t) { assert WaitOk(s.tasks, x); }
    DropKeepsInv(s, t);
  }

  /** The reaper's pass frees zombies that are orphans, and only those. */
  lemma {:induction false} ReapKeepsInv(s: State, l: seq<nat>)
    requires Inv(s)
    ensures var r := Reap(s, l);
            && Inv(r) && r.current == s.current && r.nextPid == s.nextPid && r.reaper == s.reaper
            && (forall t :: t in s.tasks && !s.tasks[t].orphan ==> t in r.tasks && r.tasks[t] == s.tasks[t])
            && (forall t :: t in r.tasks ==> t in s.tasks && r.tasks[t] == s.tasks[t])
            && (forall t :: t in l && t in s.tasks && s.tasks[t].orphan ==> t !in r.tasks)
            && s.freed <= r.freed <= s.freed + s.tasks.Keys
    decreases |l|
  {
    hide Inv, Reap, On, Without;
    ReapStep(s, l);
    if l != [] {
      var t := l[0];
      if t in s.tasks && s.tasks[t].orphan {
        ReapOne(s, t);
        ReapKeepsInv(Drop(s, t), l[1..]);
      } else {
        ReapKeepsInv(s, l[1..]);
      }
    }
  }

  lemma ReapStep(s: State, l: seq<nat>)
    ensures Reap(s, l) == if l == [] then s
                          else Reap(if l[0] in s.tasks && s.tasks[l[0]].orphan then Drop(s, l[0]) else s, l[1..])
  {
  }

  lemma ReapScanKeepsInv(s: State)
    requires Inv(s) && s.current == REAPER && s.tasks[REAPER].at == Active
    ensures Inv(Reap(s, On(s, Zombie)).(zombieCount := 0, reaper := Scanned))
  {
    hide Listed, Waits, Reap;
    ReapKeepsInv(s, On(s, Zombie));
    var r := Reap(s, On(s, Zombie));
    NotOrphan(s, REAPER);
    SameLists(r, r.(zombieCount := 0, reaper := Scanned));
  }

  lemma ReapSleepKeepsInv(s: State)
    requires Inv(s) && s.reaper == Scanned && s.tasks[REAPER].at == Active
    ensures Inv(Move(s, REAPER, Sleep).(reaper := Asleep))
  {
    hide Listed, Waits, Move;
    MoveListed(s, REAPER, Sleep);
    MoveRest(s, REAPER, Sleep);
    MoveWaits(s.tasks, REAPER, Sleep);
    var r := Move(s, REAPER, Sleep);
    SameLists(r, r.(reaper := Asleep));
  }

  lemma EffectKeepsInv(s: State, e: Event)
    requires Sensible(s, e)
    ensures Effect(s, e).Some? ==> Inv(Effect(s, e).value)
    ensures Effect(s, e).Some? && !Reschedules(e) ==> Running(Effect(s, e).value)
  {
    hide Listed, Waits, Fresh, Reaping, WakeStdin, Reap, Move, ExitTask, WakeLegal;
    var t := s.current;
    match e
    case Tick =>
    case Spawn => EnterKeepsInv(s, INIT, false); NewPid(s);
    case Fork => EnterKeepsInv(s, t, true); NewPid(s);
    case BecomeUser => MarkKeepsInv(s, t, true, s.tasks[t].sigterm);
    case ReadStdin => MoveKeepsInv(s, t, Stdin);
    case StdinReady => WakeStdinKeepsInv(s, |On(s, Stdin)|);
    case WaitStart(c) => StartWaitKeepsInv(s, t, c);
    case WaitFinish => WaiterFindsZombie(s, t); FinishWaitKeepsInv(s, t);
    case Quit(status) => if WakeLegal(s, t) { ExitKeepsInv(s, t, status); }
    case Kill(p) => MarkKeepsInv(s, p, s.tasks[p].user, true);
    case ReapScan => ReapScanKeepsInv(s); ReapKeepsInv(s, On(s, Zombie)); NotOrphan(s, t);
    case ReapSleep => ReapSleepKeepsInv(s);
  }

  lemma NewPid(s: State)
    requires Inv(s)
    ensures s.nextPid !in s.tasks && s.nextPid !in s.freed
  {
  }

  lemma NotOrphan(s: State, t: nat)
    requires Inv(s) && t in s.tasks && s.tasks[t].at != Zombie
    ensures !s.tasks[t].orphan
  {
    assert ChildOk(s.tasks, t);
  }
}
