/** Processes and the scheduler. A task is known by its pid; each of the four
    kernel lists is a sequence, new members at the head. `at` names the list a
    task is on and `waiting` the child its waitpid is blocked on. */
module Scheduler {
  import opened Basics

  datatype Which = Active | Sleep | Stdin | Zombie

  datatype Task = Task(ppid: nat, user: bool, waited: bool, orphan: bool, status: int, sigterm: bool,
                       waiting: Option<nat>, at: Which)

  /** The reaper thread: not yet asleep for the first time, asleep, woken to scan,
      or past its scan and not asleep again. */
  datatype Reaper = Booting | Asleep | Woken | Scanned

  datatype State = State(lists: map<Which, seq<nat>>, tasks: map<nat, Task>, current: nat, nextPid: nat,
                         zombieCount: nat, reaper: Reaper, freed: set<nat>)

  const INIT: nat := 0      // the boot thread
  const IDLE: nat := 1
  const REAPER: nat := 2    // clear_zombie
  const ZOMBIE_LIMIT: nat := 50
  const SIGKILL: int := 9

  // ---------------------------------------------------------------- lists

  function On(s: State, w: Which): seq<nat> {
    if w in s.lists then s.lists[w] else []
  }

  ghost predicate NoDup(l: seq<nat>) {
    forall i, j :: 0 <= i < j < |l| ==> l[i] != l[j]
  }

  function Without(l: seq<nat>, t: nat): seq<nat> {
    if l == [] then [] else if l[0] == t then l[1..] else [l[0]] + Without(l[1..], t)
  }

  lemma {:induction false} WithoutMembers(l: seq<nat>, t: nat)
    requires NoDup(l)
    ensures NoDup(Without(l, t)) && forall x :: x in Without(l, t) <==> x in l && x != t
  {
    if l != [] {
      assert NoDup(l[1..]);
      WithoutMembers(l[1..], t);
      var r := Without(l, t);
      if l[0] == t {
        assert forall x :: x in l[1..] ==> x in l && x != t;
      } else {
        assert l[0] !in Without(l[1..], t);
      }
    }
  }

  /** remove_from_tasklist followed by add_to_tasklist. */
  function Move(s: State, t: nat, to: Which): State
    requires t in s.tasks
  {
    var from := s.tasks[t].at;
    var l := s.lists[from := Without(On(s, from), t)];
    s.(lists := l[to := [t] + if to in l then l[to] else []], tasks := s.tasks[t := s.tasks[t].(at := to)])
  }

  function Enter(s: State, t: nat, k: Task): State {
    s.(lists := s.lists[Active := [t] + On(s, Active)], tasks := s.tasks[t := k], nextPid := s.nextPid + 1)
  }

  /** free_process: off the zombie list and gone. */
  function Drop(s: State, t: nat): State {
    s.(lists := s.lists[Zombie := Without(On(s, Zombie), t)], tasks := s.tasks - {t}, freed := s.freed + {t})
  }

  // ---------------------------------------------------------------- the invariant

  /** Every unreaped task is on exactly one list, once. */
  ghost predicate Listed(s: State) {
    && (forall w :: NoDup(On(s, w)))
    && (forall w, t {:trigger t in On(s, w)} :: t in On(s, w) ==> t in s.tasks && s.tasks[t].at == w)
    && (forall t :: t in s.tasks ==> t in On(s, s.tasks[t].at))
  }

  /** Pids are fresh and never reused. */
  ghost predicate Fresh(s: State) {
    && (forall t :: t in s.tasks ==> t < s.nextPid && t !in s.freed)
    && (forall t :: t in s.freed ==> t < s.nextPid)
  }

  /** The kernel's own threads are no user processes; idle is always active. */
  ghost predicate Kernel(s: State) {
    && INIT in s.tasks && IDLE in s.tasks && REAPER in s.tasks
    && !s.tasks[INIT].user && !s.tasks[IDLE].user && !s.tasks[REAPER].user
    && s.tasks[IDLE].at == Active
    && (s.tasks[REAPER].at == Active || s.tasks[REAPER].at == Sleep)
    && s.tasks[REAPER].waiting.None? && !s.tasks[REAPER].waited && !s.tasks[IDLE].waited
    && (forall t :: t in s.tasks && (s.tasks[t].sigterm || s.tasks[t].at == Zombie) ==> s.tasks[t].user)
  }

  /** The reaper sleeps exactly when no clean-up is due. */
  ghost predicate Reaping(s: State)
    requires Kernel(s)
  {
    && (s.reaper == Asleep <==> s.tasks[REAPER].at == Sleep)
    && (s.reaper == Woken <==> s.zombieCount >= ZOMBIE_LIMIT)
  }

  type Tasks = map<nat, Task>

  /** A parent in waitpid sleeps while its child runs, and is awake only once the
      child is a zombie kept for it. */
  ghost predicate WaitOk(ts: Tasks, t: nat)
    requires t in ts
  {
    match ts[t].waiting
    case None => ts[t].at == Sleep ==> t == REAPER
    case Some(c) =>
      && c in ts && ts[c].ppid == t && ts[c].waited && c != t
      && (ts[t].at == Sleep <==> ts[c].at != Zombie)
      && ts[t].at != Stdin
  }

  /** A running child marked as waited for has its parent blocked on it; among
      zombies the orphans are those nobody waits for. */
  ghost predicate ChildOk(ts: Tasks, c: nat)
    requires c in ts
  {
    && (ts[c].waited && ts[c].at != Zombie ==> ts[c].ppid in ts && ts[ts[c].ppid].waiting == Some(c))
    && (ts[c].orphan <==> ts[c].at == Zombie && !ts[c].waited)
  }

  ghost predicate Waits(ts: Tasks) {
    (forall t :: t in ts ==> WaitOk(ts, t)) && (forall c :: c in ts ==> ChildOk(ts, c))
  }

  ghost predicate Inv(s: State) {
    Listed(s) && Fresh(s) && Kernel(s) && Reaping(s) && Waits(s.tasks)
  }

  // ---------------------------------------------------------------- exit

  /** exit_st finds nobody to notify, so the task is left to the reaper. */
  predicate LeftToReaper(s: State, t: nat)
    requires t in s.tasks
  {
    !(s.tasks[t].waited && s.tasks[t].ppid in On(s, Sleep))
  }

  /** The wake-up of the reaper finds it on the sleep list, if one is due. */
  predicate WakeLegal(s: State, t: nat)
    requires t in s.tasks
  {
    LeftToReaper(s, t) && s.zombieCount + 1 == ZOMBIE_LIMIT ==> REAPER in On(s, Sleep)
  }

  /** The first half of exit_st: the task becomes a zombie with its status. */
  function Die(s: State, t: nat, status: int, orphan: bool): State
    requires t in s.tasks
  {
    Move(s.(tasks := s.tasks[t := s.tasks[t].(status := status, orphan := orphan)]), t, Zombie)
  }

  function WakeReaper(s: State): State
    requires REAPER in s.tasks
  {
    Move(s, REAPER, Active).(reaper := Woken)
  }

  /** The count of zombies left to the reaper goes up; the fiftieth wakes it. */
  function OneMoreZombie(s: State): State {
    var r := s.(zombieCount := s.zombieCount + 1);
    if r.zombieCount == ZOMBIE_LIMIT && REAPER in r.tasks then WakeReaper(r) else r
  }

  /** exit_st up to its call of schedule. */
  function ExitTask(s: State, t: nat, status: int): State
    requires t in s.tasks && WakeLegal(s, t) && REAPER in s.tasks
  {
    if !LeftToReaper(s, t) then
      var s1 := Die(s, t, status, s.tasks[t].orphan);
      if s.tasks[t].ppid in s1.tasks then Move(s1, s.tasks[t].ppid, Active) else s1
    else
      OneMoreZombie(Die(s, t, status, true))
  }

  // ---------------------------------------------------------------- moving keeps the lists in order

  lemma MoveOn(s: State, t: nat, to: Which, w: Which)
    requires t in s.tasks && s.tasks[t].at != to
    ensures On(Move(s, t, to), w) ==
            if w == s.tasks[t].at then Without(On(s, w), t) else if w == to then [t] + On(s, to) else On(s, w)
  {
  }

  lemma MoveRest(s: State, t: nat, to: Which)
    requires t in s.tasks
    ensures var r := Move(s, t, to);
            && r.tasks == s.tasks[t := s.tasks[t].(at := to)] && r.current == s.current && r.nextPid == s.nextPid
            && r.zombieCount == s.zombieCount && r.reaper == s.reaper && r.freed == s.freed
  {
  }

  lemma MoveListed(s: State, t: nat, to: Which)
    requires Listed(s) && t in s.tasks && s.tasks[t].at != to
    ensures Listed(Move(s, t, to))
  {
    var from := s.tasks[t].at;
    var r := Move(s, t, to);
    WithoutMembers(On(s, from), t);
    assert t !in On(s, to);
    forall w
      ensures On(r, w) == if w == from then Without(On(s, from), t) else if w == to then [t] + On(s, to) else On(s, w)
    {
      MoveOn(s, t, to, w);
    }
    MoveRest(s, t, to);
    hide On, Move, Without;
    forall w ensures NoDup(On(r, w)) {}
    forall w, x | x in On(r, w) ensures x in r.tasks && r.tasks[x].at == w {
      if x != t { assert x in On(s, w); }
    }
    forall x | x in r.tasks ensures x in On(r, r.tasks[x].at) {
      if x != t { assert x in On(s, s.tasks[x].at); }
    }
  }

  /** Same lists and same places, same order. */
  lemma SameLists(s: State, r: State)
    requires Listed(s) && r.lists == s.lists
    requires r.tasks.Keys == s.tasks.Keys && forall x :: x in s.tasks ==> r.tasks[x].at == s.tasks[x].at
    ensures Listed(r)
  {
    forall w ensures On(r, w) == On(s, w) {}
    hide On;
    forall w, x | x in On(r, w) ensures x in r.tasks && r.tasks[x].at == w { assert x in On(s, w); }
  }

  lemma Located(s: State, t: nat, w: Which)
    requires Listed(s)
    ensures t in On(s, w) <==> t in s.tasks && s.tasks[t].at == w
  {
  }

  // ---------------------------------------------------------------- exit keeps the invariant

  function Died(ts: Tasks, t: nat, status: int, orphan: bool): Tasks
    requires t in ts
  {
    ts[t := ts[t].(status := status, at := Zombie, orphan := orphan)]
  }

  function Awake(ts: Tasks, t: nat): Tasks
    requires t in ts
  {
    ts[t := ts[t].(at := Active)]
  }

  lemma DieEffect(s: State, t: nat, status: int, orphan: bool)
    requires Listed(s) && t in s.tasks && s.tasks[t].at != Zombie
    ensures var r := Die(s, t, status, orphan);
            && Listed(r) && r.tasks == Died(s.tasks, t, status, orphan) && r.current == s.current
               && r.nextPid == s.nextPid
            && r.zombieCount == s.zombieCount && r.reaper == s.reaper && r.freed == s.freed
  {
    hide Listed, Move;
    var s0 := s.(tasks := s.tasks[t := s.tasks[t].(status := status, orphan := orphan)]);
    SameLists(s, s0);
    MoveListed(s0, t, Zombie);
    MoveRest(s0, t, Zombie);
  }

  /** exit_st: for a child its parent waits for, the child dies and the parent
      wakes. */
  lemma ExitNotifies(s: State, t: nat, status: int)
    requires Inv(s) && t in s.tasks && s.tasks[t].at == Active && s.tasks[t].user && s.tasks[t].waited
    ensures !LeftToReaper(s, t) && WakeLegal(s, t) && s.tasks[t].ppid in s.tasks && s.tasks[t].ppid != t
            && s.tasks[t].ppid != REAPER
    ensures var r := ExitTask(s, t, status);
            && Listed(r) && r.tasks == Awake(Died(s.tasks, t, status, false), s.tasks[t].ppid)
            && r.current == s.current && r.nextPid == s.nextPid && r.zombieCount == s.zombieCount
            && r.reaper == s.reaper && r.freed == s.freed
  {
    assert ChildOk(s.tasks, t);
    var p := s.tasks[t].ppid;
    assert WaitOk(s.tasks, p);
    Located(s, p, Sleep);
    hide Move, On, Die, Waits, WaitOk, ChildOk, Without, Listed;
    DieEffect(s, t, status, s.tasks[t].orphan);
    var s1 := Die(s, t, status, s.tasks[t].orphan);
    MoveListed(s1, p, Active);
    MoveRest(s1, p, Active);
  }

  lemma WakeReaperEffect(s: State)
    requires Listed(s) && REAPER in s.tasks && s.tasks[REAPER].at == Sleep
    ensures var r := WakeReaper(s);
            && Listed(r) && r.tasks == Awake(s.tasks, REAPER) && r.reaper == Woken && r.current == s.current
            && r.nextPid == s.nextPid && r.zombieCount == s.zombieCount && r.freed == s.freed
  {
    MoveListed(s, REAPER, Active);
    MoveRest(s, REAPER, Active);
    hide Listed, Move;
    SameLists(Move(s, REAPER, Active), WakeReaper(s));
  }

  lemma OneMoreEffect(s: State)
    requires Listed(s) && REAPER in s.tasks && (s.zombieCount + 1 == ZOMBIE_LIMIT ==> s.tasks[REAPER].at == Sleep)
    ensures var r, due := OneMoreZombie(s), s.zombieCount + 1 == ZOMBIE_LIMIT;
            && Listed(r) && r.current == s.current && r.nextPid == s.nextPid && r.zombieCount == s.zombieCount + 1
               && r.freed == s.freed
            && r.tasks == (if due then Awake(s.tasks, REAPER) else s.tasks)
               && r.reaper == (if due then Woken else s.reaper)
  {
    var r := s.(zombieCount := s.zombieCount + 1);
    SameLists(s, r);
    hide Listed, WakeReaper;
    if s.zombieCount + 1 == ZOMBIE_LIMIT { WakeReaperEffect(r); }
  }

  /** Otherwise it is left to the reaper, which wakes on the fiftieth. */
  lemma ExitOrphans(s: State, t: nat, status: int)
    requires Inv(s) && t in s.tasks && s.tasks[t].at == Active && s.tasks[t].user && !s.tasks[t].waited
             && WakeLegal(s, t)
    ensures t != REAPER && (s.zombieCount + 1 == ZOMBIE_LIMIT ==> s.tasks[REAPER].at == Sleep)
    ensures var r, due := ExitTask(s, t, status), s.zombieCount + 1 == ZOMBIE_LIMIT;
            && Listed(r) && r.current == s.current && r.nextPid == s.nextPid && r.zombieCount == s.zombieCount + 1
               && r.freed == s.freed
            && r.tasks ==
               (if due then Awake(Died(s.tasks, t, status, true), REAPER) else Died(s.tasks, t, status, true))
            && r.reaper == (if due then Woken else s.reaper)
  {
    Located(s, REAPER, Sleep);
    hide Listed, OneMoreZombie, Die, Waits, Fresh, Reaping;
    DieEffect(s, t, status, true);
    OneMoreEffect(Die(s, t, status, true));
  }

  lemma NotifiedWaits(ts: Tasks, t: nat, status: int)
    requires Waits(ts) && t in ts && ts[t].at == Active && ts[t].waited
    ensures ts[t].ppid in ts && ts[t].ppid != t && Waits(Awake(Died(ts, t, status, false), ts[t].ppid))
  {
    var p := ts[t].ppid;
    assert ChildOk(ts, t) && WaitOk(ts, p) && WaitOk(ts, t);
    var r := Awake(Died(ts, t, status, false), p);
    forall x | x in r ensures WaitOk(r, x) {
      assert WaitOk(ts, x);
    }
    forall c | c in r ensures ChildOk(r, c) {
      assert ChildOk(ts, c);
    }
  }

  lemma OrphanWaits(ts: Tasks, t: nat, status: int)
    requires Waits(ts) && t in ts && ts[t].at == Active && !ts[t].waited
    ensures Waits(Died(ts, t, status, true))
  {
    assert ChildOk(ts, t) && WaitOk(ts, t);
    var r := Died(ts, t, status, true);
    forall x | x in r ensures WaitOk(r, x) {
      assert WaitOk(ts, x);
    }
    forall c | c in r ensures ChildOk(r, c) {
      assert ChildOk(ts, c);
    }
  }

  lemma ReaperWaits(ts: Tasks)
    requires Waits(ts) && REAPER in ts && ts[REAPER].waiting.None? && ts[REAPER].at == Sleep && !ts[REAPER].waited
    ensures Waits(Awake(ts, REAPER))
  {
    var r := Awake(ts, REAPER);
    forall x | x in r ensures WaitOk(r, x) {
      assert WaitOk(ts, x);
    }
    forall c | c in r ensures ChildOk(r, c) {
      assert ChildOk(ts, c);
    }
  }

  lemma ExitKeepsInv(s: State, t: nat, status: int)
    requires Inv(s) && t in s.tasks && s.tasks[t].at == Active && s.tasks[t].user && WakeLegal(s, t)
    ensures Inv(ExitTask(s, t, status))
  {
    hide Listed, Waits, ExitTask;
    if s.tasks[t].waited {
      ExitNotifies(s, t, status);
      NotifiedWaits(s.tasks, t, status);
    } else {
      ExitOrphans(s, t, status);
      OrphanWaits(s.tasks, t, status);
      if s.zombieCount + 1 == ZOMBIE_LIMIT { ReaperWaits(Died(s.tasks, t, status, true)); }
    }
  }
}
