/** The process table as the kernel keeps it: four list heads and one `next`
    link in every task. Each operation on the links is proved to do to the
    lists what the process machine says. */
module TaskLists {
  import opened Basics
  import opened Scheduler
  import opened Lifecycle
  import opened LifecycleRuns
  import opened Fates

  type Links = map<nat, Option<nat>>
  type Heads = map<Which, Option<nat>>
  type Lists = map<Which, seq<nat>>

  // ---------------------------------------------------------------- links and the lists they form

  function After(l: seq<nat>, i: int): Option<nat>
    requires -1 <= i < |l|
  {
    if i + 1 < |l| then Some(l[i + 1]) else None
  }

  /** Following the links from h passes through l, in order, and ends. */
  ghost predicate Linked(next: Links, h: Option<nat>, l: seq<nat>) {
    && h == After(l, -1)
    && forall i :: 0 <= i < |l| ==> l[i] in next && next[l[i]] == After(l, i)
  }

  /** The four heads lead to four lists without repetition, and no task is on two. */
  ghost predicate Chained(next: Links, heads: Heads, lists: Lists) {
    && (forall w: Which :: w in heads && w in lists)
    && (forall w: Which :: w in heads && w in lists ==> Linked(next, heads[w], lists[w]) && NoDup(lists[w]))
    && Apart(lists)
  }

  lemma LinkedFrame(next: Links, other: Links, h: Option<nat>, l: seq<nat>)
    requires Linked(next, h, l) && forall x :: x in l ==> x in other && other[x] == next[x]
    ensures Linked(other, h, l)
  {
  }

  lemma {:induction false} WithoutAt(l: seq<nat>, k: nat)
    requires NoDup(l) && k < |l|
    ensures Without(l, l[k]) == l[..k] + l[k + 1..]
  {
    if k > 0 {
      var m := l[1..];
      assert NoDup(m) && m[k - 1] == l[k] && l[0] != l[k];
      WithoutAt(m, k - 1);
      assert [l[0]] + (m[..k - 1] + m[k..]) == l[..k] + l[k + 1..];
    }
  }

  lemma PushLinked(next: Links, h: Option<nat>, l: seq<nat>, t: nat)
    requires Linked(next, h, l) && t !in l
    ensures Linked(next[t := h], Some(t), [t] + l)
  {
    var n, m := next[t := h], [t] + l;
    forall i | 0 <= i < |m|
      ensures m[i] in n && n[m[i]] == After(m, i)
    {
      if i > 0 { assert m[i] == l[i - 1] && next[l[i - 1]] == After(l, i - 1); }
    }
  }

  ghost predicate Apart(lists: Lists) {
    forall v: Which, w: Which, x :: v in lists && w in lists && v != w && x in lists[v] ==> x !in lists[w]
  }

  /** Changing one list, and links of its members only, leaves the rest chained. */
  lemma ChainedUpdate(next: Links, heads: Heads, lists: Lists, w: Which, n: Links, h: Option<nat>, l: seq<nat>)
    requires Chained(next, heads, lists) && Linked(n, h, l) && NoDup(l)
    requires forall v, x :: v in lists && v != w && x in lists[v] ==>
               x !in l && x in n && (x in next ==> n[x] == next[x])
    ensures Chained(n, heads[w := h], lists[w := l])
  {
    forall v: Which
      ensures v != w ==> Linked(n, heads[v], lists[v])
    {
      assert v in lists;
      if v != w {
        assert Linked(next, heads[v], lists[v]);
        LinkedFrame(next, n, heads[v], lists[v]);
      }
    }
  }

  lemma InNext(next: Links, heads: Heads, lists: Lists, v: Which, x: nat)
    requires Chained(next, heads, lists) && v in lists && x in lists[v]
    ensures x in next
  {
    assert Linked(next, heads[v], lists[v]);
  }

  lemma PushChained(next: Links, heads: Heads, lists: Lists, w: Which, t: nat)
    requires Chained(next, heads, lists) && forall v :: v in lists ==> t !in lists[v]
    ensures Chained(next[t := heads[w]], heads[w := Some(t)], lists[w := [t] + lists[w]])
  {
    hide Linked;
    assert w in lists && Linked(next, heads[w], lists[w]);
    PushLinked(next, heads[w], lists[w], t);
    forall v, x | v in lists && v != w && x in lists[v] 
      ensures x !in [t] + lists[w] && x in next
    {
      InNext(next, heads, lists, v, x);
    }
    ChainedUpdate(next, heads, lists, w, next[t := heads[w]], Some(t), [t] + lists[w]);
  }

  /** The links around position k closed up. */
  function Unlinked(next: Links, l: seq<nat>, k: nat): Links
    requires k < |l| && l[k] in next && (k > 0 ==> l[k - 1] in next)
  {
    (if k == 0 then next else next[l[k - 1] := next[l[k]]])[l[k] := None]
  }

  lemma UnlinkedLinked(next: Links, h: Option<nat>, l: seq<nat>, k: nat)
    requires Linked(next, h, l) && NoDup(l) && k < |l|
    ensures Linked(Unlinked(next, l, k), if k == 0 then next[l[0]] else h, l[..k] + l[k + 1..])
  {
    var n, m := Unlinked(next, l, k), l[..k] + l[k + 1..];
    assert next[l[k]] == After(l, k);
    forall i | 0 <= i < |m|
      ensures m[i] in n && n[m[i]] == After(m, i)
    {
      var j := if i < k then i else i + 1;
      assert m[i] == l[j] && next[l[j]] == After(l, j);
      if i + 1 < |m| { assert m[i + 1] == if i + 1 < k then l[i + 1] else l[i + 2]; }
    }
  }

  lemma UnlinkChained(next: Links, heads: Heads, lists: Lists, w: Which, k: nat)
    requires Chained(next, heads, lists) && k < |lists[w]|
    ensures var l := lists[w];
            && l[k] in next && (k > 0 ==> l[k - 1] in next)
            && Chained(Unlinked(next, l, k), if k == 0 then heads[w := next[l[k]]] else heads,
                       lists[w := Without(l, l[k])])
            && forall v: Which :: v in lists ==> l[k] !in lists[w := Without(l, l[k])][v]
  {
    hide Without, Linked, NoDup;
    var l := lists[w];
    assert w in lists && w in heads && Linked(next, heads[w], l);
    InNext(next, heads, lists, w, l[k]);
    if k > 0 { InNext(next, heads, lists, w, l[k - 1]); }
    var n := Unlinked(next, l, k);
    UnlinkedLinked(next, heads[w], l, k);
    WithoutAt(l, k);
    WithoutMembers(l, l[k]);
    forall v, x | v in lists && v != w && x in lists[v] 
      ensures x !in l && x in next
    {
      InNext(next, heads, lists, v, x);
    }
    ChainedUpdate(next, heads, lists, w, n, if k == 0 then next[l[k]] else heads[w], Without(l, l[k]));
    assert heads[w := heads[w]] == heads;
  }

  lemma ChainOf(next: Links, heads: Heads, lists: Lists, w: Which)
    requires Chained(next, heads, lists)
    ensures w in heads && w in lists && Linked(next, heads[w], lists[w])
    ensures forall v: Which :: v in lists
  {
    assert w in heads && w in lists;
  }

  lemma MemberOf(next: Links, heads: Heads, s: State, t: nat)
    requires Chained(next, heads, s.lists) && Listed(s) && t in s.tasks
    ensures s.tasks[t].at in s.lists && t in s.lists[s.tasks[t].at] && On(s, s.tasks[t].at) == s.lists[s.tasks[t].at]
    ensures forall w: Which :: w in s.lists && w in heads
  {
    assert t in On(s, s.tasks[t].at);
  }

  lemma HeadOf(next: Links, heads: Heads, s: State, w: Which)
    requires Chained(next, heads, s.lists) && Listed(s)
    ensures w in heads && heads[w] == After(On(s, w), -1) && w in s.lists && On(s, w) == s.lists[w]
    ensures forall t :: t in On(s, w) ==> t in next && t in s.tasks && s.tasks[t].at == w
    ensures forall i :: 0 <= i < |On(s, w)| ==> On(s, w)[i] in next && next[On(s, w)[i]] == After(On(s, w), i)
  {
    ChainOf(next, heads, s.lists, w);
  }

  lemma OnNone(next: Links, heads: Heads, s: State, t: nat)
    requires Chained(next, heads, s.lists) && Listed(s) && t !in s.tasks
    ensures forall w :: w in s.lists ==> t !in s.lists[w]
  {
    forall w | w in s.lists ensures t !in s.lists[w] { assert On(s, w) == s.lists[w]; }
  }

  lemma WithoutHead(l: seq<nat>)
    requires l != []
    ensures Without(l, l[0]) == l[1..]
  {
  }

  /** A death leaves the sleep list as it is. */
  lemma DeathSpares(s: State, t: nat, status: int, orphan: bool)
    requires Listed(s) && t in s.tasks && s.tasks[t].at == Active
    ensures var r := Die(s, t, status, orphan);
            && Listed(r) && On(r, Sleep) == On(s, Sleep) && r.zombieCount == s.zombieCount
            && r.tasks == s.tasks[t := s.tasks[t].(status := status, orphan := orphan, at := Zombie)]
  {
    DieEffect(s, t, status, orphan);
    hide Listed, Move;
    var s0 := s.(tasks := s.tasks[t := s.tasks[t].(status := status, orphan := orphan)]);
    MoveOn(s0, t, Zombie, Sleep);
    assert On(s0, Sleep) == On(s, Sleep);
  }

  /** Marking a dead task an orphan afterwards is the same as before its move. */
  lemma OrphanAfter(s: State, t: nat, status: int)
    requires t in s.tasks
    ensures var r := Die(s, t, status, s.tasks[t].orphan);
            t in r.tasks && r.(tasks := r.tasks[t := r.tasks[t].(orphan := true)]) == Die(s, t, status, true)
  {
  }

  lemma CutZombie(s: State, kept: seq<nat>, rest: seq<nat>)
    requires Listed(s) && On(s, Zombie) == kept + rest && rest != []
    ensures On(Drop(s, rest[0]), Zombie) == kept + rest[1..] && kept + rest == (kept + [rest[0]]) + rest[1..]
  {
    var l := kept + rest;
    assert NoDup(On(s, Zombie));
    WithoutAt(l, |kept|);
    assert l[..|kept|] == kept && l[|kept| + 1..] == rest[1..] && l[|kept|] == rest[0];
  }

  // ---------------------------------------------------------------- boot

  function BootLinks(): Links {
    map[REAPER := Some(IDLE), IDLE := Some(INIT), INIT := None]
  }

  function BootHeads(): Heads {
    map[Active := Some(REAPER), Sleep := None, Stdin := None, Zombie := None]
  }

  function Boot(): State {
    State(map[Active := [REAPER, IDLE, INIT], Sleep := [], Stdin := [], Zombie := []],
          map[INIT := NewTask(INIT, false), IDLE := NewTask(INIT, false), REAPER := NewTask(INIT, false)],
          INIT, 3, 0, Booting, {})
  }

  lemma BootChained()
    ensures Chained(BootLinks(), BootHeads(), Boot().lists)
  {
    forall w: Which
      ensures w in BootHeads() && w in Boot().lists && Linked(BootLinks(), BootHeads()[w], Boot().lists[w])
              && NoDup(Boot().lists[w])
      ensures w != Active ==> Boot().lists[w] == []
    {
      match w case Active => case Sleep => case Stdin => case Zombie =>
    }
  }

  lemma BootListed()
    ensures Listed(Boot()) && On(Boot(), Active) == [REAPER, IDLE, INIT]
  {
    var s := Boot();
    forall w ensures On(s, w) == if w == Active then [REAPER, IDLE, INIT] else [] {
      match w case Active => case Sleep => case Stdin => case Zombie =>
    }
    hide On;
    assert On(s, Active)[0] == REAPER && On(s, Active)[1] == IDLE && On(s, Active)[2] == INIT;
    forall t | t in s.tasks ensures t == INIT || t == IDLE || t == REAPER {}
  }

  lemma BootRunning()
    ensures Running(Boot()) && On(Boot(), Active) == [REAPER, IDLE, INIT]
  {
    hide Listed;
    BootListed();
    var s := Boot();
    forall t | t in s.tasks ensures WaitOk(s.tasks, t) && ChildOk(s.tasks, t) {}
  }

  // ---------------------------------------------------------------- the process table

  class Processes {
    var next: Links
    var heads: Heads
    var tasks: Tasks
    var current: nat
    var nextPid: nat
    var zombieCount: nat
    ghost var lists: Lists
    ghost var reaper: Reaper
    ghost var freed: set<nat>

    ghost function Abs(): State
      reads this
    {
      State(lists, tasks, current, nextPid, zombieCount, reaper, freed)
    }

    ghost predicate Valid()
      reads this
    {
      Chained(next, heads, lists) && Listed(Abs())
    }

    /** The three threads of the boot, each put at the head of the active list. */
    constructor ()
      ensures Valid() && Running(Abs()) && current == INIT && reaper == Booting && zombieCount == 0 && freed == {}
      ensures On(Abs(), Active) == [REAPER, IDLE, INIT]
    {
      BootChained();
      BootRunning();
      next := BootLinks();
      heads := BootHeads();
      tasks := Boot().tasks;
      current, nextPid, zombieCount := INIT, 3, 0;
      lists := Boot().lists;
      reaper, freed := Booting, {};
    }

    /** add_to_tasklist. */
    method AddTo(w: Which, t: nat)
      requires Chained(next, heads, lists) && forall v :: v in lists ==> t !in lists[v]
      modifies this`next, this`heads, this`lists
      ensures Chained(next, heads, lists) && lists == old(lists)[w := [t] + old(lists)[w]]
    {
      hide Linked, NoDup;
      PushChained(next, heads, lists, w, t);
      next := next[t := heads[w]];
      heads := heads[w := Some(t)];
      lists := lists[w := [t] + lists[w]];
    }

    /** The walk of remove_from_tasklist to the task before t. */
    method Before(w: Which, t: nat) returns (p: nat, ghost k: nat)
      requires w in heads && w in lists && Linked(next, heads[w], lists[w]) && t in lists[w] && heads[w] != Some(t)
      ensures k + 1 < |lists[w]| && p == lists[w][k] && lists[w][k + 1] == t
      ensures p in next && next[p] == Some(t)
    {
      ghost var l := lists[w];
      p, k := heads[w].value, 0;
      while next[p] != Some(t)
        invariant 0 <= k < |l| && p == l[k] && t !in l[..k + 1]
        decreases |l| - k
      {
        assert next[l[k]] == After(l, k);
        assert t in l[k + 1..];
        p := next[p].value;
        k := k + 1;
        assert l[..k + 1] == l[..k] + [l[k]];
      }
      assert next[l[k]] == After(l, k);
    }

    /** remove_from_tasklist, of a task that is on the list. */
    method RemoveFrom(w: Which, t: nat)
      requires Chained(next, heads, lists) && t in lists[w]
      modifies this`next, this`heads, this`lists
      ensures Chained(next, heads, lists) && lists == old(lists)[w := Without(old(lists)[w], t)]
      ensures forall v :: v in lists ==> t !in lists[v]
    {
      hide Without, NoDup, Chained;
      ChainOf(next, heads, lists, w);
      ghost var l := lists[w];
      if heads[w] == Some(t) {
        UnlinkChained(next, heads, lists, w, 0);
        heads := heads[w := next[t]];
        next := next[t := None];
      } else {
        var p, k := Before(w, t);
        UnlinkChained(next, heads, lists, w, k + 1);
        next := next[p := next[t]];
        next := next[t := None];
      }
      lists := lists[w := Without(l, t)];
    }

    /** find_process_by_pid. */
    method Find(w: Which, pid: nat) returns (r: Option<nat>)
      requires Chained(next, heads, lists)
      ensures r == if pid in lists[w] then Some(pid) else None
    {
      hide Chained, NoDup;
      ChainOf(next, heads, lists, w);
      ghost var l := lists[w];
      var p := heads[w];
      ghost var k := 0;
      while p.Some? && p.value != pid
        invariant 0 <= k <= |l| && p == After(l, k - 1) && pid !in l[..k]
        decreases |l| - k
      {
        assert next[l[k]] == After(l, k);
        assert l[..k + 1] == l[..k] + [l[k]];
        p := next[p.value];
        k := k + 1;
      }
      assert k == |l| ==> l[..k] == l;
      return p;
    }

    /** Off one list and on to another: the link work of sleep, wakeup and exit_st. */
    method MoveTask(t: nat, from: Which, to: Which)
      requires Valid() && t in tasks && tasks[t].at == from && from != to
      modifies this`next, this`heads, this`lists, this`tasks
      ensures Valid() && Abs() == Move(old(Abs()), t, to)
    {
      hide Chained, Listed, Without;
      MoveListed(Abs(), t, to);
      MemberOf(next, heads, Abs(), t);
      RemoveFrom(from, t);
      AddTo(to, t);
      tasks := tasks[t := tasks[t].(at := to)];
    }

    /** kernel_thread and fork: a new task at the head of the active list. */
    method Create(k: Task) returns (pid: nat)
      requires Valid() && nextPid !in tasks && k.at == Active
      modifies this
      ensures Valid() && pid == old(nextPid) && Abs() == Enter(old(Abs()), pid, k)
    {
      hide Chained, Listed;
      EnterListed(Abs(), nextPid, k);
      OnNone(next, heads, Abs(), nextPid);
      HeadOf(next, heads, Abs(), Active);
      pid := nextPid;
      nextPid := nextPid + 1;
      AddTo(Active, pid);
      tasks := tasks[pid := k];
    }

    /** free_process. */
    method FreeProcess(c: nat)
      requires Valid() && c in tasks && tasks[c].at == Zombie
      modifies this
      ensures Valid() && Abs() == Drop(old(Abs()), c)
    {
      hide Chained, Listed, Without;
      DropListed(Abs(), c);
      MemberOf(next, heads, Abs(), c);
      RemoveFrom(Zombie, c);
      tasks := tasks - {c};
      freed := freed + {c};
    }

    /** select_task_struct. */
    method SelectTask() returns (t: nat)
      requires Valid() && On(Abs(), Active) != []
      ensures t == Select(Abs())
    {
      hide Chained, Listed, NoDup;
      ghost var l := On(Abs(), Active);
      HeadOf(next, heads, Abs(), Active);
      var r := Find(Active, current);
      var p := if r.Some? then current else heads[Active].value;
      ghost var k := if current in l then IndexOf(l, current) else 0;
      assert l[k] == p && next[l[k]] == After(l, k);
      t := if next[p].Some? then next[p].value else heads[Active].value;
    }

    /** wakeup of the whole stdin list. */
    method WakeAll()
      requires Valid()
      modifies this
      ensures Valid() && Abs() == WakeStdin(old(Abs()), |On(old(Abs()), Stdin)|)
    {
      hide Chained, Listed, Move, WakeStdin, Without;
      ghost var n := |On(Abs(), Stdin)|;
      ghost var final := WakeStdin(Abs(), n);
      HeadOf(next, heads, Abs(), Stdin);
      var p := heads[Stdin];
      var nx := p;
      WakeStep(Abs(), n);
      while nx.Some?
        invariant Valid() && nx == p == After(On(Abs(), Stdin), -1)
        invariant n == |On(Abs(), Stdin)| && WakeStdin(Abs(), n) == final
        decreases n
      {
        ghost var s := Abs();
        HeadOf(next, heads, s, Stdin);
        WakeStep(s, n);
        MoveOn(s, p.value, Active, Stdin);
        WithoutHead(On(s, Stdin));
        assert next[On(s, Stdin)[0]] == After(On(s, Stdin), 0);
        nx := next[p.value];
        MoveTask(p.value, Stdin, Active);
        p := nx;
        n := n - 1;
      }
      WakeStep(Abs(), n);
    }

    method DieNow(t: nat, status: int)
      requires Valid() && t in tasks && tasks[t].at == Active
      modifies this
      ensures Valid() && Abs() == Die(old(Abs()), t, status, old(tasks[t].orphan))
    {
      hide Chained, Listed, Move;
      SameLists(Abs(), Abs().(tasks := tasks[t := tasks[t].(status := status)]));
      tasks := tasks[t := tasks[t].(status := status)];
      MoveTask(t, Active, Zombie);
    }

    /** One more zombie is left to the reaper; the fiftieth wakes it. */
    method CountOrphan()
      requires Valid() && REAPER in tasks && (zombieCount + 1 == ZOMBIE_LIMIT ==> tasks[REAPER].at == Sleep)
      modifies this
      ensures Valid() && Abs() == OneMoreZombie(old(Abs()))
    {
      hide Chained, Listed, Move;
      SameLists(Abs(), Abs().(zombieCount := zombieCount + 1));
      zombieCount := zombieCount + 1;
      if zombieCount == ZOMBIE_LIMIT {
        MoveTask(REAPER, Sleep, Active);
        SameLists(Abs(), Abs().(reaper := Woken));
        reaper := Woken;
      }
    }

    /** exit_st up to its call of schedule. */
    method ExitSt(t: nat, status: int)
      requires Valid() && Inv(Abs()) && t in tasks && tasks[t].at == Active && tasks[t].user && WakeLegal(Abs(), t)
      modifies this
      ensures Valid() && Abs() == ExitTask(old(Abs()), t, status)
    {
      hide Chained, Listed, Waits, On, Fresh, Reaping, Die, OneMoreZombie, Move;
      ghost var s := Abs();
      DeathSpares(s, t, status, tasks[t].orphan);
      DeathSpares(s, t, status, true);
      OrphanAfter(s, t, status);
      NotOrphan(s, t);
      Located(s, tasks[t].ppid, Sleep);
      Located(s, REAPER, Sleep);
      DieNow(t, status);
      var father := None;
      if tasks[t].waited {
        HeadOf(next, heads, Abs(), Sleep);
        father := Find(Sleep, tasks[t].ppid);
      }
      if father.None? {
        tasks := tasks[t := tasks[t].(orphan := true)];
        CountOrphan();
      } else {
        MoveTask(father.value, Sleep, Active);
      }
    }

    /** schedule: tasks marked by kill die as they come up. */
    method ScheduleNow()
      requires Valid() && Inv(Abs()) && Schedule(Abs()).Some?
      modifies this
      ensures Valid() && Some(Abs()) == Schedule(old(Abs()))
    {
      hide Chained, Listed, Move, Waits, On, Fresh, Reaping, Kernel, Select, WakeLegal, ExitTask;
      IdleIsActive(Abs());
      Selected(Abs());
      var n := SelectTask();
      while tasks[n].sigterm
        invariant Valid() && Inv(Abs()) && On(Abs(), Active) != [] && n == Select(Abs()) && n in tasks
                  && tasks[n].at == Active
        invariant tasks[n].sigterm ==> tasks[n].user
        invariant Schedule(Abs()) == Schedule(old(Abs())) && Schedule(Abs()).Some?
        decreases |Marked(Abs())|
      {
        ExitKeepsInv(Abs(), n, 1);
        ExitShrinksMarked(Abs(), n);
        ExitSt(n, 1);
        IdleIsActive(Abs());
        Selected(Abs());
        n := SelectTask();
      }
      SameLists(Abs(), Abs().(current := n));
      current := n;
    }

    /** thread_clear's pass over the zombie list, and the reset of the count. */
    method ClearZombies()
      requires Valid()
      modifies this
      ensures Valid() && Abs() == Reap(old(Abs()), On(old(Abs()), Zombie)).(zombieCount := 0, reaper := Scanned)
    {
      hide Chained, Listed, Without, Reap, NoDup;
      HeadOf(next, heads, Abs(), Zombie);
      ghost var l := On(Abs(), Zombie);
      ghost var final := Reap(Abs(), l);
      ghost var kept: seq<nat>, rest := [], l;
      var p := heads[Zombie];
      while p.Some?
        invariant Valid() && On(Abs(), Zombie) == kept + rest && p == After(rest, -1)
        invariant Reap(Abs(), rest) == final
        decreases |rest|
      {
        ghost var s := Abs();
        var c := p.value;
        HeadOf(next, heads, s, Zombie);
        ReapStep(s, rest);
        CutZombie(s, kept, rest);
        assert (kept + rest)[|kept|] == c;
        var nx := next[c];
        assert nx == After(kept + rest, |kept|) == After(rest, 0);
        if tasks[c].orphan {
          FreeProcess(c);
        } else {
          kept := kept + [c];
        }
        rest := rest[1..];
        p := nx;
      }
      ReapStep(Abs(), rest);
      SameLists(Abs(), Abs().(zombieCount := 0, reaper := Scanned));
      zombieCount := 0;
      reaper := Scanned;
    }

    /** waitpid looks for the child on three lists. */
    method FindChild(c: nat) returns (found: bool)
      requires Valid()
      ensures found <==> c in tasks && tasks[c].at != Zombie
    {
      hide Chained, Listed, On;
      ghost var s := Abs();
      HeadOf(next, heads, s, Active);
      HeadOf(next, heads, s, Sleep);
      HeadOf(next, heads, s, Stdin);
      Located(s, c, Active);
      Located(s, c, Sleep);
      Located(s, c, Stdin);
      var child := Find(Active, c);
      if child.None? { child := Find(Sleep, c); }
      if child.None? { child := Find(Stdin, c); }
      return child.Some?;
    }

    /** waitpid up to its sleep. */
    method WaitBegin(c: nat) returns (found: bool)
      requires Valid() && current in tasks && tasks[current].at == Active && c != current
      modifies this
      ensures Valid() && (found <==> c in old(tasks) && old(tasks)[c].at != Zombie)
      ensures Abs() == if found then StartWait(old(Abs()), old(current), c) else old(Abs())
    {
      hide Chained, Listed, Move;
      found := FindChild(c);
      if !found { return; }
      ghost var waiting := tasks[c := tasks[c].(waited := true)][current := tasks[current].(waiting := Some(c))];
      SameLists(Abs(), Abs().(tasks := waiting));
      tasks := tasks[c := tasks[c].(waited := true)];
      tasks := tasks[current := tasks[current].(waiting := Some(c))];
      MoveTask(current, Active, Sleep);
    }

    /** waitpid after its sleep: the child's status, and the child is gone. */
    method WaitEnd(c: nat) returns (status: int)
      requires Valid() && Inv(Abs()) && current in tasks && tasks[current].at == Active
               && tasks[current].waiting == Some(c)
      modifies this
      ensures c in old(tasks) && status == old(tasks)[c].status
      ensures Valid() && Abs() == FinishWait(old(Abs()), old(current), c)
    {
      hide Chained, Listed, Waits, Fresh, Reaping, On, Without;
      ghost var s := Abs();
      WaiterFindsZombie(s, current);
      SameLists(s, s.(tasks := tasks[current := tasks[current].(waiting := None)]));
      status := tasks[c].status;
      tasks := tasks[current := tasks[current].(waiting := None)];
      FreeProcess(c);
    }

    /** kill_by_pid: the target must be alive and a user process, and every signal
        but one is ignored. */
    method KillByPid(p: nat, sig: int) returns (r: int)
      requires Valid()
      modifies this`tasks
      ensures Valid() && r == (if p in old(tasks) && old(tasks)[p].at != Zombie && old(tasks)[p].user then 0 else -1)
      ensures tasks == if r == 0 && sig == SIGKILL then old(tasks)[p := old(tasks)[p].(sigterm := true)] else old(tasks)
    {
      hide Chained, Listed;
      var found := FindChild(p);
      if !found || !tasks[p].user { return -1; }
      if sig == SIGKILL {
        SameLists(Abs(), Abs().(tasks := tasks[p := tasks[p].(sigterm := true)]));
        tasks := tasks[p := tasks[p].(sigterm := true)];
      }
      r := 0;
    }

    /** What an event does before it calls schedule. */
    method Act(e: Event)
      requires Valid() && Sensible(Abs(), e) && Effect(Abs(), e).Some?
      modifies this
      ensures Valid() && Some(Abs()) == Effect(old(Abs()), e)
    {
      hide Chained, Listed, Waits, Fresh, Reaping, Move, On, Without, ExitTask, WakeStdin, Reap;
      ghost var s := Abs();
      EffectKeepsInv(s, e);
      match e {
        case Tick =>
        case Spawn => NewPid(s); var _ := Create(NewTask(INIT, false));
        case Fork => NewPid(s); var _ := Create(NewTask(current, true));
        case BecomeUser => tasks := tasks[current := tasks[current].(user := true)];
        case ReadStdin => MoveTask(current, Active, Stdin);
        case StdinReady => WakeAll();
        case WaitStart(c) => var _ := WaitBegin(c);
        case WaitFinish => var _ := WaitEnd(tasks[current].waiting.value);
        case Quit(status) => ExitSt(current, status);
        case Kill(p) => var _ := KillByPid(p, SIGKILL);
        case ReapScan => ClearZombies();
        case ReapSleep =>
          MoveTask(REAPER, Active, Sleep);
          reaper := Asleep;
      }
    }

    /** One event on the linked lists is one step of the process machine. */
    method Perform(e: Event)
      requires Valid() && Sensible(Abs(), e) && Step(Abs(), e).Some?
      modifies this
      ensures Valid() && Running(Abs()) && Some(Abs()) == Step(old(Abs()), e)
    {
      hide Chained, Listed, Waits, Fresh, Reaping, Kernel, Effect, Schedule, Enabled;
      ghost var s := Abs();
      EffectKeepsInv(s, e);
      StepKeepsRunning(s, e);
      Act(e);
      if Reschedules(e) { ScheduleNow(); }
    }

    /** A child calls exit(n), any events follow, and the parent's waitpid ends: it
        returns n. `r` is the state in which the parent resumes. */
    method ExitThenWait(n: int, es: seq<Event>, ghost r: State) returns (status: int)
      requires Valid() && Sensible(Abs(), Quit(n)) && Step(Abs(), Quit(n)).Some?
      requires (StepKeepsRunning(Abs(), Quit(n)); Reaches(Step(Abs(), Quit(n)).value, es, r))
      requires Sensible(r, WaitFinish) && r.tasks[r.current].waiting == Some(current)
      modifies this
      ensures status == n && Valid() && old(current) !in tasks
    {
      hide Chained, Inv, Step, Reaches, Enabled;
      ghost var s := Abs();
      var c := current;
      ExitReachesParent(s, n, es, r);
      Perform(Quit(n));
      for i := 0 to |es|
        invariant Valid() && Running(Abs()) && Reaches(Abs(), es[i..], r)
      {
        ReachesStep(Abs(), es[i..], r);
        assert es[i..][0] == es[i] && es[i..][1..] == es[i + 1..];
        Perform(es[i]);
      }
      ReachesStep(Abs(), [], r);
      assert es[|es|..] == [];
      status := WaitEnd(c);
    }
  }

  lemma ReachesStep(s: State, es: seq<Event>, r: State)
    requires Running(s) && Reaches(s, es, r)
    ensures es == [] ==> r == s
    ensures es != [] ==> Sensible(s, es[0]) && Step(s, es[0]).Some?
    ensures es != [] ==> (StepKeepsRunning(s, es[0]); Reaches(Step(s, es[0]).value, es[1..], r))
  {
  }
}
