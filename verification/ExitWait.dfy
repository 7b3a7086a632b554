/** `fork`, `exit` and `wait` on the process table. A method is what happens while `ptable.lock` is held, or a
    single store that needs no lock; processes interleave at will between methods. */
module ExitWait {
  datatype ProcState = Unused | Embryo | Sleeping | Runnable | Running | Zombie

  /** What a process sleeps on: its own or another process's address, or something else. */
  datatype Chan = NoChan | Process(i: int) | Other(n: int)

  /** Where a process is in the kernel. */
  datatype Place = Elsewhere | InFork(np: int) | InWait

  const NOBODY := -1
  const INIT := 0 // the slot of initproc

  datatype Proc = Proc(state: ProcState, pid: int, parent: int, chan: Chan, killed: bool, place: Place)

  datatype WaitResult = Reaped(pid: int) | Failed | Slept

  predicate Alive(p: Proc) {
    p.state == Sleeping || p.state == Runnable || p.state == Running
  }

  predicate InUse(p: Proc) {
    Alive(p) || p.state == Zombie
  }

  predicate Valid(t: seq<Proc>, i: int) {
    0 <= i < |t|
  }

  // ---- What holds whenever the lock is free ---------------------------------------------------------

  /** A process in use has a live parent; a slot under construction has a builder; a free slot has neither. */
  ghost predicate ParentOk(t: seq<Proc>, i: int)
    requires Valid(t, i)
  {
    && (InUse(t[i]) && i != INIT ==> Valid(t, t[i].parent) && Alive(t[t[i].parent]) && t[i].parent != i)
    && (t[i].state == Unused ==> t[i].parent == NOBODY)
    && (t[i].state == Embryo ==> exists q :: Builds(t, q, i))
    && (!Alive(t[i]) ==> t[i].place == Elsewhere)
  }

  ghost predicate Builds(t: seq<Proc>, q: int, i: int) {
    Valid(t, q) && t[q].place == InFork(i)
  }

  /** What a process builds is its own: a slot under construction, its child or nobody's yet. */
  ghost predicate BuildOk(t: seq<Proc>, q: int)
    requires Valid(t, q)
  {
    t[q].place.InFork? ==>
      var i := t[q].place.np;
      && Valid(t, i) && i != INIT && t[i].state == Embryo && (t[i].parent == NOBODY || t[i].parent == q)
      && forall r :: Builds(t, r, i) ==> r == q
  }

  /** No one sleeps in wait with a zombie child. */
  ghost predicate SleepOk(t: seq<Proc>, q: int)
    requires Valid(t, q)
  {
    t[q].state == Sleeping && t[q].chan.Process? ==>
      && t[q].chan.i == q && t[q].place == InWait
      && forall i :: Valid(t, i) && t[i].parent == q ==> t[i].state != Zombie
  }

  ghost predicate PidOk(t: seq<Proc>, nextpid: int, i: int)
    requires Valid(t, i)
  {
    t[i].state != Unused ==>
        0 < t[i].pid < nextpid && forall j :: Valid(t, j) && j != i && t[j].state != Unused ==> t[j].pid != t[i].pid
  }

  ghost predicate SlotOk(t: seq<Proc>, nextpid: int, i: int)
    requires Valid(t, i)
  {
    ParentOk(t, i) && BuildOk(t, i) && SleepOk(t, i) && PidOk(t, nextpid, i)
  }

  ghost predicate Inv(t: seq<Proc>, nextpid: int, returned: seq<int>) {
    && |t| > 0 && Alive(t[INIT]) && nextpid > 0
    && (forall i {:trigger SlotOk(t, nextpid, i)} :: Valid(t, i) ==> SlotOk(t, nextpid, i))
    && (forall k, l :: 0 <= k < l < |returned| ==> returned[k] != returned[l])
    && (forall k :: 0 <= k < |returned| ==>
        returned[k] < nextpid && forall i :: Valid(t, i) && t[i].state != Unused ==> t[i].pid != returned[k])
  }

  ghost predicate HasZombie(t: seq<Proc>, q: int) {
    exists i :: Valid(t, i) && t[i].parent == q && t[i].state == Zombie
  }

  function Woken(p: Proc, chan: Chan): Proc {
    if p.state == Sleeping && p.chan == chan then p.(state := Runnable) else p
  }

  // ---- Exit ------------------------------------------------------------------------------------------

  /** Slot i after process q has exited: its parent is woken, its children are init's, and init is woken if one
      of them is a zombie. */
  ghost function Exited(t: seq<Proc>, q: int, i: int): Proc
    requires Valid(t, q) && Valid(t, i)
  {
    if i == q then t[q].(state := Zombie, place := Elsewhere)
    else
      var p := Woken(t[i], Process(t[q].parent));
      var r := if HasZombie(t, q) then Woken(p, Process(INIT)) else p;
      if t[i].parent == q then r.(parent := INIT) else r
  }

  ghost predicate IsExit(t: seq<Proc>, t': seq<Proc>, q: int)
    requires Valid(t, q)
  {
    |t'| == |t| && forall i :: Valid(t, i) ==> t'[i] == Exited(t, q, i)
  }

  /** What exiting leaves of each slot. */
  ghost predicate Shape(t: seq<Proc>, t': seq<Proc>, q: int, i: int)
    requires |t'| == |t| && Valid(t, i)
  {
    && t'[i].pid == t[i].pid && (t'[i].state == Unused <==> t[i].state == Unused)
         && (t'[i].state == Embryo <==> t[i].state == Embryo)
    && (Alive(t'[i]) <==> Alive(t[i]) && i != q) && (t'[i].state == Zombie <==> t[i].state == Zombie || i == q)
    && t'[i].parent == (if t[i].parent == q && i != q then INIT else t[i].parent)
    && t'[i].place == if i == q then Elsewhere else t[i].place
  }

  /** Who is woken when q exits: its parent, in wait, and init too if q leaves a zombie. */
  ghost predicate Roused(t: seq<Proc>, q: int, i: int)
    requires Valid(t, q) && Valid(t, i)
  {
    && t[i].state == Sleeping
    && (t[i].chan == Process(t[q].parent)
        || (t[i].chan == Process(INIT) && exists k :: Valid(t, k) && t[k].parent == q && t[k].state == Zombie))
  }

  lemma ExitSays(t: seq<Proc>, t': seq<Proc>, q: int)
    requires Valid(t, q) && IsExit(t, t', q)
    ensures t'[q] == t[q].(state := Zombie, place := Elsewhere)
    ensures forall i :: Valid(t, i) && i != q ==>
              t'[i] == t[i].(parent := if t[i].parent == q then INIT else t[i].parent,
                             state := if Roused(t, q, i) then Runnable else t[i].state)
  {
  }

  lemma ExitShape(t: seq<Proc>, t': seq<Proc>, q: int)
    requires Valid(t, q) && Alive(t[q]) && IsExit(t, t', q)
    ensures forall i :: Valid(t, i) ==> Shape(t, t', q, i)
  {
  }

  lemma ExitParent(t: seq<Proc>, t': seq<Proc>, nextpid: int, returned: seq<int>, q: int, i: int)
    requires Inv(t, nextpid, returned) && Valid(t, q) && Alive(t[q]) && q != INIT && !t[q].place.InFork?
             && IsExit(t, t', q) && Valid(t, i)
    ensures ParentOk(t', i) && PidOk(t', nextpid, i)
  {
    ExitShape(t, t', q);
    hide IsExit, BuildOk, SleepOk;
    assert SlotOk(t, nextpid, i) && SlotOk(t, nextpid, q);
    assert Shape(t, t', q, i) && Shape(t, t', q, q) && Shape(t, t', q, INIT);
    if t[i].state == Embryo {
      var r :| Builds(t, r, i);
      assert Shape(t, t', q, r) && Builds(t', r, i);
    }
    if Valid(t, t[i].parent) {
      assert Shape(t, t', q, t[i].parent);
    }
  }

  lemma ExitBuild(t: seq<Proc>, t': seq<Proc>, nextpid: int, returned: seq<int>, q: int, i: int)
    requires Inv(t, nextpid, returned) && Valid(t, q) && Alive(t[q]) && q != INIT && !t[q].place.InFork?
             && IsExit(t, t', q) && Valid(t, i)
    ensures BuildOk(t', i)
  {
    ExitShape(t, t', q);
    hide IsExit, ParentOk, SleepOk, PidOk;
    assert SlotOk(t, nextpid, i) && Shape(t, t', q, i);
    if t'[i].place.InFork? {
      assert Shape(t, t', q, t[i].place.np);
      forall r | Builds(t', r, t'[i].place.np) ensures r == i {
        assert Shape(t, t', q, r) && Builds(t, r, t'[i].place.np);
      }
    }
  }

  lemma ExitSleep(t: seq<Proc>, t': seq<Proc>, nextpid: int, returned: seq<int>, q: int, i: int)
    requires Inv(t, nextpid, returned) && Valid(t, q) && Alive(t[q]) && q != INIT && IsExit(t, t', q) && Valid(t, i)
    ensures SleepOk(t', i)
  {
    assert SlotOk(t, nextpid, i) && SlotOk(t, nextpid, q);
    assert t'[i] == Exited(t, q, i);
    if t'[i].state == Sleeping && t'[i].chan.Process? {
      forall k | Valid(t, k) && t'[k].parent == i ensures t'[k].state != Zombie {
        assert t'[k] == Exited(t, q, k);
      }
    }
  }

  /** Exit keeps everything. */
  lemma ExitKeeps(t: seq<Proc>, t': seq<Proc>, nextpid: int, returned: seq<int>, q: int)
    requires Inv(t, nextpid, returned) && Valid(t, q) && Alive(t[q]) && q != INIT && !t[q].place.InFork?
             && IsExit(t, t', q)
    ensures Inv(t', nextpid, returned)
  {
    hide ParentOk, BuildOk, SleepOk, PidOk;
    forall i | Valid(t', i) ensures SlotOk(t', nextpid, i) {
      ExitParent(t, t', nextpid, returned, q, i);
      ExitBuild(t, t', nextpid, returned, q, i);
      ExitSleep(t, t', nextpid, returned, q, i);
    }
    assert t'[INIT] == Exited(t, q, INIT);
    forall i | Valid(t, i) ensures t'[i].pid == t[i].pid && (t'[i].state == Unused <==> t[i].state == Unused) {
      assert t'[i] == Exited(t, q, i);
    }
  }

  // ---- Scheduling ------------------------------------------------------------------------------------

  /** Processes only go to sleep, wake, run or stop running. */
  ghost predicate Stirred(t: seq<Proc>, t': seq<Proc>) {
    && |t'| == |t|
    && forall i :: Valid(t, i) ==>
         && t'[i].pid == t[i].pid && t'[i].parent == t[i].parent
         && (t'[i].place == t[i].place || (Alive(t[i]) && !t[i].place.InFork? && !t'[i].place.InFork?))
         && (t'[i].state == t[i].state || (Alive(t'[i]) && Alive(t[i])))
  }

  lemma StirredKeeps(t: seq<Proc>, t': seq<Proc>, nextpid: int, returned: seq<int>)
    requires Inv(t, nextpid, returned) && Stirred(t, t') && forall i :: Valid(t', i) ==> SleepOk(t', i)
    ensures Inv(t', nextpid, returned)
  {
    hide SleepOk;
    forall i | Valid(t', i) ensures SlotOk(t', nextpid, i) {
      assert SlotOk(t, nextpid, i);
      forall r, k ensures Builds(t', r, k) <==> Builds(t, r, k) {
      }
    }
  }

  // ---- Fork ------------------------------------------------------------------------------------------

  function Started(t: seq<Proc>, q: int, i: int, pid: int): seq<Proc>
    requires Valid(t, q) && Valid(t, i)
  {
    t[i := t[i].(state := Embryo, pid := pid)][q := t[q].(place := InFork(i))]
  }

  lemma StartKeeps(t: seq<Proc>, nextpid: int, returned: seq<int>, q: int, i: int)
    requires Inv(t, nextpid, returned) && Valid(t, q) && Alive(t[q]) && t[q].place == Elsewhere && Valid(t, i)
             && t[i].state == Unused
    ensures Inv(Started(t, q, i, nextpid), nextpid + 1, returned)
  {
    var t' := Started(t, q, i, nextpid);
    assert SlotOk(t, nextpid, i) && SlotOk(t, nextpid, q);
    forall k | Valid(t', k) ensures SlotOk(t', nextpid + 1, k) {
      StartSlot(t, nextpid, returned, q, i, k);
    }
  }

  lemma StartSlot(t: seq<Proc>, nextpid: int, returned: seq<int>, q: int, i: int, k: int)
    requires Inv(t, nextpid, returned) && Valid(t, q) && Alive(t[q]) && t[q].place == Elsewhere && Valid(t, i)
             && t[i].state == Unused && Valid(t, k)
    ensures SlotOk(Started(t, q, i, nextpid), nextpid + 1, k)
  {
    var t' := Started(t, q, i, nextpid);
    assert SlotOk(t, nextpid, i) && SlotOk(t, nextpid, q) && SlotOk(t, nextpid, k);
    assert Builds(t', q, i);
    forall j | Valid(t, j) ensures t[j].state != Unused ==> t[j].pid < nextpid {
      assert SlotOk(t, nextpid, j);
    }
    forall r, m ensures Builds(t', r, m) <==> (if r == q then m == i else Builds(t, r, m)) {
    }
    forall r ensures !Builds(t, r, i) {
      UnusedNotBuilt(t, nextpid, returned, r, i);
    }
  }

  lemma UnusedNotBuilt(t: seq<Proc>, nextpid: int, returned: seq<int>, r: int, i: int)
    requires Inv(t, nextpid, returned) && Valid(t, i) && t[i].state == Unused
    ensures !Builds(t, r, i)
  {
    if Valid(t, r) {
      assert SlotOk(t, nextpid, r);
    }
  }

  /** The builder alone changes the slot it builds: it names itself as parent, */
  lemma ParentSet(t: seq<Proc>, nextpid: int, returned: seq<int>, q: int)
    requires Inv(t, nextpid, returned) && Valid(t, q) && Alive(t[q]) && t[q].place.InFork?
    ensures Valid(t, t[q].place.np) && Inv(t[t[q].place.np := t[t[q].place.np].(parent := q)], nextpid, returned)
  {
    var i := t[q].place.np;
    assert SlotOk(t, nextpid, q) && SlotOk(t, nextpid, i);
    var t' := t[i := t[i].(parent := q)];
    forall k | Valid(t', k) ensures SlotOk(t', nextpid, k) {
      assert SlotOk(t, nextpid, k);
      forall r, m ensures Builds(t', r, m) <==> Builds(t, r, m) {
      }
    }
  }

  function Ended(t: seq<Proc>, q: int, i: int, state: ProcState): seq<Proc>
    requires Valid(t, q) && Valid(t, i)
  {
    t[i := t[i].(state := state)][q := t[q].(place := Elsewhere)]
  }

  /** The slot that q has built is in that state, and q builds no more. */
  ghost predicate Let(t: seq<Proc>, t': seq<Proc>, q: int, state: ProcState) {
    && |t'| == |t| && Valid(t, q) && t[q].place.InFork? && Valid(t, t[q].place.np) && t[q].place.np != q
    && t'[q] == t[q].(place := Elsewhere) && t'[t[q].place.np] == t[t[q].place.np].(state := state)
    && forall k :: Valid(t, k) && k != q && k != t[q].place.np ==> t'[k] == t[k]
  }

  /** and lets it go: to run as its child, or back to the free slots if it never got that far. */
  lemma EndKeeps(t: seq<Proc>, nextpid: int, returned: seq<int>, q: int, state: ProcState)
    requires Inv(t, nextpid, returned) && Valid(t, q) && Alive(t[q]) && t[q].place.InFork? && Valid(t, t[q].place.np)
    requires (state == Runnable && t[t[q].place.np].parent == q)
             || (state == Unused && t[t[q].place.np].parent == NOBODY)
    ensures Inv(Ended(t, q, t[q].place.np, state), nextpid, returned)
  {
    var i := t[q].place.np;
    var t' := Ended(t, q, i, state);
    assert SlotOk(t, nextpid, q) && SlotOk(t, nextpid, i);
    forall k | Valid(t', k) ensures SlotOk(t', nextpid, k) {
      EndSlot(t, nextpid, returned, q, state, k);
    }
  }

  lemma EndSlot(t: seq<Proc>, nextpid: int, returned: seq<int>, q: int, state: ProcState, k: int)
    requires Inv(t, nextpid, returned) && Valid(t, q) && Alive(t[q]) && t[q].place.InFork? && Valid(t, t[q].place.np)
             && Valid(t, k)
    requires (state == Runnable && t[t[q].place.np].parent == q)
             || (state == Unused && t[t[q].place.np].parent == NOBODY)
    ensures SlotOk(Ended(t, q, t[q].place.np, state), nextpid, k)
  {
    var i := t[q].place.np;
    var t' := Ended(t, q, i, state);
    assert SlotOk(t, nextpid, q) && SlotOk(t, nextpid, i) && SlotOk(t, nextpid, k);
    assert Builds(t, q, i);
    forall r, m ensures Builds(t', r, m) <==> r != q && Builds(t, r, m) {
    }
    NotAParent(t, nextpid, returned, i, k);
  }

  /** A slot under construction is no one's parent. */
  lemma NotAParent(t: seq<Proc>, nextpid: int, returned: seq<int>, i: int, k: int)
    requires Inv(t, nextpid, returned) && Valid(t, i) && t[i].state == Embryo && Valid(t, k)
    ensures t[k].parent != i || k == INIT
  {
    assert SlotOk(t, nextpid, k);
    if t[k].state == Embryo {
      var r :| Builds(t, r, k);
      assert SlotOk(t, nextpid, r);
      assert SlotOk(t, nextpid, i);
    }
  }

  // ---- Wait ------------------------------------------------------------------------------------------

  function Reap(t: seq<Proc>, q: int, i: int): seq<Proc>
    requires Valid(t, q) && Valid(t, i)
  {
    t[i := t[i].(state := Unused, pid := 0, parent := NOBODY, killed := false)][q := t[q].(place := Elsewhere)]
  }

  lemma ReapSlot(t: seq<Proc>, nextpid: int, returned: seq<int>, q: int, i: int, k: int)
    requires Inv(t, nextpid, returned) && Valid(t, q) && t[q].state == Running && !t[q].place.InFork? && Valid(t, k)
    requires Valid(t, i) && t[i].parent == q && t[i].state == Zombie
    ensures SlotOk(Reap(t, q, i), nextpid, k)
  {
    var t' := Reap(t, q, i);
    assert SlotOk(t, nextpid, q) && SlotOk(t, nextpid, i) && SlotOk(t, nextpid, k);
    forall r, m ensures Builds(t', r, m) <==> Builds(t, r, m) {
    }
  }

  /** A zombie's slot becomes free, and its pid has been returned, for the first time. */
  lemma ReapKeeps(t: seq<Proc>, nextpid: int, returned: seq<int>, q: int, i: int)
    requires Inv(t, nextpid, returned) && Valid(t, q) && t[q].state == Running && !t[q].place.InFork?
    requires Valid(t, i) && t[i].parent == q && t[i].state == Zombie
    ensures t[i].pid !in returned && Inv(Reap(t, q, i), nextpid, returned + [t[i].pid])
  {
    var t' := Reap(t, q, i);
    assert SlotOk(t, nextpid, i);
    forall k | Valid(t', k) ensures SlotOk(t', nextpid, k) {
      ReapSlot(t, nextpid, returned, q, i, k);
    }
    hide SlotOk;
    assert t[i].pid !in returned;
  }

  // ---- The table -------------------------------------------------------------------------------------

  class ProcTable {
    var proc: seq<Proc>
    var nextpid: int
    ghost var returned: seq<int> // what calls of wait have returned

    ghost function Now(): Table
      reads this
    {
      Table(proc, nextpid, returned)
    }

    ghost predicate Ok()
      reads this
    {
      Inv(proc, nextpid, returned)
    }

    /** The first process, as `userinit` leaves it. */
    constructor (nproc: nat)
      requires nproc > 0
      ensures Ok() && |proc| == nproc && Booted(Now())
    {
      proc := [Proc(Runnable, 1, NOBODY, NoChan, false, Elsewhere)]
          + seq(nproc - 1, _ => Proc(Unused, 0, NOBODY, NoChan, false, Elsewhere));
      nextpid := 2;
      returned := [];
      new;
      forall i | Valid(proc, i) ensures SlotOk(proc, nextpid, i) {
      }
    }

    /** `wakeup1` */
    method Wakeup1(chan: Chan)
      modifies this`proc
      ensures |proc| == |old(proc)| && forall i :: Valid(proc, i) ==> proc[i] == Woken(old(proc)[i], chan)
      ensures forall i :: Valid(proc, i) ==>
                proc[i] == if old(proc)[i].state == Sleeping && old(proc)[i].chan == chan
                           then old(proc)[i].(state := Runnable) else old(proc)[i]
    {
      for i := 0 to |proc|
        invariant |proc| == |old(proc)|
                  && forall k :: Valid(proc, k) ==> proc[k] == if k < i then Woken(old(proc)[k], chan) else old(proc)[k]
      {
        if proc[i].state == Sleeping && proc[i].chan == chan {
          proc := proc[i := proc[i].(state := Runnable)];
        }
      }
    }

    /** The critical section of `exit`. */
    method Exit(q: int)
      requires Ok() && Valid(proc, q) && proc[q].state == Running && q != INIT && !proc[q].place.InFork?
      modifies this`proc
      ensures Ok() && IsExit(old(proc), proc, q)
      ensures proc[q] == old(proc)[q].(state := Zombie, place := Elsewhere)
      ensures forall i :: Valid(proc, i) && i != q ==>
                proc[i] == old(proc)[i].(parent := if old(proc)[i].parent == q then INIT else old(proc)[i].parent,
                                         state := if Roused(old(proc), q, i) then Runnable else old(proc)[i].state)
    {
      ghost var t := proc;
      assert SlotOk(t, nextpid, q) && t[q].parent != q;
      hide Inv;
      Wakeup1(Process(proc[q].parent));
      Reparent(q, t);
      assert MetZombie(t, q, |t|) <==> HasZombie(t, q);
      hide MetZombie, HasZombie;
      proc := proc[q := proc[q].(state := Zombie, place := Elsewhere)];
      ExitKeeps(t, proc, nextpid, returned, q);
      ExitSays(t, proc, q);
    }

    /** The loop of `exit`: children pass to init, which is woken for a zombie among them. */
    method Reparent(q: int, ghost t: seq<Proc>)
      requires Valid(t, q) && t[q].parent != q && q != INIT && |proc| == |t| > 0
      requires forall k :: Valid(t, k) ==> proc[k] == Woken(t[k], Process(t[q].parent))
      modifies this`proc
      ensures |proc| == |t| && forall k :: Valid(t, k) ==> proc[k] == Passing(t, q, |t|, k)
    {
      for i := 0 to |proc|
        invariant |proc| == |t| && forall k :: Valid(t, k) ==> proc[k] == Passing(t, q, i, k)
      {
        if proc[i].parent == q {
          proc := proc[i := proc[i].(parent := INIT)];
          if proc[i].state == Zombie {
            Wakeup1(Process(INIT));
          }
        }
      }
    }

    /** The critical section of `allocproc`, which `fork` starts with: the first free slot, or NOBODY. */
    method AllocProc(q: int) returns (i: int)
      requires Ok() && Valid(proc, q) && proc[q].state == Running && proc[q].place == Elsewhere
      modifies this`proc, this`nextpid
      ensures Ok()
      ensures i == NOBODY ==> Now() == old(Now()) && forall k :: Valid(proc, k) ==> proc[k].state != Unused
      ensures i != NOBODY ==>
              FirstFree(old(proc), i) && proc == Started(old(proc), q, i, old(nextpid)) && nextpid == old(nextpid) + 1
      ensures i != NOBODY ==>
              && |proc| == |old(proc)| && proc[q] == old(proc)[q].(place := InFork(i))
              && proc[i] == Proc(Embryo, old(nextpid), NOBODY, old(proc)[i].chan, old(proc)[i].killed, Elsewhere)
              && forall k :: Valid(proc, k) && k != i && k != q ==> proc[k] == old(proc)[k]
    {
      i := 0;
      while i < |proc| && proc[i].state != Unused
        invariant 0 <= i <= |proc| && forall k :: 0 <= k < i ==> proc[k].state != Unused
      {
        i := i + 1;
      }
      if i == |proc| {
        return NOBODY;
      }
      assert SlotOk(proc, nextpid, i);
      StartKeeps(proc, nextpid, returned, q, i);
      proc, nextpid := Started(proc, q, i, nextpid), nextpid + 1;
    }

    /** `fork` runs out of memory before the child has a parent. */
    method ForkFails(q: int)
      requires Ok() && Valid(proc, q) && proc[q].state == Running && proc[q].place.InFork?
      requires Valid(proc, proc[q].place.np) && proc[proc[q].place.np].parent == NOBODY
      modifies this`proc
      ensures Ok() && proc == Ended(old(proc), q, old(proc)[q].place.np, Unused)
      ensures Let(old(proc), proc, q, Unused)
    {
      assert SlotOk(proc, nextpid, q) && SlotOk(proc, nextpid, proc[q].place.np);
      EndKeeps(proc, nextpid, returned, q, Unused);
      proc := Ended(proc, q, proc[q].place.np, Unused);
    }

    /** `fork` names the parent of the new process, without the lock. */
    method SetParent(q: int)
      requires Ok() && Valid(proc, q) && proc[q].state == Running && proc[q].place.InFork?
      modifies this`proc
      ensures Ok() && Valid(old(proc), old(proc)[q].place.np)
      ensures proc == old(proc)[old(proc)[q].place.np := old(proc)[old(proc)[q].place.np].(parent := q)]
    {
      ParentSet(proc, nextpid, returned, q);
      proc := proc[proc[q].place.np := proc[proc[q].place.np].(parent := q)];
    }

    /** `fork` lets the new process run, without the lock. */
    method ForkDone(q: int)
      requires Ok() && Valid(proc, q) && proc[q].state == Running && proc[q].place.InFork?
      requires Valid(proc, proc[q].place.np) && proc[proc[q].place.np].parent == q
      modifies this`proc
      ensures Ok() && proc == Ended(old(proc), q, old(proc)[q].place.np, Runnable)
      ensures Let(old(proc), proc, q, Runnable)
    {
      assert SlotOk(proc, nextpid, q) && SlotOk(proc, nextpid, proc[q].place.np);
      EndKeeps(proc, nextpid, returned, q, Runnable);
      proc := Ended(proc, q, proc[q].place.np, Runnable);
    }

    /** One round of `wait`: a zombie child is reaped and its pid returned; without children, or killed, -1;
        otherwise the process goes to sleep on its own address, and tries again when it runs. */
    method Wait(q: int) returns (r: WaitResult, i: int)
      requires Ok() && Valid(proc, q) && proc[q].state == Running && !proc[q].place.InFork?
      modifies this`proc, this`returned
      ensures Ok()
      ensures r.Reaped? <==> HasZombie(old(proc), q)
      ensures r.Reaped? ==> FirstZombie(old(proc), q, i) && r.pid == old(proc)[i].pid
                            && r.pid !in old(returned) && returned == old(returned) + [r.pid]
                                 && proc == Reap(old(proc), q, i)
      ensures r.Reaped? ==>
              && |proc| == |old(proc)| && proc[i] == Proc(Unused, 0, NOBODY, old(proc)[i].chan, false, Elsewhere)
              && proc[q] == old(proc)[q].(place := Elsewhere)
              && forall k :: Valid(proc, k) && k != i && k != q ==> proc[k] == old(proc)[k]
      ensures !r.Reaped? ==> returned == old(returned)
      ensures r.Failed? <==>
              !HasZombie(old(proc), q) && (old(proc)[q].killed
                                           || forall k :: Valid(old(proc), k) ==> old(proc)[k].parent != q)
      ensures r.Failed? ==> proc == old(proc)[q := old(proc)[q].(place := Elsewhere)]
      ensures r.Slept? ==> proc == old(proc)[q := old(proc)[q].(state := Sleeping, chan := Process(q), place := InWait)]
    {
      var havekids := false;
      i := 0;
      while i < |proc|
        invariant 0 <= i <= |proc| && proc == old(proc) && returned == old(returned)
        invariant havekids <==> exists k :: Valid(proc, k) && k < i && proc[k].parent == q
        invariant forall k :: Valid(proc, k) && k < i && proc[k].parent == q ==> proc[k].state != Zombie
      {
        if proc[i].parent == q {
          havekids := true;
          if proc[i].state == Zombie {
            assert SlotOk(proc, nextpid, i);
            ReapKeeps(proc, nextpid, returned, q, i);
            r := Reaped(proc[i].pid);
            returned := returned + [proc[i].pid];
            proc := Reap(proc, q, i);
            return;
          }
        }
        i := i + 1;
      }
      if !havekids || proc[q].killed {
        proc := proc[q := proc[q].(place := Elsewhere)];
        Stirs(old(proc), proc, nextpid, returned, q);
        return Failed, i;
      }
      proc := proc[q := proc[q].(state := Sleeping, chan := Process(q), place := InWait)];
      Stirs(old(proc), proc, nextpid, returned, q);
      return Slept, i;
    }

    /** The scheduler runs a process, or stops it. */
    method Schedule(q: int)
      requires Ok() && Valid(proc, q) && (proc[q].state == Runnable || proc[q].state == Running)
      modifies this`proc
      ensures Ok() && proc == old(proc)[q := old(proc)[q].(state := if old(proc)[q].state == Runnable then Running
                                                           else Runnable)]
    {
      proc := proc[q := proc[q].(state := if proc[q].state == Runnable then Running else Runnable)];
      Stirs(old(proc), proc, nextpid, returned, q);
    }

    /** Sleeping on something else. */
    method Sleep(q: int, n: int)
      requires Ok() && Valid(proc, q) && proc[q].state == Running
      modifies this`proc
      ensures Ok() && proc == old(proc)[q := old(proc)[q].(state := Sleeping, chan := Other(n))]
    {
      proc := proc[q := proc[q].(state := Sleeping, chan := Other(n))];
      Stirs(old(proc), proc, nextpid, returned, q);
    }

    /** `wakeup` for something else. */
    method Wakeup(n: int)
      requires Ok()
      modifies this`proc
      ensures Ok() && IsWakeup(old(proc), proc, Other(n))
    {
      hide Inv;
      Wakeup1(Other(n));
      WokenKeeps(old(proc), proc, nextpid, returned, Other(n));
    }

    /** `kill`: wakes the process whatever it sleeps on. A stale pid in a free slot may be matched too. */
    method Kill(pid: int) returns (ok: bool, i: int)
      requires Ok()
      modifies this`proc
      ensures Ok()
      ensures ok <==> exists k :: Valid(old(proc), k) && old(proc)[k].pid == pid
      ensures !ok ==> proc == old(proc)
      ensures ok ==> FirstNamed(old(proc), pid, i) && proc == old(proc)[i := Killed(old(proc)[i])]
      ensures ok ==>
              && |proc| == |old(proc)| && (forall k :: Valid(proc, k) && k != i ==> proc[k] == old(proc)[k])
              && proc[i] == old(proc)[i].(killed := true, state := proc[i].state)
              && proc[i].state == if old(proc)[i].state == Sleeping then Runnable else old(proc)[i].state
    {
      i := 0;
      while i < |proc|
        invariant 0 <= i <= |proc| && proc == old(proc) && forall k :: 0 <= k < i ==> proc[k].pid != pid
      {
        if proc[i].pid == pid {
          proc := proc[i := proc[i].(killed := true,
                                     state := if proc[i].state == Sleeping then Runnable else proc[i].state)];
          Stirs(old(proc), proc, nextpid, returned, i);
          return true, i;
        }
        i := i + 1;
      }
      return false, i;
    }

    /** Whatever can happen next. */
    method Perform(e: Event)
      requires Ok() && Enabled(proc, e)
      modifies this
      ensures Ok() && Next(old(Now()), e, Now())
    {
      hide Inv;
      var i, ok, r;
      match e {
        case DoAlloc(q) => i := AllocProc(q);
        case DoForkFails(q) => ForkFails(q);
        case DoSetParent(q) => SetParent(q);
        case DoForkDone(q) => ForkDone(q);
        case DoExit(q) => Exit(q);
        case DoWait(q) => r, i := Wait(q);
        case DoSchedule(q) => Schedule(q);
        case DoSleep(q, n) => Sleep(q, n);
        case DoWakeup(n) => Wakeup(n);
        case DoKill(pid) => ok, i := Kill(pid);
      }
    }

    /** The events, one after the other, up to the first that cannot happen: a run, and ss are the tables in it. */
    method Run(es: seq<Event>) returns (done: nat, ghost ss: seq<Table>)
      requires Ok()
      modifies this
      ensures Ok() && done <= |es| && (done < |es| ==> !Enabled(proc, es[done]))
      ensures IsRun(ss, es[..done]) && ss[0] == old(Now()) && ss[done] == Now()
    {
      hide Inv;
      done, ss := 0, [Now()];
      while done < |es| && Enabled(proc, es[done])
        invariant Ok() && done <= |es| && IsRun(ss, es[..done]) && ss[0] == old(Now()) && ss[done] == Now()
      {
        ghost var was := Now();
        Perform(es[done]);
        RunMore(ss, es[..done], es[done], Now());
        assert es[..done] + [es[done]] == es[..done + 1];
        done, ss := done + 1, ss + [Now()];
      }
    }
  }

  // ---- Runs ------------------------------------------------------------------------------------------

  datatype Table = Table(proc: seq<Proc>, nextpid: int, returned: seq<int>)

  datatype Event =
    | DoAlloc(q: int) | DoForkFails(q: int) | DoSetParent(q: int) | DoForkDone(q: int) | DoExit(q: int) | DoWait(q: int)
    | DoSchedule(q: int) | DoSleep(q: int, n: int) | DoWakeup(n: int) | DoKill(pid: int)

  predicate Forks(t: seq<Proc>, q: int) {
    Valid(t, q) && t[q].state == Running && t[q].place.InFork? && Valid(t, t[q].place.np)
  }

  /** A running process does what it is at; the scheduler, interrupts and killers come at any time. */
  predicate Enabled(t: seq<Proc>, e: Event) {
    match e
    case DoAlloc(q) => Valid(t, q) && t[q].state == Running && t[q].place == Elsewhere
    case DoForkFails(q) => Forks(t, q) && t[t[q].place.np].parent == NOBODY
    case DoSetParent(q) => Forks(t, q)
    case DoForkDone(q) => Forks(t, q) && t[t[q].place.np].parent == q
    case DoExit(q) => Valid(t, q) && t[q].state == Running && t[q].place == Elsewhere && q != INIT
    case DoWait(q) => Valid(t, q) && t[q].state == Running && !t[q].place.InFork?
    case DoSchedule(q) => Valid(t, q) && (t[q].state == Runnable || t[q].state == Running)
    case DoSleep(q, n) => Valid(t, q) && t[q].state == Running && !t[q].place.InWait?
    case DoWakeup(n) => true
    case DoKill(pid) => true
  }

  predicate FirstFree(t: seq<Proc>, i: int) {
    Valid(t, i) && t[i].state == Unused && forall k :: 0 <= k < i ==> t[k].state != Unused
  }

  predicate ZombieOf(t: seq<Proc>, q: int, i: int) {
    Valid(t, i) && t[i].parent == q && t[i].state == Zombie
  }

  predicate FirstZombie(t: seq<Proc>, q: int, i: int) {
    ZombieOf(t, q, i) && forall k :: 0 <= k < i ==> !ZombieOf(t, q, k)
  }

  predicate FirstNamed(t: seq<Proc>, pid: int, i: int) {
    Valid(t, i) && t[i].pid == pid && forall k :: 0 <= k < i ==> t[k].pid != pid
  }

  /** How an event changes the table, the next pid and what wait has returned. */
  ghost predicate Next(s: Table, e: Event, s': Table) {
    var t := s.proc;
    && Enabled(t, e)
    && match e
       case DoAlloc(q) =>
         if exists i :: FirstFree(t, i)
         then exists i :: FirstFree(t, i) && s' == Table(Started(t, q, i, s.nextpid), s.nextpid + 1, s.returned)
         else s' == s
       case DoForkFails(q) => s' == s.(proc := Ended(t, q, t[q].place.np, Unused))
       case DoSetParent(q) => s' == s.(proc := t[t[q].place.np := t[t[q].place.np].(parent := q)])
       case DoForkDone(q) => s' == s.(proc := Ended(t, q, t[q].place.np, Runnable))
       case DoExit(q) => IsExit(t, s'.proc, q) && s' == s.(proc := s'.proc)
       case DoWait(q) =>
         if HasZombie(t, q)
         then exists i :: FirstZombie(t, q, i) && s' == Table(Reap(t, q, i), s.nextpid, s.returned + [t[i].pid])
         else if t[q].killed || forall k :: Valid(t, k) ==> t[k].parent != q
         then s' == s.(proc := t[q := t[q].(place := Elsewhere)])
         else s' == s.(proc := t[q := t[q].(state := Sleeping, chan := Process(q), place := InWait)])
       case DoSchedule(q) => s' == s.(proc := t[q := t[q].(state := if t[q].state == Runnable then Running
                                                           else Runnable)])
       case DoSleep(q, n) => s' == s.(proc := t[q := t[q].(state := Sleeping, chan := Other(n))])
       case DoWakeup(n) => IsWakeup(t, s'.proc, Other(n)) && s' == s.(proc := s'.proc)
       case DoKill(pid) =>
         if exists i :: FirstNamed(t, pid, i)
         then exists i :: FirstNamed(t, pid, i) && s' == s.(proc := t[i := Killed(t[i])])
         else s' == s
  }

  ghost predicate IsWakeup(t: seq<Proc>, t': seq<Proc>, chan: Chan) {
    |t'| == |t| && forall i :: Valid(t, i) ==> t'[i] == Woken(t[i], chan)
  }

  function Killed(p: Proc): Proc {
    p.(killed := true, state := if p.state == Sleeping then Runnable else p.state)
  }

  /** The tables of a run, one before each event and one after the last. */
  ghost predicate IsRun(ss: seq<Table>, es: seq<Event>) {
    |ss| == |es| + 1 && forall k :: 0 <= k < |es| ==> Next(ss[k], es[k], ss[k + 1])
  }

  lemma RunMore(ss: seq<Table>, es: seq<Event>, e: Event, s: Table)
    requires IsRun(ss, es) && Next(ss[|es|], e, s)
    ensures IsRun(ss + [s], es + [e])
  {
  }

  ghost predicate Good(s: Table) {
    Inv(s.proc, s.nextpid, s.returned)
  }

  lemma NextKeeps(s: Table, e: Event, s': Table)
    requires Good(s) && Next(s, e, s')
    ensures Good(s') && s.returned <= s'.returned
  {
    var t := s.proc;
    match e
    case DoAlloc(q) =>
      if i :| FirstFree(t, i) && s' == Table(Started(t, q, i, s.nextpid), s.nextpid + 1, s.returned) {
        StartKeeps(t, s.nextpid, s.returned, q, i);
      }
    case DoForkFails(q) => EndKeeps(t, s.nextpid, s.returned, q, Unused);
    case DoSetParent(q) => ParentSet(t, s.nextpid, s.returned, q);
    case DoForkDone(q) => EndKeeps(t, s.nextpid, s.returned, q, Runnable);
    case DoExit(q) => ExitKeeps(t, s'.proc, s.nextpid, s.returned, q);
    case DoWait(q) => WaitKeeps(s, q, s');
    case DoSchedule(q) => Stirs(t, s'.proc, s.nextpid, s.returned, q);
    case DoSleep(q, n) => Stirs(t, s'.proc, s.nextpid, s.returned, q);
    case DoWakeup(n) => WokenKeeps(t, s'.proc, s.nextpid, s.returned, Other(n));
    case DoKill(pid) =>
      if i :| FirstNamed(t, pid, i) && s' == s.(proc := t[i := Killed(t[i])]) {
        Stirs(t, s'.proc, s.nextpid, s.returned, i);
      }
  }

  lemma WaitKeeps(s: Table, q: int, s': Table)
    requires Good(s) && Next(s, DoWait(q), s')
    ensures Good(s') && s.returned <= s'.returned
  {
    var t := s.proc;
    if HasZombie(t, q) {
      var i :| FirstZombie(t, q, i) && s' == Table(Reap(t, q, i), s.nextpid, s.returned + [t[i].pid]);
      ReapKeeps(t, s.nextpid, s.returned, q, i);
    } else {
      Stirs(t, s'.proc, s.nextpid, s.returned, q);
    }
  }

  /** The table as `userinit` leaves it. */
  ghost predicate Booted(s: Table) {
    && |s.proc| > 0 && s.nextpid == 2 && s.returned == []
    && s.proc[INIT] == Proc(Runnable, 1, NOBODY, NoChan, false, Elsewhere)
    && forall i :: 0 < i < |s.proc| ==> s.proc[i] == Proc(ProcState.Unused, 0, NOBODY, NoChan, false, Elsewhere)
  }

  lemma BootedIsGood(s: Table)
    requires Booted(s)
    ensures Good(s)
  {
    forall i | Valid(s.proc, i) ensures SlotOk(s.proc, s.nextpid, i) {
    }
  }

  lemma {:induction false} RunKeeps(ss: seq<Table>, es: seq<Event>, k: nat)
    requires IsRun(ss, es) && Good(ss[0]) && k <= |es|
    ensures Good(ss[k]) && ss[0].returned <= ss[k].returned
  {
    if k > 0 {
      RunKeeps(ss, es, k - 1);
      NextKeeps(ss[k - 1], es[k - 1], ss[k]);
    }
  }

  /** Over every run from boot, of any processes in any order, at every point where the lock is free: everyone in use
      but init has a live parent, no one sleeps in wait with a zombie child, no two slots in use have the same pid, and
      wait has not returned any pid twice. */
  lemma Families(ss: seq<Table>, es: seq<Event>, k: nat)
    requires IsRun(ss, es) && Booted(ss[0]) && k <= |es|
    ensures var t := ss[k].proc;
            && (forall i :: Valid(t, i) && InUse(t[i]) && i != INIT ==> Valid(t, t[i].parent) && Alive(t[t[i].parent]))
            && (forall q, i :: Valid(t, q) && t[q].state == Sleeping && t[q].chan == Process(q) ==> !ZombieOf(t, q, i))
            && (forall i, j :: Valid(t, i) && Valid(t, j) && i != j && InUse(t[i]) && InUse(t[j]) ==>
                t[i].pid != t[j].pid)
    ensures forall a, b :: 0 <= a < b < |ss[k].returned| ==> ss[k].returned[a] != ss[k].returned[b]
  {
    BootedIsGood(ss[0]);
    RunKeeps(ss, es, k);
    var t := ss[k].proc;
    forall i | Valid(t, i) ensures SlotOk(t, ss[k].nextpid, i) {
    }
  }

  // ---- Marks of the killed ---------------------------------------------------------------------------

  /** No free slot is marked as killed, so that no process starts its life killed. */
  ghost predicate Unmarked(t: seq<Proc>) {
    forall i :: Valid(t, i) && t[i].state == Unused ==> !t[i].killed
  }

  /** The two ways to mark a free slot: to kill the pid it still has (0, or that of a failed fork), and to fail to
      fork a process that has been killed while it was built. */
  ghost predicate Marks(t: seq<Proc>, e: Event) {
    || (e.DoKill? && exists i :: FirstNamed(t, e.pid, i) && t[i].state == Unused)
    || (e.DoForkFails? && Forks(t, e.q) && t[t[e.q].place.np].killed)
  }

  lemma UnmarkedIff(s: Table, e: Event, s': Table)
    requires Good(s) && Next(s, e, s') && Unmarked(s.proc)
    ensures Unmarked(s'.proc) <==> !Marks(s.proc, e)
  {
    var t := s.proc;
    match e
    case DoForkFails(q) =>
      assert SlotOk(t, s.nextpid, q);
      var np := t[q].place.np;
      assert s'.proc[np] == t[np].(state := Unused);
    case DoKill(pid) =>
      if i :| FirstNamed(t, pid, i) && s' == s.(proc := t[i := Killed(t[i])]) {
        assert s'.proc[i] == Killed(t[i]);
      }
    case DoWait(q) =>
    case _ =>
  }

  /** Over every run from boot: no free slot is ever marked exactly when neither happens. */
  lemma {:induction false} StartsUnmarked(ss: seq<Table>, es: seq<Event>)
    requires IsRun(ss, es) && Booted(ss[0])
    ensures (forall k :: 0 <= k <= |es| ==> Unmarked(ss[k].proc)) <==>
            (forall k :: 0 <= k < |es| ==> !Marks(ss[k].proc, es[k]))
  {
    hide Next, Marks;
    if forall k :: 0 <= k < |es| ==> !Marks(ss[k].proc, es[k]) {
      for n := 0 to |es|
        invariant forall k :: 0 <= k <= n ==> Unmarked(ss[k].proc)
      {
        BootedIsGood(ss[0]);
        RunKeeps(ss, es, n);
        UnmarkedIff(ss[n], es[n], ss[n + 1]);
      }
    } else {
      var k :| 0 <= k < |es| && Marks(ss[k].proc, es[k]);
      BootedIsGood(ss[0]);
      RunKeeps(ss, es, k);
      if Unmarked(ss[k].proc) {
        UnmarkedIff(ss[k], es[k], ss[k + 1]);
      }
    }
  }

  /** It does happen, whatever the number of slots: init kills pid 0, which a free slot has, and then forks. */
  lemma BornKilled(s: Table) returns (ss: seq<Table>, es: seq<Event>)
    requires Booted(s) && |s.proc| > 1
    ensures es == [DoSchedule(INIT), DoKill(0), DoAlloc(INIT)] && IsRun(ss, es) && ss[0] == s
    ensures |ss[3].proc| == |s.proc| && ss[3].proc[1].state == Embryo && ss[3].proc[1].killed
  {
    var t := s.proc;
    var a := t[INIT := t[INIT].(state := Running)];
    var b := a[1 := Killed(a[1])];
    var c := Started(b, INIT, 1, s.nextpid);
    es := [DoSchedule(INIT), DoKill(0), DoAlloc(INIT)];
    ss := [s, s.(proc := a), s.(proc := b), Table(c, s.nextpid + 1, s.returned)];
    assert FirstNamed(a, 0, 1) && FirstFree(b, 1);
    assert Next(ss[0], es[0], ss[1]) && Next(ss[1], es[1], ss[2]) && Next(ss[2], es[2], ss[3]);
  }

  /** A change of one slot that leaves its family alone. */
  lemma Stirs(t: seq<Proc>, t': seq<Proc>, nextpid: int, returned: seq<int>, q: int)
    requires Inv(t, nextpid, returned) && Valid(t, q) && Stirred(t, t') && t' == t[q := t'[q]] && SleepOk(t', q)
    ensures Inv(t', nextpid, returned)
  {
    forall i | Valid(t', i) ensures SleepOk(t', i) {
      assert SlotOk(t, nextpid, i);
    }
    StirredKeeps(t, t', nextpid, returned);
  }

  lemma WokenKeeps(t: seq<Proc>, t': seq<Proc>, nextpid: int, returned: seq<int>, chan: Chan)
    requires Inv(t, nextpid, returned) && |t'| == |t| && forall i :: Valid(t', i) ==> t'[i] == Woken(t[i], chan)
    ensures Inv(t', nextpid, returned)
  {
    forall i | Valid(t', i) ensures SleepOk(t', i) {
      assert SlotOk(t, nextpid, i);
    }
    StirredKeeps(t, t', nextpid, returned);
  }

  /** Slot k while exit looks at the slots below i: the parent has been woken, and init if a zombie was met. */
  ghost function Passing(t: seq<Proc>, q: int, i: int, k: int): Proc
    requires Valid(t, q) && Valid(t, k)
  {
    var p := Woken(t[k], Process(t[q].parent));
    var r := if MetZombie(t, q, i) then Woken(p, Process(INIT)) else p;
    if k < i && t[k].parent == q then r.(parent := INIT) else r
  }

  ghost predicate MetZombie(t: seq<Proc>, q: int, i: int) {
    exists k :: Valid(t, k) && k < i && t[k].parent == q && t[k].state == Zombie
  }
}
