/** `sleep`, `wakeup`, the scheduler and the locks under them, as steps of any number of processes. A
    process loops on a condition under the lock `lk` and sleeps while it is false; whoever makes it true
    does so under `lk` and calls `wakeup`. Every instruction that touches shared state is a step. */
module SleepWakeup {
  datatype Owner = Nobody | Process(i: nat) | Scheduler

  datatype RunState = Running | Runnable | Sleeping

  /** Where a process is: what it does next. */
  datatype Pc =
    | Idle                    // outside: take lk
    | Test                    // the loop's condition
    | Enter                   // sleep: take ptable.lock
    | Drop                    // sleep: release lk
    | SetChan                 // sleep: set the channel
    | SetState                // sleep: set the state to SLEEPING
    | Switch                  // sched: hand the processor and ptable.lock to the scheduler
    | Off                     // not on any processor
    | Tidy                    // sleep: clear the channel
    | Leave                   // sleep: release ptable.lock
    | Retake                  // sleep: take lk again
    | Body(waited: bool)      // what lk protects, after waiting for the condition or at once
    | Unlock(wake: bool)      // release lk, then call wakeup or not
    | WakeEnter(held: bool)   // wakeup: take ptable.lock, with lk held or not
    | Scan(k: nat, held: bool) // wakeup1: look at slot k
    | WakeLeave(held: bool)   // wakeup: release ptable.lock

  datatype State = State(pc: seq<Pc>, run: seq<RunState>, chan: seq<bool>, lk: Owner, pt: Owner, d: int)

  datatype Step =
    | Begin(p: nat, waits: bool)            // take lk, to wait or to act at once
    | Advance(p: nat)                       // the only thing the process can do
    | Change(p: nat, d: int, wake: bool, first: bool) // in the body: store d; call wakeup or not, with lk held or after
    | Dispatch(p: nat)                      // the scheduler runs a process
    | SchedTake
    | SchedRelease
    | Kill(p: nat)                          // wakes a sleeper for another reason

  predicate HoldsLk(pc: Pc) {
    pc in {Test, Enter, Drop} || pc.Body? || pc.Unlock? || (pc.WakeEnter? && pc.held) || (pc.Scan? && pc.held)
        || (pc.WakeLeave? && pc.held)
  }

  predicate HoldsPt(pc: Pc) {
    pc in {Drop, SetChan, SetState, Switch, Tidy, Leave} || pc.Scan? || pc.WakeLeave?
  }

  predicate TakesLk(pc: Pc) {
    pc == Retake
  }

  predicate TakesPt(pc: Pc) {
    pc == Enter || pc.WakeEnter?
  }

  /** A step can be taken: what it acquires is free. */
  predicate Enabled(s: State, e: Step, cond: int -> bool) {
    match e
    case Begin(p, _) => p < |s.pc| && s.pc[p] == Idle && s.lk == Nobody
    case Advance(p) =>
      && p < |s.pc| && s.pc[p] !in {Idle, Off} && !s.pc[p].Body?
      && (TakesLk(s.pc[p]) ==> s.lk == Nobody) && (TakesPt(s.pc[p]) ==> s.pt == Nobody)
    case Change(p, d, wake, _) => p < |s.pc| && s.pc[p].Body? && (cond(d) && !cond(s.d) ==> wake)
    case Dispatch(p) => p < |s.pc| == |s.run| && s.pt == Scheduler && s.run[p] == Runnable
    case SchedTake => s.pt == Nobody
    case SchedRelease => s.pt == Scheduler
    case Kill(p) => p < |s.pc| == |s.run| && s.pt == Nobody
  }

  function Go(s: State, p: nat, pc: Pc): State
    requires p < |s.pc|
  {
    s.(pc := s.pc[p := pc])
  }

  ghost function Moved(s: State, p: nat, cond: int -> bool): State
    requires p < |s.pc| == |s.run| == |s.chan| && s.pc[p] !in {Idle, Off} && !s.pc[p].Body?
  {
    match s.pc[p]
    case Test => Go(s, p, if cond(s.d) then Body(true) else Enter)
    case Enter => Go(s, p, Drop).(pt := Process(p))
    case Drop => Go(s, p, SetChan).(lk := Nobody)
    case SetChan => Go(s, p, SetState).(chan := s.chan[p := true])
    case SetState => Go(s, p, Switch).(run := s.run[p := Sleeping])
    case Switch => Go(s, p, Off).(pt := Scheduler)
    case Tidy => Go(s, p, Leave).(chan := s.chan[p := false])
    case Leave => Go(s, p, Retake).(pt := Nobody)
    case Retake => Go(s, p, Test).(lk := Process(p))
    case Unlock(wake) => Go(s, p, if wake then WakeEnter(false) else Idle).(lk := Nobody)
    case WakeEnter(held) => Go(s, p, Scan(0, held)).(pt := Process(p))
    case Scan(k, held) =>
      if k >= |s.run| then Go(s, p, WakeLeave(held))
      else if s.run[k] == Sleeping && s.chan[k] then Go(s, p, Scan(k + 1, held)).(run := s.run[k := Runnable])
      else Go(s, p, Scan(k + 1, held))
    case WakeLeave(held) => Go(s, p, if held then Unlock(false) else Idle).(pt := Nobody)
  }

  ghost function Next(s: State, e: Step, cond: int -> bool): State
    requires Enabled(s, e, cond) && |s.pc| == |s.run| == |s.chan|
  {
    match e
    case Begin(p, waits) => Go(s, p, if waits then Test else Body(false)).(lk := Process(p))
    case Advance(p) => Moved(s, p, cond)
    case Change(p, d, wake, first) => Go(s, p, if wake && first then WakeEnter(true) else Unlock(wake)).(d := d)
    case Dispatch(p) => Go(s, p, Tidy).(run := s.run[p := Running], pt := Process(p))
    case SchedTake => s.(pt := Scheduler)
    case SchedRelease => s.(pt := Nobody)
    case Kill(p) => if s.run[p] == Sleeping then s.(run := s.run[p := Runnable]) else s
  }

  ghost predicate Initial(s: State) {
    && |s.pc| == |s.run| == |s.chan| && s.lk == Nobody && s.pt == Nobody
    && forall p :: 0 <= p < |s.pc| ==> s.pc[p] == Idle && s.run[p] == Running && !s.chan[p]
  }

  // ---- What every step keeps -----------------------------------------------------------------------

  /** The process has decided to sleep, or sleeps. */
  predicate Asleep(pc: Pc, run: RunState) {
    pc in {SetChan, SetState, Switch} || (pc == Off && run == Sleeping)
  }

  /** A wakeup by a process at pc will still look at slot w. */
  predicate Owes(pc: Pc, w: nat) {
    pc == Unlock(true) || pc.WakeEnter? || (pc.Scan? && pc.k <= w)
  }

  ghost predicate Owed(s: State, w: nat) {
    exists p :: 0 <= p < |s.pc| && Owes(s.pc[p], w)
  }

  ghost predicate LocalOk(s: State, p: nat, cond: int -> bool)
    requires p < |s.pc| == |s.run| == |s.chan|
  {
    var pc := s.pc[p];
    && (s.lk == Process(p) <==> HoldsLk(pc)) && (s.pt == Process(p) <==> HoldsPt(pc))
    && (s.run[p] == Running <==> pc !in {Switch, Off}) && (pc == Switch ==> s.run[p] == Sleeping)
    && (s.chan[p] <==> pc in {SetState, Switch, Off, Tidy})
    && (pc in {Enter, Drop} ==> !cond(s.d)) && (pc == Body(true) ==> cond(s.d))
  }

  ghost predicate NoLostWakeup(s: State, cond: int -> bool)
    requires |s.pc| == |s.run|
  {
    cond(s.d) ==> forall w: nat :: w < |s.pc| && Asleep(s.pc[w], s.run[w]) ==> Owed(s, w)
  }

  ghost predicate Inv(s: State, cond: int -> bool) {
    && |s.pc| == |s.run| == |s.chan| && s.lk != Scheduler
    && (forall p: nat :: p < |s.pc| ==> LocalOk(s, p, cond))
    && (s.lk.Process? ==> s.lk.i < |s.pc|) && (s.pt.Process? ==> s.pt.i < |s.pc|)
    && NoLostWakeup(s, cond)
  }

  /** A wakeup that is still owed after a step of p: by p itself, or by whoever owed it before. */
  lemma StillOwed(s: State, s': State, p: nat, w: nat)
    requires |s.pc| == |s'.pc| && p < |s.pc| && Owed(s, w)
    requires forall q :: 0 <= q < |s.pc| && q != p ==> s'.pc[q] == s.pc[q]
    requires Owes(s.pc[p], w) ==> Owes(s'.pc[p], w)
    ensures Owed(s', w)
  {
  }

  lemma AdvanceSelf(s: State, p: nat, cond: int -> bool)
    requires |s.pc| == |s.run| == |s.chan| && Enabled(s, Advance(p), cond) && LocalOk(s, p, cond)
    ensures LocalOk(Moved(s, p, cond), p, cond)
  {
  }

  lemma AdvanceOther(s: State, p: nat, q: nat, cond: int -> bool)
    requires |s.pc| == |s.run| == |s.chan| && Enabled(s, Advance(p), cond) && q < |s.pc| && q != p
    requires LocalOk(s, p, cond) && LocalOk(s, q, cond)
    ensures LocalOk(Moved(s, p, cond), q, cond)
  {
  }

  lemma AdvanceOwed(s: State, p: nat, w: nat, cond: int -> bool)
    requires Inv(s, cond) && Enabled(s, Advance(p), cond) && cond(s.d) && w < |s.pc|
    ensures var s' := Moved(s, p, cond); Asleep(s'.pc[w], s'.run[w]) ==> Owed(s', w)
  {
    hide Owed;
    var s' := Moved(s, p, cond);
    assert LocalOk(s, w, cond) && LocalOk(s, p, cond);
    if Asleep(s'.pc[w], s'.run[w]) {
      assert Asleep(s.pc[w], s.run[w]);
      StillOwed(s, s', p, w);
    }
  }

  lemma AdvanceKeeps(s: State, p: nat, cond: int -> bool)
    requires Inv(s, cond) && Enabled(s, Advance(p), cond)
    ensures Inv(Moved(s, p, cond), cond)
  {
    hide LocalOk, Owed, Asleep;
    var s' := Moved(s, p, cond);
    forall q: nat | q < |s.pc| ensures LocalOk(s', q, cond) {
      if q == p {
        AdvanceSelf(s, p, cond);
      } else {
        AdvanceOther(s, p, q, cond);
      }
    }
    forall w: nat | cond(s.d) && w < |s.pc| ensures Asleep(s'.pc[w], s'.run[w]) ==> Owed(s', w) {
      AdvanceOwed(s, p, w, cond);
    }
  }

  lemma ChangeKeeps(s: State, e: Step, cond: int -> bool)
    requires e.Change? && Inv(s, cond) && Enabled(s, e, cond)
    ensures Inv(Next(s, e, cond), cond)
  {
    var s', p := Next(s, e, cond), e.p;
    forall q: nat | q < |s.pc| ensures LocalOk(s', q, cond) {
      assert LocalOk(s, q, cond) && LocalOk(s, p, cond);
    }
    if cond(s'.d) {
      forall w: nat | w < |s'.pc| && Asleep(s'.pc[w], s'.run[w]) ensures Owed(s', w) {
        assert LocalOk(s, p, cond);
        if cond(s.d) {
          StillOwed(s, s', p, w);
        } else {
          assert Owes(s'.pc[p], w);
        }
      }
    }
  }

  lemma OtherKeeps(s: State, e: Step, cond: int -> bool)
    requires !e.Change? && !e.Advance? && Inv(s, cond) && Enabled(s, e, cond)
    ensures Inv(Next(s, e, cond), cond)
  {
    var s' := Next(s, e, cond);
    var p := if e.SchedTake? || e.SchedRelease? then 0 else e.p;
    forall q: nat | q < |s.pc| ensures LocalOk(s', q, cond) {
      assert LocalOk(s, q, cond);
    }
    if cond(s'.d) {
      forall w: nat | w < |s'.pc| && Asleep(s'.pc[w], s'.run[w]) ensures Owed(s', w) {
        assert LocalOk(s, w, cond) && LocalOk(s, p, cond);
        StillOwed(s, s', p, w);
      }
    }
  }

  // ---- Runs ------------------------------------------------------------------------------------------

  /** The states that any sequence of steps leads to. */
  ghost predicate Reaches(s: State, es: seq<Step>, t: State, cond: int -> bool)
    decreases |es|
  {
    if es == [] then s == t
    else |s.pc| == |s.run| == |s.chan| && Enabled(s, es[0], cond) && Reaches(Next(s, es[0], cond), es[1..], t, cond)
  }

  lemma {:induction false} RunKeeps(s: State, es: seq<Step>, t: State, cond: int -> bool)
    requires Inv(s, cond) && Reaches(s, es, t, cond)
    ensures Inv(t, cond)
    decreases |es|
  {
    if es != [] {
      var e := es[0];
      if e.Advance? {
        AdvanceKeeps(s, e.p, cond);
      } else if e.Change? {
        ChangeKeeps(s, e, cond);
      } else {
        OtherKeeps(s, e, cond);
      }
      RunKeeps(Next(s, e, cond), es[1..], t, cond);
    }
  }

  /** No lost wakeup: in every state of every run, of any number of processes and for any condition, a
      process that sleeps while the condition holds is owed a wakeup by a process that has yet to do it. */
  lemma NoLostWakeups(s: State, es: seq<Step>, t: State, cond: int -> bool)
    requires Initial(s) && Reaches(s, es, t, cond)
    ensures |t.pc| == |t.run| && NoLostWakeup(t, cond)
  {
    assert forall p: nat :: p < |s.pc| ==> LocalOk(s, p, cond);
    RunKeeps(s, es, t, cond);
  }

  /** When everyone has come to rest, idle or asleep, no one sleeps while the condition holds. */
  lemma AtRest(s: State, es: seq<Step>, t: State, cond: int -> bool, w: nat)
    requires Initial(s) && Reaches(s, es, t, cond) && w < |t.pc|
    requires forall p: nat :: p < |t.pc| ==>
             t.pc[p] == Idle || (t.pc[p] == Off && |t.run| == |t.pc| && t.run[p] == Sleeping)
    ensures t.pc[w] == Off ==> !cond(t.d)
  {
    NoLostWakeups(s, es, t, cond);
    assert !Owed(t, w);
    assert t.pc[w] == Off ==> Asleep(t.pc[w], t.run[w]);
  }

  /** At most one process is between taking and releasing each lock, and `sched` is entered with
      ptable.lock only: the panics of acquire, release and sched cannot happen. */
  lemma LockDiscipline(s: State, es: seq<Step>, t: State, cond: int -> bool, p: nat, q: nat)
    requires Initial(s) && Reaches(s, es, t, cond) && p < |t.pc| && q < |t.pc|
    ensures HoldsLk(t.pc[p]) && HoldsLk(t.pc[q]) ==> p == q
    ensures HoldsPt(t.pc[p]) && HoldsPt(t.pc[q]) ==> p == q
    ensures TakesLk(t.pc[p]) ==> t.lk != Process(p)
    ensures TakesPt(t.pc[p]) ==> t.pt != Process(p)
    ensures HoldsLk(t.pc[p]) ==> t.lk == Process(p)
    ensures HoldsPt(t.pc[p]) ==> t.pt == Process(p)
    ensures t.pc[p] == Switch ==> t.lk != Process(p) && p < |t.run| && t.run[p] != Running
  {
    assert forall p: nat :: p < |s.pc| ==> LocalOk(s, p, cond);
    RunKeeps(s, es, t, cond);
    assert LocalOk(t, p, cond) && LocalOk(t, q, cond);
  }

  // ---- Whoever waits gets the condition ------------------------------------------------------------

  /** How process p last began: to wait or to act at once, or as w says if it has not begun in these steps. */
  ghost function Began(es: seq<Step>, p: nat, w: bool): bool {
    if es == [] then w else Began(es[1..], p, if es[0].Begin? && es[0].p == p then es[0].waits else w)
  }

  /** The process is where one that began so can be. */
  ghost predicate Came(pc: Pc, waits: bool) {
    && (pc in {Test, Enter, Drop, SetChan, SetState, Switch, Off, Tidy, Leave, Retake} || pc == Body(true) ==> waits)
    && (pc == Body(false) ==> !waits)
  }

  lemma CameNext(s: State, e: Step, cond: int -> bool, p: nat, w: bool)
    requires Inv(s, cond) && Enabled(s, e, cond) && p < |s.pc| && Came(s.pc[p], w)
    ensures Came(Next(s, e, cond).pc[p], if e.Begin? && e.p == p then e.waits else w)
  {
    assert LocalOk(s, p, cond);
  }

  lemma {:induction false} CameRun(s: State, es: seq<Step>, t: State, cond: int -> bool, p: nat, w: bool)
    requires Inv(s, cond) && Reaches(s, es, t, cond) && p < |s.pc| && Came(s.pc[p], w)
    ensures p < |t.pc| && Came(t.pc[p], Began(es, p, w))
    decreases |es|
  {
    if es != [] {
      var m := Next(s, es[0], cond);
      CameNext(s, es[0], cond, p, w);
      assert Reaches(s, es[..1], m, cond);
      RunKeeps(s, es[..1], m, cond);
      CameRun(m, es[1..], t, cond, p, if es[0].Begin? && es[0].p == p then es[0].waits else w);
    }
  }

  /** In every state of every run, a process that last began by waiting and has got to its body has its condition. */
  lemma WaitersHaveIt(s: State, es: seq<Step>, t: State, cond: int -> bool, p: nat)
    requires Initial(s) && Reaches(s, es, t, cond) && p < |t.pc| == |s.pc|
    ensures Began(es, p, false) && t.pc[p].Body? ==> cond(t.d)
  {
    assert forall p: nat :: p < |s.pc| ==> LocalOk(s, p, cond);
    RunKeeps(s, es, t, cond);
    CameRun(s, es, t, cond, p, false);
    assert LocalOk(t, p, cond);
  }

  // ---- A waiter sleeps and is woken ----------------------------------------------------------------

  lemma {:induction false} OneMore(s: State, es: seq<Step>, t: State, e: Step, cond: int -> bool)
    requires Reaches(s, es, t, cond) && |t.pc| == |t.run| == |t.chan| && Enabled(t, e, cond)
    ensures Reaches(s, es + [e], Next(t, e, cond), cond)
    decreases |es|
  {
    if es == [] {
      assert (es + [e])[1..] == [];
    } else {
      OneMore(Next(s, es[0], cond), es[1..], t, e, cond);
      assert (es + [e])[1..] == es[1..] + [e];
    }
  }

  lemma {:induction false} BeganMore(es: seq<Step>, e: Step, p: nat, w: bool)
    ensures Began(es + [e], p, w) == if e.Begin? && e.p == p then e.waits else Began(es, p, w)
  {
    if es == [] {
      assert (es + [e])[1..] == [];
    } else {
      BeganMore(es[1..], e, p, if es[0].Begin? && es[0].p == p then es[0].waits else w);
      assert (es + [e])[1..] == es[1..] + [e];
    }
  }

  /** Process 0 is at pc, and process 1 is at other. */
  function Two(pc: Pc, other: Pc, run: RunState, chan: bool, lk: Owner, pt: Owner, d: int): State {
    State([pc, other], [run, Running], [chan, false], lk, pt, d)
  }

  ghost predicate Same(s: State, t: State) {
    && |s.pc| == |s.run| == |s.chan| == 2 == |t.pc| == |t.run| == |t.chan| && s.lk == t.lk && s.pt == t.pt && s.d == t.d
    && s.pc[0] == t.pc[0] && s.run[0] == t.run[0] && s.chan[0] == t.chan[0]
    && s.pc[1] == t.pc[1] && s.run[1] == t.run[1] && s.chan[1] == t.chan[1]
  }

  lemma Do(s: State, es: seq<Step>, t: State, e: Step, t': State, cond: int -> bool) returns (more: seq<Step>)
    requires Reaches(s, es, t, cond) && |t.pc| == |t.run| == |t.chan| && Enabled(t, e, cond)
             && Same(Next(t, e, cond), t')
    ensures Reaches(s, more, t', cond)
    ensures Began(more, 0, false) == if e.Begin? && e.p == 0 then e.waits else Began(es, 0, false)
  {
    OneMore(s, es, t, e, cond);
    BeganMore(es, e, 0, false);
    var n := Next(t, e, cond);
    assert n.pc == t'.pc && n.run == t'.run && n.chan == t'.chan;
    more := es + [e];
  }

  /** With its condition false, a waiter takes the table's lock before it gives up its own, */
  lemma Decides(d: int, cond: int -> bool) returns (es: seq<Step>)
    requires !cond(d)
    ensures Reaches(Two(Idle, Idle, Running, false, Nobody, Nobody, d), es,
                    Two(SetChan, Idle, Running, false, Nobody, Process(0), d), cond)
    ensures Began(es, 0, false)
  {
    hide Reaches, Began;
    var a, me := Advance(0), Process(0);
    var s := Two(Idle, Idle, Running, false, Nobody, Nobody, d);
    ReachesItself(s, cond);
    var s1, s2 := Two(Test, Idle, Running, false, me, Nobody, d), Two(Enter, Idle, Running, false, me, Nobody, d);
    es := Do(s, [], s, Begin(0, true), s1, cond);
    es := Do(s, es, s1, a, s2, cond);
    var s3, s4 := Two(Drop, Idle, Running, false, me, me, d), Two(SetChan, Idle, Running, false, Nobody, me, d);
    es := Do(s, es, s2, a, s3, cond);
    es := Do(s, es, s3, a, s4, cond);
  }

  /** and goes to sleep: it is on no processor, and holds no lock. */
  lemma FallsAsleep(d: int, cond: int -> bool) returns (es: seq<Step>)
    requires !cond(d)
    ensures Reaches(Two(Idle, Idle, Running, false, Nobody, Nobody, d), es,
                    Two(Off, Idle, Sleeping, true, Nobody, Nobody, d), cond)
    ensures Began(es, 0, false)
  {
    hide Reaches, Began;
    var a, me := Advance(0), Process(0);
    var s, s4 := Two(Idle, Idle, Running, false, Nobody, Nobody, d), Two(SetChan, Idle, Running, false, Nobody, me, d);
    es := Decides(d, cond);
    var s5, s6 := Two(SetState, Idle, Running, true, Nobody, me, d), Two(Switch, Idle, Sleeping, true, Nobody, me, d);
    es := Do(s, es, s4, a, s5, cond);
    es := Do(s, es, s5, a, s6, cond);
    var s7 := Two(Off, Idle, Sleeping, true, Nobody, Scheduler, d);
    es := Do(s, es, s6, a, s7, cond);
    es := Do(s, es, s7, SchedRelease, s7.(pt := Nobody), cond);
  }

  lemma ReachesItself(s: State, cond: int -> bool)
    ensures Reaches(s, [], s, cond)
  {
  }

  /** Then another makes the condition true and calls wakeup, */
  lemma Calls(s: State, before: seq<Step>, d: int, cond: int -> bool) returns (es: seq<Step>)
    requires cond(d) && !cond(s.d) && Reaches(s, before, Two(Off, Idle, Sleeping, true, Nobody, Nobody, s.d), cond)
    ensures Reaches(s, es, Two(Off, Scan(0, false), Sleeping, true, Nobody, Process(1), d), cond)
    ensures Began(es, 0, false) == Began(before, 0, false)
  {
    hide Reaches, Began;
    var a, it := Advance(1), Process(1);
    var s0 := Two(Off, Idle, Sleeping, true, Nobody, Nobody, s.d);
    var s1 := Two(Off, Body(false), Sleeping, true, it, Nobody, s.d);
    es := Do(s, before, s0, Begin(1, false), s1, cond);
    var s2 := Two(Off, Unlock(true), Sleeping, true, it, Nobody, d);
    var s3 := Two(Off, WakeEnter(false), Sleeping, true, Nobody, Nobody, d);
    es := Do(s, es, s1, Change(1, d, true, false), s2, cond);
    es := Do(s, es, s2, a, s3, cond);
    es := Do(s, es, s3, a, Two(Off, Scan(0, false), Sleeping, true, Nobody, it, d), cond);
  }

  /** which makes the sleeper runnable. */
  lemma IsWoken(s: State, before: seq<Step>, d: int, cond: int -> bool) returns (es: seq<Step>)
    requires cond(d) && Reaches(s, before, Two(Off, Scan(0, false), Sleeping, true, Nobody, Process(1), d), cond)
    ensures Reaches(s, es, Two(Off, Idle, Runnable, true, Nobody, Nobody, d), cond)
    ensures Began(es, 0, false) == Began(before, 0, false)
  {
    hide Reaches, Began;
    var a, it := Advance(1), Process(1);
    var s4 := Two(Off, Scan(0, false), Sleeping, true, Nobody, it, d);
    var s5 := Two(Off, Scan(1, false), Runnable, true, Nobody, it, d);
    es := Do(s, before, s4, a, s5, cond);
    var s6 := Two(Off, Scan(2, false), Runnable, true, Nobody, it, d);
    var s7 := Two(Off, WakeLeave(false), Runnable, true, Nobody, it, d);
    es := Do(s, es, s5, a, s6, cond);
    es := Do(s, es, s6, a, s7, cond);
    es := Do(s, es, s7, a, Two(Off, Idle, Runnable, true, Nobody, Nobody, d), cond);
  }

  /** And the scheduler lets it go on to its body. */
  lemma GoesOn(s: State, before: seq<Step>, d: int, cond: int -> bool) returns (es: seq<Step>)
    requires cond(d) && Reaches(s, before, Two(Off, Idle, Runnable, true, Nobody, Nobody, d), cond)
    ensures Reaches(s, es, Two(Body(true), Idle, Running, false, Process(0), Nobody, d), cond)
    ensures Began(es, 0, false) == Began(before, 0, false)
  {
    hide Reaches, Began;
    var a, me := Advance(0), Process(0);
    var s0, s1 := Two(Off, Idle, Runnable, true, Nobody, Nobody, d),
        Two(Off, Idle, Runnable, true, Nobody, Scheduler, d);
    es := Do(s, before, s0, SchedTake, s1, cond);
    var s2, s3 := Two(Tidy, Idle, Running, true, Nobody, me, d), Two(Leave, Idle, Running, false, Nobody, me, d);
    es := Do(s, es, s1, Dispatch(0), s2, cond);
    es := Do(s, es, s2, a, s3, cond);
    var s4, s5 := Two(Retake, Idle, Running, false, Nobody, Nobody, d), Two(Test, Idle, Running, false, me, Nobody, d);
    es := Do(s, es, s3, a, s4, cond);
    es := Do(s, es, s4, a, s5, cond);
    es := Do(s, es, s5, a, Two(Body(true), Idle, Running, false, me, Nobody, d), cond);
  }

  /** Process 0 has come to wait, and sleeps. */
  ghost predicate IsAsleep(es: seq<Step>, t: State, d: int) {
    Began(es, 0, false) && t.d == d && |t.pc| == |t.run| == 2 && t.pc[0] == Off && t.run[0] == Sleeping
  }

  /** It has come to wait, and is in its critical section. */
  ghost predicate AtWork(es: seq<Step>, t: State, d: int) {
    Began(es, 0, false) && t.d == d && |t.pc| == |t.run| == 2 && t.pc[0].Body? && t.run[0] == Running
  }

  /** Sleep and wakeup do what they are for: whatever the condition, there is a run in which a waiter sleeps while it is
      false, another makes it true, and the waiter goes on to its body. */
  lemma WaiterGoesOn(d0: int, d1: int, cond: int -> bool)
      returns (s: State, es: seq<Step>, t: State, more: seq<Step>, u: State)
    requires !cond(d0) && cond(d1)
    ensures Initial(s) && |s.pc| == 2 && s.d == d0
    ensures Reaches(s, es, t, cond) && IsAsleep(es, t, d0)
    ensures Reaches(s, more, u, cond) && AtWork(more, u, d1)
  {
    hide Reaches, Began;
    s := Two(Idle, Idle, Running, false, Nobody, Nobody, d0);
    es := FallsAsleep(d0, cond);
    t := Two(Off, Idle, Sleeping, true, Nobody, Nobody, d0);
    more := Calls(s, es, d1, cond);
    more := IsWoken(s, more, d1, cond);
    more := GoesOn(s, more, d1, cond);
    u := Two(Body(true), Idle, Running, false, Process(0), Nobody, d1);
  }
}
