/** `fork` with copy-on-write, its page faults, and the memory that processes see. */
module Cow {
  import opened Bytes
  import opened Finite
  import opened CowSpec

  /** `enum sharedmemorylevel` */
  datatype Level = Directory | Table | Frame | Nothing

  /** Process i is not the current one, is not a zombie, and shares something with it at page v. */
  predicate SharesWith(proc: seq<Proc>, dirs: map<nat, Pde>, tables: map<nat, seq<Pte>>, me: nat, v: nat, i: nat)
    requires me < |proc| && i < |proc|
  {
    && !proc[i].state.Zombie? && i != me
    && (proc[i].pgdir == proc[me].pgdir || SamePde(dirs, proc[i], proc[me])
        || Entry(dirs, tables, proc[i].pgdir, v) == Entry(dirs, tables, proc[me].pgdir, v))
  }

  predicate SamePde(dirs: map<nat, Pde>, p: Proc, q: Proc) {
    p.pgdir in dirs && q.pgdir in dirs && dirs[p.pgdir] == dirs[q.pgdir]
  }

  function LevelOf(dirs: map<nat, Pde>, p: Proc, me: Proc): Level {
    if p.pgdir == me.pgdir then Directory else if SamePde(dirs, p, me) then Table else Frame
  }

  /** Slots are scanned up to the first one with pid 0. */
  ghost predicate Scanned(proc: seq<Proc>, i: nat) {
    i < |proc| && forall j :: 0 <= j <= i ==> proc[j].pid != 0
  }

  class Kernel {
    var proc: seq<Proc>
    var dirs: map<nat, Pde>
    var tables: map<nat, seq<Pte>>
    var pages: map<nat, seq<byte>>
    var free: seq<nat> // the free list of kalloc
    var nextpid: nat
    ghost var mem: seq<seq<seq<byte>>> // what each process would see if fork copied everything

    /** A first process with private, writable memory. */
    constructor (slots: nat, sz: nat, table: seq<Pte>, contents: map<nat, seq<byte>>, pool: seq<nat>)
      requires slots > 0 && PGSIZE <= sz <= MAXSZ && |table| == NPTENTRIES && |pool| >= 2 && Distinct(pool)
      requires forall v: nat :: v < NPTENTRIES ==> (table[v].present <==> v < Pages(sz))
      requires forall v: nat :: v < Pages(sz) ==> table[v].frame in contents && |contents[table[v].frame]| == PGSIZE
      requires forall v: nat, w: nat :: v < w < Pages(sz) ==> table[v].frame != table[w].frame
      requires forall f :: f in pool ==> f !in contents
      ensures Valid()
      ensures |proc| == slots && IsLive(proc, 0) && proc[0].sz == sz
              && forall i :: 0 < i < |proc| ==> proc[i].state.Unused?
      ensures free == pool[2..] && forall v: nat :: v < NPTENTRIES ==> Entry(dirs, tables, proc[0].pgdir, v) == table[v]
      ensures |mem| == slots && |mem[0]| == Pages(sz)
              && forall v: nat :: v < Pages(sz) ==> mem[0][v] == contents[table[v].frame]
    {
      proc := [Proc(1, Live, pool[0], sz)] + seq(slots - 1, _ => Proc(0, Unused, 0, 0));
      dirs, tables, pages, free := map[pool[0] := Pde(pool[1], true)], map[pool[1] := table], contents, pool[2..];
      nextpid := 2;
      mem := [seq(Pages(sz), v requires 0 <= v < Pages(sz) => contents[table[v].frame])] + seq(slots - 1, _ => []);
      new;
      assert forall v: nat :: v < NPTENTRIES ==> Entry(dirs, tables, pool[0], v) == table[v];
      assert forall f :: f in pool[2..] ==> f in pool && f != pool[0] && f != pool[1];
      assert forall i :: IsLive(proc, i) ==> i == 0;
      assert Mapped(proc[0], dirs, tables, pages);
    }

    /** Between operations: everyone's memory is what a full copy would have given them, and the used
        slots are packed. */
    ghost predicate Valid()
      reads this
    {
      && Packed(proc) && Inv(proc, dirs, tables, pages, free) && Sees(proc, dirs, tables, pages, mem)
      && (forall i :: IsLive(proc, i) ==> proc[i].pgdir in dirs && dirs[proc[i].pgdir].write)
      && nextpid > 0
    }

    ghost function Now(): Space
      reads this
    {
      Space(tables, pages, free)
    }

    /** `isshared`: the first scanned slot that shares something decides. A slot after one with pid 0 is
        never looked at, whatever it shares. */
    method IsShared(me: nat, v: nat) returns (level: Level)
      requires me < |proc|
      ensures level == Nothing <==> forall i: nat :: Scanned(proc, i) ==> !SharesWith(proc, dirs, tables, me, v, i)
      ensures level != Nothing ==>
                exists i: nat :: Scanned(proc, i) && SharesWith(proc, dirs, tables, me, v, i)
                    && level == LevelOf(dirs, proc[i], proc[me])
    {
      var p := 0;
      while p < |proc| && proc[p].pid != 0
        invariant 0 <= p <= |proc|
        invariant forall j :: 0 <= j < p ==> proc[j].pid != 0 && !SharesWith(proc, dirs, tables, me, v, j)
      {
        if !(proc[p].state.Zombie? || p == me) {
          assert Scanned(proc, p);
          if proc[me].pgdir == proc[p].pgdir {
            return Directory;
          }
          if SamePde(dirs, proc[p], proc[me]) {
            return Table;
          }
          if Entry(dirs, tables, proc[me].pgdir, v) == Entry(dirs, tables, proc[p].pgdir, v) {
            return Frame;
          }
        }
        p := p + 1;
      }
      return Nothing;
    }

    /** With pid 0 on the free slots and nowhere else, the scan finds frames and never a directory or a table. */
    method FindSharer(me: nat, v: nat) returns (level: Level)
      requires Numbered(proc) && Inv(proc, dirs, tables, pages, free) && IsLive(proc, me)
      ensures level == if Found(proc, dirs, tables, me, v) then Frame else Nothing
    {
      level := IsShared(me, v);
      forall i: nat | Scanned(proc, i) && SharesWith(proc, dirs, tables, me, v, i) ensures IsLive(proc, i) && i != me {
      }
      assert forall j :: IsLive(proc, j) && j != me ==> LevelOf(dirs, proc[j], proc[me]) == Frame by {
        forall j | IsLive(proc, j) && j != me ensures LevelOf(dirs, proc[j], proc[me]) == Frame {
          assert Mapped(proc[j], dirs, tables, pages) && Mapped(proc[me], dirs, tables, pages);
        }
      }
    }

    /** `setptew` */
    method SetPteW(me: nat, v: nat)
      requires me < |proc| && proc[me].pgdir in dirs && dirs[proc[me].pgdir].table in tables
               && v < |tables[dirs[proc[me].pgdir].table]|
      modifies this`tables
      ensures tables == SetEntry(dirs, old(tables), proc[me], v,
                                 old(Entry(dirs, tables, proc[me].pgdir, v)).(write := true))
    {
      tables := SetEntry(dirs, tables, proc[me], v, Entry(dirs, tables, proc[me].pgdir, v).(write := true));
    }

    /** Copy the frame of page v and map the copy. */
    method CopyFrame(me: nat, v: nat)
      requires me < |proc| && Mapped(proc[me], dirs, tables, pages) && v < NPTENTRIES && free != []
      modifies this`tables, this`pages, this`free
      ensures Now() == Copied(proc[me], dirs, old(Now()), v)
    {
      var f := free[0];
      free := free[1..];
      pages := pages[f := PageContents(dirs, tables, pages, proc[me].pgdir, v)];
      tables := SetEntry(dirs, tables, proc[me], v, Pte(f, true, true, true));
    }

    /** `copypage` for a fault on page v, whether or not there are free slots between the used ones: a copy if the
        scan finds a sharer, and otherwise only the write bit. The panics for a shared directory and the copying of a
        shared table are not reached. */
    method CopyPage(me: nat, v: nat)
      requires Numbered(proc) && Inv(proc, dirs, tables, pages, free) && IsLive(proc, me) && v < Pages(proc[me].sz)
               && free != []
      modifies this`tables, this`pages, this`free
      ensures Mapped(proc[me], dirs, old(tables), old(pages)) && v < NPTENTRIES
              && Now() == Serviced(proc, dirs, old(Now()), me, v)
    {
      assert Mapped(proc[me], dirs, tables, pages);
      var level := FindSharer(me, v);
      match level
      case Directory => assert false;
      case Table => assert false;
      case Frame =>
        CopyFrame(me, v);
        ghost var copied := tables[dirs[proc[me].pgdir].table];
        SetPteW(me, v);
        assert copied[v := copied[v]] == copied;
      case Nothing =>
        SetPteW(me, v);
    }

    /** A store by process `me`. If the page is not writable, or not the user's, the hardware faults, the kernel
        services the fault, and the store is tried again. The process sees its store and no other process does. A store
        to a page that is not the user's, a guard page, faults for ever, unless another process shares the page: then
        the service of the fault makes it the user's. */
    method Store(me: nat, v: nat, o: nat, b: byte) returns (done: bool)
      requires Valid() && IsLive(proc, me) && v < Pages(proc[me].sz) && o < PGSIZE && free != []
      modifies this`tables, this`pages, this`free, this`mem
      ensures Valid() && |free| >= |old(free)| - 1
      ensures done <==> old(Entry(dirs, tables, proc[me].pgdir, v).user || HasSharer(proc, dirs, tables, me, v))
      ensures UserBits(proc, dirs, old(tables), tables, me, v, done)
      ensures me < |old(mem)| && v < |old(mem)[me]| && |old(mem)[me][v]| == PGSIZE
      ensures mem == if done then old(mem)[me := old(mem)[me][v := SetByte(old(mem)[me][v], o, b)]] else old(mem)
    {
      ghost var e := Entry(dirs, tables, proc[me].pgdir, v);
      assert SeesPage(proc[me].pgdir, dirs, tables, pages, mem[me], v) && Mapped(proc[me], dirs, tables, pages);
      assert dirs[proc[me].pgdir].write;
      if !Entry(dirs, tables, proc[me].pgdir, v).write || !Entry(dirs, tables, proc[me].pgdir, v).user {
        ServicedKeeps(proc, dirs, Now(), mem, me, v);
        CopyPage(me, v);
        if !Entry(dirs, tables, proc[me].pgdir, v).user {
          return false;
        }
      }
      Stored(proc, dirs, tables, pages, free, mem, me, v, o, b);
      var f := Entry(dirs, tables, proc[me].pgdir, v).frame;
      pages := pages[f := SetByte(pages[f], o, b)];
      mem := mem[me := mem[me][v := SetByte(mem[me][v], o, b)]];
      return true;
    }

    /** `exit`, as far as memory goes. */
    method Exit(me: nat)
      requires Valid() && IsLive(proc, me)
      modifies this`proc
      ensures Valid() && proc == old(proc)[me := old(proc)[me].(state := Zombie)]
    {
      var proc' := proc[me := proc[me].(state := Zombie)];
      assert forall i :: IsLive(proc', i) ==> IsLive(proc, i) && proc'[i] == proc[i];
      proc := proc';
    }

    /** `allocproc`: the first unused slot, which keeps the used ones packed. */
    method FirstUnused() returns (c: nat)
      requires Packed(proc)
      ensures c <= |proc|
      ensures forall i :: 0 <= i < c ==> !proc[i].state.Unused?
      ensures c < |proc| ==> proc[c].state.Unused?
    {
      c := 0;
      while c < |proc| && !proc[c].state.Unused?
        invariant c <= |proc| && forall i :: 0 <= i < c ==> !proc[i].state.Unused?
      {
        c := c + 1;
      }
    }

    /** The write bits of the first v pages of `me` are clear, the user bits are those of before, and nobody has
        noticed. */
    ghost predicate Clearing(me: nat, v: nat, before: map<nat, seq<Pte>>)
      reads this
    {
      && Packed(proc) && Inv(proc, dirs, tables, pages, free) && Sees(proc, dirs, tables, pages, mem)
      && IsLive(proc, me) && nextpid > 0 && SameUser(proc, dirs, before, tables)
      && (forall i :: IsLive(proc, i) ==> proc[i].pgdir in dirs && (i != me ==> dirs[proc[i].pgdir].write))
      && forall w: nat :: w < v ==> !Entry(dirs, tables, proc[me].pgdir, w).write
    }

    /** `cleardtew` and `clearptew` for one page. */
    method ClearPage(me: nat, v: nat, ghost before: map<nat, seq<Pte>>)
      requires Clearing(me, v, before) && v < Pages(proc[me].sz)
      modifies this`dirs, this`tables
      ensures Clearing(me, v + 1, before)
      ensures forall d: nat, ts, w: nat :: Entry(dirs, ts, d, w) == Entry(old(dirs), ts, d, w)
    {
      PdeFlag(proc, dirs, tables, pages, free, mem, me, false);
      dirs := dirs[proc[me].pgdir := dirs[proc[me].pgdir].(write := false)];
      ghost var e := Entry(dirs, tables, proc[me].pgdir, v).(write := false);
      CowSpec.Cleared(proc, dirs, tables, pages, free, mem, me, v);
      SetsOne(proc, dirs, tables, pages, free, me, v, e);
      tables := SetEntry(dirs, tables, proc[me], v, Entry(dirs, tables, proc[me].pgdir, v).(write := false));
    }

    /** The loop of `fork` that makes every page but the last read-only; it returns the last one. */
    method ClearPages(me: nat) returns (v: nat)
      requires Valid() && IsLive(proc, me)
      modifies this`dirs, this`tables
      ensures Clearing(me, v, old(tables)) && v + 1 == Pages(proc[me].sz)
      ensures forall d: nat, ts, w: nat :: Entry(dirs, ts, d, w) == Entry(old(dirs), ts, d, w)
    {
      v := 0;
      assert PGSIZE <= proc[me].sz by {
        assert Mapped(proc[me], dirs, tables, pages);
      }
      while v * 4096 < proc[me].sz - 4096
        invariant Clearing(me, v, old(tables)) && v < Pages(proc[me].sz)
        invariant forall d: nat, ts, w: nat :: Entry(dirs, ts, d, w) == Entry(old(dirs), ts, d, w)
        decreases Pages(proc[me].sz) - v
      {
        ClearPage(me, v, old(tables));
        v := v + 1;
      }
    }

    /** `copystackpage`, and the rest of `fork`: a directory, a table and a frame for the last page. */
    method MakeChild(me: nat, c: nat, last: nat, ghost before: map<nat, seq<Pte>>)
      requires Clearing(me, last, before) && last + 1 == Pages(proc[me].sz) && |free| >= 3
      requires c < |proc| && proc[c].state.Unused? && forall i :: 0 <= i < c ==> !proc[i].state.Unused?
      modifies this
      ensures Valid() && free == old(free[3..])
      ensures exists d, pid: nat :: pid > 0 && proc == old(proc)[c := Proc(pid, Live, d, old(proc)[me].sz)]
      ensures me < |old(mem)| && c < |old(mem)| && mem == old(mem)[c := old(mem)[me]]
      ensures ChildHas(old(proc), old(dirs), old(tables), proc, dirs, tables, me, c, last, old(free)[2])
    {
      PdeFlag(proc, dirs, tables, pages, free, mem, me, true);
      dirs := dirs[proc[me].pgdir := dirs[proc[me].pgdir].(write := true)];
      Forked(proc, dirs, tables, pages, free, mem, me, c, nextpid, last);
      assert free[0] in free;
      var dir, table, frame := free[0], free[1], free[2];
      var pte := tables[dirs[proc[me].pgdir].table];
      hide Inv, Sees, Mapped, Entry, PageContents;
      pages := pages[frame := PageContents(dirs, tables, pages, proc[me].pgdir, last)];
      dirs := dirs[dir := Pde(table, true)];
      tables := tables[table := ChildTable(pte, last, frame)];
      free := free[3..];
      proc := proc[c := Proc(nextpid, Live, dir, proc[me].sz)];
      nextpid := nextpid + 1;
      mem := mem[c := mem[me]];
    }

    /** `fork` of a process other than the shell and init: the child sees a copy of the parent's memory
        and everyone else sees what they saw. Only the last page is copied; the others are shared, read-only. */
    method Fork(me: nat) returns (c: nat)
      requires Valid() && IsLive(proc, me) && |free| >= 3
      modifies this
      ensures Valid() && c <= |old(proc)| == |proc| && |free| == |old(free)| - (if c == |proc| then 0 else 3)
      ensures c == |proc| ==> proc == old(proc) && mem == old(mem) && dirs == old(dirs) && tables == old(tables)
                              && forall i :: 0 <= i < |proc| ==> !proc[i].state.Unused?
      ensures c < |proc| ==>
                && old(proc)[c].state.Unused? && (forall i :: 0 <= i < c ==> !old(proc)[i].state.Unused?)
                && (exists d, pid: nat :: pid > 0 && proc == old(proc)[c := Proc(pid, Live, d, old(proc)[me].sz)])
                && me < |old(mem)| && c < |old(mem)| && mem == old(mem)[c := old(mem)[me]]
                && ForkBits(old(proc), old(dirs), old(tables), proc, dirs, tables, me, c)
                && forall w: nat :: w + 1 == Pages(old(proc)[me].sz) ==>
                     Entry(dirs, tables, proc[c].pgdir, w) == Pte(old(free)[2], true, true, true)
    {
      c := FirstUnused();
      if c == |proc| {
        return;
      }
      var last := ClearPages(me);
      MakeChild(me, c, last, old(tables));
    }

    /** A user-mode store of one byte, anywhere. */
    method UserStore(i: nat, v: nat, o: nat, b: byte) returns (done: bool)
      requires Valid() && free != [] && IsLive(proc, i)
      modifies this`tables, this`pages, this`free, this`mem
      ensures Valid() && |free| >= |old(free)| - 1 && i < |old(mem)|
      ensures done <==>
                && v < Pages(proc[i].sz) && o < PGSIZE
                && old(Entry(dirs, tables, proc[i].pgdir, v).user || HasSharer(proc, dirs, tables, i, v))
      ensures v < Pages(proc[i].sz) ==> v < |old(mem)[i]| && |old(mem)[i][v]| == PGSIZE
      ensures done ==> mem == old(mem)[i := old(mem)[i][v := SetByte(old(mem)[i][v], o, b)]]
      ensures done ==> |mem| == |old(mem)| && |mem[i]| == |old(mem)[i]| && |mem[i][v]| == PGSIZE && mem[i][v][o] == b
      ensures done ==> forall j, w, x ::
                (0 <= j < |mem| && 0 <= w < |mem[j]| && 0 <= x < |mem[j][w]| && (j, w, x) != (i, v, o)) ==>
                w < |old(mem)[j]| && x < |old(mem)[j][w]| && mem[j][w][x] == old(mem)[j][w][x]
      ensures !done ==> mem == old(mem)
      ensures UserBits(proc, dirs, old(tables), tables, i, v, done)
    {
      assert Mapped(proc[i], dirs, tables, pages);
      assert v < Pages(proc[i].sz) ==> SeesPage(proc[i].pgdir, dirs, tables, pages, mem[i], v);
      if v >= NPTENTRIES || !Entry(dirs, tables, proc[i].pgdir, v).present || o >= PGSIZE {
        return false;
      }
      PresentEntry(proc, dirs, tables, pages, free, i, v);
      done := Store(i, v, o, b);
    }

    /** A load of one byte: what the page table leads to is what the process has stored there, or its forefathers
        before they forked. */
    method Load(i: nat, v: nat, o: nat) returns (b: byte)
      requires Valid() && IsLive(proc, i) && v < Pages(proc[i].sz) && o < PGSIZE
      ensures i < |mem| && v < |mem[i]| && o < |mem[i][v]| && b == mem[i][v][o]
    {
      assert Mapped(proc[i], dirs, tables, pages) && SeesPage(proc[i].pgdir, dirs, tables, pages, mem[i], v);
      var table := tables[dirs[proc[i].pgdir].table];
      b := pages[table[v].frame][o];
    }

    ghost function Whole(): State
      reads this
    {
      State(proc, dirs, tables, pages, mem)
    }

    /** One event: fork, store or exit, if the process is alive. */
    method Perform(e: Event)
      requires Valid() && |free| >= Need(e)
      modifies this
      ensures Valid() && |free| >= |old(free)| - Need(e)
      ensures Stepped(old(Whole()), e, Whole())
    {
      if e.i >= |proc| || !proc[e.i].state.Live? {
        return;
      }
      hide Inv, ForkBits, UserBits;
      match e {
      case DoFork(i) =>
        var c := Fork(i);
        assert Forks(old(Whole()), i, c, Whole());
      case DoStore(i, v, o, b) =>
        var done := UserStore(i, v, o, b);
        assert Stores(old(Whole()), e, done, Whole());
      case DoExit(i) =>
        Exit(i);
      }
    }

    /** Any sequence of forks, stores and exits, by any number of processes; ss are the states passed through, to which
        IndistinguishableIff and PoliteMatches apply. */
    method Run(es: seq<Event>) returns (ghost ss: seq<State>)
      requires Valid() && |free| >= Needs(es)
      modifies this
      ensures Valid() && IsRun(ss, es) && ss[0] == old(Whole()) && ss[|es|] == Whole()
    {
      ss := [Whole()];
      assert es[0..] == es && es[..0] == [];
      for n := 0 to |es|
        invariant Valid() && |free| >= Needs(es[n..])
        invariant IsRun(ss, es[..n]) && ss[0] == old(Whole()) && ss[n] == Whole()
      {
        assert es[n..][1..] == es[n + 1..] && es[..n] + [es[n]] == es[..n + 1];
        hide Inv, Stepped, Sees;
        Perform(es[n]);
        RunMore(ss, es[..n], es[n], Whole());
        ss := ss + [Whole()];
      }
      assert es[..|es|] == es;
    }
  }

  // ---- Servicing a fault -----------------------------------------------------------------------

  /** What a fault can change. */
  datatype Space = Space(tables: map<nat, seq<Pte>>, pages: map<nat, seq<byte>>, free: seq<nat>)

  /** Live process j has the same entry for page v, so the same frame. */
  ghost predicate Sharer(proc: seq<Proc>, dirs: map<nat, Pde>, tables: map<nat, seq<Pte>>, me: nat, v: nat, j: int)
    requires me < |proc|
  {
    IsLive(proc, j) && j != me && Entry(dirs, tables, proc[j].pgdir, v) == Entry(dirs, tables, proc[me].pgdir, v)
  }

  ghost predicate HasSharer(proc: seq<Proc>, dirs: map<nat, Pde>, tables: map<nat, seq<Pte>>, me: nat, v: nat)
    requires me < |proc|
  {
    exists j :: Sharer(proc, dirs, tables, me, v, j)
  }

  /** The scan of `isshared` finds something. */
  ghost predicate Found(proc: seq<Proc>, dirs: map<nat, Pde>, tables: map<nat, seq<Pte>>, me: nat, v: nat)
    requires me < |proc|
  {
    exists i: nat :: Scanned(proc, i) && SharesWith(proc, dirs, tables, me, v, i)
  }

  ghost function Copied(p: Proc, dirs: map<nat, Pde>, s: Space, v: nat): Space
    requires Mapped(p, dirs, s.tables, s.pages) && v < NPTENTRIES && s.free != []
  {
    Space(SetEntry(dirs, s.tables, p, v, Pte(s.free[0], true, true, true)),
          s.pages[s.free[0] := PageContents(dirs, s.tables, s.pages, p.pgdir, v)], s.free[1..])
  }

  ghost function Unlocked(p: Proc, dirs: map<nat, Pde>, s: Space, v: nat): Space
    requires Mapped(p, dirs, s.tables, s.pages) && v < NPTENTRIES
  {
    s.(tables := SetEntry(dirs, s.tables, p, v, Entry(dirs, s.tables, p.pgdir, v).(write := true)))
  }

  ghost function Serviced(proc: seq<Proc>, dirs: map<nat, Pde>, s: Space, me: nat, v: nat): Space
    requires me < |proc| && Mapped(proc[me], dirs, s.tables, s.pages) && v < NPTENTRIES && s.free != []
  {
    if Found(proc, dirs, s.tables, me, v) then Copied(proc[me], dirs, s, v) else Unlocked(proc[me], dirs, s, v)
  }

  /** From one state of the tables to another, every page of every live process is the user's or not as before. */
  ghost predicate SameUser(proc: seq<Proc>, dirs: map<nat, Pde>, tables: map<nat, seq<Pte>>,
                           tables': map<nat, seq<Pte>>)
  {
    forall i, w: nat :: IsLive(proc, i) ==>
        Entry(dirs, tables', proc[i].pgdir, w).user == Entry(dirs, tables, proc[i].pgdir, w).user
  }

  /** The same but for page v of process k, which is the user's if `done`. */
  ghost predicate UserBits(proc: seq<Proc>, dirs: map<nat, Pde>, tables: map<nat, seq<Pte>>,
                           tables': map<nat, seq<Pte>>, k: nat, v: nat, done: bool)
  {
    forall i, w: nat :: IsLive(proc, i) ==>
      Entry(dirs, tables', proc[i].pgdir, w).user ==
          (Entry(dirs, tables, proc[i].pgdir, w).user || (i == k && w == v && done))
  }

  /** After fork: the child has the parent's frames, read-only on both sides, for every page but the last, which is a
      user page of its own. */
  ghost predicate ForkBits(proc: seq<Proc>, dirs: map<nat, Pde>, tables: map<nat, seq<Pte>>,
                           proc': seq<Proc>, dirs': map<nat, Pde>, tables': map<nat, seq<Pte>>, k: nat, c: nat)
    requires k < |proc| == |proc'| && c < |proc|
  {
    && (forall i: nat, w: nat :: IsLive(proc', i) ==> UserAfter(proc, dirs, tables, proc', dirs', tables', k, c, i, w))
    && (forall w: nat :: w + 1 < Pages(proc[k].sz) ==>
          Entry(dirs', tables', proc'[c].pgdir, w) == Entry(dirs', tables', proc'[k].pgdir, w)
              && !Entry(dirs', tables', proc'[k].pgdir, w).write)
  }

  /** Page w of process i is the user's just if it was before, in the parent if i is the child, whose last page always
      is. */
  ghost predicate UserAfter(proc: seq<Proc>, dirs: map<nat, Pde>, tables: map<nat, seq<Pte>>, proc': seq<Proc>,
                            dirs': map<nat, Pde>, tables': map<nat, seq<Pte>>, k: nat, c: nat, i: nat, w: nat)
    requires k < |proc| == |proc'| && i < |proc|
  {
    var was := Entry(dirs, tables, proc[if i == c then k else i].pgdir, w).user;
    Entry(dirs', tables', proc'[i].pgdir, w).user == (was || (i == c && w + 1 == Pages(proc[k].sz)))
  }

  /** With the used slots packed, the scan is exact. */
  lemma PackedFinds(proc: seq<Proc>, dirs: map<nat, Pde>, tables: map<nat, seq<Pte>>, pages: map<nat, seq<byte>>,
                    free: seq<nat>, me: nat, v: nat)
    requires Packed(proc) && Inv(proc, dirs, tables, pages, free) && IsLive(proc, me)
    ensures Found(proc, dirs, tables, me, v) <==> HasSharer(proc, dirs, tables, me, v)
  {
    if j :| Sharer(proc, dirs, tables, me, v, j) {
      assert Scanned(proc, j) && SharesWith(proc, dirs, tables, me, v, j);
    }
    FoundIsSharer(proc, dirs, tables, pages, free, me, v);
  }

  /** What the scan finds is a sharer. */
  lemma FoundIsSharer(proc: seq<Proc>, dirs: map<nat, Pde>, tables: map<nat, seq<Pte>>, pages: map<nat, seq<byte>>,
                      free: seq<nat>, me: nat, v: nat)
    requires Numbered(proc) && Inv(proc, dirs, tables, pages, free) && IsLive(proc, me)
    ensures Found(proc, dirs, tables, me, v) <==>
            exists j: nat :: Scanned(proc, j) && Sharer(proc, dirs, tables, me, v, j)
  {
    if i: nat :| Scanned(proc, i) && SharesWith(proc, dirs, tables, me, v, i) {
      assert IsLive(proc, i);
      assert Mapped(proc[i], dirs, tables, pages) && Mapped(proc[me], dirs, tables, pages);
      assert Sharer(proc, dirs, tables, me, v, i);
    }
    if j: nat :| Scanned(proc, j) && Sharer(proc, dirs, tables, me, v, j) {
      assert SharesWith(proc, dirs, tables, me, v, j);
    }
  }

  /** Copying, and unlocking what no one shares, keep frames safe and memory as it is seen. */
  lemma ServicedRight(proc: seq<Proc>, dirs: map<nat, Pde>, s: Space, mem: seq<seq<seq<byte>>>, me: nat, v: nat)
    requires Inv(proc, dirs, s.tables, s.pages, s.free) && Sees(proc, dirs, s.tables, s.pages, mem)
    requires IsLive(proc, me) && v < Pages(proc[me].sz) && s.free != []
    requires Found(proc, dirs, s.tables, me, v) || !HasSharer(proc, dirs, s.tables, me, v)
    ensures Mapped(proc[me], dirs, s.tables, s.pages) && v < NPTENTRIES
    ensures var s' := Serviced(proc, dirs, s, me, v);
            && Inv(proc, dirs, s'.tables, s'.pages, s'.free) && Sees(proc, dirs, s'.tables, s'.pages, mem)
            && OneEntry(proc, dirs, s.tables, s'.tables, me, v, Entry(dirs, s'.tables, proc[me].pgdir, v))
  {
    assert Mapped(proc[me], dirs, s.tables, s.pages);
    var e := Entry(dirs, s.tables, proc[me].pgdir, v);
    if Found(proc, dirs, s.tables, me, v) {
      Moved(proc, dirs, s.tables, s.pages, s.free, mem, me, v);
      SetsOne(proc, dirs, s.tables, s.pages, s.free, me, v, Pte(s.free[0], true, true, true));
    } else {
      forall j | IsLive(proc, j) && j != me ensures Entry(dirs, s.tables, proc[j].pgdir, v) != e {
        assert !Sharer(proc, dirs, s.tables, me, v, j);
      }
      MadeWritable(proc, dirs, s.tables, s.pages, s.free, mem, me, v);
      SetsOne(proc, dirs, s.tables, s.pages, s.free, me, v, e.(write := true));
    }
  }

  /** So with the used slots packed every fault is serviced rightly, and the page is writable, and the user's if it was
      or if it was shared. */
  lemma ServicedKeeps(proc: seq<Proc>, dirs: map<nat, Pde>, s: Space, mem: seq<seq<seq<byte>>>, me: nat, v: nat)
    requires Packed(proc) && Inv(proc, dirs, s.tables, s.pages, s.free) && Sees(proc, dirs, s.tables, s.pages, mem)
    requires IsLive(proc, me) && v < Pages(proc[me].sz) && s.free != []
    ensures Mapped(proc[me], dirs, s.tables, s.pages) && v < NPTENTRIES
    ensures var s' := Serviced(proc, dirs, s, me, v);
            && Inv(proc, dirs, s'.tables, s'.pages, s'.free) && Sees(proc, dirs, s'.tables, s'.pages, mem)
                 && |s'.free| >= |s.free| - 1
            && Entry(dirs, s'.tables, proc[me].pgdir, v).write
            && UserBits(proc, dirs, s.tables, s'.tables, me, v, Entry(dirs, s.tables, proc[me].pgdir, v).user
                        || HasSharer(proc, dirs, s.tables, me, v))
  {
    PackedFinds(proc, dirs, s.tables, s.pages, s.free, me, v);
    ServicedRight(proc, dirs, s, mem, me, v);
  }

  // ---- The machine that copies ---------------------------------------------------------------

  datatype Event = DoFork(i: nat) | DoStore(i: nat, v: nat, o: nat, b: byte) | DoExit(i: nat)

  /** The frames that an event may take. */
  function Need(e: Event): nat {
    match e
    case DoFork(_) => 3
    case DoStore(_, _, _, _) => 1
    case DoExit(_) => 0
  }

  function Needs(es: seq<Event>): nat {
    if es == [] then 0 else Need(es[0]) + Needs(es[1..])
  }

  /** A process on that machine: its pages, and which of them are the user's. */
  datatype Cell = Empty | Running(sz: nat, m: seq<seq<byte>>, user: seq<bool>) | Gone

  ghost predicate CellOk(p: Proc, dirs: map<nat, Pde>, tables: map<nat, seq<Pte>>, m: seq<seq<byte>>, c: Cell) {
    match p.state
    case Unused => c == Empty
    case Live =>
      && c.Running? && c.sz == p.sz && c.m == m && |c.user| == Pages(p.sz)
      && forall v: nat :: v < |c.user| ==> c.user[v] == Entry(dirs, tables, p.pgdir, v).user
    case Zombie => c == Gone
  }

  /** What the processes have: slots, page tables, frames, and the memory that each of them sees. */
  datatype State = State(proc: seq<Proc>, dirs: map<nat, Pde>, tables: map<nat, seq<Pte>>, pages: map<nat, seq<byte>>,
                         mem: seq<seq<seq<byte>>>)

  /** Every process has the memory, and the right to it, that it has in its cell. */
  ghost predicate Matches(s: State, cells: seq<Cell>) {
    && |s.proc| == |s.mem| == |cells|
    && forall i :: 0 <= i < |s.proc| ==> CellOk(s.proc[i], s.dirs, s.tables, s.mem[i], cells[i])
  }

  function FirstEmpty(cells: seq<Cell>): (c: nat)
    ensures c <= |cells| && (c < |cells| ==> cells[c].Empty?)
    ensures forall i :: 0 <= i < c ==> !cells[i].Empty?
  {
    if cells == [] || cells[0].Empty? then 0 else 1 + FirstEmpty(cells[1..])
  }

  /** The child's last page is the user's in any case: it is the stack. */
  function ChildCell(c: Cell): Cell
    requires c.Running?
  {
    if c.user == [] then c else c.(user := c.user[|c.user| - 1 := true])
  }

  /** One step of a machine on which fork copies the whole memory into the first empty cell, and a process can store
      to its pages that are the user's and to nothing else. */
  function EagerStep(cells: seq<Cell>, e: Event): (r: seq<Cell>) {
    if e.i >= |cells| || !cells[e.i].Running? then cells
    else
      match e
      case DoFork(i) => if FirstEmpty(cells) < |cells| then cells[FirstEmpty(cells) := ChildCell(cells[i])] else cells
      case DoStore(i, v, o, b) =>
        if v < |cells[i].user| && cells[i].user[v] && v < |cells[i].m| && o < |cells[i].m[v]|
        then cells[i := cells[i].(m := cells[i].m[v := SetByte(cells[i].m[v], o, b)])] else cells
      case DoExit(i) => cells[i := Gone]
  }

  function EagerRun(cells: seq<Cell>, es: seq<Event>): (r: seq<Cell>) {
    if es == [] then cells else EagerStep(EagerRun(cells, es[..|es| - 1]), es[|es| - 1])
  }

  /** Not a store to a page of the process that is not the user's. */
  predicate Proper(cells: seq<Cell>, e: Event) {
    e.DoStore? && e.i < |cells| && cells[e.i].Running? && e.v < |cells[e.i].user| ==> cells[e.i].user[e.v]
  }

  /** On the machine that copies, no process stores to its guard page. */
  predicate Polite(cells: seq<Cell>, es: seq<Event>) {
    forall n :: 0 <= n < |es| ==> Proper(EagerRun(cells, es[..n]), es[n])
  }

  /** A store to a page of the process that is not the user's, while another process shares it. */
  ghost predicate Breaches(s: State, e: Event) {
    && e.DoStore? && IsLive(s.proc, e.i) && e.v < Pages(s.proc[e.i].sz) && e.o < PGSIZE
    && !Entry(s.dirs, s.tables, s.proc[e.i].pgdir, e.v).user && HasSharer(s.proc, s.dirs, s.tables, e.i, e.v)
  }

  lemma ProperIsSafe(s: State, cells: seq<Cell>, e: Event)
    requires Matches(s, cells) && Proper(cells, e)
    ensures !Breaches(s, e)
  {
    if IsLive(s.proc, e.i) {
      assert CellOk(s.proc[e.i], s.dirs, s.tables, s.mem[e.i], cells[e.i]);
    }
  }

  // ---- What events do ------------------------------------------------------------------------------

  /** Process k forks into slot c, the first unused one, or there is none. */
  ghost predicate Forks(s: State, k: nat, c: nat, s': State)
    requires k < |s.proc|
  {
    && c <= |s.proc| == |s'.proc| == |s.mem| && (forall i :: 0 <= i < c ==> !s.proc[i].state.Unused?)
    && if c == |s.proc| then s'.proc == s.proc && s'.mem == s.mem && s'.dirs == s.dirs && s'.tables == s.tables
       else
         && s.proc[c].state.Unused? && s'.mem == s.mem[c := s.mem[k]]
         && (exists d, pid: nat :: s'.proc == s.proc[c := Proc(pid, Live, d, s.proc[k].sz)])
         && ForkBits(s.proc, s.dirs, s.tables, s'.proc, s'.dirs, s'.tables, k, c)
  }

  /** A store takes effect, or not: then the process faults for ever, or has named no byte of its own. */
  ghost predicate Stores(s: State, e: Event, done: bool, s': State)
    requires e.DoStore? && e.i < |s.proc|
  {
    && |s.mem| == |s.proc| && s'.proc == s.proc && s'.dirs == s.dirs
    && (e.v < Pages(s.proc[e.i].sz) ==> e.v < |s.mem[e.i]| && |s.mem[e.i][e.v]| == PGSIZE)
    && (done <==> e.v < Pages(s.proc[e.i].sz) && e.o < PGSIZE
                  && (Entry(s.dirs, s.tables, s.proc[e.i].pgdir, e.v).user
                      || HasSharer(s.proc, s.dirs, s.tables, e.i, e.v)))
    && s'.mem == (if done then s.mem[e.i := s.mem[e.i][e.v := SetByte(s.mem[e.i][e.v], e.o, e.b)]] else s.mem)
    && UserBits(s.proc, s.dirs, s.tables, s'.tables, e.i, e.v, done)
  }

  ghost predicate Stepped(s: State, e: Event, s': State) {
    && Sees(s'.proc, s'.dirs, s'.tables, s'.pages, s'.mem)
    && if !IsLive(s.proc, e.i) then s' == s
       else
         match e
         case DoFork(i) => exists c :: Forks(s, i, c, s')
         case DoStore(i, _, _, _) => exists done :: Stores(s, e, done, s')
         case DoExit(i) => s' == s.(proc := s.proc[i := s.proc[i].(state := Zombie)])
  }

  lemma ForkMatches(s: State, s': State, cells: seq<Cell>, k: nat, c: nat)
    requires Matches(s, cells) && IsLive(s.proc, k) && Forks(s, k, c, s')
    ensures Matches(s', EagerStep(cells, DoFork(k)))
  {
    hide ForkBits;
    assert forall i :: 0 <= i < |s.proc| ==> (cells[i].Empty? <==> s.proc[i].state.Unused?);
    assert FirstEmpty(cells) == c;
    assert CellOk(s.proc[k], s.dirs, s.tables, s.mem[k], cells[k]);
    if c < |s.proc| {
      hide CellOk;
      var cells' := cells[c := ChildCell(cells[k])];
      forall i | 0 <= i < |s'.proc| ensures CellOk(s'.proc[i], s'.dirs, s'.tables, s'.mem[i], cells'[i]) {
        ForkedCell(s, s', cells, k, c, i);
      }
    }
  }

  lemma ForkedCell(s: State, s': State, cells: seq<Cell>, k: nat, c: nat, i: nat)
    requires Matches(s, cells) && IsLive(s.proc, k) && c < |s.proc| && Forks(s, k, c, s') && i < |s.proc|
             && cells[k].Running?
    ensures CellOk(s'.proc[i], s'.dirs, s'.tables, s'.mem[i], cells[c := ChildCell(cells[k])][i])
  {
    hide Entry;
    var was, cell := if i == c then k else i, cells[c := ChildCell(cells[k])][i];
    assert CellOk(s.proc[was], s.dirs, s.tables, s.mem[was], cells[was]);
    assert i != c ==> s'.proc[i] == s.proc[i];
    if s'.proc[i].state.Live? {
      forall v: nat | v < |cell.user| ensures cell.user[v] == Entry(s'.dirs, s'.tables, s'.proc[i].pgdir, v).user {
        assert cells[was].user[v] == Entry(s.dirs, s.tables, s.proc[was].pgdir, v).user;
        assert UserAfter(s.proc, s.dirs, s.tables, s'.proc, s'.dirs, s'.tables, k, c, i, v);
      }
    }
  }

  lemma StoreMatches(s: State, s': State, cells: seq<Cell>, e: Event, done: bool)
    requires e.DoStore? && Matches(s, cells) && IsLive(s.proc, e.i) && Stores(s, e, done, s')
    ensures Matches(s', EagerStep(cells, e)) <==> !Breaches(s, e)
  {
    var cells' := EagerStep(cells, e);
    assert CellOk(s.proc[e.i], s.dirs, s.tables, s.mem[e.i], cells[e.i]);
    if Breaches(s, e) {
      assert cells' == cells && !cells[e.i].user[e.v] && Entry(s.dirs, s'.tables, s.proc[e.i].pgdir, e.v).user;
      assert !CellOk(s.proc[e.i], s.dirs, s'.tables, s'.mem[e.i], cells'[e.i]);
    } else {
      forall i | 0 <= i < |s.proc| ensures CellOk(s.proc[i], s.dirs, s'.tables, s'.mem[i], cells'[i]) {
        assert CellOk(s.proc[i], s.dirs, s.tables, s.mem[i], cells[i]);
      }
    }
  }

  lemma ExitMatches(s: State, s': State, cells: seq<Cell>, k: nat)
    requires Matches(s, cells) && IsLive(s.proc, k) && s' == s.(proc := s.proc[k := s.proc[k].(state := Zombie)])
    ensures Matches(s', EagerStep(cells, DoExit(k)))
  {
    assert CellOk(s.proc[k], s.dirs, s.tables, s.mem[k], cells[k]);
  }

  /** An event does what it does on a machine that copies, exactly when it is not a store to a shared page that is
      not the user's. */
  lemma StepIff(s: State, e: Event, s': State, cells: seq<Cell>)
    requires Matches(s, cells) && Stepped(s, e, s')
    ensures Matches(s', EagerStep(cells, e)) <==> !Breaches(s, e)
  {
    hide Forks, Stores, Sees;
    if IsLive(s.proc, e.i) {
      match e
      case DoFork(i) =>
        var c :| Forks(s, i, c, s');
        ForkMatches(s, s', cells, i, c);
      case DoStore(i, v, o, b) =>
        var done :| Stores(s, e, done, s');
        StoreMatches(s, s', cells, e, done);
      case DoExit(i) =>
        ExitMatches(s, s', cells, i);
    } else {
      assert 0 <= e.i < |s.proc| ==> CellOk(s.proc[e.i], s.dirs, s.tables, s.mem[e.i], cells[e.i]);
    }
  }

  // ---- Runs ----------------------------------------------------------------------------------------

  /** The states of a run, one before each event and one after the last. */
  ghost predicate IsRun(ss: seq<State>, es: seq<Event>) {
    |ss| == |es| + 1 && forall n :: 0 <= n < |es| ==> Stepped(ss[n], es[n], ss[n + 1])
  }

  lemma RunMore(ss: seq<State>, es: seq<Event>, e: Event, s: State)
    requires IsRun(ss, es) && Stepped(ss[|es|], e, s)
    ensures IsRun(ss + [s], es + [e])
  {
  }

  /** Up to the n-th event, memory is as on the machine that copies. */
  ghost predicate MatchesAt(ss: seq<State>, es: seq<Event>, cells: seq<Cell>, n: nat)
    requires n <= |es| && n < |ss|
  {
    Matches(ss[n], EagerRun(cells, es[..n]))
  }

  lemma MatchesNext(ss: seq<State>, es: seq<Event>, cells: seq<Cell>, n: nat)
    requires IsRun(ss, es) && n < |es| && MatchesAt(ss, es, cells, n)
    ensures MatchesAt(ss, es, cells, n + 1) <==> !Breaches(ss[n], es[n])
  {
    hide Matches, Stepped, Breaches;
    assert es[..n + 1][..n] == es[..n];
    StepIff(ss[n], es[n], ss[n + 1], EagerRun(cells, es[..n]));
  }

  lemma {:induction false} MatchesSoFar(ss: seq<State>, es: seq<Event>, cells: seq<Cell>, n: nat)
    requires IsRun(ss, es) && Matches(ss[0], cells) && n <= |es|
    requires forall k :: 0 <= k < n ==> !Breaches(ss[k], es[k])
    ensures MatchesAt(ss, es, cells, n)
  {
    if n > 0 {
      MatchesSoFar(ss, es, cells, n - 1);
      MatchesNext(ss, es, cells, n - 1);
    }
  }

  /** Copy-on-write is copying, over every run: everyone has, at every point, the memory and the rights they would
      have if each fork had copied, exactly when no event in it is such a store. */
  lemma IndistinguishableIff(ss: seq<State>, es: seq<Event>, cells: seq<Cell>)
    requires IsRun(ss, es) && Matches(ss[0], cells)
    ensures (forall n :: 0 <= n <= |es| ==> MatchesAt(ss, es, cells, n)) <==>
            (forall n :: 0 <= n < |es| ==> !Breaches(ss[n], es[n]))
  {
    if forall n :: 0 <= n < |es| ==> !Breaches(ss[n], es[n]) {
      forall n | 0 <= n <= |es| ensures MatchesAt(ss, es, cells, n) {
        MatchesSoFar(ss, es, cells, n);
      }
    } else {
      var n :| 0 <= n < |es| && Breaches(ss[n], es[n]);
      if MatchesAt(ss, es, cells, n) {
        MatchesNext(ss, es, cells, n);
        assert !MatchesAt(ss, es, cells, n + 1);
      }
    }
  }

  /** So it is for programs that, on the machine that copies, leave their guard pages alone. */
  lemma {:induction false} PoliteMatches(ss: seq<State>, es: seq<Event>, cells: seq<Cell>, n: nat)
    requires IsRun(ss, es) && Matches(ss[0], cells) && Polite(cells, es) && n <= |es|
    ensures MatchesAt(ss, es, cells, n)
  {
    if n > 0 {
      PoliteMatches(ss, es, cells, n - 1);
      assert Proper(EagerRun(cells, es[..n - 1]), es[n - 1]);
      ProperIsSafe(ss[n - 1], EagerRun(cells, es[..n - 1]), es[n - 1]);
      MatchesNext(ss, es, cells, n - 1);
    }
  }

  // ---- Holes in the process table ----------------------------------------------------------------

  /** There is a free slot before slot j. */
  predicate Hole(proc: seq<Proc>, j: int) {
    exists k :: 0 <= k < j && k < |proc| && proc[k].pid == 0
  }

  /** Servicing a fault, whatever the table looks like, keeps every frame safe exactly when it is not the case that the
      page has sharers and every one of them is behind a free slot. */
  lemma ServicedIsSafeIff(proc: seq<Proc>, dirs: map<nat, Pde>, s: Space, mem: seq<seq<seq<byte>>>, me: nat, v: nat)
    requires Numbered(proc) && Inv(proc, dirs, s.tables, s.pages, s.free) && Sees(proc, dirs, s.tables, s.pages, mem)
    requires IsLive(proc, me) && v < Pages(proc[me].sz) && s.free != []
    ensures Mapped(proc[me], dirs, s.tables, s.pages) && v < NPTENTRIES
    ensures Safe(proc, dirs, Serviced(proc, dirs, s, me, v).tables) <==>
            !(HasSharer(proc, dirs, s.tables, me, v)
              && forall j :: Sharer(proc, dirs, s.tables, me, v, j) ==> Hole(proc, j))
  {
    assert Mapped(proc[me], dirs, s.tables, s.pages);
    FoundIsSharer(proc, dirs, s.tables, s.pages, s.free, me, v);
    forall j: nat | Sharer(proc, dirs, s.tables, me, v, j) ensures Scanned(proc, j) <==> !Hole(proc, j) {
    }
    if Found(proc, dirs, s.tables, me, v) || !HasSharer(proc, dirs, s.tables, me, v) {
      ServicedRight(proc, dirs, s, mem, me, v);
    } else {
      var j :| Sharer(proc, dirs, s.tables, me, v, j);
      UnlockedShared(proc, dirs, s, me, v, j);
    }
  }

  /** A page that is shared must not be made writable. */
  lemma UnlockedShared(proc: seq<Proc>, dirs: map<nat, Pde>, s: Space, me: nat, v: nat, j: int)
    requires Inv(proc, dirs, s.tables, s.pages, s.free) && IsLive(proc, me) && v < Pages(proc[me].sz)
             && Sharer(proc, dirs, s.tables, me, v, j)
    ensures Mapped(proc[me], dirs, s.tables, s.pages) && v < NPTENTRIES
    ensures !Safe(proc, dirs, Unlocked(proc[me], dirs, s, v).tables)
  {
    assert Mapped(proc[me], dirs, s.tables, s.pages);
    var e, tables' := Entry(dirs, s.tables, proc[me].pgdir, v), Unlocked(proc[me], dirs, s, v).tables;
    SetsOne(proc, dirs, s.tables, s.pages, s.free, me, v, e.(write := true));
    var a, b := Entry(dirs, tables', proc[me].pgdir, v), Entry(dirs, tables', proc[j].pgdir, v);
    assert a.present && b.present && a.frame == b.frame && a.write;
  }

  /** A packed table is needed: with a free slot between two processes that share a page, the scan of one stops short
      of the other, the fault makes the shared page writable, and the store that follows is seen by both. */
  lemma HoleHidesSharer() returns (proc: seq<Proc>, dirs: map<nat, Pde>, s: Space, mem: seq<seq<seq<byte>>>)
    ensures Numbered(proc) && Inv(proc, dirs, s.tables, s.pages, s.free) && Sees(proc, dirs, s.tables, s.pages, mem)
    ensures IsLive(proc, 0) && IsLive(proc, 2) && s.free != [] && Mapped(proc[0], dirs, s.tables, s.pages)
    ensures var s' := Serviced(proc, dirs, s, 0, 0);
            !Safe(proc, dirs, s'.tables) && Entry(dirs, s'.tables, proc[0].pgdir, 0).write
            && Entry(dirs, s'.tables, proc[0].pgdir, 0).frame == Entry(dirs, s'.tables, proc[2].pgdir, 0).frame
  {
    var page := seq(PGSIZE, _ => 0);
    var rest := seq(NPTENTRIES - 2, _ => NOPTE);
    proc := [Proc(1, Live, 10, 8192), Proc(0, Unused, 0, 0), Proc(3, Live, 11, 8192)];
    dirs := map[10 := Pde(20, true), 11 := Pde(21, true)];
    var tables := map[20 := [Pte(30, true, false, true), Pte(31, true, true, true)] + rest,
                      21 := [Pte(30, true, false, true), Pte(32, true, true, true)] + rest];
    s := Space(tables, map[30 := page, 31 := page, 32 := page], [40]);
    mem := [[page, page], [], [page, page]];
    HoleState(proc, dirs, tables, s.pages, mem, rest, page);
    assert proc[1].pid == 0;
    assert Sharer(proc, dirs, tables, 0, 0, 2);
    assert forall j :: Sharer(proc, dirs, tables, 0, 0, j) ==> j == 2 && Hole(proc, j);
    ServicedIsSafeIff(proc, dirs, s, mem, 0, 0);
    FoundIsSharer(proc, dirs, tables, s.pages, s.free, 0, 0);
    assert !Scanned(proc, 2);
    SetsOne(proc, dirs, tables, s.pages, s.free, 0, 0, Pte(30, true, true, true));
  }

  lemma HoleState(proc: seq<Proc>, dirs: map<nat, Pde>, tables: map<nat, seq<Pte>>, pages: map<nat, seq<byte>>,
                  mem: seq<seq<seq<byte>>>, rest: seq<Pte>, page: seq<byte>)
    requires |page| == PGSIZE && |rest| == NPTENTRIES - 2 && forall k :: 0 <= k < |rest| ==> rest[k] == NOPTE
    requires proc == [Proc(1, Live, 10, 8192), Proc(0, Unused, 0, 0), Proc(3, Live, 11, 8192)]
    requires dirs == map[10 := Pde(20, true), 11 := Pde(21, true)]
    requires tables == map[20 := [Pte(30, true, false, true), Pte(31, true, true, true)] + rest,
                           21 := [Pte(30, true, false, true), Pte(32, true, true, true)] + rest]
    requires pages == map[30 := page, 31 := page, 32 := page] && mem == [[page, page], [], [page, page]]
    ensures Inv(proc, dirs, tables, pages, [40]) && Sees(proc, dirs, tables, pages, mem) && Pages(8192) == 2
    ensures HoleEntries(dirs, tables)
  {
    assert HoleEntries(dirs, tables);
    assert Mapped(proc[0], dirs, tables, pages) && Mapped(proc[2], dirs, tables, pages);
    HoleSafe(proc, dirs, tables, pages, mem);
    hide Entry, Safe, HoleEntries;
  }

  /** What the two processes around the hole map. */
  ghost predicate HoleEntries(dirs: map<nat, Pde>, tables: map<nat, seq<Pte>>) {
    forall v: nat ::
      && Entry(dirs, tables, 10, v) ==
           (if v == 0 then Pte(30, true, false, true) else if v == 1 then Pte(31, true, true, true) else NOPTE)
      && Entry(dirs, tables, 11, v) ==
           (if v == 0 then Pte(30, true, false, true) else if v == 1 then Pte(32, true, true, true) else NOPTE)
  }

  lemma HoleSafe(proc: seq<Proc>, dirs: map<nat, Pde>, tables: map<nat, seq<Pte>>, pages: map<nat, seq<byte>>,
                 mem: seq<seq<seq<byte>>>)
    requires |proc| == 3 && proc[0].pgdir == 10 && proc[1].state.Unused? && proc[2].pgdir == 11
             && proc[0].sz == proc[2].sz == 8192
    requires HoleEntries(dirs, tables) && |mem| == 3 && |mem[0]| == |mem[2]| == 2
    requires 30 in pages && 31 in pages && 32 in pages && pages[30] == mem[0][0] == mem[2][0] && pages[31] == mem[0][1]
             && pages[32] == mem[2][1]
    ensures Safe(proc, dirs, tables) && Sees(proc, dirs, tables, pages, mem) && Pages(8192) == 2
  {
    hide Entry;
    assert Pages(8192) == 2;
  }

  /** And the guard page is lost after a fork. State s is the one before the store: on a machine that copies, the
      process cannot store to a page that is not the user's, but here the fault of one that shares it with its child
      gives it a copy that is, and from then on its memory is not what copying would have given it. */
  method GuardGoesAway(b: byte) returns (k: Kernel, ghost s: State, ghost cells: seq<Cell>)
    ensures k.Valid() && Sees(s.proc, s.dirs, s.tables, s.pages, s.mem) && Matches(s, cells)
    ensures var e := DoStore(0, 0, 0, b);
            Breaches(s, e) && Stepped(s, e, k.Whole()) && !Matches(k.Whole(), EagerStep(cells, e))
  {
    k := ForkedGuard();
    s := k.Whole();
    cells := [Running(8192, s.mem[0], [false, true]), Running(8192, s.mem[1], [false, true])];
    assert Pages(8192) == 2;
    hide Inv, Sees, Stepped;
    k.Perform(DoStore(0, 0, 0, b));
    StepIff(s, DoStore(0, 0, 0, b), k.Whole(), cells);
  }

  /** A process of two pages, the first of which is not the user's, and its child. */
  method ForkedGuard() returns (k: Kernel)
    ensures fresh(k) && k.Valid() && k.free != [] && |k.proc| == 2 && IsLive(k.proc, 0) && IsLive(k.proc, 1)
    ensures k.proc[0].sz == k.proc[1].sz == 8192 && HasSharer(k.proc, k.dirs, k.tables, 0, 0)
    ensures forall i :: 0 <= i < 2 ==>
            !Entry(k.dirs, k.tables, k.proc[i].pgdir, 0).user && Entry(k.dirs, k.tables, k.proc[i].pgdir, 1).user
  {
    var page := seq(PGSIZE, _ => 0);
    var table := [Pte(30, true, true, false), Pte(31, true, true, true)] + seq(NPTENTRIES - 2, _ => NOPTE);
    assert Pages(8192) == 2;
    k := new Kernel(2, 8192, table, map[30 := page, 31 := page], [1, 2, 3, 4, 5, 6]);
    assert k.proc[1].state.Unused?;
    ghost var s := k.Whole();
    hide Inv, Sees;
    var c := k.Fork(0);
    assert c == 1 && Sharer(k.proc, k.dirs, k.tables, 0, 0, c);
    assert UserAfter(s.proc, s.dirs, s.tables, k.proc, k.dirs, k.tables, 0, 1, 0, 0);
    assert UserAfter(s.proc, s.dirs, s.tables, k.proc, k.dirs, k.tables, 0, 1, 0, 1);
    assert UserAfter(s.proc, s.dirs, s.tables, k.proc, k.dirs, k.tables, 0, 1, 1, 0);
    assert UserAfter(s.proc, s.dirs, s.tables, k.proc, k.dirs, k.tables, 0, 1, 1, 1);
  }
}
