/** Copy-on-write fork as a simulation of a full copy. Processes have one page table each (at most
    4 MB); two of them may map the same frame, and then neither may write it. */
module CowSpec {
  import opened Bytes
  import opened Finite

  const PGSIZE: nat := 4096
  const NPTENTRIES: nat := 1024
  const MAXSZ: nat := 4194304 // what one page table maps

  /** A page table entry: frame number, PTE_P, PTE_W, PTE_U. */
  datatype Pte = Pte(frame: nat, present: bool, write: bool, user: bool)

  const NOPTE := Pte(0, false, false, false)

  /** The first page directory entry: the page table's frame and PTE_W. */
  datatype Pde = Pde(table: nat, write: bool)

  datatype State = Unused | Live | Zombie

  datatype Proc = Proc(pid: nat, state: State, pgdir: nat, sz: nat)

  /** Pages of a process of sz bytes. */
  ghost function Pages(sz: nat): (n: nat)
    ensures 4096 * n < sz + 4096 && sz <= 4096 * n
  {
    assert 4096 * ((sz + 4095) / 4096) < sz + 4096 && sz <= 4096 * ((sz + 4095) / 4096);
    var n: nat :| 4096 * n < sz + 4096 && sz <= 4096 * n;
    n
  }

  /** The entry for page v under a page directory: `wpgdir`. */
  function Entry(dirs: map<nat, Pde>, tables: map<nat, seq<Pte>>, pgdir: nat, v: nat): (e: Pte) {
    if pgdir in dirs && dirs[pgdir].table in tables && v < |tables[dirs[pgdir].table]|
    then tables[dirs[pgdir].table][v] else NOPTE
  }

  /** The address space of process p is laid out. */
  ghost predicate Mapped(p: Proc, dirs: map<nat, Pde>, tables: map<nat, seq<Pte>>, pages: map<nat, seq<byte>>) {
    && PGSIZE <= p.sz <= MAXSZ
    && p.pgdir in dirs && dirs[p.pgdir].table in tables && |tables[dirs[p.pgdir].table]| == NPTENTRIES
    && forall v: nat :: v < NPTENTRIES ==>
         var e := Entry(dirs, tables, p.pgdir, v);
         (e.present <==> v < Pages(p.sz)) && (e.present ==> e.frame in pages && |pages[e.frame]| == PGSIZE)
  }

  /** Two different pages in the same frame are the same page of two processes, read-only in both. */
  ghost predicate Safe(proc: seq<Proc>, dirs: map<nat, Pde>, tables: map<nat, seq<Pte>>) {
    forall i, j, v: nat, w: nat :: IsLive(proc, i) && IsLive(proc, j) && (i != j || v != w) ==>
      var a, b := Entry(dirs, tables, proc[i].pgdir, v), Entry(dirs, tables, proc[j].pgdir, w);
      a.present && b.present && a.frame == b.frame ==> i != j && v == w && a == b && !a.write
  }

  predicate IsLive(proc: seq<Proc>, i: int) {
    0 <= i < |proc| && proc[i].state.Live?
  }

  /** Every live process has a directory and a table of its own. */
  ghost predicate Private(proc: seq<Proc>, dirs: map<nat, Pde>) {
    forall i, j :: IsLive(proc, i) && IsLive(proc, j) && i != j ==>
      && proc[i].pgdir != proc[j].pgdir
      && (proc[i].pgdir in dirs && proc[j].pgdir in dirs ==> dirs[proc[i].pgdir].table != dirs[proc[j].pgdir].table)
  }

  /** Pid 0 marks the free slots. */
  ghost predicate Numbered(proc: seq<Proc>) {
    forall i :: 0 <= i < |proc| ==> (proc[i].pid == 0 <==> proc[i].state.Unused?)
  }

  /** The used slots of the process table come first. */
  ghost predicate Packed(proc: seq<Proc>) {
    && Numbered(proc)
    && (forall i, j :: 0 <= i < j < |proc| && proc[j].pid != 0 ==> proc[i].pid != 0)
  }

  ghost predicate FreeOk(free: seq<nat>, dirs: map<nat, Pde>, tables: map<nat, seq<Pte>>, pages: map<nat, seq<byte>>) {
    Distinct(free) && forall f :: f in free ==> f !in dirs && f !in tables && f !in pages
  }

  ghost predicate Inv(proc: seq<Proc>, dirs: map<nat, Pde>, tables: map<nat, seq<Pte>>, pages: map<nat, seq<byte>>,
                      free: seq<nat>)
  {
    && (forall i :: IsLive(proc, i) ==> Mapped(proc[i], dirs, tables, pages))
    && Private(proc, dirs) && Safe(proc, dirs, tables) && FreeOk(free, dirs, tables, pages)
  }

  /** The memory a process sees is what it would have had if every fork had copied it. */
  ghost predicate Sees(proc: seq<Proc>, dirs: map<nat, Pde>, tables: map<nat, seq<Pte>>, pages: map<nat, seq<byte>>,
                       mem: seq<seq<seq<byte>>>)
  {
    && |mem| == |proc|
    && forall i, v: nat :: IsLive(proc, i) && v < Pages(proc[i].sz) ==>
         SeesPage(proc[i].pgdir, dirs, tables, pages, mem[i], v)
  }

  ghost predicate SeesPage(pgdir: nat, dirs: map<nat, Pde>, tables: map<nat, seq<Pte>>, pages: map<nat, seq<byte>>,
                           m: seq<seq<byte>>, v: nat)
  {
    v < |m| && PageContents(dirs, tables, pages, pgdir, v) == m[v]
  }

  function PageContents(dirs: map<nat, Pde>, tables: map<nat, seq<Pte>>, pages: map<nat, seq<byte>>, pgdir: nat,
                        v: nat): (s: seq<byte>)
  {
    var e := Entry(dirs, tables, pgdir, v);
    if e.frame in pages then pages[e.frame] else []
  }

  // ---- Changing one entry --------------------------------------------------------------------

  /** The tables with entry v of the table of process p replaced. */
  function SetEntry(dirs: map<nat, Pde>, tables: map<nat, seq<Pte>>, p: Proc, v: nat, e: Pte): (r: map<nat, seq<Pte>>)
    requires p.pgdir in dirs && dirs[p.pgdir].table in tables && v < |tables[dirs[p.pgdir].table]|
  {
    var t := dirs[p.pgdir].table;
    tables[t := tables[t][v := e]]
  }

  ghost predicate OneEntry(proc: seq<Proc>, dirs: map<nat, Pde>, tables: map<nat, seq<Pte>>,
                           tables': map<nat, seq<Pte>>, k: nat, v: nat, e: Pte)
  {
    forall i, w: nat :: IsLive(proc, i) ==>
      Entry(dirs, tables', proc[i].pgdir, w) == if i == k && w == v then e else Entry(dirs, tables, proc[i].pgdir, w)
  }

  lemma SetsOne(proc: seq<Proc>, dirs: map<nat, Pde>, tables: map<nat, seq<Pte>>, pages: map<nat, seq<byte>>,
                free: seq<nat>, k: nat, v: nat, e: Pte)
    requires Inv(proc, dirs, tables, pages, free) && IsLive(proc, k) && v < NPTENTRIES
    ensures Mapped(proc[k], dirs, tables, pages)
    ensures OneEntry(proc, dirs, tables, SetEntry(dirs, tables, proc[k], v, e), k, v, e)
  {
  }

  /** Putting e in place of a present entry is safe if whoever else maps its frame has the very same
      read-only entry for the same page. */
  lemma Replaced(proc: seq<Proc>, dirs: map<nat, Pde>, tables: map<nat, seq<Pte>>, pages: map<nat, seq<byte>>,
                 free: seq<nat>, k: nat, v: nat, e: Pte)
    requires Inv(proc, dirs, tables, pages, free) && IsLive(proc, k) && v < Pages(proc[k].sz)
    requires e.present && e.frame in pages && |pages[e.frame]| == PGSIZE
    requires forall j, w: nat :: IsLive(proc, j) && (j != k || w != v) ==>
               var b := Entry(dirs, tables, proc[j].pgdir, w);
               b.present && b.frame == e.frame ==> j != k && w == v && b == e && !e.write
    ensures v < NPTENTRIES && Mapped(proc[k], dirs, tables, pages)
    ensures Inv(proc, dirs, SetEntry(dirs, tables, proc[k], v, e), pages, free)
  {
    assert Mapped(proc[k], dirs, tables, pages);
    SetsOne(proc, dirs, tables, pages, free, k, v, e);
    var tables' := SetEntry(dirs, tables, proc[k], v, e);
    forall i | IsLive(proc, i) ensures Mapped(proc[i], dirs, tables', pages) {
      assert Mapped(proc[i], dirs, tables, pages);
    }
  }

  /** If the pages of every live process hold what they held, everyone sees what they saw. */
  ghost predicate SamePages(proc: seq<Proc>, dirs: map<nat, Pde>, tables: map<nat, seq<Pte>>,
                            pages: map<nat, seq<byte>>, tables': map<nat, seq<Pte>>, pages': map<nat, seq<byte>>)
  {
    forall i, v: nat :: IsLive(proc, i) && v < Pages(proc[i].sz) ==>
      PageContents(dirs, tables', pages', proc[i].pgdir, v) == PageContents(dirs, tables, pages, proc[i].pgdir, v)
  }

  lemma SeesSame(proc: seq<Proc>, dirs: map<nat, Pde>, tables: map<nat, seq<Pte>>, pages: map<nat, seq<byte>>,
                 tables': map<nat, seq<Pte>>, pages': map<nat, seq<byte>>, mem: seq<seq<seq<byte>>>)
    requires Sees(proc, dirs, tables, pages, mem) && SamePages(proc, dirs, tables, pages, tables', pages')
    ensures Sees(proc, dirs, tables', pages', mem)
  {
    forall i, v: nat | IsLive(proc, i) && v < Pages(proc[i].sz)
      ensures SeesPage(proc[i].pgdir, dirs, tables', pages', mem[i], v)
    {
      assert SeesPage(proc[i].pgdir, dirs, tables, pages, mem[i], v);
    }
  }

  /** PTE_W may be cleared at any time: a shared page does not have it. */
  lemma Cleared(proc: seq<Proc>, dirs: map<nat, Pde>, tables: map<nat, seq<Pte>>, pages: map<nat, seq<byte>>,
                free: seq<nat>, mem: seq<seq<seq<byte>>>, k: nat, v: nat)
    requires Inv(proc, dirs, tables, pages, free) && Sees(proc, dirs, tables, pages, mem)
    requires IsLive(proc, k) && v < Pages(proc[k].sz)
    ensures v < NPTENTRIES && Mapped(proc[k], dirs, tables, pages)
    ensures var tables' := SetEntry(dirs, tables, proc[k], v, Entry(dirs, tables, proc[k].pgdir, v).(write := false));
            Inv(proc, dirs, tables', pages, free) && Sees(proc, dirs, tables', pages, mem)
  {
    var e := Entry(dirs, tables, proc[k].pgdir, v).(write := false);
    assert Mapped(proc[k], dirs, tables, pages);
    Replaced(proc, dirs, tables, pages, free, k, v, e);
    SetsOne(proc, dirs, tables, pages, free, k, v, e);
    SeesSame(proc, dirs, tables, pages, SetEntry(dirs, tables, proc[k], v, e), pages, mem);
  }

  /** PTE_W may be set on a page that no other live process maps. */
  lemma MadeWritable(proc: seq<Proc>, dirs: map<nat, Pde>, tables: map<nat, seq<Pte>>, pages: map<nat, seq<byte>>,
                     free: seq<nat>, mem: seq<seq<seq<byte>>>, k: nat, v: nat)
    requires Inv(proc, dirs, tables, pages, free) && Sees(proc, dirs, tables, pages, mem)
    requires IsLive(proc, k) && v < Pages(proc[k].sz)
    requires forall j :: IsLive(proc, j) && j != k ==>
             Entry(dirs, tables, proc[j].pgdir, v) != Entry(dirs, tables, proc[k].pgdir, v)
    ensures v < NPTENTRIES && Mapped(proc[k], dirs, tables, pages)
    ensures var tables' := SetEntry(dirs, tables, proc[k], v, Entry(dirs, tables, proc[k].pgdir, v).(write := true));
            Inv(proc, dirs, tables', pages, free) && Sees(proc, dirs, tables', pages, mem)
  {
    var e := Entry(dirs, tables, proc[k].pgdir, v).(write := true);
    assert Mapped(proc[k], dirs, tables, pages);
    Replaced(proc, dirs, tables, pages, free, k, v, e);
    SetsOne(proc, dirs, tables, pages, free, k, v, e);
    SeesSame(proc, dirs, tables, pages, SetEntry(dirs, tables, proc[k], v, e), pages, mem);
  }

  /** A page may be moved to a fresh frame with the same contents, and be writable there. */
  lemma Moved(proc: seq<Proc>, dirs: map<nat, Pde>, tables: map<nat, seq<Pte>>, pages: map<nat, seq<byte>>,
              free: seq<nat>, mem: seq<seq<seq<byte>>>, k: nat, v: nat)
    requires Inv(proc, dirs, tables, pages, free) && Sees(proc, dirs, tables, pages, mem) && free != []
    requires IsLive(proc, k) && v < Pages(proc[k].sz)
    ensures v < NPTENTRIES && Mapped(proc[k], dirs, tables, pages)
    ensures var f := free[0];
            var pages' := pages[f := PageContents(dirs, tables, pages, proc[k].pgdir, v)];
            var tables' := SetEntry(dirs, tables, proc[k], v, Pte(f, true, true, true));
            Inv(proc, dirs, tables', pages', free[1..]) && Sees(proc, dirs, tables', pages', mem)
  {
    var f := free[0];
    assert Mapped(proc[k], dirs, tables, pages);
    var pages' := pages[f := PageContents(dirs, tables, pages, proc[k].pgdir, v)];
    FreshPage(proc, dirs, tables, pages, free, mem, PageContents(dirs, tables, pages, proc[k].pgdir, v));
    Replaced(proc, dirs, tables, pages', free[1..], k, v, Pte(f, true, true, true));
    SetsOne(proc, dirs, tables, pages', free[1..], k, v, Pte(f, true, true, true));
    SeesSame(proc, dirs, tables, pages', SetEntry(dirs, tables, proc[k], v, Pte(f, true, true, true)), pages', mem);
  }

  /** Filling a free frame changes nothing that is mapped. */
  lemma FreshPage(proc: seq<Proc>, dirs: map<nat, Pde>, tables: map<nat, seq<Pte>>, pages: map<nat, seq<byte>>,
                  free: seq<nat>, mem: seq<seq<seq<byte>>>, contents: seq<byte>)
    requires Inv(proc, dirs, tables, pages, free) && Sees(proc, dirs, tables, pages, mem) && free != []
    ensures var pages' := pages[free[0] := contents];
            Inv(proc, dirs, tables, pages', free[1..]) && Sees(proc, dirs, tables, pages', mem)
    ensures forall i, v: nat :: IsLive(proc, i) && v < Pages(proc[i].sz) ==>
            Entry(dirs, tables, proc[i].pgdir, v).frame != free[0]
  {
    var pages' := pages[free[0] := contents];
    forall i | IsLive(proc, i) ensures Mapped(proc[i], dirs, tables, pages') {
      assert Mapped(proc[i], dirs, tables, pages);
    }
    assert forall f :: f in free[1..] ==> f in free && f != free[0];
    forall i, v: nat | IsLive(proc, i) && v < Pages(proc[i].sz)
      ensures Entry(dirs, tables, proc[i].pgdir, v).frame in pages
    {
      assert Mapped(proc[i], dirs, tables, pages);
    }
    SeesSame(proc, dirs, tables, pages, tables, pages', mem);
  }

  function SetByte(s: seq<byte>, o: nat, b: byte): (r: seq<byte>)
    requires o < |s|
    ensures |r| == |s| && r[o] == b && forall j :: 0 <= j < |s| && j != o ==> r[j] == s[j]
  {
    s[..o] + [b] + s[o + 1..]
  }

  /** A store to a writable page changes that page of that process and nothing else. */
  lemma Stored(proc: seq<Proc>, dirs: map<nat, Pde>, tables: map<nat, seq<Pte>>, pages: map<nat, seq<byte>>,
               free: seq<nat>, mem: seq<seq<seq<byte>>>, k: nat, v: nat, o: nat, b: byte)
    requires Inv(proc, dirs, tables, pages, free) && Sees(proc, dirs, tables, pages, mem)
    requires IsLive(proc, k) && v < Pages(proc[k].sz) && o < PGSIZE && Entry(dirs, tables, proc[k].pgdir, v).write
    ensures var f := Entry(dirs, tables, proc[k].pgdir, v).frame;
            f in pages && |pages[f]| == PGSIZE && k < |mem| && v < |mem[k]| && |mem[k][v]| == PGSIZE &&
            var pages', mem' := pages[f := SetByte(pages[f], o, b)], mem[k := mem[k][v := SetByte(mem[k][v], o, b)]];
            Inv(proc, dirs, tables, pages', free) && Sees(proc, dirs, tables, pages', mem')
  {
    assert Mapped(proc[k], dirs, tables, pages);
    var e := Entry(dirs, tables, proc[k].pgdir, v);
    var pages' := pages[e.frame := SetByte(pages[e.frame], o, b)];
    forall i | IsLive(proc, i) ensures Mapped(proc[i], dirs, tables, pages') {
      assert Mapped(proc[i], dirs, tables, pages);
    }
    assert SeesPage(proc[k].pgdir, dirs, tables, pages, mem[k], v);
    var mem' := mem[k := mem[k][v := SetByte(mem[k][v], o, b)]];
    forall i, w: nat | IsLive(proc, i) && w < Pages(proc[i].sz)
      ensures SeesPage(proc[i].pgdir, dirs, tables, pages', mem'[i], w)
    {
      assert Mapped(proc[i], dirs, tables, pages);
      assert SeesPage(proc[i].pgdir, dirs, tables, pages, mem[i], w);
    }
  }

  /** PTE_W of a directory entry has no part in who maps what. */
  lemma PdeFlag(proc: seq<Proc>, dirs: map<nat, Pde>, tables: map<nat, seq<Pte>>, pages: map<nat, seq<byte>>,
                free: seq<nat>, mem: seq<seq<seq<byte>>>, k: nat, write: bool)
    requires Inv(proc, dirs, tables, pages, free) && Sees(proc, dirs, tables, pages, mem) && IsLive(proc, k)
    ensures Mapped(proc[k], dirs, tables, pages)
    ensures var dirs' := dirs[proc[k].pgdir := dirs[proc[k].pgdir].(write := write)];
            && Inv(proc, dirs', tables, pages, free) && Sees(proc, dirs', tables, pages, mem)
            && forall pgdir: nat, v: nat :: Entry(dirs', tables, pgdir, v) == Entry(dirs, tables, pgdir, v)
  {
    assert Mapped(proc[k], dirs, tables, pages);
    var dirs' := dirs[proc[k].pgdir := dirs[proc[k].pgdir].(write := write)];
    assert forall pgdir: nat, v: nat :: Entry(dirs', tables, pgdir, v) == Entry(dirs, tables, pgdir, v);
    forall i | IsLive(proc, i) ensures Mapped(proc[i], dirs', tables, pages) {
      assert Mapped(proc[i], dirs, tables, pages);
    }
    forall i, v: nat | IsLive(proc, i) && v < Pages(proc[i].sz)
      ensures SeesPage(proc[i].pgdir, dirs', tables, pages, mem[i], v)
    {
      assert SeesPage(proc[i].pgdir, dirs, tables, pages, mem[i], v);
    }
  }

  /** The child's table: the parent's, with the last page in frame f. */
  function ChildTable(table: seq<Pte>, last: nat, f: nat): (r: seq<Pte>)
    requires last < |table|
  {
    table[last := Pte(f, true, true, true)]
  }

  /** Entry v of process i when process c is the child of k, with its last page in frame f. */
  function ChildEntry(proc: seq<Proc>, dirs: map<nat, Pde>, tables: map<nat, seq<Pte>>, k: nat, c: nat, last: nat,
                      f: nat, i: nat, v: nat): (e: Pte)
    requires k < |proc| && i < |proc|
  {
    if i != c then Entry(dirs, tables, proc[i].pgdir, v)
    else if v == last then Pte(f, true, true, true)
    else Entry(dirs, tables, proc[k].pgdir, v)
  }

  ghost predicate ChildHas(proc: seq<Proc>, dirs: map<nat, Pde>, tables: map<nat, seq<Pte>>, proc': seq<Proc>,
                           dirs': map<nat, Pde>, tables': map<nat, seq<Pte>>, k: nat, c: nat, last: nat, f: nat)
  {
    && k < |proc| == |proc'|
    && forall i: nat, v: nat :: IsLive(proc', i) ==>
         Entry(dirs', tables', proc'[i].pgdir, v) == ChildEntry(proc, dirs, tables, k, c, last, f, i, v)
  }

  /** A child that shares every page but the last, all of them read-only in the parent, sees a copy of
      the parent's memory. */
  lemma Forked(proc: seq<Proc>, dirs: map<nat, Pde>, tables: map<nat, seq<Pte>>, pages: map<nat, seq<byte>>,
               free: seq<nat>, mem: seq<seq<seq<byte>>>, k: nat, c: nat, pid: nat, last: nat)
    requires Inv(proc, dirs, tables, pages, free) && Sees(proc, dirs, tables, pages, mem)
    requires IsLive(proc, k) && c < |proc| && !IsLive(proc, c) && |free| >= 3
    requires last + 1 == Pages(proc[k].sz)
    requires forall v: nat :: v < last ==> !Entry(dirs, tables, proc[k].pgdir, v).write
    ensures Mapped(proc[k], dirs, tables, pages) && last < NPTENTRIES
    ensures var d, t, f := free[0], free[1], free[2];
            var proc' := proc[c := Proc(pid, Live, d, proc[k].sz)];
            var dirs' := dirs[d := Pde(t, true)];
            var tables' := tables[t := ChildTable(tables[dirs[proc[k].pgdir].table], last, f)];
            var pages' := pages[f := PageContents(dirs, tables, pages, proc[k].pgdir, last)];
            && Inv(proc', dirs', tables', pages', free[3..]) && Sees(proc', dirs', tables', pages', mem[c := mem[k]])
            && ChildHas(proc, dirs, tables, proc', dirs', tables', k, c, last, f)
  {
    assert Mapped(proc[k], dirs, tables, pages);
    var d, t, f := free[0], free[1], free[2];
    var proc' := proc[c := Proc(pid, Live, d, proc[k].sz)];
    var dirs' := dirs[d := Pde(t, true)];
    var tables' := tables[t := ChildTable(tables[dirs[proc[k].pgdir].table], last, f)];
    var pages' := pages[f := PageContents(dirs, tables, pages, proc[k].pgdir, last)];
    ChildEntries(proc, dirs, tables, pages, free, k, c, proc', dirs', tables', last);
    forall i | IsLive(proc', i) ensures Mapped(proc'[i], dirs', tables', pages') {
      ChildMapped(proc, dirs, tables, pages, free, k, c, proc', dirs', tables', pages', last, i);
    }
    forall i | IsLive(proc, i) ensures proc[i].pgdir != d && dirs[proc[i].pgdir].table != t {
      assert Mapped(proc[i], dirs, tables, pages);
    }
    ChildSafe(proc, dirs, tables, pages, free, k, c, proc', dirs', tables', last);
    assert forall g :: g in free[3..] ==> g in free && g != d && g != t && g != f;
    ChildSees(proc, dirs, tables, pages, free, mem, k, c, proc', dirs', tables', pages', last);
  }

  /** Everyone's entries are as before, and the child's are the parent's except the last. */
  lemma ChildEntries(proc: seq<Proc>, dirs: map<nat, Pde>, tables: map<nat, seq<Pte>>, pages: map<nat, seq<byte>>,
                     free: seq<nat>, k: nat, c: nat, proc': seq<Proc>, dirs': map<nat, Pde>,
                     tables': map<nat, seq<Pte>>, last: nat)
    requires Inv(proc, dirs, tables, pages, free) && IsLive(proc, k) && c < |proc| && !IsLive(proc, c) && |free| >= 3
             && last < NPTENTRIES
    requires Mapped(proc[k], dirs, tables, pages)
    requires exists pid :: proc' == proc[c := Proc(pid, Live, free[0], proc[k].sz)]
    requires dirs' == dirs[free[0] := Pde(free[1], true)]
    requires tables' == tables[free[1] := ChildTable(tables[dirs[proc[k].pgdir].table], last, free[2])]
    ensures ChildHas(proc, dirs, tables, proc', dirs', tables', k, c, last, free[2])
  {
  }

  lemma ChildSees(proc: seq<Proc>, dirs: map<nat, Pde>, tables: map<nat, seq<Pte>>, pages: map<nat, seq<byte>>,
                  free: seq<nat>, mem: seq<seq<seq<byte>>>, k: nat, c: nat, proc': seq<Proc>, dirs': map<nat, Pde>,
                  tables': map<nat, seq<Pte>>, pages': map<nat, seq<byte>>, last: nat)
    requires Inv(proc, dirs, tables, pages, free) && Sees(proc, dirs, tables, pages, mem)
    requires IsLive(proc, k) && c < |proc| && !IsLive(proc, c) && |free| >= 3 && last + 1 == Pages(proc[k].sz)
    requires exists pid :: proc' == proc[c := Proc(pid, Live, free[0], proc[k].sz)]
    requires pages' == pages[free[2] := PageContents(dirs, tables, pages, proc[k].pgdir, last)]
    requires ChildHas(proc, dirs, tables, proc', dirs', tables', k, c, last, free[2])
    ensures Sees(proc', dirs', tables', pages', mem[c := mem[k]])
  {
    var mem' := mem[c := mem[k]];
    forall i, v: nat | IsLive(proc', i) && v < Pages(proc'[i].sz)
      ensures SeesPage(proc'[i].pgdir, dirs', tables', pages', mem'[i], v)
    {
      var was := if i == c then k else i;
      assert Mapped(proc[was], dirs, tables, pages);
      assert SeesPage(proc[was].pgdir, dirs, tables, pages, mem[was], v);
      assert Entry(dirs, tables, proc[was].pgdir, v).frame in pages && free[2] in free;
      assert Entry(dirs', tables', proc'[i].pgdir, v) == ChildEntry(proc, dirs, tables, k, c, last, free[2], i, v);
    }
  }

  lemma ChildMapped(proc: seq<Proc>, dirs: map<nat, Pde>, tables: map<nat, seq<Pte>>, pages: map<nat, seq<byte>>,
                    free: seq<nat>, k: nat, c: nat, proc': seq<Proc>, dirs': map<nat, Pde>, tables': map<nat, seq<Pte>>,
                    pages': map<nat, seq<byte>>, last: nat, i: nat)
    requires Inv(proc, dirs, tables, pages, free) && IsLive(proc, k) && c < |proc| && !IsLive(proc, c) && |free| >= 3
    requires last + 1 == Pages(proc[k].sz) && Mapped(proc[k], dirs, tables, pages) && last < NPTENTRIES
    requires exists pid :: proc' == proc[c := Proc(pid, Live, free[0], proc[k].sz)]
    requires dirs' == dirs[free[0] := Pde(free[1], true)]
    requires tables' == tables[free[1] := ChildTable(tables[dirs[proc[k].pgdir].table], last, free[2])]
    requires pages' == pages[free[2] := PageContents(dirs, tables, pages, proc[k].pgdir, last)]
    requires ChildHas(proc, dirs, tables, proc', dirs', tables', k, c, last, free[2])
    requires IsLive(proc', i)
    ensures Mapped(proc'[i], dirs', tables', pages')
  {
  }

  /** The pages the child shares are read-only, and shared with nobody who was not sharing before. */
  lemma ChildSafe(proc: seq<Proc>, dirs: map<nat, Pde>, tables: map<nat, seq<Pte>>, pages: map<nat, seq<byte>>,
                  free: seq<nat>, k: nat, c: nat, proc': seq<Proc>, dirs': map<nat, Pde>, tables': map<nat, seq<Pte>>,
                  last: nat)
    requires Inv(proc, dirs, tables, pages, free) && IsLive(proc, k) && c < |proc| && !IsLive(proc, c) && |free| >= 3
    requires last + 1 == Pages(proc[k].sz)
    requires exists pid :: proc' == proc[c := Proc(pid, Live, free[0], proc[k].sz)]
    requires ChildHas(proc, dirs, tables, proc', dirs', tables', k, c, last, free[2])
    requires forall v: nat :: v < last ==> !Entry(dirs, tables, proc[k].pgdir, v).write
    ensures Safe(proc', dirs', tables')
  {
  }

  /** A present entry is below the size and its frame is not free. */
  lemma PresentEntry(proc: seq<Proc>, dirs: map<nat, Pde>, tables: map<nat, seq<Pte>>, pages: map<nat, seq<byte>>,
                     free: seq<nat>, i: nat, v: nat)
    requires Inv(proc, dirs, tables, pages, free) && IsLive(proc, i)
    ensures var e := Entry(dirs, tables, proc[i].pgdir, v);
            e.present ==> v < Pages(proc[i].sz) && e.frame !in free
  {
  }
}
