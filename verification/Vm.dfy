/** Page tables: copying an address space and taking it down again. */
module Vm {
  import opened Bytes
  import opened Finite
  import opened Options
  import opened VmSpec

  const USERPAGES := 524288 // KERNBASE / PGSIZE

  /** One row of the kernel's map: so many pages from `first` on, onto frames from `frame` on. */
  datatype Region = Region(first: int, count: int, frame: int, write: bool)

  predicate InRegion(r: Region, i: int, j: int) {
    r.first <= 1024 * i + j < r.first + r.count
  }

  /** The kernel's regions lie in the upper half and do not overlap. */
  predicate KmapOk(kmap: seq<Region>) {
    && (forall k :: 0 <= k < |kmap| ==>
        USERPAGES <= kmap[k].first && kmap[k].count > 0 && kmap[k].first + kmap[k].count <= 1048576)
    && forall k, l :: 0 <= k < l < |kmap| ==>
         kmap[k].first + kmap[k].count <= kmap[l].first || kmap[l].first + kmap[l].count <= kmap[k].first
  }

  /** Everything the kernel knows about frames. */
  datatype Snapshot = Snapshot(dirs: Dirs, tables: Tables, pages: map<int, seq<byte>>, owner: map<int, Role>,
                               free: seq<int>)

  ghost predicate Ok(s: Snapshot) {
    Inv(s.dirs, s.tables, s.pages, s.owner, s.free)
  }

  ghost function Entry(s: Snapshot, d: int, i: int, j: int): Option<Pte> {
    Walk(s.dirs, s.tables, d, i, j)
  }

  ghost predicate Known(s: Snapshot, f: int) {
    f in s.owner || f in s.free
  }

  /** From s to t only directory d has grown: other directories and their pages are as they were, every frame
      is still free or in use, and what has come into use is d's. */
  ghost predicate Grew(s: Snapshot, t: Snapshot, d: int) {
    && (forall x, i, j :: x != d ==> Entry(t, x, i, j) == Entry(s, x, i, j))
    && (forall f :: Known(t, f) <==> Known(s, f))
    && (forall f :: f in s.owner ==> f in t.owner && t.owner[f] == s.owner[f])
    && (forall f :: f in t.owner && f !in s.owner ==> t.owner[f].d == d)
    && (forall f :: f in s.pages && f !in s.free ==> f in t.pages && t.pages[f] == s.pages[f])
  }

  /** The entries of directory d that have a table. */
  ghost function Tabs(s: Snapshot, d: int): set<nat> {
    if d in s.dirs then set i: nat | i in s.dirs[d] else {}
  }

  /** From s to t directory d has tables for `more` as well, and each new one has cost a frame, as have `extra`
      pages. */
  ghost predicate Paid(s: Snapshot, t: Snapshot, d: int, more: set<nat>, extra: nat) {
    && (forall i: nat :: i in Tabs(t, d) <==> i in Tabs(s, d) || i in more)
    && |t.free| + |Tabs(t, d)| + extra == |s.free| + |Tabs(s, d)|
  }

  /** Frames have run out before there was a table for all of `more`. */
  ghost predicate Short(s: Snapshot, t: Snapshot, d: int, more: set<nat>) {
    && t.free == [] && |Tabs(t, d)| == |s.free| + |Tabs(s, d)|
    && (forall i: nat :: i in Tabs(t, d) ==> i in Tabs(s, d) || i in more)
    && exists i: nat :: i in more && i !in Tabs(t, d)
  }

  lemma PaidTwice(s: Snapshot, t: Snapshot, u: Snapshot, d: int, a: set<nat>, b: set<nat>)
    requires Paid(s, t, d, a, 0)
    ensures Paid(t, u, d, b, 0) ==> Paid(s, u, d, a + b, 0)
    ensures Short(t, u, d, b) ==> Short(s, u, d, a + b)
  {
  }

  lemma PaidSame(s: Snapshot, t: Snapshot, u: Snapshot, d: int, more: set<nat>)
    requires Paid(s, t, d, more, 0) && u.dirs == t.dirs && u.free == t.free
    ensures Paid(s, u, d, more, 0)
  {
  }

  /** The directory entries of pages x up to y. */
  ghost function PageDirs(x: nat, y: nat): (r: set<nat>)
    ensures forall i: nat :: i in r <==> exists p: nat :: x <= p < y && p / 1024 == i
  {
    set p: nat | x <= p < y :: p / 1024
  }

  lemma PageDirsMore(x: nat, y: nat)
    requires x <= y
    ensures forall i: nat :: i in PageDirs(x, y + 1) <==> i in PageDirs(x, y) || i == y / 1024
  {
  }

  /** The tables that the kernel's part of a directory needs. */
  ghost function KernelDirs(kmap: seq<Region>): set<nat>
    requires KmapOk(kmap)
  {
    if kmap == [] then {}
    else
      var r := kmap[|kmap| - 1];
      KernelDirs(kmap[..|kmap| - 1]) + PageDirs(r.first, r.first + r.count)
  }

  lemma GrewTwice(s: Snapshot, t: Snapshot, u: Snapshot, d: int)
    requires Ok(s) && Grew(s, t, d) && Grew(t, u, d) && forall f :: f in t.free ==> f in s.free
    ensures Grew(s, u, d)
  {
  }

  class Kernel {
    var dirs: Dirs
    var tables: Tables
    var pages: map<int, seq<byte>>
    var free: seq<int>
    ghost var owner: map<int, Role>

    ghost function Now(): Snapshot
      reads this
    {
      Snapshot(dirs, tables, pages, owner, free)
    }

    constructor (s: Snapshot)
      ensures Now() == s
    {
      dirs, tables, pages, free, owner := s.dirs, s.tables, s.pages, s.free, s.owner;
    }

    /** `kalloc`: the head of the free list, or 0. */
    method Kalloc() returns (f: int)
      requires Ok(Now())
      modifies this`free
      ensures f == 0 <==> old(free) == []
      ensures f == 0 ==> free == old(free)
      ensures f != 0 ==> f == old(free)[0] && free == old(free)[1..]
    {
      if free == [] {
        return 0;
      }
      f := free[0];
      free := free[1..];
      assert f in old(free);
    }

    /** `walkpgdir` with allocation: the table for entry i of d, made if it is missing. */
    method WalkAlloc(d: int, i: int) returns (t: int)
      requires Ok(Now()) && d in dirs && 0 <= i < NPDENTRIES
      modifies this`dirs, this`tables, this`free, this`owner
      ensures Ok(Now()) && Grew(old(Now()), Now(), d) && (forall f :: f in free ==> f in old(free))
      ensures d in dirs && pages == old(pages) && forall i, j :: Entry(Now(), d, i, j) == old(Entry(Now(), d, i, j))
      ensures t == 0 <==> i !in old(Tabs(Now(), d)) && old(free) == []
      ensures t == 0 ==> Now() == old(Now())
      ensures t != 0 ==> TableOf(dirs, d, i) == Some(t) && t in tables && Paid(old(Now()), Now(), d, {i}, 0)
    {
      if i in dirs[d] {
        t := dirs[d][i];
        assert TableOf(dirs, d, i) == Some(t);
        return;
      }
      if free == [] {
        return 0;
      }
      NewTable(dirs, tables, pages, owner, free, d, i);
      t := Kalloc();
      tables, dirs, owner := tables[t := map[]], dirs[d := dirs[d][i := t]], owner[t := AsTable(d, i)];
      assert Known(old(Now()), t);
      hide Inv;
      OneMore(old(Tabs(Now(), d)), Tabs(Now(), d), i);
    }

    /** One turn of `mappages`: page 1024 * i + j of d is mapped, unless there is no frame for a table. A user
        page becomes d's; a kernel page is nobody's. The panic on a page already mapped is a precondition. */
    method MapPage(d: int, i: int, j: int, e: Pte) returns (ok: bool)
      requires Ok(Now()) && d in dirs && 0 <= i < NPDENTRIES && 0 <= j < 1024 && Entry(Now(), d, i, j).None?
      requires i < USERDIRS ==> e.frame > 0 && e.frame !in owner && e.frame !in free && e.frame in pages
      modifies this`dirs, this`tables, this`free, this`owner
      ensures Ok(Now()) && d in dirs && pages == old(pages) && forall f :: f in free ==> f in old(free)
      ensures ok <==> i in old(Tabs(Now(), d)) || old(free) != []
      ensures !ok ==> free == [] && Now() == old(Now())
      ensures ok ==> Paid(old(Now()), Now(), d, {i}, 0)
      ensures Mapped(old(Now()), Now(), d, i, j, e, ok)
    {
      hide Inv, Paid, Tabs;
      var t := WalkAlloc(d, i);
      if t == 0 {
        return false;
      }
      ghost var mid := Now();
      assert i < USERDIRS ==> !Known(old(Now()), e.frame) && !Known(mid, e.frame);
      MapsOne(mid, d, i, j, e);
      tables := tables[t := tables[t][j := e]];
      if i < USERDIRS {
        owner := owner[e.frame := AsPage(d, i, j)];
      }
      assert Now() == WithEntry(mid, d, i, j, e);
      PaidSame(old(Now()), mid, Now(), d, {i});
      return true;
    }

    /** `mappages` for a region of the kernel. It may stop half-way for want of a frame. */
    method MapPages(d: int, r: Region) returns (ok: bool)
      requires Ok(Now()) && d in dirs && USERPAGES <= r.first && r.count > 0 && r.first + r.count <= 1048576
      requires forall i, j :: 0 <= j < 1024 && InRegion(r, i, j) ==> Entry(Now(), d, i, j).None?
      modifies this`dirs, this`tables, this`free, this`owner
      ensures Ok(Now()) && d in dirs && pages == old(pages) && Grew(old(Now()), Now(), d)
              && forall f :: f in free ==> f in old(free)
      ensures ok ==> forall i, j :: 0 <= j < 1024 && r.first <= 1024 * i + j < r.first + r.count ==>
              Entry(Now(), d, i, j) == Some(Pte(r.frame + (1024 * i + j - r.first), r.write, false))
      ensures ok ==> forall i, j :: 0 <= j < 1024 && InRegion(r, i, j) ==>
              Entry(Now(), d, i, j) == Some(KernelPte(r, i, j))
      ensures forall i, j :: 0 <= j < 1024 && !InRegion(r, i, j) ==> Entry(Now(), d, i, j) == old(Entry(Now(), d, i, j))
      ensures if ok then Paid(old(Now()), Now(), d, PageDirs(r.first, r.first + r.count), 0)
              else Short(old(Now()), Now(), d, PageDirs(r.first, r.first + r.count))
    {
      hide Inv, Paid, Short, PageDirs;
      NonePaid(Now(), d, r.first);
      var a, last := r.first, r.first + r.count - 1;
      while true
        invariant r.first <= a <= last && Ok(Now()) && d in dirs && pages == old(pages) && Grew(old(Now()), Now(), d)
        invariant forall f :: f in free ==> f in old(free)
        invariant Paid(old(Now()), Now(), d, PageDirs(r.first, a), 0)
        invariant forall i, j :: 0 <= j < 1024 ==>
                    Entry(Now(), d, i, j) == if r.first <= 1024 * i + j < a then Some(KernelPte(r, i, j))
                        else old(Entry(Now(), d, i, j))
        decreases last - a
      {
        var i, j := a / 1024, a % 1024;
        ghost var was := Now();
        ok := MapPage(d, i, j, KernelPte(r, i, j));
        MappedGrew(was, Now(), d, i, j, KernelPte(r, i, j), ok);
        GrewTwice(old(Now()), was, Now(), d);
        if !ok {
          RanShort(old(Now()), was, d, r.first, a, last + 1);
          return;
        }
        PaidPage(old(Now()), was, Now(), d, r.first, a);
        if a == last {
          return;
        }
        a := a + 1;
      }
    }

    /** `setupkvm`: a new directory that maps the kernel and nothing else. When frames run out it returns 0, and
        what it has built so far, the directory x, is not given back. */
    method SetupKvm(kmap: seq<Region>) returns (d: int, ghost x: int)
      requires Ok(Now()) && KmapOk(kmap)
      modifies this`dirs, this`tables, this`free, this`owner
      ensures Ok(Now()) && pages == old(pages) && Grew(old(Now()), Now(), x) && forall f :: f in free ==> f in old(free)
      ensures d == 0 ==> free == []
      ensures d != 0 ==> x == d
      ensures x != 0 ==> x in dirs && x in old(free)
      ensures d != 0 ==> forall i, j :: 0 <= j < 1024 ==> Entry(Now(), d, i, j) == KernelEntry(kmap, i, j)
      ensures d != 0 ==> forall k, i, j ::
                0 <= k < |kmap| && 0 <= j < 1024 && kmap[k].first <= 1024 * i + j < kmap[k].first + kmap[k].count ==>
                Entry(Now(), d, i, j) == Some(Pte(kmap[k].frame + (1024 * i + j - kmap[k].first), kmap[k].write, false))
      ensures d != 0 ==> forall i, j ::
                (0 <= j < 1024
                 && forall k | 0 <= k < |kmap| ::
                      !(kmap[k].first <= 1024 * i + j < kmap[k].first + kmap[k].count)) ==>
                Entry(Now(), d, i, j).None?
      ensures d != 0 <==> |old(free)| >= 1 + |KernelDirs(kmap)|
      ensures x != 0 <==> old(free) != []
      ensures d != 0 ==> |free| == |old(free)| - 1 - |KernelDirs(kmap)| && SameSet(Tabs(Now(), d), KernelDirs(kmap))
    {
      d, x := 0, 0;
      if free == [] {
        return;
      }
      hide Inv;
      var n := NewDirectory();
      x := n;
      ghost var was := Now();
      var ok := MapKernel(n, kmap);
      GrewTwice(old(Now()), was, Now(), n);
      Afforded(was, Now(), n, KernelDirs(kmap), ok);
      KernelEntries(kmap);
      if ok {
        d := n;
      }
    }

    method NewDirectory() returns (d: int)
      requires Ok(Now()) && free != []
      modifies this`dirs, this`free, this`owner
      ensures Ok(Now()) && d in dirs && d != 0 && Grew(old(Now()), Now(), d) && d in old(free)
              && forall f :: f in free ==> f in old(free)
      ensures (forall i, j :: Entry(Now(), d, i, j).None?) && Tabs(Now(), d) == {} && |free| == |old(free)| - 1
    {
      DirAdded(Now());
      assert free[0] in free;
      hide Inv, Grew;
      d := Kalloc();
      dirs, owner := dirs[d := map[]], owner[d := AsDir(d)];
      assert Now() == WithDir(old(Now()));
    }

    /** The loop of `setupkvm`. */
    method MapKernel(d: int, kmap: seq<Region>) returns (ok: bool)
      requires Ok(Now()) && KmapOk(kmap) && d in dirs && forall i, j :: Entry(Now(), d, i, j).None?
      modifies this`dirs, this`tables, this`free, this`owner
      ensures Ok(Now()) && pages == old(pages) && Grew(old(Now()), Now(), d) && d in dirs
              && forall f :: f in free ==> f in old(free)
      ensures ok ==> forall i, j :: 0 <= j < 1024 ==> Entry(Now(), d, i, j) == KernelEntry(kmap, i, j)
      ensures if ok then Paid(old(Now()), Now(), d, KernelDirs(kmap), 0)
              else Short(old(Now()), Now(), d, KernelDirs(kmap))
    {
      hide Inv, Paid, Short, PageDirs;
      NonePaid(Now(), d, 0);
      for k := 0 to |kmap|
        invariant Ok(Now()) && pages == old(pages) && Grew(old(Now()), Now(), d) && d in dirs
        invariant forall f :: f in free ==> f in old(free)
        invariant forall i, j :: 0 <= j < 1024 ==> Entry(Now(), d, i, j) == KernelEntry(kmap[..k], i, j)
        invariant Paid(old(Now()), Now(), d, KernelDirs(kmap[..k]), 0)
      {
        ghost var was := Now();
        forall i, j | 0 <= j < 1024 ensures InRegion(kmap[k], i, j) ==> KernelEntry(kmap[..k], i, j).None? {
          NotBefore(kmap, k, i, j);
        }
        ok := MapPages(d, kmap[k]);
        GrewTwice(old(Now()), was, Now(), d);
        PaidTwice(old(Now()), was, Now(), d, KernelDirs(kmap[..k]),
                  PageDirs(kmap[k].first, kmap[k].first + kmap[k].count));
        assert kmap[..k + 1][..k] == kmap[..k];
        if !ok {
          StillShort(old(Now()), Now(), d, kmap, k + 1);
          return;
        }
      }
      assert kmap[..|kmap|] == kmap;
      ok := true;
    }

    /** `kfree` of the frame under a user page, which `deallocuvm` then unmaps. */
    method FreePage(d: int, i: int, j: int)
      requires Ok(Now()) && 0 <= i < USERDIRS && Entry(Now(), d, i, j).Some?
      modifies this`tables, this`pages, this`free, this`owner
      ensures Ok(Now()) && Shrank(old(Now()), Now(), d)
      ensures forall x, a, b ::
                Entry(Now(), x, a, b) == if x == d && a == i && b == j then None else old(Entry(Now(), x, a, b))
    {
      var t := dirs[d][i];
      var f := tables[t][j].frame;
      PageFreed(dirs, tables, pages, pages[f := Junk()], owner, free, d, i, j);
      EntryCleared(dirs, tables, pages, owner, free, d, i, j);
      hide Inv;
      pages, free, owner := pages[f := Junk()], [f] + free, owner - {f};
      tables := tables[t := tables[t] - {j}];
      assert Known(old(Now()), f);
    }

    /** `deallocuvm` from page lo up to page hi: every page in the range goes, except those that the stride over
        a missing table steps across. */
    method DeallocUvm(d: int, lo: int, hi: int)
      requires Ok(Now()) && d in dirs && 0 <= lo && hi <= USERPAGES
      modifies this`tables, this`pages, this`free, this`owner
      ensures Ok(Now()) && Shrank(old(Now()), Now(), d)
      ensures forall i, j :: 0 <= j < 1024 ==>
              Entry(Now(), d, i, j) == if Cleared(dirs[d], lo, hi, i, j) then None else old(Entry(Now(), d, i, j))
    {
      hide Inv, Missed;
      ghost var dir := dirs[d];
      var a := lo;
      while a < hi
        invariant lo <= a && Ok(Now()) && Shrank(old(Now()), Now(), d)
        invariant Settled(dir, lo, a)
        invariant forall i, j :: 0 <= j < 1024 ==>
                    Entry(Now(), d, i, j) == if Cleared(dir, lo, hi, i, j) && 1024 * i + j < a then None
                        else old(Entry(Now(), d, i, j))
      {
        var i, j := a / 1024, a % 1024;
        Stride(dir, lo, a);
        if i in dirs[d] {
          HasTable(Now(), d, i);
        }
        if i !in dirs[d] {
          a := a + 1023;
        } else if j in tables[dirs[d][i]] {
          ghost var was := Now();
          FreePage(d, i, j);
          ShrankTwice(old(Now()), was, Now(), d);
        }
        a := a + 1;
      }
    }

    /** `kfree` of a table or a directory. */
    method Kfree(f: int)
      modifies this`pages, this`free
      ensures free == [f] + old(free) && pages == old(pages)[f := Junk()]
    {
      pages := pages[f := Junk()];
      free := [f] + free;
    }

    /** One turn of the loop of `freevm`. The directory keeps its entry; v is what is left of the directories. */
    method FreeTable(d: int, i: int, ghost v: Dirs)
      requires Inv(v, tables, pages, owner, free) && d in v && i in v[d] && d in dirs && i in dirs[d]
               && dirs[d][i] == v[d][i]
      requires NoUser(Now().(dirs := v), d)
      modifies this`tables, this`pages, this`free, this`owner
      ensures Inv(v[d := v[d] - {i}], tables, pages, owner, free)
      ensures Dropped(old(Now()).(dirs := v), Now().(dirs := v[d := v[d] - {i}]), d)
      ensures NoUser(Now().(dirs := v[d := v[d] - {i}]), d)
    {
      hide Inv;
      var t := dirs[d][i];
      TableDropped(Now().(dirs := v), d, i);
      Kfree(t);
      tables, owner := tables - {t}, owner - {t};
      assert Now().(dirs := v[d := v[d] - {i}]) == WithoutTable(old(Now()).(dirs := v), d, i);
    }

    /** The loop of `freevm` over the tables. */
    method FreeTables(d: int) returns (ghost v: Dirs)
      requires Ok(Now()) && d in dirs && NoUser(Now(), d)
      modifies this`tables, this`pages, this`free, this`owner
      ensures Inv(v, tables, pages, owner, free) && Dropped(old(Now()), Now().(dirs := v), d)
      ensures v.Keys == dirs.Keys && v - {d} == dirs - {d} && d in v && v[d].Keys == {}
    {
      Beyond(Now(), d);
      hide Inv, NoUser;
      v := dirs;
      for i := 0 to NPDENTRIES
        invariant Inv(v, tables, pages, owner, free) && Dropped(old(Now()), Now().(dirs := v), d)
        invariant v.Keys == dirs.Keys && v - {d} == dirs - {d} && d in v
        invariant (forall k :: k in v[d] <==> k in dirs[d] && k >= i)
                  && (forall k :: k in v[d] ==> v[d][k] == dirs[d][k])
        invariant NoUser(Now().(dirs := v), d)
      {
        if i in dirs[d] {
          ghost var was := Now().(dirs := v);
          FreeTable(d, i, v);
          v := v[d := v[d] - {i}];
          DroppedTwice(old(Now()), was, Now().(dirs := v), d);
        }
      }
      assert forall k :: k !in v[d];
      assert v[d].Keys == {};
    }

    /** `freevm`: every frame of d, its user pages, its tables and itself, goes back to the free list, once, and
        nothing else changes hands. */
    method FreeVm(d: int)
      requires Ok(Now()) && d in dirs
      modifies this
      ensures Ok(Now()) && d !in dirs && Dropped(old(Now()), Now(), d)
      ensures forall f :: f in owner <==> f in old(owner) && old(owner)[f].d != d
    {
      DeallocUvm(d, 0, USERPAGES);
      AllCleared(old(Now()), Now(), d);
      ghost var was := Now();
      ghost var v := FreeTables(d);
      ghost var bare := Now().(dirs := v);
      DroppedTwice(old(Now()), was, bare, d);
      DirDropped(bare, d);
      hide Inv;
      Kfree(d);
      dirs, owner := dirs - {d}, owner - {d};
      assert Now() == WithoutDir(bare, d);
      DroppedTwice(old(Now()), bare, Now(), d);
    }

    /** One turn of the loop of `copyuvm`: a fresh frame with the contents of the parent's page. When there is a
        frame for the page but none for the table it needs, that frame is lost. */
    method CopyPage(p: int, d: int, i: int, j: int) returns (r: Copied, ghost lost: Option<int>)
      requires Ok(Now()) && d in dirs && p != d && 0 <= i < USERDIRS && 0 <= j < 1024
      requires Entry(Now(), p, i, j).Some? && Entry(Now(), d, i, j).None?
      modifies this
      ensures Ok(Now()) && d in dirs && forall f :: f in free ==> f in old(free)
      ensures r == Done ==> Grew(old(Now()), Now(), d) && CopyOf(Now(), d, i, j, old(Now()), p)
      ensures forall a, b :: a != i || b != j ==> Entry(Now(), d, a, b) == old(Entry(Now(), d, a, b))
      ensures r != Done ==> Lost(old(Now()), Now(), lost) && free == []
      ensures r == Done ==> lost.None? && Paid(old(Now()), Now(), d, {i}, 1)
      ensures r == NoFrame <==> old(free) == []
      ensures r == NoFrame ==> lost.None?
      ensures r == NoTable <==> |old(free)| == 1 && i !in old(Tabs(Now(), d))
      ensures r == NoTable ==> lost == Some(old(free)[0])
    {
      hide Inv;
      lost := None;
      if free == [] {
        return NoFrame, None;
      }
      var e := tables[dirs[p][i]][j];
      Source(Now(), p, i, j);
      var mem := Kalloc();
      pages := pages[mem := pages[e.frame]];
      Popped(old(Now()), pages[mem]);
      ghost var was := Now();
      assert was == Popping(old(Now()), pages[mem]);
      hide Grew, Lost, Mapped;
      var ok := MapPage(d, i, j, Pte(mem, true, true));
      assert forall a, b :: Entry(was, d, a, b) == old(Entry(Now(), d, a, b));
      MappedEntries(was, Now(), d, i, j, Pte(mem, true, true), ok);
      if !ok {
        PoppedLost(old(Now()), pages[mem]);
        return NoTable, Some(mem);
      }
      CopyGrew(old(Now()), was, Now(), d, i, j, Pte(mem, true, true));
      return Done, None;
    }

    /** `copyuvm`: a new address space whose user pages are exactly the first sz bytes' worth, each on a fresh frame
        of its own with the parent's contents; the parent keeps all it had. It succeeds exactly when there are frames
        for the directory, the kernel's tables, the pages and their tables. Otherwise 0: then what was built is given
        back, except for `lost`, a page without a table, exactly when one frame was left where a table was due; or,
        exactly when there were some frames but not enough for the kernel's part, that part, directory x, stays in
        use. */
    method CopyUvm(p: int, sz: nat, kmap: seq<Region>) returns (d: int, ghost x: int, ghost lost: Option<int>)
      requires Ok(Now()) && p in dirs && KmapOk(kmap) && sz <= 4096 * USERPAGES
      requires forall i, j :: 0 <= j < 1024 && InSize(sz, i, j) ==> Entry(Now(), p, i, j).Some?
      modifies this
      ensures Ok(Now()) && (lost.Some? ==> lost.value in old(free))
      ensures d != 0 <==> |old(free)| >= KernelFrames(kmap) + UserFrames(PagesOf(sz))
      ensures x != 0 <==> 0 < |old(free)| < KernelFrames(kmap)
      ensures lost.Some? <==> OneFrameLeft(|old(free)| - KernelFrames(kmap), PagesOf(sz))
      ensures d != 0 ==> d in dirs && d in old(free) && Grew(old(Now()), Now(), d)
      ensures d != 0 ==> forall i, j :: 0 <= i < USERDIRS && 0 <= j < 1024 ==>
                if 4096 * (1024 * i + j) < sz then CopyOf(Now(), d, i, j, old(Now()), p)
                else Entry(Now(), d, i, j).None?
      ensures d != 0 ==>
              forall i, j :: USERDIRS <= i && 0 <= j < 1024 ==> Entry(Now(), d, i, j) == KernelEntry(kmap, i, j)
      ensures d != 0 ==> forall k, i, j ::
                0 <= k < |kmap| && 0 <= j < 1024 && kmap[k].first <= 1024 * i + j < kmap[k].first + kmap[k].count ==>
                Entry(Now(), d, i, j) == Some(Pte(kmap[k].frame + (1024 * i + j - kmap[k].first), kmap[k].write, false))
      ensures d != 0 ==> forall i, j ::
                (USERDIRS <= i && 0 <= j < 1024
                 && forall k | 0 <= k < |kmap| ::
                      !(kmap[k].first <= 1024 * i + j < kmap[k].first + kmap[k].count)) ==>
                Entry(Now(), d, i, j).None?
      ensures d == 0 && x != 0 ==> Grew(old(Now()), Now(), x) && x in dirs && x in old(free) && free == []
      ensures d == 0 && x == 0 ==> Lost(old(Now()), Now(), lost)
    {
      hide Inv, CopyOf, Grew, Lost;
      d, x := SetupKvm(kmap);
      lost := None;
      if d == 0 {
        NoneLeftOver(|old(free)| - KernelFrames(kmap), PagesOf(sz));
        if x == 0 {
          NothingGrew(old(Now()), Now());
        }
        return;
      }
      x := 0;
      Starts(old(Now()), Now(), p, d, kmap);
      d, lost := CopyPages(p, d, sz, kmap, old(Now()));
      if d != 0 {
        Finished(old(Now()), Now(), p, d, kmap, sz);
        KernelEntries(kmap);
      }
    }

    /** One turn of the loop of `copyuvm`, with `bad` if it comes to that. */
    method CopyNext(p: int, d: int, n: nat, kmap: seq<Region>, ghost s: Snapshot)
        returns (c: Copied, ghost lost: Option<int>)
      requires UnderWay(s, Now(), p, d, n, kmap) && n < USERPAGES && Entry(s, p, n / 1024, n % 1024).Some?
      modifies this
      ensures c == NoFrame <==> old(free) == []
      ensures c == NoTable <==> |old(free)| == 1 && n % 1024 == 0
      ensures c == Done ==>
              lost.None? && UnderWay(s, Now(), p, d, n + 1, kmap)
                  && |free| == |old(free)| + UserFrames(n) - UserFrames(n + 1)
      ensures c != Done ==> Ok(Now()) && Lost(s, Now(), lost)
      ensures lost == if c == NoTable then Some(old(free)[0]) else None
      ensures lost.Some? ==> lost.value in s.free
    {
      hide UnderWay, Inv, CopyOf, Lost, Paid, Grew, Dropped, Walk, Tabs;
      var i, j := n / 1024, n % 1024;
      ghost var was := Now();
      CopyCan(s, was, p, d, n, kmap);
      FirstFrame(s, was, p, d, n, kmap);
      c, lost := CopyPage(p, d, i, j);
      if c == Done {
        CopiedOne(s, was, Now(), p, d, n, kmap);
      } else {
        ghost var mid := Now();
        FreeVm(d);
        GivesBack(s, was, mid, Now(), p, d, n, kmap, lost);
      }
    }

    /** The loop of `copyuvm`, into directory d that has the kernel's part. */
    method CopyPages(p: int, d: int, sz: nat, kmap: seq<Region>, ghost s: Snapshot)
        returns (r: int, ghost lost: Option<int>)
      requires UnderWay(s, Now(), p, d, 0, kmap) && d != 0 && sz <= 4096 * USERPAGES
      requires forall i, j :: 0 <= j < 1024 && InSize(sz, i, j) ==> Entry(s, p, i, j).Some?
      modifies this
      ensures Ok(Now()) && (r == d || r == 0) && (lost.Some? ==> lost.value in s.free)
      ensures r != 0 <==> |old(free)| >= UserFrames(PagesOf(sz))
      ensures lost.Some? <==> OneFrameLeft(|old(free)|, PagesOf(sz))
      ensures r != 0 ==> UnderWay(s, Now(), p, d, PagesOf(sz), kmap)
      ensures r == 0 ==> Lost(s, Now(), lost)
    {
      hide UnderWay, Inv, Lost;
      lost := None;
      var n := 0;
      while 4096 * n < sz
        invariant 0 <= n && (n == 0 || 4096 * (n - 1) < sz) && lost.None?
        invariant UnderWay(s, Now(), p, d, n, kmap) && |free| == |old(free)| - UserFrames(n)
      {
        assert InSize(sz, n / 1024, n % 1024);
        var c;
        c, lost := CopyNext(p, d, n, kmap, s);
        FramesUpTo(n, PagesOf(sz), |old(free)|, c);
        if c != Done {
          return 0, lost;
        }
        n := n + 1;
      }
      AllPages(n, sz);
      UnderWayOk(s, Now(), p, d, n, kmap);
      return d, None;
    }

    /** Page conservation: a copy succeeds exactly when there are frames for it, and after it and its end the free list
        has the frames it had, no more and no fewer. */
    method CopyAndFree(p: int, sz: nat, kmap: seq<Region>) returns (d: int)
      requires Ok(Now()) && p in dirs && KmapOk(kmap) && sz <= 4096 * USERPAGES
      requires forall i, j :: 0 <= j < 1024 && InSize(sz, i, j) ==> Entry(Now(), p, i, j).Some?
      modifies this
      ensures d != 0 <==> |old(free)| >= KernelFrames(kmap) + UserFrames(PagesOf(sz))
      ensures Ok(Now()) && (d != 0 ==> Lost(old(Now()), Now(), None) && forall f :: f in free <==> f in old(free))
    {
      hide CopyOf;
      ghost var x, lost;
      d, x, lost := CopyUvm(p, sz, kmap);
      if d != 0 {
        ghost var was := Now();
        FreeVm(d);
        Fresh(old(Now()), d, p);
        NothingLost(was);
        GaveBack(old(Now()), was, was, Now(), d, None);
        SameFree(old(Now()), Now());
      }
    }
  }

  predicate InSize(sz: int, i: int, j: int) {
    0 <= i && 4096 * (1024 * i + j) < sz
  }

  /** The first n pages are copied. */
  ghost predicate Half(s: Snapshot, t: Snapshot, p: int, d: int, n: int, kmap: seq<Region>) {
    && (forall i, j :: 0 <= i < USERDIRS && 0 <= j < 1024 ==>
        if 1024 * i + j < n then CopyOf(t, d, i, j, s, p) else Entry(t, d, i, j).None?)
    && (forall i, j :: USERDIRS <= i && 0 <= j < 1024 ==> Entry(t, d, i, j) == KernelEntry(kmap, i, j))
  }

  // ---- How many frames ----------------------------------------------------------------------------

  ghost predicate SameSet(a: set<nat>, b: set<nat>) {
    forall i: nat :: i in a <==> i in b
  }

  /** The directory and the kernel's tables. */
  ghost function KernelFrames(kmap: seq<Region>): nat
    requires KmapOk(kmap)
  {
    1 + |KernelDirs(kmap)|
  }

  function PagesOf(sz: nat): nat {
    (sz + 4095) / 4096
  }

  /** Pages and the tables they need, 1024 pages to a table. */
  function UserFrames(n: nat): nat {
    n + (n + 1023) / 1024
  }

  /** The frames for user pages suffice for k full tables and one page more, but not for the table of that page. */
  predicate OneFrameLeft(frames: int, n: nat) {
    frames > 0 && frames % 1025 == 1 && 1024 * (frames / 1025) < n
  }

  /** Entries below the next page's have tables, and the next one has just if the page is not its first. */
  ghost predicate TableDue(s: Snapshot, d: int, n: nat) {
    forall i: nat :: i < USERDIRS ==> (i in Tabs(s, d) <==> 1024 * i < n)
  }

  lemma NonePaid(s: Snapshot, d: int, x: nat)
    ensures Paid(s, s, d, PageDirs(x, x), 0) && Paid(s, s, d, {}, 0)
  {
  }

  lemma PaidPage(s: Snapshot, t: Snapshot, u: Snapshot, d: int, x: nat, a: nat)
    requires Paid(s, t, d, PageDirs(x, a), 0) && Paid(t, u, d, {a / 1024}, 0) && x <= a
    ensures Paid(s, u, d, PageDirs(x, a + 1), 0)
  {
    PageDirsMore(x, a);
    hide PageDirs;
  }

  lemma RanShort(s: Snapshot, t: Snapshot, d: int, x: nat, a: nat, y: nat)
    requires Paid(s, t, d, PageDirs(x, a), 0) && t.free == [] && a / 1024 !in Tabs(t, d) && x <= a < y
    ensures Short(s, t, d, PageDirs(x, y))
  {
    assert a / 1024 in PageDirs(x, y);
    forall i: nat | i in PageDirs(x, a) ensures i in PageDirs(x, y) {
    }
  }

  lemma {:induction false} KernelDirsMore(kmap: seq<Region>, k: nat)
    requires KmapOk(kmap) && k <= |kmap|
    ensures forall i: nat :: i in KernelDirs(kmap[..k]) ==> i in KernelDirs(kmap)
    decreases |kmap|
  {
    if k < |kmap| {
      KernelDirsMore(kmap[..|kmap| - 1], k);
      assert kmap[..|kmap| - 1][..k] == kmap[..k];
    } else {
      assert kmap[..k] == kmap;
    }
  }

  lemma StillShort(s: Snapshot, t: Snapshot, d: int, kmap: seq<Region>, k: nat)
    requires KmapOk(kmap) && k <= |kmap| && Short(s, t, d, KernelDirs(kmap[..k]))
    ensures Short(s, t, d, KernelDirs(kmap))
  {
    KernelDirsMore(kmap, k);
  }

  /** From no tables at all, there is one for each of `more` exactly when there were frames for all of them. */
  lemma Afforded(s: Snapshot, t: Snapshot, d: int, more: set<nat>, ok: bool)
    requires Tabs(s, d) == {} && if ok then Paid(s, t, d, more, 0) else Short(s, t, d, more)
    ensures ok <==> |s.free| >= |more|
    ensures ok ==> |t.free| == |s.free| - |more| && SameSet(Tabs(t, d), more)
    ensures !ok ==> t.free == []
  {
    SubsetSize(Tabs(t, d), more);
    if ok {
      SubsetSize(more, Tabs(t, d));
    }
  }

  lemma {:induction false} KernelDirsHigh(kmap: seq<Region>)
    requires KmapOk(kmap)
    ensures forall i: nat :: i in KernelDirs(kmap) ==> i >= USERDIRS
  {
    if kmap != [] {
      KernelDirsHigh(kmap[..|kmap| - 1]);
    }
  }

  lemma UserDue(s: Snapshot, d: int, kmap: seq<Region>)
    requires KmapOk(kmap) && SameSet(Tabs(s, d), KernelDirs(kmap))
    ensures TableDue(s, d, 0)
  {
    KernelDirsHigh(kmap);
  }

  lemma NoUserYet(kmap: seq<Region>)
    requires KmapOk(kmap)
    ensures forall i, j :: 0 <= i < USERDIRS && 0 <= j < 1024 ==> KernelEntry(kmap, i, j).None?
  {
    forall i, j | 0 <= i < USERDIRS && 0 <= j < 1024 ensures KernelEntry(kmap, i, j).None? {
      NotIn(kmap, i, j);
    }
  }

  lemma PaidUser(s: Snapshot, t: Snapshot, d: int, n: nat)
    requires Paid(s, t, d, {n / 1024}, 1) && TableDue(s, d, n) && n < USERPAGES
    ensures TableDue(t, d, n + 1) && |t.free| == |s.free| - UserFrames(n + 1) + UserFrames(n)
  {
    var i := n / 1024;
    if n % 1024 == 0 {
      assert i !in Tabs(s, d);
      OneMore(Tabs(s, d), Tabs(t, d), i);
    } else {
      assert i in Tabs(s, d);
      SubsetSize(Tabs(s, d), Tabs(t, d));
      SubsetSize(Tabs(t, d), Tabs(s, d));
    }
  }

  lemma OneMore(a: set<nat>, b: set<nat>, x: nat)
    requires x !in a && forall i: nat :: i in b <==> i in a || i == x
    ensures |b| == |a| + 1
  {
    SubsetSize(b, a + {x});
    SubsetSize(a + {x}, b);
  }

  lemma UserFramesGrow(a: nat, b: nat)
    requires a <= b
    ensures UserFrames(a) <= UserFrames(b)
  {
  }

  /** 1025 frames for each full table. */
  lemma UserFramesMod(n: nat)
    ensures UserFrames(n) == 1025 * (n / 1024) + if n % 1024 == 0 then 0 else n % 1024 + 1
  {
  }

  /** What the outcome for page n says about the frames there were for user pages. */
  lemma FramesUpTo(n: nat, all: nat, frames: nat, c: Copied)
    requires n < all && UserFrames(n) <= frames
    requires c == NoFrame <==> frames == UserFrames(n)
    requires c == NoTable <==> frames == UserFrames(n) + 1 && n % 1024 == 0
    ensures c != Done ==> frames < UserFrames(all)
    ensures c == NoFrame ==> !OneFrameLeft(frames, all)
    ensures c == NoTable ==> OneFrameLeft(frames, all)
  {
    UserFramesGrow(n + 1, all);
    UserFramesMod(n);
    UserFramesMod(n + 1);
    hide UserFrames;
  }

  lemma NoneLeftOver(frames: int, n: nat)
    requires frames < 0
    ensures !OneFrameLeft(frames, n)
  {
  }

  /** All pages are done, and what was enough for all of them never ran down to one at a missing table. */
  lemma AllPages(n: nat, sz: nat)
    requires 4096 * n >= sz && (n == 0 || 4096 * (n - 1) < sz)
    ensures n == PagesOf(sz) && forall frames: nat :: frames >= UserFrames(n) ==> !OneFrameLeft(frames, n)
  {
  }

  /** A copy of p into d has got n pages far. */
  ghost predicate UnderWay(s: Snapshot, t: Snapshot, p: int, d: int, n: nat, kmap: seq<Region>) {
    && Ok(s) && Ok(t) && p in s.dirs && d in s.free && d in t.dirs && Grew(s, t, d)
         && (forall f :: f in t.free ==> f in s.free)
    && Half(s, t, p, d, n, kmap) && TableDue(t, d, n)
  }

  lemma UnderWayOk(s: Snapshot, t: Snapshot, p: int, d: int, n: nat, kmap: seq<Region>)
    requires UnderWay(s, t, p, d, n, kmap)
    ensures Ok(t)
  {
  }

  lemma Starts(s: Snapshot, t: Snapshot, p: int, d: int, kmap: seq<Region>)
    requires Ok(s) && Ok(t) && p in s.dirs && d in s.free && d in t.dirs && Grew(s, t, d)
             && (forall f :: f in t.free ==> f in s.free)
    requires KmapOk(kmap) && SameSet(Tabs(t, d), KernelDirs(kmap))
    requires forall i, j :: 0 <= j < 1024 ==> Entry(t, d, i, j) == KernelEntry(kmap, i, j)
    ensures UnderWay(s, t, p, d, 0, kmap)
  {
    NoUserYet(kmap);
    UserDue(t, d, kmap);
    hide Inv, Grew;
  }

  lemma CopyCan(s: Snapshot, t: Snapshot, p: int, d: int, n: nat, kmap: seq<Region>)
    requires UnderWay(s, t, p, d, n, kmap) && n < USERPAGES && Entry(s, p, n / 1024, n % 1024).Some?
    ensures Ok(t) && d in t.dirs && p != d && Entry(t, p, n / 1024, n % 1024).Some?
            && Entry(t, d, n / 1024, n % 1024).None?
    ensures n / 1024 in Tabs(t, d) <==> n % 1024 != 0
  {
    Fresh(s, d, p);
    StillThere(s, t, p, d, n / 1024, n % 1024);
    hide Inv, Grew;
    assert 0 <= n / 1024 < USERDIRS;
  }

  lemma FirstFrame(s: Snapshot, t: Snapshot, p: int, d: int, n: nat, kmap: seq<Region>)
    requires UnderWay(s, t, p, d, n, kmap)
    ensures t.free != [] ==> t.free[0] in s.free
  {
    hide Inv, Grew, Half, TableDue;
    if t.free != [] {
      var f := t.free[0];
      assert f in t.free && f in s.free;
    }
  }

  lemma CopiedOne(s: Snapshot, t: Snapshot, u: Snapshot, p: int, d: int, n: nat, kmap: seq<Region>)
    requires UnderWay(s, t, p, d, n, kmap) && n < USERPAGES && Ok(u) && d in u.dirs
             && (forall f :: f in u.free ==> f in t.free)
    requires Grew(t, u, d) && CopyOf(u, d, n / 1024, n % 1024, t, p) && Paid(t, u, d, {n / 1024}, 1)
    requires forall a, b :: a != n / 1024 || b != n % 1024 ==> Entry(u, d, a, b) == Entry(t, d, a, b)
    ensures UnderWay(s, u, p, d, n + 1, kmap) && |u.free| == |t.free| + UserFrames(n) - UserFrames(n + 1)
  {
    Fresh(s, d, p);
    hide Inv, Grew, CopyOf, Paid, TableDue, Half;
    HalfMore(s, t, u, p, d, n, kmap);
    GrewTwice(s, t, u, d);
    PaidUser(t, u, d, n);
  }

  lemma GivesBack(s: Snapshot, t: Snapshot, u: Snapshot, v: Snapshot, p: int, d: int, n: nat, kmap: seq<Region>,
                  lost: Option<int>)
    requires UnderWay(s, t, p, d, n, kmap) && Lost(t, u, lost) && Dropped(u, v, d) && d !in v.dirs
    requires forall f :: f in v.owner <==> f in u.owner && u.owner[f].d != d
    ensures Lost(s, v, lost)
  {
    Fresh(s, d, p);
    GaveBack(s, t, u, v, d, lost);
  }

  lemma Finished(s: Snapshot, t: Snapshot, p: int, d: int, kmap: seq<Region>, sz: nat)
    requires UnderWay(s, t, p, d, PagesOf(sz), kmap)
    ensures Ok(t) && d in t.dirs && d in s.free && Grew(s, t, d)
    ensures forall i, j :: 0 <= i < USERDIRS && 0 <= j < 1024 ==>
              if InSize(sz, i, j) then CopyOf(t, d, i, j, s, p) else Entry(t, d, i, j).None?
    ensures forall i, j :: USERDIRS <= i && 0 <= j < 1024 ==> Entry(t, d, i, j) == KernelEntry(kmap, i, j)
  {
    hide Inv, Grew, CopyOf;
    HalfIsAll(s, t, p, d, PagesOf(sz), kmap, sz);
  }

  lemma StillThere(s: Snapshot, t: Snapshot, p: int, d: int, i: int, j: int)
    requires Grew(s, t, d) && p != d && Entry(s, p, i, j).Some?
    ensures Entry(t, p, i, j) == Entry(s, p, i, j)
  {
  }

  datatype Copied = Done | NoFrame | NoTable

  /** Page (i, j) of d in t has the contents of the page of p in s, on a writable frame of its own. */
  ghost predicate CopyOf(t: Snapshot, d: int, i: int, j: int, s: Snapshot, p: int) {
    var e, g := Entry(s, p, i, j), Entry(t, d, i, j);
    && e.Some? && g.Some? && g.value.write && g.value.user
    && g.value.frame in s.free && g.value.frame in t.pages && e.value.frame in s.pages
    && t.pages[g.value.frame] == s.pages[e.value.frame]
  }

  /** From s to t nothing has come into use, and the frame that is lost, if one is, has gone from the free list. */
  ghost predicate Lost(s: Snapshot, t: Snapshot, lost: Option<int>) {
    && (forall f :: f in t.owner <==> f in s.owner) && (forall f :: f in s.owner ==> t.owner[f] == s.owner[f])
    && (forall f :: Known(t, f) <==> Known(s, f) && lost != Some(f))
    && (forall x, i, j :: Entry(t, x, i, j) == Entry(s, x, i, j))
    && (forall f :: f in s.owner && f in s.pages ==> f in t.pages && t.pages[f] == s.pages[f])
  }

  lemma Source(s: Snapshot, p: int, i: int, j: int)
    requires Ok(s) && i < USERDIRS && Entry(s, p, i, j).Some?
    ensures Entry(s, p, i, j).value.frame in s.pages && Entry(s, p, i, j).value.frame !in s.free
  {
  }

  lemma Popped(s: Snapshot, bytes: seq<byte>)
    requires Ok(s) && s.free != []
    ensures var f := s.free[0];
            && f !in s.owner && f !in s.free[1..] && f > 0
            && Ok(s.(free := s.free[1..], pages := s.pages[f := bytes]))
  {
    Pop(s.free);
    assert s.free[0] in s.free;
    hide Distinct;
  }

  ghost function Popping(s: Snapshot, bytes: seq<byte>): Snapshot
    requires s.free != []
  {
    s.(free := s.free[1..], pages := s.pages[s.free[0] := bytes])
  }

  lemma MappedEntries(s: Snapshot, t: Snapshot, d: int, i: int, j: int, e: Pte, ok: bool)
    requires Mapped(s, t, d, i, j, e, ok)
    ensures forall a, b :: Entry(t, d, a, b) == if ok && a == i && b == j then Some(e) else Entry(s, d, a, b)
  {
  }

  lemma PoppedLost(s: Snapshot, bytes: seq<byte>)
    requires Ok(s) && s.free != []
    ensures Lost(s, Popping(s, bytes), Some(s.free[0]))
  {
  }

  lemma CopyGrew(s: Snapshot, w: Snapshot, t: Snapshot, d: int, i: int, j: int, e: Pte)
    requires Ok(s) && s.free != [] && e.frame == s.free[0] && i < USERDIRS && t.pages == w.pages
    requires w.pages.Keys == s.pages.Keys + {e.frame} && w == Popping(s, w.pages[e.frame])
             && Mapped(w, t, d, i, j, e, true)
    ensures Grew(s, t, d)
  {
  }

  ghost function WithDir(s: Snapshot): Snapshot
    requires s.free != []
  {
    var d := s.free[0];
    s.(dirs := s.dirs[d := map[]], owner := s.owner[d := AsDir(d)], free := s.free[1..])
  }

  lemma DirAdded(s: Snapshot)
    requires Ok(s) && s.free != []
    ensures var t, d := WithDir(s), s.free[0];
            && d != 0 && Ok(t) && Grew(s, t, d) && (forall f :: f in t.free ==> f in s.free)
            && (forall i, j :: Entry(t, d, i, j).None?) && Tabs(t, d) == {}
  {
    var t, d := WithDir(s), s.free[0];
    NewDir(s.dirs, s.tables, s.pages, s.owner, s.free);
    Pop(s.free);
    assert d in s.free && Known(s, d);
    forall x, i, j ensures Entry(t, x, i, j) == Entry(s, x, i, j) {
    }
    assert forall i, j :: Entry(t, d, i, j).None?;
    hide Inv, Distinct;
  }

  ghost function WithoutDir(s: Snapshot, d: int): Snapshot
    requires d in s.dirs
  {
    Snapshot(s.dirs - {d}, s.tables, s.pages[d := Junk()], s.owner - {d}, [d] + s.free)
  }

  lemma DirDropped(s: Snapshot, d: int)
    requires Ok(s) && d in s.dirs && s.dirs[d].Keys == {}
    ensures var t := WithoutDir(s, d);
            Ok(t) && Dropped(s, t, d) && forall f :: f in t.owner ==> t.owner[f].d != d
  {
    var t := WithoutDir(s, d);
    DirFreed(s.dirs, s.tables, s.pages, s.pages[d := Junk()], s.owner, s.free, d);
    NoneLeft(t, d);
    hide Inv;
    assert Known(s, d);
    forall x, a, b ensures Entry(t, x, a, b) == Entry(s, x, a, b) {
    }
  }

  /** From s to t directory d has given frames back: the free list has them, and others have lost nothing. */
  ghost predicate Dropped(s: Snapshot, t: Snapshot, d: int) {
    && (forall x, i, j :: x != d ==> Entry(t, x, i, j) == Entry(s, x, i, j))
    && (forall f :: Known(t, f) <==> Known(s, f))
    && (forall f :: f in t.owner ==> f in s.owner && t.owner[f] == s.owner[f])
    && (forall f :: f in s.owner && f !in t.owner ==> s.owner[f].d == d)
    && (forall f :: f in t.owner && f in s.pages ==> f in t.pages && t.pages[f] == s.pages[f])
  }

  lemma DroppedTwice(s: Snapshot, t: Snapshot, u: Snapshot, d: int)
    requires (Dropped(s, t, d) || Shrank(s, t, d)) && Dropped(t, u, d)
    ensures Dropped(s, u, d)
  {
  }

  ghost predicate NoUser(s: Snapshot, d: int) {
    forall i, j :: i < USERDIRS ==> Entry(s, d, i, j).None?
  }

  lemma NoUserWalk(s: Snapshot, d: int, i: int)
    requires NoUser(s, d)
    ensures i < USERDIRS ==> forall j :: Walk(s.dirs, s.tables, d, i, j).None?
  {
    if i < USERDIRS {
      forall j ensures Walk(s.dirs, s.tables, d, i, j).None? {
        assert Entry(s, d, i, j).None?;
      }
    }
  }

  ghost function WithoutTable(s: Snapshot, d: int, i: int): Snapshot
    requires d in s.dirs && i in s.dirs[d]
  {
    var t := s.dirs[d][i];
    Snapshot(s.dirs[d := s.dirs[d] - {i}], s.tables - {t}, s.pages[t := Junk()], s.owner - {t}, [t] + s.free)
  }

  lemma TableDropped(s: Snapshot, d: int, i: int)
    requires Ok(s) && d in s.dirs && i in s.dirs[d] && NoUser(s, d)
    ensures Ok(WithoutTable(s, d, i)) && Dropped(s, WithoutTable(s, d, i), d) && NoUser(WithoutTable(s, d, i), d)
  {
    var t, u := s.dirs[d][i], WithoutTable(s, d, i);
    NoUserWalk(s, d, i);
    TableFreed(s.dirs, s.tables, s.pages, s.pages[t := Junk()], s.owner, s.free, d, i);
    hide Inv;
    assert Known(s, t);
    forall x, a, b ensures Entry(u, x, a, b) == if x == d && a == i then None else Entry(s, x, a, b) {
    }
  }

  /** Taken from page 0 on, the stride misses nothing. */
  lemma AllCleared(s: Snapshot, t: Snapshot, d: int)
    requires Ok(s) && d in s.dirs && Ok(t)
    requires forall i, j :: 0 <= j < 1024 ==>
             Entry(t, d, i, j) == if Cleared(s.dirs[d], 0, USERPAGES, i, j) then None else Entry(s, d, i, j)
    ensures NoUser(t, d)
  {
  }

  lemma Beyond(s: Snapshot, d: int)
    requires Ok(s) && d in s.dirs
    ensures forall k :: k in s.dirs[d] ==> 0 <= k < NPDENTRIES
  {
    assert forall k :: k in s.dirs[d] ==> TableOf(s.dirs, d, k).Some?;
  }

  lemma NoneLeft(s: Snapshot, d: int)
    requires Ok(s) && d !in s.dirs
    ensures forall f :: f in s.owner ==> s.owner[f].d != d
  {
  }

  lemma HasTable(s: Snapshot, d: int, i: int)
    requires Ok(s) && d in s.dirs && i in s.dirs[d]
    ensures s.dirs[d][i] in s.tables
  {
    assert TableOf(s.dirs, d, i).Some?;
  }

  function Junk(): seq<byte> {
    seq(4096, _ => 1)
  }

  /** From s to t only directory d has lost frames, to the free list. */
  ghost predicate Shrank(s: Snapshot, t: Snapshot, d: int) {
    && t.dirs == s.dirs
    && (forall x, i, j :: x != d ==> Entry(t, x, i, j) == Entry(s, x, i, j))
    && (forall f :: Known(t, f) <==> Known(s, f))
    && (forall f :: f in t.owner ==> f in s.owner && t.owner[f] == s.owner[f])
    && (forall f :: f in s.owner && f !in t.owner ==> s.owner[f].AsPage? && s.owner[f].d == d)
    && (forall f :: f in t.owner && f in s.pages ==> f in t.pages && t.pages[f] == s.pages[f])
  }

  lemma ShrankTwice(s: Snapshot, t: Snapshot, u: Snapshot, d: int)
    requires Shrank(s, t, d) && Shrank(t, u, d)
    ensures Shrank(s, u, d)
  {
  }

  /** Which entry a kernel's map puts at (i, j). */
  ghost function KernelEntry(kmap: seq<Region>, i: int, j: int): Option<Pte> {
    if kmap == [] then None
    else
      var r := kmap[|kmap| - 1];
      if InRegion(r, i, j) then Some(KernelPte(r, i, j)) else KernelEntry(kmap[..|kmap| - 1], i, j)
  }

  /** What the entries are: consecutive frames in each region, with its write bit and without the user's, and nothing
      outside. */
  lemma KernelEntries(kmap: seq<Region>)
    requires KmapOk(kmap)
    ensures forall k, i, j ::
              0 <= k < |kmap| && 0 <= j < 1024 && kmap[k].first <= 1024 * i + j < kmap[k].first + kmap[k].count ==>
              KernelEntry(kmap, i, j) == Some(Pte(kmap[k].frame + (1024 * i + j - kmap[k].first), kmap[k].write, false))
              && i >= USERDIRS
    ensures forall i, j ::
              (0 <= j < 1024
               && forall k :: 0 <= k < |kmap| ==> !(kmap[k].first <= 1024 * i + j < kmap[k].first + kmap[k].count)) ==>
              KernelEntry(kmap, i, j).None?
  {
    forall k, i, j | 0 <= k < |kmap| && 0 <= j < 1024 && kmap[k].first <= 1024 * i + j < kmap[k].first + kmap[k].count
      ensures i >= USERDIRS
      ensures KernelEntry(kmap, i, j) == Some(Pte(kmap[k].frame + (1024 * i + j - kmap[k].first), kmap[k].write, false))
    {
      KernelEntryAt(kmap, k, i, j);
    }
    forall i, j | 0 <= j < 1024
        && (forall k :: 0 <= k < |kmap| ==> !(kmap[k].first <= 1024 * i + j < kmap[k].first + kmap[k].count))
      ensures KernelEntry(kmap, i, j).None?
    {
      NotIn(kmap, i, j);
    }
  }

  lemma {:induction false} KernelEntryAt(kmap: seq<Region>, k: nat, i: int, j: int)
    requires KmapOk(kmap) && k < |kmap| && kmap[k].first <= 1024 * i + j < kmap[k].first + kmap[k].count
    ensures KernelEntry(kmap, i, j) == Some(Pte(kmap[k].frame + (1024 * i + j - kmap[k].first), kmap[k].write, false))
  {
    var n := |kmap| - 1;
    if k < n {
      KernelEntryAt(kmap[..n], k, i, j);
    }
  }

  lemma {:induction false} NotIn(kmap: seq<Region>, i: int, j: int)
    requires forall k :: 0 <= k < |kmap| ==> !InRegion(kmap[k], i, j)
    ensures KernelEntry(kmap, i, j).None?
  {
    if kmap != [] {
      NotIn(kmap[..|kmap| - 1], i, j);
    }
  }

  lemma NotBefore(kmap: seq<Region>, k: int, i: int, j: int)
    requires KmapOk(kmap) && 0 <= k < |kmap|
    ensures InRegion(kmap[k], i, j) ==> KernelEntry(kmap[..k], i, j).None?
  {
    if InRegion(kmap[k], i, j) {
      NotIn(kmap[..k], i, j);
    }
  }

  predicate AllAbsent(dir: map<int, int>, x: int, y: int) {
    forall k :: x <= k < y ==> k !in dir
  }

  /** The stride of 4 MB, taken from lo in the middle of a missing table, lands at the same place in the next one,
      and so on up to the first table there is: the pages before that place are stepped across. */
  predicate Missed(dir: map<int, int>, lo: int, i: int, j: int) {
    lo / 1024 < i && AllAbsent(dir, lo / 1024, i) && j < lo % 1024
  }

  predicate Cleared(dir: map<int, int>, lo: int, hi: int, i: int, j: int) {
    lo <= 1024 * i + j < hi && !Missed(dir, lo, i, j)
  }

  /** Where the loop of `deallocuvm` can be. */
  ghost predicate Settled(dir: map<int, int>, lo: int, a: int) {
    && (AllAbsent(dir, lo / 1024, a / 1024) ==> a % 1024 >= lo % 1024)
    && (a / 1024 !in dir ==> a % 1024 == 0 || (AllAbsent(dir, lo / 1024, a / 1024) && a % 1024 == lo % 1024))
  }

  lemma Stride(dir: map<int, int>, lo: int, a: int)
    requires 0 <= lo <= a && Settled(dir, lo, a)
    ensures a / 1024 in dir ==> Settled(dir, lo, a + 1) && !Missed(dir, lo, a / 1024, a % 1024)
    ensures a / 1024 !in dir ==>
              && Settled(dir, lo, a + 1024)
              && forall i, j :: 0 <= j < 1024 && a <= 1024 * i + j < a + 1024 ==> i == a / 1024 || Missed(dir, lo, i, j)
  {
  }

  function KernelPte(r: Region, i: int, j: int): Pte {
    Pte(r.frame + (1024 * i + j - r.first), r.write, false)
  }

  /** What mapping a page of d does: that entry is set if it succeeds, and besides tables only a user frame
      comes into use. */
  ghost predicate Mapped(s: Snapshot, t: Snapshot, d: int, i: int, j: int, e: Pte, ok: bool) {
    && (forall x, a, b :: Entry(t, x, a, b) == if ok && x == d && a == i && b == j then Some(e) else Entry(s, x, a, b))
    && (forall f :: Known(t, f) <==> Known(s, f) || (ok && i < USERDIRS && f == e.frame))
    && (forall f :: f in s.owner ==> f in t.owner && t.owner[f] == s.owner[f])
    && (forall f :: f in t.owner && f !in s.owner ==> t.owner[f].d == d)
  }

  ghost function WithEntry(s: Snapshot, d: int, i: int, j: int, e: Pte): Snapshot
    requires TableOf(s.dirs, d, i).Some? && TableOf(s.dirs, d, i).value in s.tables
  {
    var t := TableOf(s.dirs, d, i).value;
    s.(tables := s.tables[t := s.tables[t][j := e]],
       owner := if i < USERDIRS then s.owner[e.frame := AsPage(d, i, j)] else s.owner)
  }

  lemma MapsOne(s: Snapshot, d: int, i: int, j: int, e: Pte)
    requires Ok(s) && 0 <= i < NPDENTRIES && 0 <= j < 1024 && TableOf(s.dirs, d, i).Some?
             && TableOf(s.dirs, d, i).value in s.tables
    requires Entry(s, d, i, j).None? && (i < USERDIRS ==> e.frame > 0 && !Known(s, e.frame) && e.frame in s.pages)
    ensures Ok(WithEntry(s, d, i, j, e)) && Mapped(s, WithEntry(s, d, i, j, e), d, i, j, e, true)
  {
    EntrySet(s.dirs, s.tables, s.pages, s.owner, s.free, d, i, j, e);
    if i < USERDIRS {
      NewPage(s.dirs, s.tables, s.pages, s.owner, s.free, d, i, j, e);
    } else {
      NewKernelEntry(s.dirs, s.tables, s.pages, s.owner, s.free, d, i, j, e);
    }
    hide Inv;
  }

  lemma MappedGrew(s: Snapshot, t: Snapshot, d: int, i: int, j: int, e: Pte, ok: bool)
    requires Mapped(s, t, d, i, j, e, ok) && USERDIRS <= i && t.pages == s.pages
    ensures Grew(s, t, d)
  {
  }

  lemma NothingGrew(s: Snapshot, t: Snapshot)
    requires Ok(s) && Ok(t) && Grew(s, t, 0)
    ensures Lost(s, t, None)
  {
  }

  lemma Fresh(s: Snapshot, d: int, p: int)
    requires Ok(s) && d in s.free && p in s.dirs
    ensures d != p && d !in s.dirs && forall f :: f in s.owner ==> s.owner[f].d != d
  {
  }

  /** A copy made earlier stays as it is. */
  lemma CopyKept(s: Snapshot, t: Snapshot, u: Snapshot, p: int, d: int, i: int, j: int)
    requires CopyOf(t, d, i, j, s, p) && Ok(t) && Grew(t, u, d) && i < USERDIRS
             && Entry(u, d, i, j) == Entry(t, d, i, j)
    ensures CopyOf(u, d, i, j, s, p)
  {
  }

  /** A copy made now is a copy of what the parent had at first. */
  lemma CopyBack(s: Snapshot, t: Snapshot, u: Snapshot, p: int, d: int, i: int, j: int)
    requires CopyOf(u, d, i, j, t, p) && Ok(s) && Grew(s, t, d) && p != d && i < USERDIRS
             && forall f :: f in t.free ==> f in s.free
    ensures CopyOf(u, d, i, j, s, p)
  {
  }

  lemma HalfMore(s: Snapshot, t: Snapshot, u: Snapshot, p: int, d: int, n: int, kmap: seq<Region>)
    requires Ok(s) && Ok(t) && Half(s, t, p, d, n, kmap) && Grew(s, t, d) && Grew(t, u, d) && p != d
             && 0 <= n < USERPAGES
    requires forall f :: f in t.free ==> f in s.free
    requires CopyOf(u, d, n / 1024, n % 1024, t, p)
    requires forall a, b :: a != n / 1024 || b != n % 1024 ==> Entry(u, d, a, b) == Entry(t, d, a, b)
    ensures Half(s, u, p, d, n + 1, kmap)
  {
    hide Inv, CopyOf, Grew;
    forall i, j | 0 <= i < USERDIRS && 0 <= j < 1024
      ensures if 1024 * i + j < n + 1 then CopyOf(u, d, i, j, s, p) else Entry(u, d, i, j).None?
    {
      if 1024 * i + j < n {
        CopyKept(s, t, u, p, d, i, j);
      } else if 1024 * i + j == n {
        assert i == n / 1024 && j == n % 1024;
        CopyBack(s, t, u, p, d, i, j);
      }
    }
  }

  lemma HalfIsAll(s: Snapshot, t: Snapshot, p: int, d: int, n: int, kmap: seq<Region>, sz: nat)
    requires Half(s, t, p, d, n, kmap) && 4096 * n >= sz && (n == 0 || 4096 * (n - 1) < sz)
    ensures forall i, j :: 0 <= i < USERDIRS && 0 <= j < 1024 ==>
              if InSize(sz, i, j) then CopyOf(t, d, i, j, s, p) else Entry(t, d, i, j).None?
  {
  }

  /** Taking down what was built leaves what there was before, but for a frame that was lost. */
  lemma GaveBack(s: Snapshot, t: Snapshot, u: Snapshot, v: Snapshot, d: int, lost: Option<int>)
    requires Ok(s) && Grew(s, t, d) && Lost(t, u, lost) && Dropped(u, v, d) && d !in s.dirs && d !in v.dirs
    requires forall f :: f in v.owner <==> f in u.owner && u.owner[f].d != d
    ensures Lost(s, v, lost)
  {
  }

  lemma NothingLost(s: Snapshot)
    ensures Lost(s, s, None)
  {
  }

  lemma SameFree(s: Snapshot, t: Snapshot)
    requires Ok(s) && Ok(t) && Lost(s, t, None)
    ensures forall f :: f in t.free <==> f in s.free
  {
    assert forall f :: f in t.free || f in s.free ==> Known(t, f) && Known(s, f);
  }

  // ---- What the stride misses ----------------------------------------------------------------------

  /** `deallocuvm` leaves nothing mapped in its range exactly when no page it finds mapped there lies, before the
      place of lo, in the first table after lo's own missing one. */
  lemma DeallocIff(s: Snapshot, t: Snapshot, d: int, lo: int, hi: int)
    requires d in s.dirs
    requires forall i, j :: 0 <= j < 1024 ==>
             Entry(t, d, i, j) == if Cleared(s.dirs[d], lo, hi, i, j) then None else Entry(s, d, i, j)
    ensures (forall i, j :: 0 <= j < 1024 && lo <= 1024 * i + j < hi ==> Entry(t, d, i, j).None?) <==>
            (forall i, j :: 0 <= j < 1024 && lo <= 1024 * i + j < hi && Entry(s, d, i, j).Some? ==>
             !Missed(s.dirs[d], lo, i, j))
  {
  }

  /** From the start of a table nothing is missed. */
  lemma AlignedMissesNothing(dir: map<int, int>, lo: int, i: int, j: int)
    requires 0 <= lo && lo % 1024 == 0 && 0 <= j
    ensures !Missed(dir, lo, i, j)
  {
  }

  /** Nor is anything when the pages in use are all those below some size, as a process has them. */
  lemma ContiguousMissesNothing(s: Snapshot, d: int, lo: int, top: int, i: int, j: int)
    requires d in s.dirs && 0 <= lo
             && forall i, j :: 0 <= j < 1024 && 0 <= i && 1024 * i + j < top ==> Entry(s, d, i, j).Some?
    requires 0 <= j < 1024 && lo <= 1024 * i + j < top
    ensures !Missed(s.dirs[d], lo, i, j)
  {
    assert Entry(s, d, lo / 1024, lo % 1024).Some?;
  }

  /** In general something can be: with no first table, and a page at the start of the second, bringing the size
      down from 4 MB and one page to 5 pages leaves that page mapped. */
  lemma StrideMisses() returns (s: Snapshot)
    ensures Ok(s) && 10 in s.dirs && Entry(s, 10, 1, 0).Some? && 5 <= 1024 * 1 + 0 < 1025
            && !Cleared(s.dirs[10], 5, 1025, 1, 0)
  {
    s := Snapshot(map[10 := map[1 := 20]], map[20 := map[0 := Pte(30, true, true)]], map[30 := Junk()],
                  map[10 := AsDir(10), 20 := AsTable(10, 1), 30 := AsPage(10, 1, 0)], []);
  }

  // ---- What a failed copy loses --------------------------------------------------------------------

  /** A process of one page, and so many free frames. */
  ghost predicate OnePage(s: Snapshot, frames: nat) {
    && Ok(s) && |s.free| == frames && 10 in s.dirs
    && forall i, j :: 0 <= j < 1024 && InSize(1, i, j) ==> Entry(s, 10, i, j).Some?
  }

  function SmallKernel(): seq<Region> {
    [Region(USERPAGES, 1, 0, true)]
  }

  lemma SmallKernelFrames()
    ensures KmapOk(SmallKernel()) && KernelFrames(SmallKernel()) == 2
  {
    var kmap := SmallKernel();
    assert kmap[..0] == [];
    assert 524288 / 1024 == 512;
    assert KernelDirs(kmap) == PageDirs(USERPAGES, USERPAGES + 1);
    OneMore({}, PageDirs(USERPAGES, USERPAGES + 1), 512);
  }

  function Lone(free: seq<int>): Snapshot {
    Snapshot(map[10 := map[0 := 20]], map[20 := map[0 := Pte(30, true, true)]], map[30 := Junk()],
             map[10 := AsDir(10), 20 := AsTable(10, 0), 30 := AsPage(10, 0, 0)], free)
  }

  lemma IsOnePage(free: seq<int>)
    requires Distinct(free) && forall f :: f in free ==> f > 30
    ensures OnePage(Lone(free), |free|) && Lone(free).free == free
  {
  }

  /** With three frames left, for a directory, a kernel table and a page, the copy of a one-page process fails for want
      of the page's table, and the page's frame is neither free nor in use afterwards. */
  method LosesPage() returns (k: Kernel, ghost s: Snapshot, ghost f: int)
    ensures OnePage(s, 3) && KmapOk(SmallKernel()) && OneFrameLeft(|s.free| - KernelFrames(SmallKernel()), PagesOf(1))
    ensures Ok(k.Now()) && Lost(s, k.Now(), Some(f)) && f in s.free && !Known(k.Now(), f)
  {
    var free := [40, 41, 42];
    IsOnePage(free);
    SmallKernelFrames();
    assert OneFrameLeft(1, PagesOf(1));
    hide Inv, CopyOf, Grew, Lone, SmallKernel, KernelFrames, KmapOk;
    s := Lone(free);
    k := new Kernel(Lone(free));
    ghost var x, lost;
    var d;
    d, x, lost := k.CopyUvm(10, 1, SmallKernel());
    f := lost.value;
  }

  /** With one frame left the copy fails inside the kernel's part, and the directory that it made stays in use. */
  method LosesDirectory() returns (k: Kernel, ghost s: Snapshot, ghost x: int)
    ensures OnePage(s, 1) && KmapOk(SmallKernel()) && 0 < |s.free| < KernelFrames(SmallKernel())
    ensures Ok(k.Now()) && Grew(s, k.Now(), x) && x in s.free && x in k.dirs && k.free == []
  {
    var free := [40];
    IsOnePage(free);
    SmallKernelFrames();
    hide Inv, CopyOf, Grew, Lone, SmallKernel, KernelFrames, KmapOk;
    s := Lone(free);
    k := new Kernel(Lone(free));
    ghost var lost;
    var d;
    d, x, lost := k.CopyUvm(10, 1, SmallKernel());
  }
}
