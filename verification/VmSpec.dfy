/** Two-level page tables over a free list of frames: who owns which frame. Frames are physical page
    numbers, and a virtual page number is its directory index times 1024 plus its table index. */
module VmSpec {
  import opened Bytes
  import opened Finite
  import opened Options

  const NPDENTRIES := 1024
  const USERDIRS := 512 // KERNBASE / 4 MB: directory entries of the user half

  datatype Pte = Pte(frame: int, write: bool, user: bool)

  /** What a frame is used for: a directory, table i of directory d, or the user page at entry j of it. */
  datatype Role = AsDir(d: int) | AsTable(d: int, i: int) | AsPage(d: int, i: int, j: int)

  type Dirs = map<int, map<int, int>>

  type Tables = map<int, map<int, Pte>>

  function TableOf(dirs: Dirs, d: int, i: int): Option<int> {
    if d in dirs && i in dirs[d] then Some(dirs[d][i]) else None
  }

  function EntryOf(tables: Tables, t: int, j: int): Option<Pte> {
    if t in tables && j in tables[t] then Some(tables[t][j]) else None
  }

  /** `walkpgdir` without allocation, and the entry it finds. */
  function Walk(dirs: Dirs, tables: Tables, d: int, i: int, j: int): Option<Pte> {
    var t := TableOf(dirs, d, i);
    if t.Some? then EntryOf(tables, t.value, j) else None
  }

  ghost predicate RoleOk(dirs: Dirs, tables: Tables, pages: map<int, seq<byte>>, f: int, r: Role) {
    match r
    case AsDir(d) => d == f && d in dirs
    case AsTable(d, i) => TableOf(dirs, d, i) == Some(f) && f in tables
    case AsPage(d, i, j) =>
      && i < USERDIRS && Walk(dirs, tables, d, i, j).Some?
      && Walk(dirs, tables, d, i, j).value.frame == f && f in pages
  }

  ghost predicate Has(owner: map<int, Role>, f: int, r: Role) {
    f in owner && owner[f] == r
  }

  /** Every frame in use has exactly one use, and is not free. */
  ghost predicate Inv(dirs: Dirs, tables: Tables, pages: map<int, seq<byte>>, owner: map<int, Role>, free: seq<int>) {
    && Distinct(free) && (forall f :: f in free ==> f !in owner && f > 0)
    && (forall f :: f in owner ==> f > 0 && RoleOk(dirs, tables, pages, f, owner[f]))
    && (forall d :: d in dirs ==> Has(owner, d, AsDir(d)))
         && (forall t :: t in tables ==> t in owner && owner[t].AsTable?)
    && (forall d, i :: TableOf(dirs, d, i).Some? ==>
        0 <= i < NPDENTRIES && Has(owner, TableOf(dirs, d, i).value, AsTable(d, i)))
    && (forall d, i, j :: Walk(dirs, tables, d, i, j).Some? ==> 0 <= j < 1024)
    && (forall d, i, j :: i < USERDIRS && Walk(dirs, tables, d, i, j).Some? ==>
        Has(owner, Walk(dirs, tables, d, i, j).value.frame, AsPage(d, i, j)))
  }

  lemma Pop(free: seq<int>)
    requires Distinct(free) && free != []
    ensures Distinct(free[1..]) && free[0] !in free[1..] && forall f :: f in free[1..] ==> f in free
  {
  }

  lemma Push(free: seq<int>, f: int)
    requires Distinct(free) && f !in free
    ensures Distinct([f] + free) && forall g :: g in [f] + free <==> g == f || g in free
  {
  }

  lemma NewDir(dirs: Dirs, tables: Tables, pages: map<int, seq<byte>>, owner: map<int, Role>, free: seq<int>)
    requires Inv(dirs, tables, pages, owner, free) && free != []
    ensures var d := free[0];
            && d !in owner && d !in dirs
            && Inv(dirs[d := map[]], tables, pages, owner[d := AsDir(d)], free[1..])
  {
    var d, rest := free[0], free[1..];
    var dirs' := dirs[d := map[]];
    Pop(free);
    hide Distinct;
    assert forall e, i :: TableOf(dirs', e, i) == TableOf(dirs, e, i);
    assert forall e, i, j :: Walk(dirs', tables, e, i, j) == Walk(dirs, tables, e, i, j);
  }

  lemma NewTable(dirs: Dirs, tables: Tables, pages: map<int, seq<byte>>, owner: map<int, Role>, free: seq<int>, d: int,
                 i: int)
    requires Inv(dirs, tables, pages, owner, free) && free != [] && d in dirs && i !in dirs[d] && 0 <= i < NPDENTRIES
    ensures var t := free[0];
            && t !in owner && t !in tables
            && Inv(dirs[d := dirs[d][i := t]], tables[t := map[]], pages, owner[t := AsTable(d, i)], free[1..])
    ensures var dirs', tables' := dirs[d := dirs[d][i := free[0]]], tables[free[0] := map[]];
            forall e, a, b :: Walk(dirs', tables', e, a, b) == Walk(dirs, tables, e, a, b)
  {
    var t, rest := free[0], free[1..];
    var dirs', tables' := dirs[d := dirs[d][i := t]], tables[t := map[]];
    Pop(free);
    hide Distinct;
    assert forall e, a :: TableOf(dirs', e, a) == if e == d && a == i then Some(t) else TableOf(dirs, e, a);
    assert forall e, a, b :: Walk(dirs', tables', e, a, b) == Walk(dirs, tables, e, a, b);
  }

  /** One page-table entry set: in the kernel half nothing is owned. */
  lemma NewKernelEntry(dirs: Dirs, tables: Tables, pages: map<int, seq<byte>>, owner: map<int, Role>, free: seq<int>,
                       d: int, i: int, j: int, e: Pte)
    requires Inv(dirs, tables, pages, owner, free) && d in dirs && i in dirs[d] && dirs[d][i] in tables && USERDIRS <= i
             && 0 <= j < 1024
    ensures Inv(dirs, tables[dirs[d][i] := tables[dirs[d][i]][j := e]], pages, owner, free)
  {
    var t := dirs[d][i];
    var tables' := tables[t := tables[t][j := e]];
    EntrySet(dirs, tables, pages, owner, free, d, i, j, e);
  }

  lemma EntrySet(dirs: Dirs, tables: Tables, pages: map<int, seq<byte>>, owner: map<int, Role>, free: seq<int>, d: int,
                 i: int, j: int, e: Pte)
    requires Inv(dirs, tables, pages, owner, free) && d in dirs && i in dirs[d] && dirs[d][i] in tables
    ensures var tables' := tables[dirs[d][i] := tables[dirs[d][i]][j := e]];
            forall x, a, b :: Walk(dirs, tables', x, a, b) ==
                if x == d && a == i && b == j then Some(e) else Walk(dirs, tables, x, a, b)
  {
    var t := dirs[d][i];
    assert TableOf(dirs, d, i) == Some(t);
    forall x, a | TableOf(dirs, x, a) == Some(t) ensures x == d && a == i {
    }
  }

  /** A frame that is nobody's becomes a user page. */
  lemma NewPage(dirs: Dirs, tables: Tables, pages: map<int, seq<byte>>, owner: map<int, Role>, free: seq<int>, d: int,
                i: int, j: int, e: Pte)
    requires Inv(dirs, tables, pages, owner, free) && d in dirs && i in dirs[d] && dirs[d][i] in tables
             && 0 <= i < USERDIRS && 0 <= j < 1024
    requires Walk(dirs, tables, d, i, j).None? && e.frame > 0 && e.frame !in owner && e.frame !in free
             && e.frame in pages
    ensures Inv(dirs, tables[dirs[d][i] := tables[dirs[d][i]][j := e]], pages, owner[e.frame := AsPage(d, i, j)], free)
  {
    var t := dirs[d][i];
    var tables' := tables[t := tables[t][j := e]];
    EntrySet(dirs, tables, pages, owner, free, d, i, j, e);
  }

  lemma EntryCleared(dirs: Dirs, tables: Tables, pages: map<int, seq<byte>>, owner: map<int, Role>, free: seq<int>,
                     d: int, i: int, j: int)
    requires Inv(dirs, tables, pages, owner, free) && d in dirs && i in dirs[d] && dirs[d][i] in tables
    ensures var tables' := tables[dirs[d][i] := tables[dirs[d][i]] - {j}];
            forall x, a, b :: Walk(dirs, tables', x, a, b) ==
                if x == d && a == i && b == j then None else Walk(dirs, tables, x, a, b)
  {
    var t := dirs[d][i];
    assert TableOf(dirs, d, i) == Some(t);
    forall x, a | TableOf(dirs, x, a) == Some(t) ensures x == d && a == i {
    }
  }

  /** A user page goes back to the free list. */
  lemma PageFreed(dirs: Dirs, tables: Tables, pages: map<int, seq<byte>>, pages': map<int, seq<byte>>,
                  owner: map<int, Role>, free: seq<int>, d: int, i: int, j: int)
    requires Inv(dirs, tables, pages, owner, free) && 0 <= i < USERDIRS && Walk(dirs, tables, d, i, j).Some?
             && pages.Keys <= pages'.Keys
    ensures d in dirs && i in dirs[d] && dirs[d][i] in tables
    ensures var f := Walk(dirs, tables, d, i, j).value.frame;
            && Has(owner, f, AsPage(d, i, j)) && f !in free
            && Inv(dirs, tables[dirs[d][i] := tables[dirs[d][i]] - {j}], pages', owner - {f}, [f] + free)
  {
    var f := Walk(dirs, tables, d, i, j).value.frame;
    EntryCleared(dirs, tables, pages, owner, free, d, i, j);
    Push(free, f);
    hide Distinct;
  }

  /** An empty user table, or a kernel one, goes back to the free list. */
  lemma TableFreed(dirs: Dirs, tables: Tables, pages: map<int, seq<byte>>, pages': map<int, seq<byte>>,
                   owner: map<int, Role>, free: seq<int>, d: int, i: int)
    requires Inv(dirs, tables, pages, owner, free) && d in dirs && i in dirs[d] && pages.Keys <= pages'.Keys
    requires i < USERDIRS ==> forall j :: Walk(dirs, tables, d, i, j).None?
    ensures var t := dirs[d][i];
            && Has(owner, t, AsTable(d, i)) && t !in free
            && Inv(dirs[d := dirs[d] - {i}], tables - {t}, pages', owner - {t}, [t] + free)
            && forall x, a, b :: Walk(dirs[d := dirs[d] - {i}], tables - {t}, x, a, b) ==
                 if x == d && a == i then None else Walk(dirs, tables, x, a, b)
  {
    var t := dirs[d][i];
    var dirs', tables' := dirs[d := dirs[d] - {i}], tables - {t};
    assert TableOf(dirs, d, i) == Some(t);
    forall x, a ensures TableOf(dirs', x, a) == if x == d && a == i then None else TableOf(dirs, x, a) {
    }
    forall x, a | TableOf(dirs, x, a) == Some(t) ensures x == d && a == i {
    }
    forall x, a, b ensures Walk(dirs', tables', x, a, b) ==
        if x == d && a == i then None else Walk(dirs, tables, x, a, b)
    {
    }
    Push(free, t);
    hide Distinct;
  }

  /** A directory without tables goes back to the free list. */
  lemma DirFreed(dirs: Dirs, tables: Tables, pages: map<int, seq<byte>>, pages': map<int, seq<byte>>,
                 owner: map<int, Role>, free: seq<int>, d: int)
    requires Inv(dirs, tables, pages, owner, free) && d in dirs && dirs[d].Keys == {} && pages.Keys <= pages'.Keys
    ensures Has(owner, d, AsDir(d)) && d !in free && Inv(dirs - {d}, tables, pages', owner - {d}, [d] + free)
    ensures forall x, a, b :: Walk(dirs - {d}, tables, x, a, b) == Walk(dirs, tables, x, a, b)
  {
    var dirs' := dirs - {d};
    assert forall x, a :: TableOf(dirs', x, a) == TableOf(dirs, x, a);
    assert forall x, a, b :: Walk(dirs', tables, x, a, b) == Walk(dirs, tables, x, a, b);
    Push(free, d);
    hide Distinct;
  }
}
