/** Path names: `skipelem`, and what `namei` and `nameiparent` find. */
module Paths {
  import opened Directories
  import opened Options

  const DIRSIZ := 14

  // ---- Elements --------------------------------------------------------------------------------------

  function SkipSlashes(path: string, i: nat): (j: nat)
    requires i <= |path|
    ensures i <= j <= |path| && (j < |path| ==> path[j] != '/')
    decreases |path| - i
  {
    if i < |path| && path[i] == '/' then SkipSlashes(path, i + 1) else i
  }

  function ElementEnd(path: string, i: nat): (j: nat)
    requires i <= |path|
    ensures i <= j <= |path| && (i < |path| && path[i] != '/' ==> i < j)
    decreases |path| - i
  {
    if i < |path| && path[i] != '/' then ElementEnd(path, i + 1) else i
  }

  function Cut(s: string): (r: string)
    ensures |r| <= DIRSIZ
  {
    if |s| > DIRSIZ then s[..DIRSIZ] else s
  }

  /** The elements of the path from i on: what lies between slashes, cut to DIRSIZ characters. */
  function Elements(path: string, i: nat): seq<string>
    requires i <= |path|
    decreases |path| - i
  {
    var s := SkipSlashes(path, i);
    if s == |path| then [] else var e := ElementEnd(path, s); [Cut(path[s..e])] + Elements(path, e)
  }

  /** Slashes before an element do not matter. */
  lemma AfterSlashes(path: string, i: nat)
    requires i <= |path|
    ensures Elements(path, SkipSlashes(path, i)) == Elements(path, i)
  {
    var s := SkipSlashes(path, i);
    assert SkipSlashes(path, s) == s;
  }

  /** `skipelem`: the next element, and where the one after it starts; or there is none. */
  method SkipElem(path: string, i: nat) returns (found: bool, name: string, j: nat)
    requires i <= |path|
    ensures i <= j <= |path| && (j < |path| ==> path[j] != '/') && (found ==> i < j)
    ensures found <==> Elements(path, i) != []
    ensures found ==> Elements(path, i) == [name] + Elements(path, j)
  {
    var s := PastSlashes(path, i);
    if s == |path| {
      return false, "", s;
    }
    var p := s;
    while p < |path| && path[p] != '/'
      invariant s <= p <= |path| && ElementEnd(path, s) == ElementEnd(path, p)
    {
      p := p + 1;
    }
    name := if p - s >= DIRSIZ then path[s..s + DIRSIZ] else path[s..p];
    assert name == Cut(path[s..p]) && p == ElementEnd(path, s);
    hide Cut, ElementEnd, SkipSlashes;
    j := PastSlashes(path, p);
    AfterSlashes(path, p);
    return true, name, j;
  }

  /** The first and the last loop of `skipelem`. */
  method PastSlashes(path: string, i: nat) returns (p: nat)
    requires i <= |path|
    ensures p == SkipSlashes(path, i)
  {
    p := i;
    while p < |path| && path[p] == '/'
      invariant i <= p <= |path| && SkipSlashes(path, i) == SkipSlashes(path, p)
    {
      p := p + 1;
    }
  }

  // ---- Resolution ------------------------------------------------------------------------------------

  /** The first entry of that name. */
  function Lookup(s: seq<Dirent>, name: string): (k: Option<nat>)
    ensures k.None? <==> Absent(s, name)
    ensures k.Some? ==> At(s, k.value, name) && Absent(s[..k.value], name)
  {
    if s == [] then None
    else
      var n := |s| - 1;
      var front := Lookup(s[..n], name);
      if front.Some? then assert s[..n][..front.value] == s[..front.value]; front
      else if s[n].inum != 0 && s[n].name == name then Some(n) else None
  }

  /** One step down. */
  function Step(t: seq<Inode>, d: nat, name: string): Option<nat> {
    if d < |t| && IsDir(t[d]) && Lookup(t[d].slots, name).Some?
    then Some(t[d].slots[Lookup(t[d].slots, name).value].inum) else None
  }

  /** Where the names lead from d. */
  function Resolve(t: seq<Inode>, d: nat, names: seq<string>): Option<nat> {
    if names == [] then Some(d)
    else
      var r := Resolve(t, d, names[..|names| - 1]);
      if r.None? then None else Step(t, r.value, names[|names| - 1])
  }

  lemma {:induction false} ResolveFirst(t: seq<Inode>, d: nat, name: string, rest: seq<string>)
    ensures Resolve(t, d, [name] + rest) ==
            if Step(t, d, name).Some? then Resolve(t, Step(t, d, name).value, rest) else None
    decreases |rest|
  {
    var all := [name] + rest;
    if rest == [] {
      assert all == [name] && all[..0] == [];
      assert Resolve(t, d, []) == Some(d);
    } else {
      var n := |rest| - 1;
      assert all[..|all| - 1] == [name] + rest[..n] && all[|all| - 1] == rest[n];
      ResolveFirst(t, d, name, rest[..n]);
    }
  }

  /** From a linked directory, names lead only to linked inodes: never to a free one. */
  lemma {:induction false} ResolvesToLinked(t: seq<Inode>, d: nat, names: seq<string>)
    requires Inv(t) && d < |t| && Linked(t[d])
    ensures Resolve(t, d, names).Some? ==> Resolve(t, d, names).value < |t| && Linked(t[Resolve(t, d, names).value])
    decreases |names|
  {
    if names != [] {
      ResolvesToLinked(t, d, names[..|names| - 1]);
      var r := Resolve(t, d, names[..|names| - 1]);
      if r.Some? && Step(t, r.value, names[|names| - 1]).Some? {
        StepToLinked(t, r.value, names[|names| - 1]);
      }
    }
  }

  lemma StepToLinked(t: seq<Inode>, d: nat, name: string)
    requires Inv(t) && d < |t| && Linked(t[d]) && Step(t, d, name).Some?
    ensures Step(t, d, name).value < |t| && Linked(t[Step(t, d, name).value])
  {
    var k := Lookup(t[d].slots, name).value;
    assert DirOk(t, d);
    var x := t[d].slots[k].inum;
    if k > 0 {
      assert Names(t, d, k, x);
      CountOf(t, x);
      RefsIff(t, x);
      assert (d, k) in Refs(t, x);
    }
  }

  /** The directory that holds the last element. */
  function ParentOf(t: seq<Inode>, start: nat, names: seq<string>): Option<nat> {
    if names == [] then None
    else
      var d := Resolve(t, start, names[..|names| - 1]);
      if d.Some? && d.value < |t| && IsDir(t[d.value]) then d else None
  }

  lemma ParentFirst(t: seq<Inode>, d: nat, name: string, rest: seq<string>)
    ensures ParentOf(t, d, [name] + rest) ==
            if rest == [] then (if d < |t| && IsDir(t[d]) then Some(d) else None)
            else if Step(t, d, name).Some? then ParentOf(t, Step(t, d, name).value, rest) else None
  {
    var all := [name] + rest;
    if rest == [] {
      assert all[..0] == [];
    } else {
      assert all[..|all| - 1] == [name] + rest[..|rest| - 1];
      ResolveFirst(t, d, name, rest[..|rest| - 1]);
    }
  }

  /** What is wanted of the names from d on. */
  function Wanted(t: seq<Inode>, d: nat, names: seq<string>, parent: bool): Option<nat> {
    if parent then ParentOf(t, d, names) else Resolve(t, d, names)
  }

  /** One turn of the loop of `namex`. */
  lemma WantedFirst(t: seq<Inode>, d: nat, name: string, rest: seq<string>, parent: bool)
    ensures Wanted(t, d, [name] + rest, parent) ==
            if parent && rest == [] then (if d < |t| && IsDir(t[d]) then Some(d) else None)
            else if Step(t, d, name).Some? then Wanted(t, Step(t, d, name).value, rest, parent) else None
  {
    ResolveFirst(t, d, name, rest);
    ParentFirst(t, d, name, rest);
  }

  /** Directory d has an entry of that name, and the first such entry is for x. */
  ghost predicate Down(t: seq<Inode>, d: nat, name: string, x: nat) {
    && d < |t| && IsDir(t[d])
    && exists k: nat :: FirstAt(t[d].slots, k, name) && t[d].slots[k].inum == x
  }

  ghost predicate FirstAt(slots: seq<Dirent>, k: nat, name: string) {
    && k < |slots| && slots[k].inum != 0 && slots[k].name == name
    && forall j :: 0 <= j < k && slots[j].inum != 0 ==> slots[j].name != name
  }

  /** Inodes, each a directory with an entry for the next. */
  ghost predicate Chain(t: seq<Inode>, ds: seq<nat>, names: seq<string>) {
    |ds| == |names| + 1 && forall i :: 0 <= i < |names| ==> Down(t, ds[i], names[i], ds[i + 1])
  }

  ghost predicate LeadsTo(t: seq<Inode>, d: nat, names: seq<string>, x: nat) {
    exists ds :: Chain(t, ds, names) && ds[0] == d && ds[|names|] == x
  }

  lemma StepIff(t: seq<Inode>, d: nat, name: string, x: nat)
    ensures Step(t, d, name) == Some(x) <==> Down(t, d, name, x)
  {
    if d < |t| && IsDir(t[d]) {
      var slots, k := t[d].slots, Lookup(t[d].slots, name);
      if k.Some? {
        assert forall j :: 0 <= j < k.value ==> slots[..k.value][j] == slots[j];
        assert FirstAt(slots, k.value, name);
        forall j: nat | FirstAt(slots, j, name) ensures j == k.value {
        }
      }
    }
  }

  /** Where names lead is the end of such a chain, and of no other. */
  lemma {:induction false} ResolveIff(t: seq<Inode>, d: nat, names: seq<string>, x: nat)
    ensures Resolve(t, d, names) == Some(x) <==> LeadsTo(t, d, names, x)
    decreases |names|
  {
    hide Step, Down;
    if names == [] {
      assert d == x ==> Chain(t, [d], names);
    } else {
      var n := |names| - 1;
      var front, name := names[..n], names[n];
      var m := Resolve(t, d, front);
      if m.Some? {
        ResolveIff(t, d, front, m.value);
        StepIff(t, m.value, name, x);
        if Step(t, m.value, name) == Some(x) {
          var ds :| Chain(t, ds, front) && ds[0] == d && ds[n] == m.value;
          assert Chain(t, ds + [x], names);
        }
      }
      if LeadsTo(t, d, names, x) {
        var ds :| Chain(t, ds, names) && ds[0] == d && ds[|names|] == x;
        assert Down(t, ds[n], name, x) && Chain(t, ds[..|names|], front);
        ResolveIff(t, d, front, ds[n]);
        StepIff(t, ds[n], name, x);
      }
    }
  }

  /** `namex`: where the path leads, from the root if it starts with a slash and from `cwd` otherwise; or, asked for the
      parent, the directory that all but its last element lead to, and that element. */
  method Namex(t: seq<Inode>, cwd: nat, path: string, parent: bool) returns (r: Option<nat>, name: string)
    ensures var start, names := if path != "" && path[0] == '/' then 1 else cwd, Elements(path, 0);
            && r == Wanted(t, start, names, parent)
            && (!parent ==> forall x: nat :: r == Some(x) <==> LeadsTo(t, start, names, x))
            && (parent ==> forall x: nat :: r == Some(x) <==>
                  names != [] && LeadsTo(t, start, names[..|names| - 1], x) && x < |t| && IsDir(t[x]))
            && (parent && r.Some? ==> name == names[|names| - 1])
  {
    hide Elements, Resolve;
    var start := if path != "" && path[0] == '/' then ROOT else cwd;
    r, name := Walk(t, start, path, parent);
    WantedIff(t, start, Elements(path, 0), parent);
  }

  /** The loop of `namex`. */
  method Walk(t: seq<Inode>, start: nat, path: string, parent: bool) returns (r: Option<nat>, name: string)
    ensures r == Wanted(t, start, Elements(path, 0), parent)
    ensures parent && r.Some? ==> Elements(path, 0) != [] && name == Elements(path, 0)[|Elements(path, 0)| - 1]
  {
    hide Wanted, Lookup;
    ghost var all := Elements(path, 0);
    var ip: nat := start;
    var found, next, i := SkipElem(path, 0);
    name := next;
    ghost var rest := all;
    while found
      invariant i <= |path| && (i < |path| ==> path[i] != '/')
      invariant Wanted(t, start, all, parent) == Wanted(t, ip, rest, parent)
      invariant if found then rest == [name] + Elements(path, i) else rest == []
      invariant rest != [] ==> all != [] && rest[|rest| - 1] == all[|all| - 1]
      invariant !found && parent ==> all == []
      decreases |path| - i, found
    {
      WantedFirst(t, ip, name, Elements(path, i), parent);
      if !(ip < |t| && IsDir(t[ip])) {
        return None, name;
      }
      if parent && i == |path| {
        return Some(ip), name;
      }
      assert parent ==> Elements(path, i) != [];
      var off := Lookup(t[ip].slots, name);
      if off.None? {
        return None, name;
      }
      ip := t[ip].slots[off.value].inum;
      rest := Elements(path, i);
      found, next, i := SkipElem(path, i);
      if found {
        name := next;
      }
    }
    WantedNone(t, ip, parent);
    return (if parent then None else Some(ip)), name;
  }

  lemma WantedIff(t: seq<Inode>, start: nat, names: seq<string>, parent: bool)
    ensures !parent ==> forall x: nat :: Wanted(t, start, names, parent) == Some(x) <==> LeadsTo(t, start, names, x)
    ensures parent ==> forall x: nat :: Wanted(t, start, names, parent) == Some(x) <==>
              names != [] && LeadsTo(t, start, names[..|names| - 1], x) && x < |t| && IsDir(t[x])
  {
    forall x: nat ensures Resolve(t, start, names) == Some(x) <==> LeadsTo(t, start, names, x) {
      ResolveIff(t, start, names, x);
    }
    if names != [] {
      forall x: nat
        ensures Resolve(t, start, names[..|names| - 1]) == Some(x) <==> LeadsTo(t, start, names[..|names| - 1], x)
      {
        ResolveIff(t, start, names[..|names| - 1], x);
      }
    }
  }

  lemma WantedNone(t: seq<Inode>, d: nat, parent: bool)
    ensures Wanted(t, d, [], parent) == if parent then None else Some(d)
  {
  }

  /** `namei` is `nameiparent` and one lookup. */
  lemma ParentThenLookup(t: seq<Inode>, start: nat, names: seq<string>)
    requires names != []
    ensures var d := ParentOf(t, start, names);
            Resolve(t, start, names) == if d.Some? then Step(t, d.value, names[|names| - 1]) else None
  {
  }

  // ---- The round trip --------------------------------------------------------------------------------

  /** A name as it is typed in a path: some slashes, and a name of any length without any. */
  datatype Typed = Typed(slashes: nat, name: string)

  predicate IsName(s: string) {
    |s| > 0 && forall k :: 0 <= k < |s| ==> s[k] != '/'
  }

  function Slashes(n: nat): (r: string)
    ensures |r| == n && forall k :: 0 <= k < n ==> r[k] == '/'
  {
    seq(n, _ => '/')
  }

  /** The path, with some slashes at its end. */
  function Join(names: seq<Typed>, end: nat): string {
    if names == [] then Slashes(end) else Slashes(names[0].slashes) + names[0].name + Join(names[1..], end)
  }

  /** At least one slash between two names. */
  predicate Apart(names: seq<Typed>) {
    && (forall k :: 0 <= k < |names| ==> IsName(names[k].name))
    && forall k :: 0 < k < |names| ==> names[k].slashes > 0
  }

  lemma {:induction false} SkipSlashesIs(path: string, i: nat, n: nat)
    requires i + n <= |path| && (forall k :: i <= k < i + n ==> path[k] == '/')
             && (i + n < |path| ==> path[i + n] != '/')
    ensures SkipSlashes(path, i) == i + n
    decreases n
  {
    if n > 0 {
      SkipSlashesIs(path, i + 1, n - 1);
    }
  }

  lemma {:induction false} ElementEndIs(path: string, i: nat, e: nat)
    requires i <= e <= |path| && (forall k :: i <= k < e ==> path[k] != '/') && (e < |path| ==> path[e] == '/')
    ensures ElementEnd(path, i) == e
    decreases e - i
  {
    if i < e {
      ElementEndIs(path, i + 1, e);
    }
  }

  /** What is found where the first of several names has been typed. */
  lemma FirstTyped(path: string, i: nat, names: seq<Typed>, end: nat)
    requires i <= |path| && path[i..] == Join(names, end) && names != [] && Apart(names)
    ensures var b, e := i + names[0].slashes, i + names[0].slashes + |names[0].name|;
            && b < e <= |path| && path[b..e] == names[0].name && path[e..] == Join(names[1..], end)
            && SkipSlashes(path, i) == b && (forall k :: b <= k < e ==> path[k] != '/')
                 && (e < |path| ==> path[e] == '/')
  {
    var n, name, rest := names[0].slashes, names[0].name, Join(names[1..], end);
    var b, e := i + n, i + n + |name|;
    assert path[i..] == Slashes(n) + name + rest;
    forall k | i <= k < e ensures path[k] == if k < b then '/' else name[k - b] {
      assert path[k] == path[i..][k - i];
    }
    assert path[b..e] == name;
    assert path[e..] == path[i..][e - i..] == rest;
    if e < |path| {
      assert path[e] == rest[0];
      assert names[1..] != [] ==> names[1..][0] == names[1];
    }
    SkipSlashesIs(path, i, n);
  }

  /** Taking apart a path gives the names that were typed, each cut to 14 characters. */
  lemma {:induction false} ElementsOfJoin(path: string, i: nat, names: seq<Typed>, end: nat)
    requires i <= |path| && path[i..] == Join(names, end) && Apart(names)
    ensures |Elements(path, i)| == |names|
    ensures forall k :: 0 <= k < |names| ==>
              Elements(path, i)[k] == if |names[k].name| > 14 then names[k].name[..14] else names[k].name
    decreases |names|
  {
    hide Join, Elements;
    if names == [] {
      OnlySlashes(path, i, end);
    } else {
      var e := i + names[0].slashes + |names[0].name|;
      ElementTyped(path, i, names, end);
      ElementsOfJoin(path, e, names[1..], end);
      assert forall k :: 0 < k < |names| ==> names[1..][k - 1] == names[k];
    }
  }

  lemma OnlySlashes(path: string, i: nat, end: nat)
    requires i <= |path| && path[i..] == Join([], end)
    ensures Elements(path, i) == []
  {
    assert forall k :: i <= k < |path| ==> path[k] == path[i..][k - i];
    SkipSlashesIs(path, i, |path| - i);
  }

  lemma ElementTyped(path: string, i: nat, names: seq<Typed>, end: nat)
    requires i <= |path| && path[i..] == Join(names, end) && names != [] && Apart(names)
    ensures var e := i + names[0].slashes + |names[0].name|;
            && e <= |path| && path[e..] == Join(names[1..], end) && Apart(names[1..])
            && Elements(path, i) == [Cut(names[0].name)] + Elements(path, e)
  {
    FirstTyped(path, i, names, end);
    var b, e := i + names[0].slashes, i + names[0].slashes + |names[0].name|;
    ElementEndIs(path, b, e);
    hide Join;
  }
}
