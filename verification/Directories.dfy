/** Directories and link counts: what `link`, `unlink`, `create` and `mkdir` keep. */
module Directories {
  import Finite
  import opened Options

  const ROOT: nat := 1   // ROOTINO
  const MAXLINK := 32767 // a short
  const MAXSLOTS := 4480 // MAXFILE * BSIZE / sizeof(struct dirent)

  /** Inode number 0 marks a free slot. Names are cut to DIRSIZ characters. */
  datatype Dirent = Dirent(inum: nat, name: string)

  const EMPTY := Dirent(0, "")

  datatype Kind = Directory | File | Device

  datatype Inode = Free | Node(kind: Kind, nlink: nat, slots: seq<Dirent>)

  predicate Linked(n: Inode) {
    n.Node? && n.nlink > 0
  }

  predicate IsDir(n: Inode) {
    n.Node? && n.kind == Directory
  }

  function LinkCount(n: Inode): nat {
    if n.Node? then n.nlink else 0
  }

  // ---- The count -----------------------------------------------------------------------------------

  /** Slot k of directory d, which is still linked, names inode x, and not as ".". */
  predicate Names(t: seq<Inode>, d: nat, k: nat, x: nat) {
    && d < |t| && IsDir(t[d]) && Linked(t[d]) && k < |t[d].slots|
    && x != 0 && t[d].slots[k].inum == x && t[d].slots[k].name != "."
  }

  ghost function Refs(t: seq<Inode>, x: nat): set<(nat, nat)> {
    set d: nat, k: nat | d < |t| && k < (if t[d].Node? then |t[d].slots| else 0) && Names(t, d, k, x) :: (d, k)
  }

  lemma RefsIff(t: seq<Inode>, x: nat)
    ensures forall r: (nat, nat) :: r in Refs(t, x) <==> Names(t, r.0, r.1, x)
  {
  }

  /** Every count is the number of entries, other than ".", that name the inode from linked directories.
      A free inode has none. */
  ghost predicate Counts(t: seq<Inode>) {
    forall x: nat :: x < |t| ==> LinkCount(t[x]) == |Refs(t, x)|
  }

  // ---- The tree ------------------------------------------------------------------------------------

  /** Slot k of directory d is an entry proper, neither "." nor "..", for inode x. */
  predicate Child(t: seq<Inode>, d: nat, k: nat, x: nat) {
    d < |t| && IsDir(t[d]) && 2 <= k < |t[d].slots| && x != 0 && t[d].slots[k].inum == x
  }

  /** No two entries have the same name. */
  predicate Unambiguous(s: seq<Dirent>) {
    forall i, j :: 0 <= i < j < |s| && s[i].inum != 0 && s[j].inum != 0 ==> s[i].name != s[j].name
  }

  predicate Dots(t: seq<Inode>, d: nat)
    requires d < |t| && IsDir(t[d])
  {
    var s := t[d].slots;
    && |s| >= 2 && s[0] == Dirent(d, ".") && s[1].name == ".." && s[1].inum != 0 && Unambiguous(s)
    && forall k :: 0 <= k < |s| ==> s[k].inum < |t|
  }

  /** The parent that ".." names holds an entry for d. */
  ghost predicate InParent(t: seq<Inode>, d: nat)
    requires d < |t| && IsDir(t[d]) && Dots(t, d)
  {
    var p := t[d].slots[1].inum;
    if d == ROOT then p == ROOT else p < |t| && Linked(t[p]) && exists k: nat :: Child(t, p, k, d)
  }

  /** Every directory starts with its dots; a linked one hangs in its parent; a removed one is empty. */
  ghost predicate DirOk(t: seq<Inode>, d: nat)
    requires d < |t|
  {
    IsDir(t[d]) ==>
      && Dots(t, d)
      && (Linked(t[d]) ==> InParent(t, d))
      && (!Linked(t[d]) ==> forall k: nat, x: nat :: !Child(t, d, k, x))
  }

  /** No directory has two entries, and the root has none. */
  ghost predicate OneParent(t: seq<Inode>) {
    forall d: nat, k: nat, e: nat, j: nat, x: nat ::
      Child(t, d, k, x) && Child(t, e, j, x) && x < |t| && IsDir(t[x]) ==> x != ROOT && d == e && k == j
  }

  ghost predicate Inv(t: seq<Inode>) {
    && ROOT < |t| && IsDir(t[ROOT]) && Linked(t[ROOT]) && t[0].Free?
    && Counts(t) && OneParent(t) && forall d: nat :: d < |t| ==> DirOk(t, d)
  }

  /** An entry that is not a dot is counted, and its directory is linked. */
  lemma ChildIsRef(t: seq<Inode>, d: nat, k: nat, x: nat)
    requires Inv(t) && Child(t, d, k, x)
    ensures Names(t, d, k, x) && x < |t| && Linked(t[x])
  {
    assert DirOk(t, d);
    RefsIff(t, x);
    assert (d, k) in Refs(t, x);
  }

  /** A directory that ".." names holds an entry for the directory that has it, unless that is the root. */
  lemma DotDotMeansChild(t: seq<Inode>, e: nat, x: nat)
    requires Inv(t) && Names(t, e, 1, x)
    ensures e == ROOT ==> x == ROOT
    ensures e != ROOT ==> x < |t| && IsDir(t[x]) && exists j: nat :: Child(t, x, j, e)
  {
    hide Counts, OneParent;
    assert DirOk(t, e);
  }

  lemma RootIsNoChild(t: seq<Inode>, d: nat, k: nat, x: nat)
    requires OneParent(t) && Child(t, d, k, x) && x < |t| && IsDir(t[x])
    ensures x != ROOT
  {
  }

  /** An empty directory is named by the entry in its parent and by nothing else. */
  lemma OnlyRef(t: seq<Inode>, d: nat, k: nat, x: nat, e: nat, j: nat)
    requires Inv(t) && Child(t, d, k, x) && x < |t| && IsDir(t[x]) && Names(t, e, j, x)
    requires forall i: nat, y: nat :: !Child(t, x, i, y)
    ensures e == d && j == k
  {
    hide Counts;
    RootIsNoChild(t, d, k, x);
    assert DirOk(t, e);
    if j >= 2 {
      assert Child(t, e, j, x);
    } else {
      DotDotMeansChild(t, e, x);
      assert false;
    }
  }

  lemma EmptyDirRefs(t: seq<Inode>, d: nat, k: nat, x: nat)
    requires Inv(t) && Child(t, d, k, x) && x < |t| && IsDir(t[x]) && forall i: nat, y: nat :: !Child(t, x, i, y)
    ensures Refs(t, x) == {(d, k)} && t[x].nlink == 1
  {
    ChildIsRef(t, d, k, x);
    hide Inv, OneParent, DirOk, Refs;
    RefsIff(t, x);
    forall r | r in Refs(t, x) ensures r == (d, k) {
      OnlyRef(t, d, k, x, r.0, r.1);
    }
    assert (d, k) in Refs(t, x);
    assert Refs(t, x) == {(d, k)};
    CountOf(t, x);
  }

  lemma CountOf(t: seq<Inode>, x: nat)
    requires Inv(t) && x < |t|
    ensures LinkCount(t[x]) == |Refs(t, x)|
  {
  }

  // ---- How the counts change -----------------------------------------------------------------------

  lemma RefsSame(t: seq<Inode>, t': seq<Inode>, x: nat)
    requires forall d: nat, k: nat :: Names(t', d, k, x) <==> Names(t, d, k, x)
    ensures Refs(t', x) == Refs(t, x)
  {
  }

  lemma RefsPlus(t: seq<Inode>, t': seq<Inode>, x: nat, d: nat, k: nat)
    requires forall e: nat, j: nat :: Names(t', e, j, x) <==> Names(t, e, j, x) || (e == d && j == k)
    requires !Names(t, d, k, x)
    ensures |Refs(t', x)| == |Refs(t, x)| + 1
  {
    hide Refs, Names;
    RefsIff(t, x);
    RefsIff(t', x);
    assert forall r: (nat, nat) :: Names(t', r.0, r.1, x) <==> Names(t, r.0, r.1, x) || r == (d, k);
    assert Refs(t', x) == Refs(t, x) + {(d, k)};
  }

  // ---- Adding a leaf -------------------------------------------------------------------------------

  function PutSlot(s: seq<Dirent>, k: nat, e: Dirent): (r: seq<Dirent>)
    requires k <= |s|
  {
    if k < |s| then s[k := e] else s + [e]
  }

  predicate Absent(s: seq<Dirent>, name: string) {
    forall j :: 0 <= j < |s| && s[j].inum != 0 ==> s[j].name != name
  }

  /** Slot k of directory d can take a new entry of that name. */
  predicate Room(t: seq<Inode>, d: nat, k: nat, name: string) {
    && d < |t| && IsDir(t[d]) && k <= |t[d].slots| && (k < |t[d].slots| ==> t[d].slots[k].inum == 0)
    && Absent(t[d].slots, name)
  }

  predicate Fits(t: seq<Inode>, d: nat, k: nat, name: string) {
    Room(t, d, k, name) && Linked(t[d])
  }

  /** Entry k of d names x, a file that is linked once more. */
  function WithLeaf(t: seq<Inode>, d: nat, k: nat, name: string, x: nat, n: Inode): seq<Inode>
    requires Room(t, d, k, name) && x < |t|
  {
    t[x := n][d := t[d].(slots := PutSlot(t[d].slots, k, Dirent(x, name)))]
  }

  ghost predicate IsLeaf(t: seq<Inode>, x: nat, n: Inode) {
    0 < x < |t| && !IsDir(t[x]) && n.Node? && n.kind != Directory && n.nlink == LinkCount(t[x]) + 1
  }

  lemma LeafNames(t: seq<Inode>, d: nat, k: nat, name: string, x: nat, n: Inode, e: nat, j: nat, y: nat)
    requires Inv(t) && Fits(t, d, k, name) && IsLeaf(t, x, n)
    ensures Names(WithLeaf(t, d, k, name, x, n), e, j, y) <==> Names(t, e, j, y) || (e == d && j == k && y == x)
    ensures Child(WithLeaf(t, d, k, name, x, n), e, j, y) <==> Child(t, e, j, y) || (e == d && j == k && y == x)
  {
    hide Counts, OneParent, InParent;
    assert DirOk(t, d);
    assert t[d].slots[0].name == ".";
  }

  lemma LeafCounts(t: seq<Inode>, d: nat, k: nat, name: string, x: nat, n: Inode, y: nat)
    requires Inv(t) && Fits(t, d, k, name) && IsLeaf(t, x, n) && y < |t|
    ensures var t' := WithLeaf(t, d, k, name, x, n); LinkCount(t'[y]) == |Refs(t', y)|
  {
    var t' := WithLeaf(t, d, k, name, x, n);
    hide Inv, Names, Child, Refs, Fits;
    forall e: nat, j: nat ensures Names(t', e, j, y) <==> Names(t, e, j, y) || (e == d && j == k && y == x) {
      LeafNames(t, d, k, name, x, n, e, j, y);
    }
    CountOf(t, y);
    LeafIsNew(t, d, k, name, x);
    if y == x {
      RefsPlus(t, t', x, d, k);
    } else {
      RefsSame(t, t', y);
    }
  }

  lemma LeafIsNew(t: seq<Inode>, d: nat, k: nat, name: string, x: nat)
    requires Fits(t, d, k, name) && x != 0
    ensures !Names(t, d, k, x) && IsDir(t[d])
  {
  }

  lemma PutUnambiguous(s: seq<Dirent>, k: nat, e: Dirent)
    requires Unambiguous(s) && k <= |s| && forall j :: 0 <= j < |s| && s[j].inum != 0 ==> s[j].name != e.name
    ensures Unambiguous(PutSlot(s, k, e))
  {
  }

  /** A directory keeps its place when the entries for directories are the same. */
  lemma StaysInParent(t: seq<Inode>, t': seq<Inode>, e: nat)
    requires |t'| == |t| && e < |t| && IsDir(t[e]) && IsDir(t'[e]) && Dots(t, e) && Dots(t', e) && InParent(t, e)
    requires t'[e].slots[1] == t[e].slots[1]
    requires forall p: nat :: p < |t| && IsDir(t[p]) && Linked(t[p]) ==> Linked(t'[p])
    requires forall p: nat, k: nat :: Child(t, p, k, e) ==> Child(t', p, k, e)
    ensures InParent(t', e)
  {
  }

  lemma LeafDirOk(t: seq<Inode>, d: nat, k: nat, name: string, x: nat, n: Inode, e: nat)
    requires Inv(t) && Fits(t, d, k, name) && IsLeaf(t, x, n) && e < |t|
    ensures DirOk(WithLeaf(t, d, k, name, x, n), e)
  {
    hide Counts, OneParent, InParent, Child;
    var t' := WithLeaf(t, d, k, name, x, n);
    assert DirOk(t, e) && DirOk(t, d);
    PutUnambiguous(t[d].slots, k, Dirent(x, name));
    if IsDir(t'[e]) {
      assert Dots(t', e);
      forall p: nat, j: nat, y: nat ensures Child(t', p, j, y) <==> Child(t, p, j, y) || (p == d && j == k && y == x) {
        LeafNames(t, d, k, name, x, n, p, j, y);
      }
      if Linked(t'[e]) {
        StaysInParent(t, t', e);
      }
    }
  }

  /** Adding an entry for a file and counting it keeps everything. */
  lemma LeafKeeps(t: seq<Inode>, d: nat, k: nat, name: string, x: nat, n: Inode)
    requires Inv(t) && Fits(t, d, k, name) && IsLeaf(t, x, n)
    ensures Inv(WithLeaf(t, d, k, name, x, n))
  {
    hide Child, Refs, DirOk;
    var t' := WithLeaf(t, d, k, name, x, n);
    LeafIsNew(t, d, k, name, x);
    forall y: nat | y < |t| ensures LinkCount(t'[y]) == |Refs(t', y)| && DirOk(t', y) {
      LeafCounts(t, d, k, name, x, n, y);
      LeafDirOk(t, d, k, name, x, n, y);
    }
    forall p: nat, j: nat, y: nat ensures Child(t', p, j, y) <==> Child(t, p, j, y) || (p == d && j == k && y == x) {
      LeafNames(t, d, k, name, x, n, p, j, y);
    }
    assert OneParent(t');
  }

  /** The parent must still be linked: the count is right afterwards exactly when it is. In a directory that
      was removed while some process was in it, the new entry is one that nobody can reach. */
  lemma LeafIff(t: seq<Inode>, d: nat, k: nat, name: string, x: nat, n: Inode)
    requires Inv(t) && Room(t, d, k, name) && IsLeaf(t, x, n)
    ensures Counts(WithLeaf(t, d, k, name, x, n)) <==> Linked(t[d])
  {
    var t' := WithLeaf(t, d, k, name, x, n);
    if Linked(t[d]) {
      LeafKeeps(t, d, k, name, x, n);
    } else {
      CountOf(t, x);
      RefsSame(t, t', x);
      assert LinkCount(t'[x]) != |Refs(t', x)|;
    }
  }

  lemma LeafInvIff(t: seq<Inode>, d: nat, k: nat, name: string, x: nat, n: Inode)
    requires Inv(t) && Room(t, d, k, name) && IsLeaf(t, x, n)
    ensures Inv(WithLeaf(t, d, k, name, x, n)) <==> Linked(t[d])
  {
    LeafIff(t, d, k, name, x, n);
    if Linked(t[d]) {
      LeafKeeps(t, d, k, name, x, n);
    }
  }

  // ---- Making a directory --------------------------------------------------------------------------

  function NewDir(x: nat, d: nat): Inode {
    Node(Directory, 1, [Dirent(x, "."), Dirent(d, "..")])
  }

  /** Entry k of d names x, a new directory whose ".." is counted in d. */
  function WithDir(t: seq<Inode>, d: nat, k: nat, name: string, x: nat): seq<Inode>
    requires Room(t, d, k, name) && x < |t|
  {
    t[x := NewDir(x, d)][d := t[d].(nlink := t[d].nlink + 1, slots := PutSlot(t[d].slots, k, Dirent(x, name)))]
  }

  lemma FreeIsUnnamed(t: seq<Inode>, x: nat, d: nat, k: nat)
    requires Inv(t) && x < |t| && t[x].Free?
    ensures !Names(t, d, k, x) && !Child(t, d, k, x)
  {
    hide Refs;
    CountOf(t, x);
    RefsIff(t, x);
    assert (d, k) !in Refs(t, x);
    if Child(t, d, k, x) {
      ChildIsRef(t, d, k, x);
      assert false;
    }
  }

  lemma DirNames(t: seq<Inode>, d: nat, k: nat, name: string, x: nat, e: nat, j: nat, y: nat)
    requires Inv(t) && Fits(t, d, k, name) && 0 < x < |t| && t[x].Free?
    ensures Names(WithDir(t, d, k, name, x), e, j, y) <==>
            Names(t, e, j, y) || (e == d && j == k && y == x) || (e == x && j == 1 && y == d)
    ensures Child(WithDir(t, d, k, name, x), e, j, y) <==> Child(t, e, j, y) || (e == d && j == k && y == x)
  {
    hide Counts, OneParent, InParent;
    assert DirOk(t, d);
    assert t[d].slots[0].name == ".";
  }

  lemma DirCounts(t: seq<Inode>, d: nat, k: nat, name: string, x: nat, y: nat)
    requires Inv(t) && Fits(t, d, k, name) && 0 < x < |t| && t[x].Free? && y < |t|
    ensures var t' := WithDir(t, d, k, name, x); LinkCount(t'[y]) == |Refs(t', y)|
  {
    var t' := WithDir(t, d, k, name, x);
    hide Inv, Names, Child, Refs;
    forall e: nat, j: nat
      ensures Names(t', e, j, y) <==> Names(t, e, j, y) || (e == d && j == k && y == x) || (e == x && j == 1 && y == d)
    {
      DirNames(t, d, k, name, x, e, j, y);
    }
    CountOf(t, y);
    if y == x {
      LeafIsNew(t, d, k, name, x);
      RefsPlus(t, t', x, d, k);
    } else if y == d {
      FreeNamesNothing(t, x, 1, d);
      RefsPlus(t, t', d, x, 1);
    } else {
      RefsSame(t, t', y);
    }
  }

  lemma FreeNamesNothing(t: seq<Inode>, x: nat, k: nat, y: nat)
    requires x < |t| && t[x].Free?
    ensures !Names(t, x, k, y)
  {
  }

  lemma DirDirOk(t: seq<Inode>, d: nat, k: nat, name: string, x: nat, e: nat)
    requires Inv(t) && Fits(t, d, k, name) && 0 < x < |t| && t[x].Free? && e < |t|
    ensures DirOk(WithDir(t, d, k, name, x), e)
  {
    hide Counts, OneParent, InParent, Child;
    var t' := WithDir(t, d, k, name, x);
    assert DirOk(t, e) && DirOk(t, d);
    PutUnambiguous(t[d].slots, k, Dirent(x, name));
    forall p: nat, j: nat, y: nat ensures Child(t', p, j, y) <==> Child(t, p, j, y) || (p == d && j == k && y == x) {
      DirNames(t, d, k, name, x, p, j, y);
    }
    if e == x {
      assert Child(t', d, k, x);
      NewInParent(t', x, d, k);
    } else if IsDir(t'[e]) && Linked(t'[e]) {
      assert Dots(t', e);
      StaysInParent(t, t', e);
    }
  }

  lemma NewInParent(t: seq<Inode>, x: nat, d: nat, k: nat)
    requires x < |t| && t[x] == NewDir(x, d) && x != ROOT && 0 < d < |t| && Linked(t[d]) && Child(t, d, k, x)
    ensures Dots(t, x) && InParent(t, x)
  {
  }

  /** Making a directory keeps everything. */
  lemma DirKeeps(t: seq<Inode>, d: nat, k: nat, name: string, x: nat)
    requires Inv(t) && Fits(t, d, k, name) && 0 < x < |t| && t[x].Free?
    ensures Inv(WithDir(t, d, k, name, x))
  {
    hide Child, Refs, DirOk;
    var t' := WithDir(t, d, k, name, x);
    forall y: nat | y < |t| ensures LinkCount(t'[y]) == |Refs(t', y)| && DirOk(t', y) {
      DirCounts(t, d, k, name, x, y);
      DirDirOk(t, d, k, name, x, y);
    }
    forall p: nat, j: nat, y: nat ensures Child(t', p, j, y) <==> Child(t, p, j, y) || (p == d && j == k && y == x) {
      DirNames(t, d, k, name, x, p, j, y);
    }
    forall p: nat, j: nat ensures !Child(t, p, j, x) {
      FreeIsUnnamed(t, x, p, j);
    }
    assert OneParent(t');
  }

  /** Again the parent must still be linked. If it was removed, raising its count brings it back, and with it its "..",
      which is no longer counted where it points. */
  lemma DirIff(t: seq<Inode>, d: nat, k: nat, name: string, x: nat)
    requires Inv(t) && Room(t, d, k, name) && 0 < x < |t| && t[x].Free?
    ensures Counts(WithDir(t, d, k, name, x)) <==> Linked(t[d])
  {
    if Linked(t[d]) {
      DirKeeps(t, d, k, name, x);
    } else {
      DirOff(t, d, k, name, x);
    }
  }

  lemma DirInvIff(t: seq<Inode>, d: nat, k: nat, name: string, x: nat)
    requires Inv(t) && Room(t, d, k, name) && 0 < x < |t| && t[x].Free?
    ensures Inv(WithDir(t, d, k, name, x)) <==> Linked(t[d])
  {
    DirIff(t, d, k, name, x);
    if Linked(t[d]) {
      DirKeeps(t, d, k, name, x);
    }
  }

  lemma DirOff(t: seq<Inode>, d: nat, k: nat, name: string, x: nat)
    requires Inv(t) && Room(t, d, k, name) && 0 < x < |t| && t[x].Free? && !Linked(t[d])
    ensures !Counts(WithDir(t, d, k, name, x))
  {
    var t' := WithDir(t, d, k, name, x);
    RemovedNames(t, d, k, name, x);
    var p := t[d].slots[1].inum;
    hide Inv, Names, Refs, Room;
    RefsIff(t', p);
    if p == d {
      TwoRefs(t', d, (x, 1), (d, 1));
    } else if p == x {
      TwoRefs(t', x, (d, 1), (d, k));
    } else {
      RefsPlus(t, t', p, d, 1);
      CountOf(t, p);
    }
    assert LinkCount(t'[p]) != |Refs(t', p)|;
  }

  lemma TwoRefs(t: seq<Inode>, x: nat, a: (nat, nat), b: (nat, nat))
    requires a != b && Names(t, a.0, a.1, x) && Names(t, b.0, b.1, x)
    ensures |Refs(t, x)| >= 2
  {
    RefsIff(t, x);
    assert {a, b} <= Refs(t, x);
    Finite.SubsetSize({a, b}, Refs(t, x));
  }

  /** What names what when a removed directory comes back. */
  lemma RemovedNames(t: seq<Inode>, d: nat, k: nat, name: string, x: nat)
    requires Inv(t) && Room(t, d, k, name) && 0 < x < |t| && t[x].Free? && !Linked(t[d])
    ensures IsDir(t[d]) && t[d].nlink == 0 && k >= 2 && d != x && |t[d].slots| >= 2 && 0 < t[d].slots[1].inum < |t|
    ensures var t' := WithDir(t, d, k, name, x);
            forall e: nat, j: nat, y: nat :: Names(t', e, j, y) <==>
              Names(t, e, j, y) || (e == d && j == k && y == x) || (e == x && j == 1 && y == d)
                  || (e == d && j == 1 && y == t[d].slots[1].inum)
    ensures !Names(t, d, 1, t[d].slots[1].inum)
  {
    hide Counts, OneParent, InParent;
    assert DirOk(t, d);
    assert t[d].slots[0].name == ".";
    var t' := WithDir(t, d, k, name, x);
    forall e: nat, j: nat, y: nat ensures Names(t', e, j, y) <==>
        Names(t, e, j, y) || (e == d && j == k && y == x) || (e == x && j == 1 && y == d)
            || (e == d && j == 1 && y == t[d].slots[1].inum)
    {
      assert !Child(t, d, j, y);
    }
  }

  // ---- Removing a leaf -----------------------------------------------------------------------------

  function WithoutLeaf(t: seq<Inode>, d: nat, k: nat, x: nat): seq<Inode>
    requires Child(t, d, k, x) && x < |t| && Linked(t[x])
  {
    var u := t[d := t[d].(slots := t[d].slots[k := EMPTY])];
    u[x := t[x].(nlink := t[x].nlink - 1)]
  }

  lemma RefsMinus(t: seq<Inode>, t': seq<Inode>, x: nat, d: nat, k: nat)
    requires forall e: nat, j: nat :: Names(t', e, j, x) <==> Names(t, e, j, x) && !(e == d && j == k)
    requires Names(t, d, k, x)
    ensures |Refs(t', x)| == |Refs(t, x)| - 1
  {
    hide Refs, Names;
    forall e: nat, j: nat ensures Names(t, e, j, x) <==> Names(t', e, j, x) || (e == d && j == k) {
    }
    RefsPlus(t', t, x, d, k);
  }

  lemma LessNames(t: seq<Inode>, d: nat, k: nat, x: nat, e: nat, j: nat, y: nat)
    requires Inv(t) && Child(t, d, k, x) && x < |t| && Linked(t[x]) && !IsDir(t[x])
    ensures Names(WithoutLeaf(t, d, k, x), e, j, y) <==> Names(t, e, j, y) && !(e == d && j == k && y == x)
    ensures Child(WithoutLeaf(t, d, k, x), e, j, y) <==> Child(t, e, j, y) && !(e == d && j == k && y == x)
  {
  }

  lemma LessCounts(t: seq<Inode>, d: nat, k: nat, x: nat, y: nat)
    requires Inv(t) && Child(t, d, k, x) && x < |t| && Linked(t[x]) && !IsDir(t[x]) && y < |t|
    ensures var t' := WithoutLeaf(t, d, k, x); LinkCount(t'[y]) == |Refs(t', y)|
  {
    var t' := WithoutLeaf(t, d, k, x);
    ChildIsRef(t, d, k, x);
    hide Inv, Names, Refs, Child;
    forall e: nat, j: nat ensures Names(t', e, j, y) <==> Names(t, e, j, y) && !(e == d && j == k && y == x) {
      LessNames(t, d, k, x, e, j, y);
    }
    CountOf(t, y);
    if y == x {
      RefsMinus(t, t', x, d, k);
    } else {
      RefsSame(t, t', y);
    }
  }

  lemma LessDirOk(t: seq<Inode>, d: nat, k: nat, x: nat, e: nat)
    requires Inv(t) && Child(t, d, k, x) && x < |t| && Linked(t[x]) && !IsDir(t[x]) && e < |t|
    ensures DirOk(WithoutLeaf(t, d, k, x), e)
  {
    hide Counts, OneParent, InParent;
    var t' := WithoutLeaf(t, d, k, x);
    assert DirOk(t, e) && DirOk(t, d);
    if IsDir(t'[e]) {
      assert Dots(t', e);
      forall p: nat, j: nat, y: nat ensures Child(t', p, j, y) <==> Child(t, p, j, y) && !(p == d && j == k && y == x) {
        LessNames(t, d, k, x, p, j, y);
      }
      if Linked(t'[e]) {
        StaysInParent(t, t', e);
      }
    }
  }

  /** Clearing the entry of a file and uncounting it keeps everything. */
  lemma LessKeeps(t: seq<Inode>, d: nat, k: nat, x: nat)
    requires Inv(t) && Child(t, d, k, x) && x < |t| && Linked(t[x]) && !IsDir(t[x])
    ensures Inv(WithoutLeaf(t, d, k, x))
  {
    hide Refs, DirOk;
    var t' := WithoutLeaf(t, d, k, x);
    forall y: nat | y < |t| ensures LinkCount(t'[y]) == |Refs(t', y)| && DirOk(t', y) {
      LessCounts(t, d, k, x, y);
      LessDirOk(t, d, k, x, y);
    }
    forall p: nat, j: nat, y: nat ensures Child(t', p, j, y) ==> Child(t, p, j, y) {
      LessNames(t, d, k, x, p, j, y);
    }
    assert OneParent(t');
  }

  // ---- Removing a directory ------------------------------------------------------------------------

  ghost predicate Removable(t: seq<Inode>, d: nat, k: nat, x: nat) {
    Child(t, d, k, x) && x < |t| && IsDir(t[x]) && Linked(t[x]) && forall j: nat, y: nat :: !Child(t, x, j, y)
  }

  function WithoutDir(t: seq<Inode>, d: nat, k: nat, x: nat): seq<Inode>
    requires Child(t, d, k, x) && x < |t| && Linked(t[x]) && Linked(t[d])
  {
    var u := t[d := t[d].(nlink := t[d].nlink - 1, slots := t[d].slots[k := EMPTY])];
    u[x := t[x].(nlink := t[x].nlink - 1)]
  }

  /** The directory that holds the entry is another one, is what ".." names, and has at least two links. */
  lemma Parent(t: seq<Inode>, d: nat, k: nat, x: nat)
    requires Inv(t) && Removable(t, d, k, x)
    ensures d != x && x != ROOT && t[x].nlink == 1 && Linked(t[d]) && t[d].nlink >= 2 && Names(t, x, 1, d)
  {
    hide Counts, Refs;
    EmptyDirRefs(t, d, k, x);
    RootIsNoChild(t, d, k, x);
    ChildIsRef(t, d, k, x);
    assert DirOk(t, x) && DirOk(t, d);
    var p := t[x].slots[1].inum;
    var i: nat :| Child(t, p, i, x);
    assert p == d;
    CountOf(t, d);
    SecondRef(t, d, x);
  }

  /** A directory with a subdirectory x is named by x's ".." and by one more entry. */
  lemma SecondRef(t: seq<Inode>, d: nat, x: nat)
    requires Inv(t) && Names(t, x, 1, d) && d != x && d < |t| && IsDir(t[d]) && Linked(t[d])
    ensures |Refs(t, d)| >= 2
  {
    hide Counts, Refs;
    assert DirOk(t, d);
    RefsIff(t, d);
    var r: (nat, nat);
    if d == ROOT {
      r := (ROOT, 1);
    } else {
      var i: nat :| Child(t, t[d].slots[1].inum, i, d);
      r := (t[d].slots[1].inum, i);
      ChildIsRef(t, r.0, i, d);
    }
    assert Names(t, r.0, r.1, d) && r != (x, 1);
    assert {r, (x, 1)} <= Refs(t, d);
    Finite.SubsetSize({r, (x, 1)}, Refs(t, d));
  }

  lemma GoneNames(t: seq<Inode>, d: nat, k: nat, x: nat, e: nat, j: nat, y: nat)
    requires Inv(t) && Removable(t, d, k, x) && Linked(t[d])
    ensures Names(WithoutDir(t, d, k, x), e, j, y) <==>
            Names(t, e, j, y) && !(e == d && j == k && y == x) && !(e == x && j == 1 && y == d)
    ensures Child(WithoutDir(t, d, k, x), e, j, y) <==> Child(t, e, j, y) && !(e == d && j == k && y == x)
  {
    hide Counts, OneParent;
    Parent(t, d, k, x);
    assert DirOk(t, x) && !Child(t, x, j, y);
  }

  lemma GoneCounts(t: seq<Inode>, d: nat, k: nat, x: nat, y: nat)
    requires Inv(t) && Removable(t, d, k, x) && Linked(t[d]) && y < |t|
    ensures var t' := WithoutDir(t, d, k, x); LinkCount(t'[y]) == |Refs(t', y)|
  {
    var t' := WithoutDir(t, d, k, x);
    Parent(t, d, k, x);
    ChildIsRef(t, d, k, x);
    hide Inv, Names, Refs;
    forall e: nat, j: nat
      ensures Names(t', e, j, y) <==>
              Names(t, e, j, y) && !(e == d && j == k && y == x) && !(e == x && j == 1 && y == d)
    {
      GoneNames(t, d, k, x, e, j, y);
    }
    CountOf(t, y);
    if y == x {
      RefsMinus(t, t', x, d, k);
    } else if y == d {
      RefsMinus(t, t', d, x, 1);
    } else {
      RefsSame(t, t', y);
    }
  }

  lemma GoneDirOk(t: seq<Inode>, d: nat, k: nat, x: nat, e: nat)
    requires Inv(t) && Removable(t, d, k, x) && Linked(t[d]) && e < |t|
    ensures DirOk(WithoutDir(t, d, k, x), e)
  {
    hide Counts, OneParent;
    var t' := WithoutDir(t, d, k, x);
    Parent(t, d, k, x);
    assert DirOk(t, e) && DirOk(t, d) && DirOk(t, x);
    forall p: nat, j: nat, y: nat ensures Child(t', p, j, y) <==> Child(t, p, j, y) && !(p == d && j == k && y == x) {
      GoneNames(t, d, k, x, p, j, y);
    }
    if IsDir(t'[e]) {
      assert Dots(t', e);
      if Linked(t'[e]) && e != ROOT {
        var q := t[e].slots[1].inum;
        var i: nat :| Child(t, q, i, e);
        assert Child(t', q, i, e);
      }
    }
  }

  /** Clearing the entry of an empty directory, and uncounting it and its "..", keeps everything. */
  lemma GoneKeeps(t: seq<Inode>, d: nat, k: nat, x: nat)
    requires Inv(t) && Removable(t, d, k, x) && Linked(t[d])
    ensures Inv(WithoutDir(t, d, k, x)) && WithoutDir(t, d, k, x)[x].nlink == 0
  {
    hide Refs, DirOk;
    var t' := WithoutDir(t, d, k, x);
    Parent(t, d, k, x);
    forall y: nat | y < |t| ensures LinkCount(t'[y]) == |Refs(t', y)| && DirOk(t', y) {
      GoneCounts(t, d, k, x, y);
      GoneDirOk(t, d, k, x, y);
    }
    forall p: nat, j: nat, y: nat ensures Child(t', p, j, y) ==> Child(t, p, j, y) {
      GoneNames(t, d, k, x, p, j, y);
    }
    assert OneParent(t');
  }

  // ---- Freeing an inode ----------------------------------------------------------------------------

  lemma FreedNames(t: seq<Inode>, x: nat, d: nat, k: nat, y: nat)
    requires Inv(t) && x < |t| && t[x].Node? && t[x].nlink == 0
    ensures Names(t[x := Free], d, k, y) <==> Names(t, d, k, y)
    ensures Child(t[x := Free], d, k, y) <==> Child(t, d, k, y)
  {
    hide Counts, OneParent;
    assert DirOk(t, x);
  }

  lemma FreedOk(t: seq<Inode>, x: nat, y: nat)
    requires Inv(t) && x < |t| && t[x].Node? && t[x].nlink == 0 && y < |t|
    ensures LinkCount(t[x := Free][y]) == |Refs(t[x := Free], y)| && DirOk(t[x := Free], y)
  {
    var t' := t[x := Free];
    assert DirOk(t, y);
    CountOf(t, y);
    hide Names, Child, Refs, Inv;
    forall d: nat, k: nat, z: nat
        ensures (Names(t', d, k, z) <==> Names(t, d, k, z)) && (Child(t', d, k, z) <==> Child(t, d, k, z))
    {
      FreedNames(t, x, d, k, z);
    }
    RefsSame(t, t', y);
    if IsDir(t'[y]) && Linked(t'[y]) {
      FreedParent(t, x, y);
    }
  }

  /** An inode that nothing names can go. */
  lemma FreeKeeps(t: seq<Inode>, x: nat)
    requires Inv(t) && x < |t| && t[x].Node? && t[x].nlink == 0
    ensures Inv(t[x := Free])
  {
    hide Names, Child, Refs, DirOk;
    var t' := t[x := Free];
    forall y: nat | y < |t| ensures LinkCount(t'[y]) == |Refs(t', y)| && DirOk(t', y) {
      FreedOk(t, x, y);
    }
    forall d: nat, k: nat, y: nat ensures Child(t', d, k, y) <==> Child(t, d, k, y) {
      FreedNames(t, x, d, k, y);
    }
    assert OneParent(t');
  }

  lemma FreedParent(t: seq<Inode>, x: nat, y: nat)
    requires x < |t| && y < |t| && !Linked(t[x]) && IsDir(t[y]) && Linked(t[y]) && Dots(t, y) && InParent(t, y)
    ensures Dots(t[x := Free], y) && InParent(t[x := Free], y)
  {
    if y != ROOT {
      var i: nat :| Child(t, t[y].slots[1].inum, i, y);
      assert Child(t[x := Free], t[y].slots[1].inum, i, y);
    }
  }

  // ---- The operations ------------------------------------------------------------------------------

  /** The directory can take one more entry: a free slot, or room to grow. */
  predicate HasRoom(n: Inode) {
    IsDir(n) && (|n.slots| < MAXSLOTS || exists k :: 0 <= k < |n.slots| && n.slots[k].inum == 0)
  }

  ghost predicate FirstFree(s: seq<Dirent>, k: nat) {
    k <= |s| && (k < |s| ==> s[k].inum == 0) && forall j :: 0 <= j < k ==> s[j].inum != 0
  }

  /** Slot k holds the entry of that name. */
  predicate At(s: seq<Dirent>, k: nat, name: string) {
    k < |s| && s[k].inum != 0 && s[k].name == name
  }

  /** Slot k is that entry, and the other slots are as they were. */
  ghost predicate OneSlot(s: seq<Dirent>, s': seq<Dirent>, k: nat, e: Dirent) {
    && k < |s'| && s'[k] == e && |s'| == (if k < |s| then |s| else k + 1)
    && forall j :: 0 <= j < |s| && j != k ==> s'[j] == s[j]
  }

  /** Inodes x and d have changed: d has that entry in slot k and that count, and its kind is as it was. */
  ghost predicate TwoInodes(t: seq<Inode>, t': seq<Inode>, x: nat, n: Inode, d: nat, nlink: nat, k: nat, e: Dirent) {
    && |t'| == |t| && x < |t| && d < |t| && x != d && t'[x] == n && t[d].Node? && t'[d].Node?
    && t'[d].kind == t[d].kind && t'[d].nlink == nlink && OneSlot(t[d].slots, t'[d].slots, k, e)
    && forall y :: 0 <= y < |t| && y != x && y != d ==> t'[y] == t[y]
  }

  class FileTree {
    var t: seq<Inode>

    ghost predicate Valid()
      reads this
    {
      Inv(t)
    }

    /** What mkfs makes: the root, which is its own parent. */
    constructor (ninodes: nat)
      requires ninodes > ROOT
      ensures Valid() && |t| == ninodes && t[ROOT] == NewDir(ROOT, ROOT)
              && forall x :: 0 <= x < |t| && x != ROOT ==> t[x].Free?
    {
      t := [Free, NewDir(ROOT, ROOT)] + seq(ninodes - 2, _ => Free);
      new;
      RootCounts(t);
    }

    /** `dirlookup`: the first entry of that name. */
    method DirLookup(d: nat, name: string) returns (off: Option<nat>)
      requires d < |t| && IsDir(t[d])
      ensures off.None? <==> Absent(t[d].slots, name)
      ensures off.Some? ==> At(t[d].slots, off.value, name) && Absent(t[d].slots[..off.value], name)
    {
      for k := 0 to |t[d].slots|
        invariant Absent(t[d].slots[..k], name)
      {
        var de := t[d].slots[k];
        if de.inum != 0 && de.name == name {
          return Some(k);
        }
        assert t[d].slots[..k + 1] == t[d].slots[..k] + [de];
      }
      assert t[d].slots[..|t[d].slots|] == t[d].slots;
      return None;
    }

    /** `dirlink`: refused when the name is there; otherwise the entry goes into the first free slot. */
    method DirLink(d: nat, name: string, x: nat) returns (ok: bool, k: nat)
      requires d < |t| && HasRoom(t[d]) && x != 0
      modifies this
      ensures ok <==> Absent(old(t)[d].slots, name)
      ensures !ok ==> t == old(t)
      ensures ok ==>
                && FirstFree(old(t)[d].slots, k)
                && t == old(t)[d := old(t)[d].(slots := PutSlot(old(t)[d].slots, k, Dirent(x, name)))]
                && OneSlot(old(t)[d].slots, t[d].slots, k, Dirent(x, name))
    {
      k := 0;
      var off := DirLookup(d, name);
      if off.Some? {
        return false, 0;
      }
      while k < |t[d].slots| && t[d].slots[k].inum != 0
        invariant k <= |t[d].slots| && forall j :: 0 <= j < k ==> t[d].slots[j].inum != 0
      {
        k := k + 1;
      }
      t := t[d := t[d].(slots := PutSlot(t[d].slots, k, Dirent(x, name)))];
      ok := true;
    }

    /** `isdirempty` */
    method IsDirEmpty(d: nat) returns (empty: bool)
      requires d < |t| && IsDir(t[d])
      ensures empty <==> forall k: nat, x: nat :: !Child(t, d, k, x)
    {
      var k := 2;
      while k < |t[d].slots|
        invariant k >= 2 && forall j :: 2 <= j < k && j < |t[d].slots| ==> t[d].slots[j].inum == 0
      {
        if t[d].slots[k].inum != 0 {
          assert Child(t, d, k, t[d].slots[k].inum);
          return false;
        }
        k := k + 1;
      }
      return true;
    }

    /** `sys_link`: x gets an entry in d, or the count goes back to what it was. The target d is missing when
        the path to it does not resolve. Counts are right afterwards exactly when d was still linked. */
    method Link(x: nat, target: Option<nat>, name: string) returns (ok: bool, ghost k: nat)
      requires Valid() && 0 < x < |t| && t[x].Node? && t[x].nlink < MAXLINK
      requires target.Some? ==> target.value < |t| && HasRoom(t[target.value])
      modifies this
      ensures Valid() <==> (ok && target.Some? ==> Linked(old(t)[target.value]))
      ensures ok <==> !IsDir(old(t)[x]) && target.Some? && Absent(old(t)[target.value].slots, name)
      ensures !ok ==> t == old(t)
      ensures ok ==> FirstFree(old(t)[target.value].slots, k) && Room(old(t), target.value, k, name)
                     && t == WithLeaf(old(t), target.value, k, name, x, old(t)[x].(nlink := old(t)[x].nlink + 1))
      ensures ok ==> TwoInodes(old(t), t, x, Node(old(t)[x].kind, old(t)[x].nlink + 1, old(t)[x].slots),
                               target.value, old(t)[target.value].nlink, k, Dirent(x, name))
    {
      k := 0;
      if t[x].kind == Directory {
        return false, 0;
      }
      t := t[x := t[x].(nlink := t[x].nlink + 1)];
      if target.Some? {
        var d := target.value;
        ok, k := DirLink(d, name, x);
        if ok {
          LeafInvIff(old(t), d, k, name, x, old(t)[x].(nlink := old(t)[x].nlink + 1));
          return;
        }
      }
      t := t[x := t[x].(nlink := t[x].nlink - 1)];
      assert t == old(t);
      return false, 0;
    }

    /** `sys_unlink`: the entry goes, and with a directory the link of its "..". A directory goes only when it
        is empty; the count is never below one when the entry is found. */
    method Unlink(d: nat, name: string) returns (ok: bool, ghost k: nat)
      requires Valid() && d < |t| && IsDir(t[d])
      modifies this
      ensures Valid() && |old(t)| == |t|
      ensures name == "." || name == ".." || Absent(old(t)[d].slots, name) ==> !ok
      ensures name != "." && name != ".." && !Absent(old(t)[d].slots, name) ==>
                && At(old(t)[d].slots, k, name) && var x := old(t)[d].slots[k].inum;
                && Child(old(t), d, k, x) && x < |old(t)| && Linked(old(t)[x]) && Linked(old(t)[d])
                && (ok <==> !IsDir(old(t)[x]) || forall j: nat, y: nat :: !Child(old(t), x, j, y))
                && (ok ==> t == if IsDir(old(t)[x]) then WithoutDir(old(t), d, k, x) else WithoutLeaf(old(t), d, k, x))
                && (ok ==> TwoInodes(old(t), t, x, Node(old(t)[x].kind, old(t)[x].nlink - 1, old(t)[x].slots), d,
                                     if IsDir(old(t)[x]) then old(t)[d].nlink - 1 else old(t)[d].nlink, k,
                                     Dirent(0, "")))
      ensures !ok ==> t == old(t)
    {
      hide Inv, TwoInodes, WithoutLeaf, WithoutDir;
      k := 0;
      if name == "." || name == ".." {
        return false, 0;
      }
      var off := DirLookup(d, name);
      if off.None? {
        return false, 0;
      }
      k := off.value;
      var x := t[d].slots[off.value].inum;
      Found(t, d, off.value, name);
      if t[x].kind == Directory {
        var empty := IsDirEmpty(x);
        if !empty {
          return false, k;
        }
      }
      RemoveEntry(d, off.value, x);
      ok := true;
    }

    method RemoveEntry(d: nat, k: nat, x: nat)
      requires Valid() && Child(t, d, k, x) && x < |t| && Linked(t[x]) && Linked(t[d])
               && (IsDir(t[x]) ==> Removable(t, d, k, x))
      modifies this
      ensures Valid() && t == if IsDir(old(t)[x]) then WithoutDir(old(t), d, k, x) else WithoutLeaf(old(t), d, k, x)
      ensures |t| == |old(t)|
      ensures TwoInodes(old(t), t, x, Node(old(t)[x].kind, old(t)[x].nlink - 1, old(t)[x].slots), d,
                        if IsDir(old(t)[x]) then old(t)[d].nlink - 1 else old(t)[d].nlink, k, Dirent(0, ""))
    {
      hide Inv;
      var isdir := t[x].kind == Directory;
      if isdir {
        GoneKeeps(t, d, k, x);
        Parent(t, d, k, x);
      } else {
        LessKeeps(t, d, k, x);
      }
      t := t[d := t[d].(slots := t[d].slots[k := EMPTY])];
      if isdir {
        t := t[d := t[d].(nlink := t[d].nlink - 1)];
      }
      t := t[x := t[x].(nlink := t[x].nlink - 1)];
      assert t == if IsDir(old(t)[x]) then WithoutDir(old(t), d, k, x) else WithoutLeaf(old(t), d, k, x);
    }

    /** `ialloc`: the first free inode. */
    method Ialloc(kind: Kind) returns (x: nat)
      requires exists y :: 0 < y < |t| && t[y].Free?
      modifies this
      ensures 0 < x < |old(t)| && old(t)[x].Free? && (forall y :: 0 < y < x ==> !old(t)[y].Free?)
      ensures t == old(t)[x := Node(kind, 0, [])]
    {
      x := 1;
      while !t[x].Free?
        invariant 0 < x < |t| && (forall y :: 0 < y < x ==> !t[y].Free?) && exists y :: x <= y < |t| && t[y].Free?
        decreases |t| - x
      {
        x := x + 1;
      }
      t := t[x := Node(kind, 0, [])];
    }

    /** `create`: an existing file is opened when a file was asked for; otherwise a new inode gets the name, and
        a new directory its dots. Counts are right afterwards exactly when d was still linked, or nothing was made. */
    method Create(d: nat, name: string, kind: Kind) returns (r: Option<nat>, ghost k: nat)
      requires Valid() && d < |t| && HasRoom(t[d]) && t[d].nlink < MAXLINK
      requires exists y :: 0 < y < |t| && t[y].Free?
      modifies this
      ensures |old(t)| == |t| && (Valid() <==> !Absent(old(t)[d].slots, name) || Linked(old(t)[d]))
      ensures !Absent(old(t)[d].slots, name) ==>
                && t == old(t) && At(old(t)[d].slots, k, name) && var x := old(t)[d].slots[k].inum;
                r == if kind == File && x < |t| && t[x].Node? && t[x].kind == File then Some(x) else None
      ensures Absent(old(t)[d].slots, name) ==>
                && r.Some? && 0 < r.value < |old(t)| && old(t)[r.value].Free? && Room(old(t), d, k, name)
                && t == if kind == Directory then WithDir(old(t), d, k, name, r.value)
                        else WithLeaf(old(t), d, k, name, r.value, Node(kind, 1, []))
      ensures Absent(old(t)[d].slots, name) ==>
                && FirstFree(old(t)[d].slots, k) && (forall y :: 0 < y < r.value ==> !old(t)[y].Free?)
                && if kind == Directory
                   then TwoInodes(old(t), t, r.value, Node(Directory, 1, [Dirent(r.value, "."), Dirent(d, "..")]),
                                  d, old(t)[d].nlink + 1, k, Dirent(r.value, name))
                   else TwoInodes(old(t), t, r.value, Node(kind, 1, []), d, old(t)[d].nlink, k, Dirent(r.value, name))
    {
      k := 0;
      var off := DirLookup(d, name);
      if off.Some? {
        var x := t[d].slots[off.value].inum;
        k := off.value;
        r := if kind == File && x < |t| && t[x].Node? && t[x].kind == File then Some(x) else None;
        return;
      }
      var x;
      if kind == Directory {
        x, k := NewDirectory(d, name);
      } else {
        x, k := NewLeaf(d, name, kind);
      }
      r := Some(x);
    }

    method NewLeaf(d: nat, name: string, kind: Kind) returns (x: nat, k: nat)
      requires Valid() && d < |t| && HasRoom(t[d]) && kind != Directory && Absent(t[d].slots, name)
      requires exists y :: 0 < y < |t| && t[y].Free?
      modifies this
      ensures (Valid() <==> Linked(old(t)[d])) && 0 < x < |old(t)| && old(t)[x].Free? && Room(old(t), d, k, name)
      ensures t == WithLeaf(old(t), d, k, name, x, Node(kind, 1, []))
      ensures FirstFree(old(t)[d].slots, k) && (forall y :: 0 < y < x ==> !old(t)[y].Free?)
      ensures TwoInodes(old(t), t, x, Node(kind, 1, []), d, old(t)[d].nlink, k, Dirent(x, name))
    {
      hide Inv;
      x := Ialloc(kind);
      t := t[x := t[x].(nlink := 1)];
      var ok;
      ok, k := DirLink(d, name, x);
      LeafInvIff(old(t), d, k, name, x, Node(kind, 1, []));
      assert t == WithLeaf(old(t), d, k, name, x, Node(kind, 1, []));
    }

    method NewDirectory(d: nat, name: string) returns (x: nat, k: nat)
      requires Valid() && d < |t| && HasRoom(t[d]) && t[d].nlink < MAXLINK && Absent(t[d].slots, name)
      requires exists y :: 0 < y < |t| && t[y].Free?
      modifies this
      ensures (Valid() <==> Linked(old(t)[d])) && 0 < x < |old(t)| && old(t)[x].Free? && Room(old(t), d, k, name)
      ensures t == WithDir(old(t), d, k, name, x)
      ensures FirstFree(old(t)[d].slots, k) && (forall y :: 0 < y < x ==> !old(t)[y].Free?)
      ensures TwoInodes(old(t), t, x, Node(Directory, 1, [Dirent(x, "."), Dirent(d, "..")]), d,
                        old(t)[d].nlink + 1, k, Dirent(x, name))
    {
      assert d > 0;
      hide Inv;
      x := NewDirInode(d);
      var ok;
      ok, k := DirLink(d, name, x);
      DirInvIff(old(t), d, k, name, x);
      assert t == WithDir(old(t), d, k, name, x);
    }

    method NewDirInode(d: nat) returns (x: nat)
      requires 0 < d < |t| && IsDir(t[d]) && exists y :: 0 < y < |t| && t[y].Free?
      modifies this
      ensures 0 < x < |old(t)| && old(t)[x].Free? && (forall y :: 0 < y < x ==> !old(t)[y].Free?)
      ensures t == old(t)[x := NewDir(x, d)][d := old(t)[d].(nlink := old(t)[d].nlink + 1)]
    {
      x := Ialloc(Directory);
      t := t[x := t[x].(nlink := 1)];
      t := t[d := t[d].(nlink := t[d].nlink + 1)];
      AddDots(x, d);
    }

    method AddDots(x: nat, d: nat)
      requires 0 < x < |t| && 0 < d && t[x] == Node(Directory, 1, [])
      modifies this
      ensures t == old(t)[x := NewDir(x, d)]
    {
      var ok, k := DirLink(x, ".", x);
      assert t[x].slots == [Dirent(x, ".")];
      ok, k := DirLink(x, "..", d);
      assert t[x].slots == [Dirent(x, "."), Dirent(d, "..")];
      assert t == old(t)[x := NewDir(x, d)];
    }

    /** `iput` of the last reference to an inode without links. */
    method Reclaim(x: nat)
      requires Valid() && x < |t| && t[x].Node? && t[x].nlink == 0
      modifies this
      ensures Valid() && t == old(t)[x := Free]
    {
      FreeKeeps(t, x);
      t := t[x := Free];
    }
  }

  /** An entry that a lookup of a proper name finds is a counted one. */
  lemma Found(t: seq<Inode>, d: nat, k: nat, name: string)
    requires Inv(t) && d < |t| && IsDir(t[d]) && At(t[d].slots, k, name) && name != "." && name != ".."
    ensures var x := t[d].slots[k].inum;
            Child(t, d, k, x) && x < |t| && Linked(t[x]) && Linked(t[d]) && !Absent(t[d].slots, name)
    ensures forall j: nat :: At(t[d].slots, j, name) ==> j == k
  {
    assert DirOk(t, d);
    ChildIsRef(t, d, k, t[d].slots[k].inum);
  }

  lemma RootCounts(t: seq<Inode>)
    requires |t| > ROOT && t[ROOT] == NewDir(ROOT, ROOT) && forall x :: 0 <= x < |t| && x != ROOT ==> t[x].Free?
    ensures Inv(t)
  {
    forall x: nat | x < |t| ensures LinkCount(t[x]) == |Refs(t, x)| && DirOk(t, x) {
      RefsIff(t, x);
      if x == ROOT {
        assert forall r: (nat, nat) :: Names(t, r.0, r.1, ROOT) <==> r == (ROOT, 1);
        assert Refs(t, ROOT) == {(ROOT, 1)};
      } else {
        assert forall d: nat, k: nat :: !Names(t, d, k, x);
        assert Refs(t, x) == {};
      }
    }
  }

  // ---- A removed directory -------------------------------------------------------------------------

  /** The root, with one empty directory x in it, and one more free inode. */
  ghost predicate OneDir(t: seq<Inode>, x: nat) {
    && |t| == 4 && 2 <= x <= 3 && t[x] == NewDir(x, ROOT) && t[5 - x].Free?
    && IsDir(t[ROOT]) && t[ROOT].slots == [Dirent(ROOT, "."), Dirent(ROOT, ".."), Dirent(x, "d")]
  }

  lemma OneMade(t: seq<Inode>, k: nat, x: nat)
    requires |t| == 4 && t[ROOT] == NewDir(ROOT, ROOT) && (forall y :: 0 <= y < 4 && y != ROOT ==> t[y].Free?)
    requires Room(t, ROOT, k, "d") && 0 < x < 4 && t[x].Free?
    ensures OneDir(WithDir(t, ROOT, k, "d", x), x)
  {
    assert k == 2 && (x == 2 || x == 3);
  }

  lemma NamesDiffer(name: string)
    requires |name| == 1 && name[0] != '.'
    ensures name != "." && name != ".."
    ensures forall x: nat, d: nat :: Absent([Dirent(x, "."), Dirent(d, "..")], name)
  {
  }

  method MakeOne() returns (tree: FileTree, x: nat)
    ensures fresh(tree) && tree.Valid() && OneDir(tree.t, x)
  {
    tree := new FileTree(4);
    hide Inv, Absent, OneDir, Room, WithDir;
    ghost var t := tree.t;
    NamesDiffer("d");
    assert t[2].Free?;
    var d, k := tree.Create(ROOT, "d", Directory);
    x := d.value;
    OneMade(t, k, x);
  }

  lemma OneRemoved(t: seq<Inode>, k: nat, x: nat)
    requires OneDir(t, x) && At(t[ROOT].slots, k, "d")
    ensures k == 2 && !Absent(t[ROOT].slots, "d") && forall j: nat, y: nat :: !Child(t, x, j, y)
  {
    NamesDiffer("d");
  }

  /** It is removed again, as it can be while a process is in it. */
  method RemoveOne() returns (tree: FileTree, x: nat)
    ensures fresh(tree) && tree.Valid() && |tree.t| == 4 && 2 <= x <= 3 && tree.t[5 - x].Free?
    ensures tree.t[x] == Node(Directory, 0, [Dirent(x, "."), Dirent(ROOT, "..")])
  {
    tree, x := MakeOne();
    ghost var t := tree.t;
    hide Inv, Absent, Child;
    NamesDiffer("d");
    OneRemoved(t, 2, x);
    var gone, j := tree.Unlink(ROOT, "d");
    OneRemoved(t, j, x);
  }

  /** Then whatever is made in it, t being the inodes before, leaves counts wrong. */
  method MadeInRemoved(kind: Kind) returns (tree: FileTree, ghost t: seq<Inode>, x: nat, ghost k: nat, y: nat)
    ensures Inv(t) && x < |t| && IsDir(t[x]) && !Linked(t[x]) && Room(t, x, k, "f") && y < |t| && t[y].Free?
    ensures tree.t == if kind == Directory then WithDir(t, x, k, "f", y)
            else WithLeaf(t, x, k, "f", y, Node(kind, 1, []))
    ensures !Counts(tree.t)
  {
    tree, x := RemoveOne();
    t := tree.t;
    hide Inv, Absent, Room, WithDir, WithLeaf, Counts;
    NamesDiffer("f");
    var r;
    r, k := tree.Create(x, "f", kind);
    y := r.value;
    if kind == Directory {
      DirIff(t, x, k, "f", y);
    } else {
      LeafIff(t, x, k, "f", y, Node(kind, 1, []));
    }
  }
}
