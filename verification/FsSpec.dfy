/** The on-disk file system as a value: inodes, the block bitmap, the blocks, and who owns each
    block. A file is the flat byte sequence that its direct and indirect pointers spell out. */
module FsSpec {
  import opened Bytes

  const NDIRECT: nat := 12
  const NINDIRECT: nat := 128
  const MAXFILE: nat := NDIRECT + NINDIRECT
  const MAXBYTES: nat := 71680 // MAXFILE blocks
  const SLOTS: nat := NDIRECT + 1 + NINDIRECT // pointers an inode can have, its indirect block's included

  /** The part of an inode that says where its contents are. */
  datatype Dinode = Dinode(size: nat, addrs: seq<uint32>)

  /** Geometry: `sb.size`, where the data blocks start, and where the log starts. */
  datatype Geo = Geo(size: nat, first: nat, logstart: nat)

  /** A pointer: the q-th slot of inode i. Slots 0 to 11 are direct, 12 is the indirect block, the
      rest are the words of the indirect block. */
  datatype Slot = Slot(i: nat, q: nat)

  predicate Sized(g: Geo, t: seq<Dinode>, block: seq<Block>) {
    && 0 < g.first <= g.logstart <= g.size == |block| && g.size <= 0x1_0000_0000
    && forall j :: 0 <= j < |t| ==> |t[j].addrs| == NDIRECT + 1
  }

  /** The block that a slot points to, or 0. */
  function Ptr(t: seq<Dinode>, block: seq<Block>, s: Slot): (b: nat)
    requires s.i < |t| && |t[s.i].addrs| == NDIRECT + 1 && s.q < SLOTS
  {
    var a := t[s.i].addrs;
    if s.q <= NDIRECT then a[s.q]
    else if a[NDIRECT] == 0 || a[NDIRECT] >= |block| then 0
    else U32(block[a[NDIRECT]], s.q - NDIRECT - 1)
  }

  /** The slot of the bn-th data block. */
  function DataSlot(i: nat, bn: nat): (s: Slot) {
    Slot(i, if bn < NDIRECT then bn else bn + 1)
  }

  function DataPtr(t: seq<Dinode>, block: seq<Block>, i: nat, bn: nat): (b: nat)
    requires i < |t| && |t[i].addrs| == NDIRECT + 1 && bn < MAXFILE
  {
    Ptr(t, block, DataSlot(i, bn))
  }

  ghost predicate IsSlot(t: seq<Dinode>, s: Slot) {
    s.i < |t| && s.q < SLOTS
  }

  /** Every pointer owns its block, every owned block is pointed at by its owner, and the bitmap marks
      exactly the metadata and the owned blocks. The first `dead` indirect entries of inode x have
      been given up and do not count. */
  ghost predicate Owned(g: Geo, t: seq<Dinode>, block: seq<Block>, bitmap: seq<bool>, owner: map<nat, Slot>,
                        x: nat, dead: nat)
  {
    && Sized(g, t, block) && |bitmap| == g.size
    && (forall b :: b in owner ==> g.first <= b < g.logstart && IsSlot(t, owner[b]) && Ptr(t, block, owner[b]) == b)
    && (forall s :: IsSlot(t, s) && !Dead(s, x, dead) && Ptr(t, block, s) != 0
                    ==> Ptr(t, block, s) in owner && owner[Ptr(t, block, s)] == s)
    && (forall b :: b in owner ==> !Dead(owner[b], x, dead))
    && (forall b: nat :: b < g.size ==> (bitmap[b] <==> b < g.first || b in owner))
  }

  predicate Dead(s: Slot, x: nat, dead: nat) {
    s.i == x && NDIRECT < s.q <= NDIRECT + dead
  }

  /** Exactly the first nb data blocks of inode j are mapped. */
  ghost predicate Mapped(t: seq<Dinode>, block: seq<Block>, j: nat, nb: nat)
    requires j < |t| && |t[j].addrs| == NDIRECT + 1
  {
    nb <= MAXFILE && forall bn: nat :: bn < MAXFILE ==> (DataPtr(t, block, j, bn) != 0 <==> bn < nb)
  }

  /** There is an indirect block just if the nb data blocks need one. */
  predicate IndirectIf(t: seq<Dinode>, j: nat, nb: nat)
    requires j < |t| && |t[j].addrs| == NDIRECT + 1
  {
    t[j].addrs[NDIRECT] != 0 <==> nb > NDIRECT
  }

  /** Blocks needed for a file of n bytes. */
  ghost function Blocks(n: nat): (nb: nat)
    ensures 512 * nb < n + 512 && n <= 512 * nb
  {
    assert 512 * ((n + 511) / 512) < n + 512 && n <= 512 * ((n + 511) / 512);
    var nb: nat :| 512 * nb < n + 512 && n <= 512 * nb;
    nb
  }

  /** No file has holes or blocks beyond its size, except that inode x has nb data blocks. */
  ghost predicate AllMapped(t: seq<Dinode>, block: seq<Block>, x: nat, nb: nat)
    requires forall j :: 0 <= j < |t| ==> |t[j].addrs| == NDIRECT + 1
  {
    forall j :: 0 <= j < |t| ==>
      && t[j].size <= MAXBYTES
      && Mapped(t, block, j, if j == x then nb else Blocks(t[j].size))
      && (j != x ==> IndirectIf(t, j, Blocks(t[j].size)))
  }

  /** The byte of file j at position pos. */
  function ByteAt(t: seq<Dinode>, block: seq<Block>, j: nat, pos: nat): (v: byte)
    requires j < |t| && |t[j].addrs| == NDIRECT + 1 && pos / 512 < MAXFILE
  {
    var b := DataPtr(t, block, j, pos / 512);
    if b < |block| then block[b].bytes[pos % 512] else 0
  }

  /** One pointer changes, the rest stay. */
  ghost predicate OnePointer(t: seq<Dinode>, block: seq<Block>, t': seq<Dinode>, block': seq<Block>, at: Slot, b: nat)
    requires forall j :: 0 <= j < |t| ==> |t[j].addrs| == NDIRECT + 1
    requires forall j :: 0 <= j < |t'| ==> |t'[j].addrs| == NDIRECT + 1
  {
    && |t'| == |t|
    && forall s :: IsSlot(t, s) ==> Ptr(t', block', s) == if s == at then b else Ptr(t, block, s)
  }

  /** Handing a free block to an empty slot keeps the accounts. */
  lemma Attach(g: Geo, t: seq<Dinode>, block: seq<Block>, bitmap: seq<bool>, owner: map<nat, Slot>, x: nat,
               t': seq<Dinode>, block': seq<Block>, at: Slot, b: nat)
    requires Owned(g, t, block, bitmap, owner, x, 0) && Sized(g, t', block')
    requires IsSlot(t, at) && Ptr(t, block, at) == 0
    requires g.first <= b < g.logstart && !bitmap[b]
    requires OnePointer(t, block, t', block', at, b)
    ensures Owned(g, t', block', bitmap[b := true], owner[b := at], x, 0)
  {
  }

  /** Taking the block back from its slot keeps the accounts. */
  lemma Detach(g: Geo, t: seq<Dinode>, block: seq<Block>, bitmap: seq<bool>, owner: map<nat, Slot>, x: nat,
               t': seq<Dinode>, at: Slot)
    requires Owned(g, t, block, bitmap, owner, x, 0) && Sized(g, t', block)
    requires IsSlot(t, at) && Ptr(t, block, at) != 0
    requires OnePointer(t, block, t', block, at, 0)
    ensures Ptr(t, block, at) < g.size && bitmap[Ptr(t, block, at)]
    ensures Owned(g, t', block, bitmap[Ptr(t, block, at) := false], owner - {Ptr(t, block, at)}, x, 0)
  {
  }

  function SetAddr(t: seq<Dinode>, i: nat, q: nat, b: uint32): (t': seq<Dinode>)
    requires i < |t| && q < |t[i].addrs|
  {
    t[i := t[i].(addrs := t[i].addrs[q := b])]
  }

  /** A zeroed free block in a direct slot, or as the indirect block, is one new pointer. */
  lemma NewDirect(g: Geo, t: seq<Dinode>, block: seq<Block>, bitmap: seq<bool>, owner: map<nat, Slot>, x: nat,
                  i: nat, q: nat, b: nat)
    requires Owned(g, t, block, bitmap, owner, x, 0)
    requires i < |t| && q <= NDIRECT && t[i].addrs[q] == 0
    requires g.first <= b < g.logstart && !bitmap[b]
    ensures var t', block' := SetAddr(t, i, q, b), block[b := ZeroBlock()];
            Sized(g, t', block') && OnePointer(t, block, t', block', Slot(i, q), b)
  {
    var t', block' := SetAddr(t, i, q, b), block[b := ZeroBlock()];
    forall s | IsSlot(t, s) ensures Ptr(t', block', s) == if s == Slot(i, q) then b else Ptr(t, block, s) {
      var c := t[s.i].addrs[NDIRECT];
      assert c != 0 ==> Ptr(t, block, Slot(s.i, NDIRECT)) in owner;
    }
  }

  /** So is a zeroed free block in the indirect block. */
  lemma NewEntry(g: Geo, t: seq<Dinode>, block: seq<Block>, bitmap: seq<bool>, owner: map<nat, Slot>, x: nat,
                 i: nat, j: nat, b: nat)
    requires Owned(g, t, block, bitmap, owner, x, 0)
    requires i < |t| && j < NINDIRECT && t[i].addrs[NDIRECT] != 0
    requires g.first <= b < g.logstart && !bitmap[b]
    ensures var c := t[i].addrs[NDIRECT];
            c in owner && owner[c] == Slot(i, NDIRECT) && c != b && c < |block| &&
            OnePointer(t, block, t, block[b := ZeroBlock()][c := PutU32(block[c], j, b)], Slot(i, NDIRECT + 1 + j), b)
  {
    var c := t[i].addrs[NDIRECT];
    assert Ptr(t, block, Slot(i, NDIRECT)) in owner;
    var block' := block[b := ZeroBlock()][c := PutU32(block[c], j, b)];
    forall s | IsSlot(t, s)
      ensures Ptr(t, block', s) == if s == Slot(i, NDIRECT + 1 + j) then b else Ptr(t, block, s)
    {
      var d := t[s.i].addrs[NDIRECT];
      assert d != 0 ==> Ptr(t, block, Slot(s.i, NDIRECT)) in owner;
    }
  }

  /** Data blocks already in place keep their place and their contents. */
  ghost predicate DataKept(t: seq<Dinode>, block: seq<Block>, t': seq<Dinode>, block': seq<Block>)
    requires forall j :: 0 <= j < |t| ==> |t[j].addrs| == NDIRECT + 1
    requires forall j :: 0 <= j < |t'| ==> |t'[j].addrs| == NDIRECT + 1
  {
    && |t'| == |t| && |block'| == |block|
    && forall j: nat, bn: nat :: j < |t| && bn < MAXFILE && DataPtr(t, block, j, bn) != 0 ==>
         && DataPtr(t', block', j, bn) == DataPtr(t, block, j, bn) < |block|
         && block'[DataPtr(t, block, j, bn)] == block[DataPtr(t, block, j, bn)]
  }

  /** Because every block has one owner, filling in a new block and an indirect block disturbs no data. */
  lemma DataUndisturbed(g: Geo, t: seq<Dinode>, block: seq<Block>, bitmap: seq<bool>, owner: map<nat, Slot>, x: nat,
                        t': seq<Dinode>, block': seq<Block>, at: Slot, b: nat, c: nat)
    requires Owned(g, t, block, bitmap, owner, x, 0) && Sized(g, t', block')
    requires IsSlot(t, at) && Ptr(t, block, at) == 0 && OnePointer(t, block, t', block', at, b)
    requires g.first <= b < g.logstart && !bitmap[b]
    requires c == b || (c in owner && owner[c].q == NDIRECT)
    requires forall d :: 0 <= d < |block| && d != b && d != c ==> block'[d] == block[d]
    ensures DataKept(t, block, t', block')
  {
  }

  /** The next data block of x maps one more block; the indirect block itself maps none. */
  lemma MapsMore(t: seq<Dinode>, block: seq<Block>, t': seq<Dinode>, block': seq<Block>, x: nat, nb: nat, at: Slot,
                 b: nat)
    requires forall j :: 0 <= j < |t| ==> |t[j].addrs| == NDIRECT + 1
    requires forall j :: 0 <= j < |t'| ==> |t'[j].addrs| == NDIRECT + 1
    requires x < |t| && AllMapped(t, block, x, nb) && OnePointer(t, block, t', block', at, b) && b != 0
    requires forall j :: 0 <= j < |t| ==> t'[j].size == t[j].size && (j != x ==> t'[j].addrs == t[j].addrs)
    requires at == Slot(x, NDIRECT) || (nb < MAXFILE && at == DataSlot(x, nb))
    ensures AllMapped(t', block', x, if at == Slot(x, NDIRECT) then nb else nb + 1)
  {
    var nb' := if at == Slot(x, NDIRECT) then nb else nb + 1;
    forall j | 0 <= j < |t|
      ensures Mapped(t', block', j, if j == x then nb' else Blocks(t'[j].size))
    {
      forall bn: nat | bn < MAXFILE
        ensures DataPtr(t', block', j, bn) == if DataSlot(j, bn) == at then b else DataPtr(t, block, j, bn)
      {
        assert IsSlot(t, DataSlot(j, bn));
      }
    }
  }

  /** The accounts balance and the files are mapped, inode x with nb data blocks. */
  ghost predicate Balanced(g: Geo, t: seq<Dinode>, block: seq<Block>, bitmap: seq<bool>, owner: map<nat, Slot>,
                           x: nat, nb: nat)
  {
    x < |t| && Owned(g, t, block, bitmap, owner, x, 0) && AllMapped(t, block, x, nb)
  }

  /** What allocating block b for slot `at` of inode x changes, and what it leaves. */
  ghost predicate Allocated(g: Geo, t: seq<Dinode>, block: seq<Block>, bitmap: seq<bool>, owner: map<nat, Slot>,
                            x: nat, nb: nat, t': seq<Dinode>, block': seq<Block>, at: Slot, b: nat)
  {
    && Balanced(g, t, block, bitmap, owner, x, nb)
    && |t'| == |t| && Sized(g, t', block') && b < g.size
    && Balanced(g, t', block', bitmap[b := true], owner[b := at], x, if at == Slot(x, NDIRECT) then nb else nb + 1)
    && DataKept(t, block, t', block')
    && b < g.logstart && b != 0
    && Free(bitmap[b := true], g.logstart) == Free(bitmap, g.logstart) - 1
  }

  lemma AllocatedAddr(g: Geo, t: seq<Dinode>, block: seq<Block>, bitmap: seq<bool>, owner: map<nat, Slot>,
                      x: nat, nb: nat, q: nat, b: nat)
    requires Balanced(g, t, block, bitmap, owner, x, nb)
    requires q <= NDIRECT && t[x].addrs[q] == 0 && (q < NDIRECT ==> q == nb)
    requires b < g.logstart && !bitmap[b]
    ensures Allocated(g, t, block, bitmap, owner, x, nb, SetAddr(t, x, q, b), block[b := ZeroBlock()], Slot(x, q), b)
  {
    var t', block' := SetAddr(t, x, q, b), block[b := ZeroBlock()];
    NewDirect(g, t, block, bitmap, owner, x, x, q, b);
    Attach(g, t, block, bitmap, owner, x, t', block', Slot(x, q), b);
    DataUndisturbed(g, t, block, bitmap, owner, x, t', block', Slot(x, q), b, b);
    MapsMore(t, block, t', block', x, nb, Slot(x, q), b);
    FreeTaken(bitmap, g.logstart, b, true);
  }

  lemma AllocatedEntry(g: Geo, t: seq<Dinode>, block: seq<Block>, bitmap: seq<bool>, owner: map<nat, Slot>,
                       x: nat, nb: nat, j: nat, b: nat)
    requires Balanced(g, t, block, bitmap, owner, x, nb)
    requires j < NINDIRECT && t[x].addrs[NDIRECT] != 0 && nb == NDIRECT + j
    requires b < g.logstart && !bitmap[b]
    ensures var c := t[x].addrs[NDIRECT];
            c < |block| && c != b &&
            Allocated(g, t, block, bitmap, owner, x, nb, t, block[b := ZeroBlock()][c := PutU32(block[c], j, b)],
                      DataSlot(x, nb), b)
  {
    NewEntry(g, t, block, bitmap, owner, x, x, j, b);
    var c, at := t[x].addrs[NDIRECT], DataSlot(x, nb);
    var block' := block[b := ZeroBlock()][c := PutU32(block[c], j, b)];
    assert Ptr(t, block, at) == DataPtr(t, block, x, nb) == 0;
    Attach(g, t, block, bitmap, owner, x, t, block', at, b);
    DataUndisturbed(g, t, block, bitmap, owner, x, t, block', at, b, c);
    MapsMore(t, block, t, block', x, nb, at, b);
    FreeTaken(bitmap, g.logstart, b, true);
  }

  lemma IndirectInRange(g: Geo, t: seq<Dinode>, block: seq<Block>, bitmap: seq<bool>, owner: map<nat, Slot>, x: nat,
                        nb: nat)
    requires Balanced(g, t, block, bitmap, owner, x, nb) && t[x].addrs[NDIRECT] != 0
    ensures t[x].addrs[NDIRECT] < |block|
    ensures forall j: nat :: j < NINDIRECT ==> DataPtr(t, block, x, NDIRECT + j) == U32(block[t[x].addrs[NDIRECT]], j)
  {
    assert IsSlot(t, Slot(x, NDIRECT)) && Ptr(t, block, Slot(x, NDIRECT)) in owner;
  }

  lemma DataKeptAgain(t: seq<Dinode>, block: seq<Block>, t1: seq<Dinode>, block1: seq<Block>, t2: seq<Dinode>,
                      block2: seq<Block>)
    requires forall j :: 0 <= j < |t| ==> |t[j].addrs| == NDIRECT + 1
    requires forall j :: 0 <= j < |t1| ==> |t1[j].addrs| == NDIRECT + 1
    requires forall j :: 0 <= j < |t2| ==> |t2[j].addrs| == NDIRECT + 1
    requires DataKept(t, block, t1, block1) && DataKept(t1, block1, t2, block2)
    ensures DataKept(t, block, t2, block2)
  {
  }

  // ---- Truncation --------------------------------------------------------------------------

  /** Slots of inode x that truncation has emptied: the first i direct ones and the first `dead`
      entries of the indirect block. */
  predicate Emptied(s: Slot, x: nat, i: nat, dead: nat) {
    s.i == x && (s.q < i || NDIRECT < s.q <= NDIRECT + dead)
  }

  /** What is left of the owners. */
  ghost predicate OwnersLeft(owner0: map<nat, Slot>, owner: map<nat, Slot>, x: nat, i: nat, dead: nat) {
    && (forall b :: b in owner <==> b in owner0 && !Emptied(owner0[b], x, i, dead))
    && (forall b :: b in owner ==> owner[b] == owner0[b])
  }

  /** Clearing a direct slot, or the indirect one once its entries are gone, is one pointer less. */
  lemma ClearAddr(g: Geo, t: seq<Dinode>, block: seq<Block>, x: nat, q: nat)
    requires Sized(g, t, block) && x < |t| && q < NDIRECT
    ensures Sized(g, SetAddr(t, x, q, 0), block)
    ensures OnePointer(t, block, SetAddr(t, x, q, 0), block, Slot(x, q), 0)
  {
  }

  /** Giving up the next direct block. */
  lemma DetachDirect(g: Geo, t: seq<Dinode>, block: seq<Block>, bitmap: seq<bool>, owner0: map<nat, Slot>,
                     owner: map<nat, Slot>, x: nat, i: nat)
    requires Owned(g, t, block, bitmap, owner, x, 0) && x < |t| && i < NDIRECT && OwnersLeft(owner0, owner, x, i, 0)
    ensures var p := t[x].addrs[i];
            if p == 0 then OwnersLeft(owner0, owner, x, i + 1, 0)
            else p < g.size && bitmap[p] && OwnersLeft(owner0, owner - {p}, x, i + 1, 0) &&
                 Owned(g, SetAddr(t, x, i, 0), block, bitmap[p := false], owner - {p}, x, 0)
  {
    var at := Slot(x, i);
    assert IsSlot(t, at) && Ptr(t, block, at) == t[x].addrs[i];
    assert forall b :: b in owner && owner[b] == at ==> b == Ptr(t, block, at);
    if t[x].addrs[i] != 0 {
      ClearAddr(g, t, block, x, i);
      Detach(g, t, block, bitmap, owner, x, SetAddr(t, x, i, 0), at);
    }
  }

  /** Giving up the next entry of the indirect block. */
  lemma DetachEntry(g: Geo, t: seq<Dinode>, block: seq<Block>, bitmap: seq<bool>, owner: map<nat, Slot>, x: nat, j: nat)
    requires Owned(g, t, block, bitmap, owner, x, j) && x < |t| && j < NINDIRECT
    ensures var p := Ptr(t, block, Slot(x, NDIRECT + 1 + j));
            if p == 0 then Owned(g, t, block, bitmap, owner, x, j + 1)
            else p < g.size && bitmap[p] && p in owner && owner[p] == Slot(x, NDIRECT + 1 + j) &&
                 Owned(g, t, block, bitmap[p := false], owner - {p}, x, j + 1)
  {
  }

  /** Giving up the indirect block, all of whose entries are gone. */
  lemma DetachIndirect(g: Geo, t: seq<Dinode>, block: seq<Block>, bitmap: seq<bool>, owner: map<nat, Slot>, x: nat)
    requires Owned(g, t, block, bitmap, owner, x, NINDIRECT) && x < |t| && t[x].addrs[NDIRECT] != 0
    ensures var c, t' := t[x].addrs[NDIRECT], SetAddr(t, x, NDIRECT, 0);
            && c < g.size && bitmap[c] && c in owner && owner[c] == Slot(x, NDIRECT)
            && Owned(g, t', block, bitmap[c := false], owner - {c}, x, 0)
  {
    var c, t' := t[x].addrs[NDIRECT], SetAddr(t, x, NDIRECT, 0);
    assert IsSlot(t, Slot(x, NDIRECT)) && Ptr(t, block, Slot(x, NDIRECT)) in owner;
    forall s | IsSlot(t', s)
      ensures Ptr(t', block, s) == if s == Slot(x, NDIRECT) || Dead(s, x, NINDIRECT) then 0 else Ptr(t, block, s)
    {
    }
  }

  lemma LastOwners(g: Geo, t: seq<Dinode>, block: seq<Block>, bitmap: seq<bool>, owner0: map<nat, Slot>,
                   owner: map<nat, Slot>, x: nat)
    requires Owned(g, t, block, bitmap, owner, x, NINDIRECT) && x < |t|
             && OwnersLeft(owner0, owner, x, NDIRECT, NINDIRECT)
    requires t[x].addrs[NDIRECT] in owner && owner[t[x].addrs[NDIRECT]] == Slot(x, NDIRECT)
    ensures OwnersLeft(owner0, owner - {t[x].addrs[NDIRECT]}, x, NDIRECT + 1, NINDIRECT)
  {
  }

  lemma NoOwners(g: Geo, t: seq<Dinode>, block: seq<Block>, bitmap: seq<bool>, owner0: map<nat, Slot>,
                 owner: map<nat, Slot>, x: nat)
    requires Owned(g, t, block, bitmap, owner, x, 0) && x < |t| && OwnersLeft(owner0, owner, x, NDIRECT, 0)
    requires t[x].addrs[NDIRECT] == 0
    ensures OwnersLeft(owner0, owner, x, NDIRECT + 1, NINDIRECT)
  {
  }

  lemma ShrunkOwned(g: Geo, t: seq<Dinode>, block: seq<Block>, bitmap: seq<bool>, owner: map<nat, Slot>, x: nat,
                    t': seq<Dinode>)
    requires Owned(g, t, block, bitmap, owner, x, 0) && x < |t| && t' == t[x := t[x].(size := 0)]
    ensures Owned(g, t', block, bitmap, owner, x, 0)
  {
  }

  /** With no pointers left, x is an empty file and the others are as mapped as before. */
  lemma Emptied0(g: Geo, t0: seq<Dinode>, t: seq<Dinode>, block: seq<Block>, x: nat, nb: nat)
    requires Sized(g, t0, block) && Sized(g, t, block) && |t| == |t0| && x < |t| && AllMapped(t0, block, x, nb)
    requires forall j :: 0 <= j < |t| && j != x ==> t[j] == t0[j]
    requires forall q :: 0 <= q <= NDIRECT ==> t[x].addrs[q] == 0
    requires t[x].size == 0
    ensures AllMapped(t, block, x, 0) && Addressed(t)
    ensures forall j :: 0 <= j < |t| && j != x ==> Contents(t, block, j) == Contents(t0, block, j)
  {
    forall j | 0 <= j < |t| && j != x
      ensures Mapped(t, block, j, Blocks(t[j].size)) && IndirectIf(t, j, Blocks(t[j].size))
      ensures Contents(t, block, j) == Contents(t0, block, j)
    {
      forall bn: nat | bn < MAXFILE ensures DataPtr(t, block, j, bn) == DataPtr(t0, block, j, bn) {
      }
      forall pos: nat | pos < t[j].size ensures ByteAt(t, block, j, pos) == ByteAt(t0, block, j, pos) {
      }
      SameFile(t, block, t0, block, j, t[j].size);
    }
  }

  // ---- Contents ----------------------------------------------------------------------------

  /** Overwrite the bytes of a block from o on. */
  function Overwrite(b: Block, o: nat, src: seq<byte>): (r: Block)
    requires o + |src| <= 512
  {
    Data(b.bytes[..o] + src + b.bytes[o + |src|..])
  }

  function OverwriteAt(block: seq<Block>, b: nat, o: nat, src: seq<byte>): (r: seq<Block>)
    requires b < |block| && o + |src| <= 512
  {
    block[b := Overwrite(block[b], o, src)]
  }

  /** Overwriting a data block moves no pointer: it is nobody's indirect block. */
  lemma DataWriteBalanced(g: Geo, t: seq<Dinode>, block: seq<Block>, bitmap: seq<bool>, owner: map<nat, Slot>,
                          x: nat, nb: nat, bn: nat, data: Block)
    requires Balanced(g, t, block, bitmap, owner, x, nb) && bn < nb
    ensures var b := DataPtr(t, block, x, bn);
            && 0 < b < |block| && Balanced(g, t, block[b := data], bitmap, owner, x, nb)
            && OnePointer(t, block, t, block[b := data], DataSlot(x, bn), b)
  {
    var at, b := DataSlot(x, bn), DataPtr(t, block, x, bn);
    assert IsSlot(t, at) && b in owner && owner[b] == at;
    var block' := block[b := data];
    forall s | IsSlot(t, s) ensures Ptr(t, block', s) == Ptr(t, block, s) {
      assert IsSlot(t, Slot(s.i, NDIRECT));
    }
    forall j, k: nat | 0 <= j < |t| && k < MAXFILE ensures DataPtr(t, block', j, k) == DataPtr(t, block, j, k) {
      assert IsSlot(t, DataSlot(j, k));
    }
  }

  /** It changes the bytes of that block of that file, and no byte of any other. */
  lemma DataWriteBytes(g: Geo, t: seq<Dinode>, block: seq<Block>, bitmap: seq<bool>, owner: map<nat, Slot>,
                       x: nat, nb: nat, bn: nat, data: Block, j: nat, pos: nat)
    requires Balanced(g, t, block, bitmap, owner, x, nb) && bn < nb
    requires j < |t| && pos / 512 < MAXFILE && DataPtr(t, block, j, pos / 512) != 0
    ensures var b := DataPtr(t, block, x, bn);
            b < |block| &&
            ByteAt(t, block[b := data], j, pos) ==
            if j == x && pos / 512 == bn then data.bytes[pos % 512] else ByteAt(t, block, j, pos)
  {
    DataWriteBalanced(g, t, block, bitmap, owner, x, nb, bn, data);
    var s, at := DataSlot(j, pos / 512), DataSlot(x, bn);
    assert IsSlot(t, s) && Ptr(t, block, s) in owner && owner[Ptr(t, block, s)] == s;
    assert IsSlot(t, at) && Ptr(t, block, at) in owner && owner[Ptr(t, block, at)] == at;
  }

  lemma BlockArithmetic(off: nat, m: nat)
    requires 0 < m <= 512 - off % 512
    ensures off / 512 <= Blocks(off) <= off / 512 + 1 == Blocks(off + m)
  {
  }

  lemma PosInBlocks(pos: nat, size: nat)
    requires pos < size
    ensures pos / 512 < Blocks(size)
  {
  }

  lemma BlocksMonotone(m: nat, n: nat)
    requires m <= n
    ensures Blocks(m) <= Blocks(n) && Cost(Blocks(m)) <= Cost(Blocks(n))
  {
  }

  ghost predicate Addressed(t: seq<Dinode>) {
    forall j :: 0 <= j < |t| ==> |t[j].addrs| == NDIRECT + 1 && t[j].size <= MAXBYTES
  }

  /** The first n bytes that file j's blocks hold. */
  ghost function File(t: seq<Dinode>, block: seq<Block>, j: nat, n: nat): (s: seq<byte>)
    requires j < |t| && |t[j].addrs| == NDIRECT + 1 && n <= MAXBYTES
    ensures |s| == n
  {
    BytesExist(t, block, j, n);
    var s: seq<byte> :| AreBytes(t, block, j, n, s);
    s
  }

  ghost predicate AreBytes(t: seq<Dinode>, block: seq<Block>, j: nat, n: nat, s: seq<byte>)
    requires j < |t| && |t[j].addrs| == NDIRECT + 1 && n <= MAXBYTES
  {
    |s| == n && forall pos: nat :: pos < n ==> s[pos] == ByteAt(t, block, j, pos)
  }

  lemma {:induction false} BytesExist(t: seq<Dinode>, block: seq<Block>, j: nat, n: nat)
    requires j < |t| && |t[j].addrs| == NDIRECT + 1 && n <= MAXBYTES
    ensures exists s: seq<byte> :: AreBytes(t, block, j, n, s)
  {
    if n == 0 {
      assert AreBytes(t, block, j, 0, []);
    } else {
      BytesExist(t, block, j, n - 1);
      var s: seq<byte> :| AreBytes(t, block, j, n - 1, s);
      assert AreBytes(t, block, j, n, s + [ByteAt(t, block, j, n - 1)]);
    }
  }

  lemma FileAt(t: seq<Dinode>, block: seq<Block>, j: nat, n: nat)
    requires j < |t| && |t[j].addrs| == NDIRECT + 1 && n <= MAXBYTES
    ensures forall pos: nat :: pos < n ==> File(t, block, j, n)[pos] == ByteAt(t, block, j, pos)
  {
  }

  /** The contents of file j: what the inode layer is for. */
  ghost function Contents(t: seq<Dinode>, block: seq<Block>, j: nat): (s: seq<byte>)
    requires j < |t| && |t[j].addrs| == NDIRECT + 1 && t[j].size <= MAXBYTES
    ensures |s| == t[j].size
  {
    File(t, block, j, t[j].size)
  }

  /** s with d written over it at o, longer if need be. */
  function Spliced(s: seq<byte>, o: nat, d: seq<byte>): (r: seq<byte>)
    requires o <= |s|
    ensures |r| == if o + |d| <= |s| then |s| else o + |d|
    ensures forall k :: 0 <= k < |r| ==> r[k] == if o <= k < o + |d| then d[k - o] else s[k]
  {
    s[..o] + d + if o + |d| <= |s| then s[o + |d|..] else []
  }

  /** A write of src at off0 into file x has reached off: those bytes are in place, and every other
      byte of every file is as it was. */
  ghost predicate Progress(t0: seq<Dinode>, block0: seq<Block>, t: seq<Dinode>, block: seq<Block>,
                           x: nat, off0: nat, off: nat, src: seq<byte>)
    requires Addressed(t0) && Addressed(t) && |t| == |t0| && x < |t| && off0 <= off <= off0 + |src| && off <= MAXBYTES
  {
    && (forall j: nat, pos: nat :: j < |t0| && pos < t0[j].size && !(j == x && off0 <= pos < off)
                                   ==> ByteAt(t, block, j, pos) == ByteAt(t0, block0, j, pos))
    && (forall pos: nat :: off0 <= pos < off ==> ByteAt(t, block, x, pos) == src[pos - off0])
  }

  /** Bytes of mapped blocks survive allocation. */
  lemma ProgressKept(t0: seq<Dinode>, block0: seq<Block>, t: seq<Dinode>, block: seq<Block>, t': seq<Dinode>,
                     block': seq<Block>, x: nat, nb: nat, off0: nat, off: nat, src: seq<byte>)
    requires Addressed(t0) && Addressed(t) && Addressed(t') && |t'| == |t| == |t0| && x < |t|
    requires off0 <= off <= off0 + |src| && off <= MAXBYTES
    requires Progress(t0, block0, t, block, x, off0, off, src)
    requires forall j :: 0 <= j < |t| ==> t0[j].size == t[j].size
    requires AllMapped(t, block, x, nb) && Blocks(off) <= nb && Blocks(t0[x].size) <= nb
    requires DataKept(t, block, t', block')
    ensures Progress(t0, block0, t', block', x, off0, off, src)
  {
    forall j: nat, pos: nat | j < |t0| && (pos < t0[j].size || (j == x && off0 <= pos < off))
      ensures ByteAt(t', block', j, pos) == ByteAt(t, block, j, pos)
    {
      PosInBlocks(pos, if pos < t0[j].size then t0[j].size else off);
      assert DataPtr(t, block, j, pos / 512) != 0;
    }
  }

  /** One `memmove` into a block carries the write m bytes further. */
  lemma ProgressWrite(g: Geo, t0: seq<Dinode>, block0: seq<Block>, t: seq<Dinode>, block: seq<Block>, bitmap: seq<bool>,
                      owner: map<nat, Slot>, x: nat, nb: nat, off0: nat, off: nat, m: nat, src: seq<byte>,
                      block': seq<Block>)
    requires Balanced(g, t, block, bitmap, owner, x, nb) && Addressed(t0) && Addressed(t) && |t| == |t0|
    requires off0 <= off && off + m <= off0 + |src| && off + m <= MAXBYTES && 0 < m <= 512 - off % 512
    requires Progress(t0, block0, t, block, x, off0, off, src)
    requires forall j :: 0 <= j < |t| ==> t0[j].size == t[j].size
    requires Blocks(off) <= nb && Blocks(t0[x].size) <= nb && off / 512 < nb
    requires DataPtr(t, block, x, off / 512) < |block|
    requires block' == OverwriteAt(block, DataPtr(t, block, x, off / 512), off % 512, src[off - off0..off - off0 + m])
    ensures Progress(t0, block0, t, block', x, off0, off + m, src)
  {
    var bn := off / 512;
    var b := DataPtr(t, block, x, bn);
    var part := src[off - off0..off - off0 + m];
    var data := Overwrite(block[b], off % 512, part);
    forall j: nat, pos: nat | j < |t0| && (pos < t0[j].size || (j == x && off0 <= pos < off + m))
      ensures ByteAt(t, block', j, pos) ==
              if j == x && off <= pos < off + m then part[pos - off] else ByteAt(t, block, j, pos)
    {
      BlockArithmetic(off, m);
      PosInBlocks(pos, if pos < t0[j].size then t0[j].size else off + m);
      assert DataPtr(t, block, j, pos / 512) != 0;
      DataWriteBytes(g, t, block, bitmap, owner, x, nb, bn, data, j, pos);
      if j == x && pos / 512 == bn {
        OverwrittenByte(block[b], off, part, pos);
      }
    }
    forall pos: nat | off0 <= pos < off + m ensures ByteAt(t, block', x, pos) == src[pos - off0] {
      assert off <= pos ==> part[pos - off] == src[pos - off0];
    }
  }

  /** src has been written into file x at off: its contents are spliced, all others are the same. */
  ghost predicate Wrote(t0: seq<Dinode>, block0: seq<Block>, t: seq<Dinode>, block: seq<Block>, x: nat, off: nat,
                        src: seq<byte>)
  {
    && Addressed(t0) && Addressed(t) && |t| == |t0| && x < |t| && off <= t0[x].size
    && Contents(t, block, x) == Spliced(Contents(t0, block0, x), off, src)
    && forall j :: 0 <= j < |t| && j != x ==> Contents(t, block, j) == Contents(t0, block0, j)
  }

  /** A finished write is a splice of that file's contents, and leaves the others. */
  lemma WriteContents(t0: seq<Dinode>, block0: seq<Block>, t: seq<Dinode>, block: seq<Block>, x: nat, off0: nat,
                      src: seq<byte>, size: nat, t': seq<Dinode>)
    requires Addressed(t0) && Addressed(t) && |t| == |t0| && x < |t| && off0 <= t0[x].size && off0 + |src| <= MAXBYTES
    requires Progress(t0, block0, t, block, x, off0, off0 + |src|, src)
    requires forall j :: 0 <= j < |t| ==> t0[j].size == t[j].size
    requires size == (if off0 + |src| <= t0[x].size then t0[x].size else off0 + |src|)
             && t' == t[x := t[x].(size := size)]
    ensures Wrote(t0, block0, t', block, x, off0, src)
  {
    var now, was := Contents(t', block, x), Contents(t0, block0, x);
    FileAt(t', block, x, size);
    FileAt(t0, block0, x, t0[x].size);
    forall pos: nat | pos < size ensures now[pos] == Spliced(was, off0, src)[pos] {
      assert ByteAt(t', block, x, pos) == ByteAt(t, block, x, pos);
    }
    forall j | 0 <= j < |t| && j != x ensures Contents(t', block, j) == Contents(t0, block0, j) {
      assert forall pos: nat :: pos < t[j].size ==> ByteAt(t', block, j, pos) == ByteAt(t, block, j, pos);
      SameFile(t', block, t0, block0, j, t[j].size);
    }
  }

  lemma SameFile(t: seq<Dinode>, block: seq<Block>, t0: seq<Dinode>, block0: seq<Block>, j: nat, n: nat)
    requires j < |t| == |t0| && |t[j].addrs| == |t0[j].addrs| == NDIRECT + 1 && n <= MAXBYTES
    requires forall pos: nat :: pos < n ==> ByteAt(t, block, j, pos) == ByteAt(t0, block0, j, pos)
    ensures File(t, block, j, n) == File(t0, block0, j, n)
  {
  }

  lemma Resized(g: Geo, t: seq<Dinode>, block: seq<Block>, bitmap: seq<bool>, owner: map<nat, Slot>, x: nat, nb: nat,
                size: nat, t': seq<Dinode>)
    requires Balanced(g, t, block, bitmap, owner, x, nb) && size <= MAXBYTES && t' == t[x := t[x].(size := size)]
    ensures Balanced(g, t', block, bitmap, owner, x, nb)
  {
    forall s | IsSlot(t', s) ensures Ptr(t', block, s) == Ptr(t, block, s) {
    }
    forall j, bn: nat | 0 <= j < |t| && bn < MAXFILE ensures DataPtr(t', block, j, bn) == DataPtr(t, block, j, bn) {
      assert IsSlot(t', DataSlot(j, bn));
    }
  }

  /** A piece of a block is a piece of the contents. */
  lemma ReadBytes(g: Geo, t: seq<Dinode>, block: seq<Block>, bitmap: seq<bool>, owner: map<nat, Slot>, x: nat, nb: nat,
                  off: nat, m: nat)
    requires Balanced(g, t, block, bitmap, owner, x, nb) && off / 512 < nb
    requires m <= 512 - off % 512 && off + m <= t[x].size
    ensures DataPtr(t, block, x, off / 512) < |block|
    ensures block[DataPtr(t, block, x, off / 512)].bytes[off % 512..off % 512 + m] ==
            Contents(t, block, x)[off..off + m]
  {
  }

  lemma PtrInRange(g: Geo, t: seq<Dinode>, block: seq<Block>, bitmap: seq<bool>, owner: map<nat, Slot>, x: nat, s: Slot)
    requires Owned(g, t, block, bitmap, owner, x, 0) && IsSlot(t, s)
    ensures Ptr(t, block, s) < |block|
  {
  }

  lemma OverwrittenByte(b: Block, off: nat, src: seq<byte>, pos: nat)
    requires off % 512 + |src| <= 512 && pos / 512 == off / 512
    ensures Overwrite(b, off % 512, src).bytes[pos % 512] ==
            if off <= pos < off + |src| then src[pos - off] else b.bytes[pos % 512]
  {
  }

  /** How many of the first n blocks are free. */
  function Free(bitmap: seq<bool>, n: nat): (k: nat)
    requires n <= |bitmap|
  {
    if n == 0 then 0 else Free(bitmap, n - 1) + if bitmap[n - 1] then 0 else 1
  }

  lemma {:induction false} FreeTaken(bitmap: seq<bool>, n: nat, b: nat, v: bool)
    requires b < n <= |bitmap| && bitmap[b] != v
    ensures Free(bitmap[b := v], n) == Free(bitmap, n) + if v then -1 else 1
  {
    if b < n - 1 {
      FreeTaken(bitmap, n - 1, b, v);
    } else {
      FreeElsewhere(bitmap, n - 1, b, v);
    }
  }

  lemma {:induction false} FreeElsewhere(bitmap: seq<bool>, n: nat, b: nat, v: bool)
    requires n <= b < |bitmap|
    ensures Free(bitmap[b := v], n) == Free(bitmap, n)
  {
    if n > 0 {
      FreeElsewhere(bitmap, n - 1, b, v);
    }
  }

  lemma {:induction false} FreeExists(bitmap: seq<bool>, n: nat)
    requires n <= |bitmap|
    ensures Free(bitmap, n) > 0 <==> exists b: nat :: b < n && !bitmap[b]
  {
    if n > 0 {
      FreeExists(bitmap, n - 1);
      if !bitmap[n - 1] {
        assert n - 1 < n && !bitmap[n - 1];
      }
    }
  }

  /** Blocks that a file of nb data blocks takes up, its indirect block included. */
  function Cost(nb: nat): (k: nat) {
    if nb > NDIRECT then nb + 1 else nb
  }
}
