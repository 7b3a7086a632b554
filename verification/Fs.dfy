/** `fs.c` from the block allocator up to `readi` and `writei`, step by step, against FsSpec.
    Blocks are read and written through the log, so here a sector is simply what was last written
    to it; `logged` remembers which sectors a transaction has touched. */
module Fs {
  import opened Bytes
  import opened FsSpec
  import opened Options
  import D = Disk
  import L = LogSpec

  const BPB: nat := 4096 // bitmap bits per block

  /** `struct inode` as far as contents go; the in-memory copy that operations work on. */
  class Inode {
    const inum: nat
    var size: nat
    var addrs: seq<uint32>

    constructor (inum: nat, d: Dinode)
      ensures this.inum == inum && size == d.size && addrs == d.addrs
    {
      this.inum, size, addrs := inum, d.size, d.addrs;
    }
  }

  class FileSystem {
    const g: Geo
    var dinode: seq<Dinode> // the inodes on disk
    var bitmap: seq<bool>
    var block: seq<Block>
    ghost var owner: map<nat, Slot>
    ghost var logged: set<nat>
    ghost var base: L.Image  // the disk when the transaction began
    ghost var image: L.Image // the sectors as they are now, in the log or on the disk
    ghost var ws: L.Writes   // the log_writes in between

    constructor (g: Geo, dinode: seq<Dinode>, bitmap: seq<bool>, block: seq<Block>, ghost owner: map<nat, Slot>,
                 ghost disk: L.Image)
      requires D.Represents(g, disk, dinode, bitmap, block) && |disk| <= 0x1_0000_0000
      ensures this.g == g && this.dinode == dinode && this.bitmap == bitmap && this.block == block
      ensures this.owner == owner && logged == {} && image == base == disk && ws == L.Nothing && Rep()
    {
      this.g, this.dinode, this.bitmap, this.block := g, dinode, bitmap, block;
      this.owner, logged, base, image, ws := owner, {}, disk, disk, L.Nothing;
    }

    /** Inodes, bitmap and blocks are what the sectors say, and the log_writes made them so. */
    ghost predicate Rep()
      reads this`dinode, this`bitmap, this`block, this`logged, this`base, this`image, this`ws
    {
      D.Represents(g, image, dinode, bitmap, block) && D.Journal(g, base, image, ws, logged) && |base| <= 0x1_0000_0000
    }

    /** IBLOCK and BBLOCK: the sectors that hold an inode and a block's bitmap bit. */
    function InodeSector(i: nat): nat {
      D.InodeSector(i)
    }

    function BitmapSector(b: nat): nat
      reads this`dinode
    {
      D.BitmapSector(|dinode|, b)
    }

    /** The inodes with the in-memory copy of ip in place of the one on disk. */
    ghost function Table(ip: Inode): (t: seq<Dinode>)
      requires ip.inum < |dinode|
      reads this`dinode, ip
    {
      dinode[ip.inum := Dinode(ip.size, ip.addrs)]
    }

    /** The accounts balance, and ip has exactly its first nb data blocks. */
    ghost predicate Valid(ip: Inode, nb: nat)
      reads this, ip
    {
      && ip.inum < |dinode|
      && Balanced(g, Table(ip), block, bitmap, owner, ip.inum, nb)
      && IndirectIf(Table(ip), ip.inum, nb) && Rep()
    }

    /** Mark a block used, log the bitmap sector, then zero the block and log it. */
    method Take(b: nat)
      requires Rep() && b < g.size && g.first <= b
      modifies this`bitmap, this`block, this`logged, this`image, this`ws
      ensures bitmap == old(bitmap)[b := true] && block == old(block)[b := ZeroBlock()]
      ensures logged == old(logged) + {BitmapSector(b), b}
      ensures b < g.logstart ==> Rep()
    {
      ghost var s := BitmapSector(b);
      D.BitmapStep(g, image, dinode, bitmap, block, b, true);
      bitmap := bitmap[b := true];
      LogSector(s, D.PutBit(image[s], b % 4096, true));
      if b < g.logstart {
        D.BlockStep(g, image, dinode, bitmap, block, b, ZeroBlock());
      }
      block := block[b := ZeroBlock()];
      if b < g.logstart {
        LogSector(b, ZeroBlock());
      } else {
        logged := logged + {b};
      }
    }

    /** A `log_write`, as far as the sectors go. */
    ghost method LogSector(s: nat, data: Block)
      requires D.Journal(g, base, image, ws, logged) && |base| <= 0x1_0000_0000 && s < g.logstart && s != 1
      modifies this`logged, this`image, this`ws
      ensures logged == old(logged) + {s} && image == old(image)[s := data] && ws == L.Then(old(ws), L.Write(s, data))
      ensures D.Journal(g, base, image, ws, logged)
    {
      D.JournalStep(g, base, image, ws, logged, s, data);
      logged, image, ws := logged + {s}, image[s := data], L.Then(ws, L.Write(s, data));
    }

    /** Allocate and zero the first free block. None is the panic "out of blocks". The scan covers
        the log area too, so the block is outside the log just if some block before it is free. */
    method Balloc() returns (r: Option<nat>)
      requires Rep() && |bitmap| == |block| == g.size && g.logstart <= g.size
               && forall b: nat :: b < g.first && b < g.size ==> bitmap[b]
      modifies this`bitmap, this`block, this`logged, this`image, this`ws
      ensures r.None? <==> forall b :: 0 <= b < g.size ==> old(bitmap)[b]
      ensures r.None? ==>
              bitmap == old(bitmap) && block == old(block) && logged == old(logged) && image == old(image)
                  && ws == old(ws)
      ensures r.Some? ==>
                && r.value < g.size && !old(bitmap)[r.value]
                && (forall b :: 0 <= b < r.value ==> old(bitmap)[b])
                && bitmap == old(bitmap)[r.value := true] && block == old(block)[r.value := ZeroBlock()]
                && logged == old(logged) + {BitmapSector(r.value), r.value}
                && (r.value < g.logstart ==> Rep())
      ensures r.Some? && r.value < g.logstart <==> exists b: nat :: b < g.logstart && !old(bitmap)[b]
    {
      hide FileSystem.Rep;
      var b := 0;
      while b < g.size
        invariant 0 <= b && bitmap == old(bitmap) && block == old(block) && logged == old(logged) && image == old(image)
                  && ws == old(ws)
        invariant Rep() && forall c :: 0 <= c < b && c < g.size ==> old(bitmap)[c]
      {
        var bi := 0;
        while bi < BPB && b + bi < g.size
          invariant 0 <= bi <= BPB && bitmap == old(bitmap) && block == old(block) && logged == old(logged)
                    && image == old(image) && ws == old(ws)
          invariant Rep() && forall c :: 0 <= c < b + bi && c < g.size ==> old(bitmap)[c]
        {
          if !bitmap[b + bi] {
            Take(b + bi);
            return Some(b + bi);
          }
          bi := bi + 1;
        }
        b := b + BPB;
      }
      return None;
    }

    /** Free a block; freeing a free block is a panic. */
    method Bfree(b: nat)
      requires Rep() && b < |bitmap| && bitmap[b]
      modifies this`bitmap, this`logged, this`image, this`ws
      ensures Rep() && bitmap == old(bitmap)[b := false] && logged == old(logged) + {BitmapSector(b)}
    {
      ghost var s := BitmapSector(b);
      D.BitmapStep(g, image, dinode, bitmap, block, b, false);
      bitmap := bitmap[b := false];
      LogSector(s, D.PutBit(image[s], b % 4096, false));
    }

    /** Copy the in-memory inode to disk. */
    method Iupdate(ip: Inode)
      requires Rep() && ip.inum < |dinode| && ip.size < 0x1_0000_0000 && |ip.addrs| == NDIRECT + 1
      modifies this`dinode, this`logged, this`image, this`ws
      ensures Rep() && dinode == old(dinode)[ip.inum := Dinode(ip.size, ip.addrs)] == old(Table(ip))
      ensures logged == old(logged) + {InodeSector(ip.inum)} && OneMore(old(ws), ws)
    {
      ghost var s := InodeSector(ip.inum);
      D.InodeStep(g, image, dinode, bitmap, block, ip.inum, Dinode(ip.size, ip.addrs));
      dinode := dinode[ip.inum := Dinode(ip.size, ip.addrs)];
      LogSector(s, D.WithInode(image[s], ip.inum, Dinode(ip.size, ip.addrs)));
    }

    /** A home block can be allocated. */
    ghost predicate Room(k: nat)
      reads this`bitmap
    {
      g.logstart <= |bitmap| && Free(bitmap, g.logstart) >= k
    }

    /** The contents of a data block, and the log_write that goes with them. */
    method SetBlock(b: nat, data: Block)
      requires Rep() && g.first <= b < g.logstart && b < |block|
      modifies this`block, this`logged, this`image, this`ws
      ensures Rep() && block == old(block)[b := data] && logged == old(logged) + {b}
    {
      D.BlockStep(g, image, dinode, bitmap, block, b, data);
      block := block[b := data];
      LogSector(b, data);
    }

    /** A new block for an empty entry of the inode. */
    method AllocAddr(ip: Inode, q: nat, ghost nb: nat) returns (b: uint32)
      requires Rep() && ip.inum < |dinode| && Balanced(g, Table(ip), block, bitmap, owner, ip.inum, nb) && Room(1)
      requires q <= NDIRECT && Table(ip)[ip.inum].addrs[q] == 0 && (q < NDIRECT ==> q == nb)
      modifies this`bitmap, this`block, this`logged, this`image, this`ws, this`owner, ip`addrs
      ensures Rep() && ip.addrs == old(ip.addrs)[q := b] && Table(ip) == SetAddr(old(Table(ip)), ip.inum, q, b)
      ensures b < |old(block)|
      ensures old(Allocated(g, Table(ip), block, bitmap, owner, ip.inum, nb, SetAddr(Table(ip), ip.inum, q, b),
                            block[b := ZeroBlock()], Slot(ip.inum, q), b))
      ensures block == old(block)[b := ZeroBlock()] && bitmap == old(bitmap)[b := true]
      ensures owner == old(owner)[b := Slot(ip.inum, q)]
      ensures logged == old(logged) + {BitmapSector(b), b}
    {
      hide FileSystem.Rep;
      FreeExists(bitmap, g.logstart);
      var r := Balloc();
      AllocatedAddr(g, Table(ip), old(block), old(bitmap), owner, ip.inum, nb, q, r.value);
      b := r.value;
      ip.addrs := ip.addrs[q := b];
      owner := owner[b := Slot(ip.inum, q)];
    }

    /** A new block for an empty word of the indirect block, which is logged. */
    method AllocEntry(ip: Inode, j: nat, ghost nb: nat) returns (b: uint32)
      requires Rep() && ip.inum < |dinode| && Balanced(g, Table(ip), block, bitmap, owner, ip.inum, nb) && Room(1)
      requires j < NINDIRECT && nb == NDIRECT + j && Table(ip)[ip.inum].addrs[NDIRECT] != 0
      requires ip.addrs[NDIRECT] < |block|
      modifies this`bitmap, this`block, this`logged, this`image, this`ws, this`owner
      ensures Rep() && b < |old(block)|
      ensures block == old(block)[b := ZeroBlock()][ip.addrs[NDIRECT] := PutU32(old(block)[ip.addrs[NDIRECT]], j, b)]
      ensures bitmap == old(bitmap)[b := true] && owner == old(owner)[b := DataSlot(ip.inum, nb)]
      ensures Allocated(g, Table(ip), old(block), old(bitmap), old(owner), ip.inum, nb, Table(ip), block,
                        DataSlot(ip.inum, nb), b)
      ensures logged == old(logged) + {BitmapSector(b), b, ip.addrs[NDIRECT]}
    {
      hide FileSystem.Rep;
      FreeExists(bitmap, g.logstart);
      PtrInRange(g, Table(ip), block, bitmap, owner, ip.inum, Slot(ip.inum, NDIRECT));
      var c := ip.addrs[NDIRECT];
      var a := block[c];
      var r := Balloc();
      AllocatedEntry(g, Table(ip), old(block), old(bitmap), owner, ip.inum, nb, j, r.value);
      b := r.value;
      a := StoreU32(a, j, b);
      SetBlock(c, a);
      owner := owner[b := DataSlot(ip.inum, nb)];
    }

    /** The disk block of the bn-th block of ip, allocated if it is the next one. */
    method Bmap(ip: Inode, bn: nat, ghost nb: nat) returns (addr: uint32)
      requires Valid(ip, nb) && bn <= nb && bn < MAXFILE
      requires Room(Cost(if bn < nb then nb else nb + 1) - Cost(nb))
      modifies this`bitmap, this`block, this`logged, this`image, this`ws, this`owner, ip`addrs
      ensures Valid(ip, if bn < nb then nb else nb + 1)
      ensures addr == DataPtr(Table(ip), block, ip.inum, bn) && addr != 0
      ensures DataKept(old(Table(ip)), old(block), Table(ip), block)
      ensures Free(bitmap, g.logstart) == Free(old(bitmap), g.logstart)
              + Cost(nb) - Cost(if bn < nb then nb else nb + 1)
      ensures bn < nb ==>
              ip.addrs == old(ip.addrs) && block == old(block) && bitmap == old(bitmap) && owner == old(owner)
                          && logged == old(logged) && image == old(image) && ws == old(ws)
      ensures IndirectStays(old(ip.addrs), ip.addrs, bn) && logged <= old(logged) + Touched(ip, bn, addr)
    {
      hide FileSystem.Rep;
      if bn < NDIRECT {
        addr := ip.addrs[bn];
        if addr == 0 {
          assert DataPtr(Table(ip), block, ip.inum, bn) == 0;
          addr := AllocAddr(ip, bn, nb);
        }
        return;
      }
      addr := BmapIndirect(ip, bn, nb);
    }

    method BmapIndirect(ip: Inode, bn: nat, ghost nb: nat) returns (addr: uint32)
      requires Valid(ip, nb) && NDIRECT <= bn <= nb && bn < MAXFILE
      requires Room(Cost(if bn < nb then nb else nb + 1) - Cost(nb))
      modifies this`bitmap, this`block, this`logged, this`image, this`ws, this`owner, ip`addrs
      ensures ip.inum < |dinode| && |Table(ip)[ip.inum].addrs| == NDIRECT + 1 && g.logstart <= |bitmap| == |old(bitmap)|
      ensures Valid(ip, if bn < nb then nb else nb + 1)
      ensures addr == DataPtr(Table(ip), block, ip.inum, bn) && addr != 0
      ensures DataKept(old(Table(ip)), old(block), Table(ip), block)
      ensures Free(bitmap, g.logstart) == Free(old(bitmap), g.logstart)
              + Cost(nb) - Cost(if bn < nb then nb else nb + 1)
      ensures bn < nb ==>
              ip.addrs == old(ip.addrs) && block == old(block) && bitmap == old(bitmap) && owner == old(owner)
                          && logged == old(logged) && image == old(image) && ws == old(ws)
      ensures IndirectStays(old(ip.addrs), ip.addrs, bn) && logged <= old(logged) + Touched(ip, bn, addr)
    {
      hide FileSystem.Rep;
      var c := LoadIndirect(ip, nb);
      label loaded:
      addr := LoadEntry(ip, bn, nb);
      DataKeptAgain(old(Table(ip)), old(block), old@loaded(Table(ip)), old@loaded(block), Table(ip), block);
    }

    /** A word of the indirect block, with a block allocated for it if it is the next one. */
    method LoadEntry(ip: Inode, bn: nat, ghost nb: nat) returns (addr: uint32)
      requires Rep() && ip.inum < |dinode| && Balanced(g, Table(ip), block, bitmap, owner, ip.inum, nb)
      requires NDIRECT <= bn <= nb && bn < MAXFILE && Table(ip)[ip.inum].addrs[NDIRECT] != 0 && (bn == nb ==> Room(1))
      modifies this`bitmap, this`block, this`logged, this`image, this`ws, this`owner
      ensures Rep() && Balanced(g, Table(ip), block, bitmap, owner, ip.inum, if bn < nb then nb else nb + 1)
      ensures addr == DataPtr(Table(ip), block, ip.inum, bn) && addr != 0
      ensures DataKept(Table(ip), old(block), Table(ip), block)
      ensures Free(bitmap, g.logstart) == Free(old(bitmap), g.logstart) - if bn < nb then 0 else 1
      ensures bn < nb ==>
              block == old(block) && bitmap == old(bitmap) && owner == old(owner) && logged == old(logged)
                  && image == old(image) && ws == old(ws)
      ensures logged <= old(logged) + {addr, ip.addrs[NDIRECT], BitmapSector(addr)}
    {
      hide FileSystem.Rep, IndirectIf, Ptr, Free;
      var j := bn - NDIRECT;
      IndirectInRange(g, Table(ip), block, bitmap, owner, ip.inum, nb);
      addr := U32(block[ip.addrs[NDIRECT]], j);
      assert addr == DataPtr(Table(ip), block, ip.inum, NDIRECT + j);
      if addr == 0 {
        addr := AllocEntry(ip, j, nb);
        IndirectInRange(g, Table(ip), block, bitmap, owner, ip.inum, nb + 1);
        assert addr == DataPtr(Table(ip), block, ip.inum, NDIRECT + j);
      }
    }

    /** The indirect block, allocated if there is none yet. */
    method LoadIndirect(ip: Inode, ghost nb: nat) returns (c: uint32)
      requires Valid(ip, nb) && NDIRECT <= nb && (nb == NDIRECT ==> Room(1))
      modifies this`bitmap, this`block, this`logged, this`image, this`ws, this`owner, ip`addrs
      ensures Rep() && ip.inum < |dinode| && Balanced(g, Table(ip), block, bitmap, owner, ip.inum, nb)
      ensures c == Table(ip)[ip.inum].addrs[NDIRECT] && 0 < c < |block|
      ensures DataKept(old(Table(ip)), old(block), Table(ip), block)
      ensures nb > NDIRECT ==>
              ip.addrs == old(ip.addrs) && block == old(block) && bitmap == old(bitmap) && owner == old(owner)
                               && logged == old(logged) && image == old(image) && ws == old(ws)
      ensures Free(bitmap, g.logstart) == Free(old(bitmap), g.logstart) - if nb == NDIRECT then 1 else 0
      ensures IndirectStays(old(ip.addrs), ip.addrs, NDIRECT) && logged <= old(logged) + {c, BitmapSector(c)}
    {
      hide FileSystem.Rep;
      c := ip.addrs[NDIRECT];
      if c == 0 {
        c := AllocAddr(ip, NDIRECT, nb);
      } else {
        IndirectInRange(g, Table(ip), block, bitmap, owner, ip.inum, nb);
      }
    }

    /** The sectors that mapping the bn-th block, addr, of ip can log. */
    ghost function Touched(ip: Inode, bn: nat, addr: nat): (s: set<nat>)
      requires |ip.addrs| == NDIRECT + 1
      reads this`dinode, ip
    {
      {addr, BitmapSector(addr)} +
      if bn < NDIRECT then {} else {ip.addrs[NDIRECT], BitmapSector(ip.addrs[NDIRECT])}
    }

    /** A write of src at off0 has reached off; t0 and block0 are the files before it. */
    ghost predicate Writing(ip: Inode, nb: nat, t0: seq<Dinode>, block0: seq<Block>, off0: nat, off: nat,
                            src: seq<byte>)
      reads this, ip
    {
      && Valid(ip, nb) && Blocks(ip.size) <= nb && Blocks(off) <= nb
      && |t0| == |dinode| && Addressed(t0) && (forall j :: 0 <= j < |t0| ==> t0[j].size == Table(ip)[j].size)
      && off0 <= off <= off0 + |src| && off <= MAXBYTES && off0 <= ip.size
      && Progress(t0, block0, Table(ip), block, ip.inum, off0, off, src)
    }

    /** Map the block that the write has reached. */
    method MapBlock(ip: Inode, bn: nat, off0: nat, off: nat, src: seq<byte>, ghost nb: nat,
                    ghost t0: seq<Dinode>, ghost block0: seq<Block>) returns (addr: uint32)
      requires Writing(ip, nb, t0, block0, off0, off, src) && bn < MAXFILE && bn <= nb
      requires Room(Cost(Max(nb, bn + 1)) - Cost(nb))
      modifies this`bitmap, this`block, this`logged, this`image, this`ws, this`owner, ip`addrs
      ensures Writing(ip, Max(nb, bn + 1), t0, block0, off0, off, src)
      ensures addr == DataPtr(Table(ip), block, ip.inum, bn)
      ensures Free(bitmap, g.logstart) == Free(old(bitmap), g.logstart) + Cost(nb) - Cost(Max(nb, bn + 1))
      ensures bn < nb ==> ip.addrs == old(ip.addrs)
      ensures IndirectStays(old(ip.addrs), ip.addrs, bn)
      ensures logged <= old(logged) + Touched(ip, bn, addr)
    {
      hide Cost, DataPtr;
      hide FileSystem.Rep, AllMapped, Free;
      addr := Bmap(ip, bn, nb);
      assert forall j :: 0 <= j < |dinode| ==> Table(ip)[j].size == old(Table(ip))[j].size;
      ProgressKept(t0, block0, old(Table(ip)), old(block), Table(ip), block, ip.inum, nb, off0, off, src);
    }

    /** Copy m bytes of the write into the mapped block and log it. */
    method StoreBytes(ip: Inode, addr: uint32, off0: nat, off: nat, m: nat, src: seq<byte>, ghost nb: nat,
                      ghost t0: seq<Dinode>, ghost block0: seq<Block>)
      requires Writing(ip, nb, t0, block0, off0, off, src) && off / 512 < nb
      requires addr == DataPtr(Table(ip), block, ip.inum, off / 512)
      requires 0 < m <= 512 - off % 512 && off + m <= off0 + |src| && off + m <= MAXBYTES
      modifies this`block, this`logged, this`image, this`ws
      ensures Writing(ip, nb, t0, block0, off0, off + m, src)
      ensures logged == old(logged) + {addr}
    {
      hide FileSystem.Rep;
      BlockArithmetic(off, m);
      PtrInRange(g, Table(ip), block, bitmap, owner, ip.inum, DataSlot(ip.inum, off / 512));
      var part := src[off - off0..off - off0 + m];
      var block' := OverwriteAt(block, addr, off % 512, part);
      ProgressWrite(g, t0, block0, Table(ip), block, bitmap, owner, ip.inum, nb, off0, off, m, src, block');
      DataWriteBalanced(g, Table(ip), block, bitmap, owner, ip.inum, nb, off / 512,
                        Overwrite(block[addr], off % 512, part));
      SetBlock(addr, block'[addr]);
    }

    /** The state of the loop of `writei`, for a write of src at off0 that has reached off. */
    ghost predicate InLoop(ip: Inode, nb: nat, t0: seq<Dinode>, block0: seq<Block>, free0: nat, l0: set<nat>,
                           touched: seq<nat>, off0: nat, off: nat, src: seq<byte>)
      reads this, ip
    {
      && Writing(ip, nb, t0, block0, off0, off, src) && nb == Max(Blocks(ip.size), Blocks(off))
      && (off <= ip.size ==> ip.addrs == t0[ip.inum].addrs)
      && Free(bitmap, g.logstart) == free0 + Cost(Blocks(ip.size)) - Cost(nb)
      && LogWithin(ip, l0, touched)
      && (off == off0 || off % 512 == 0 || off == off0 + |src|)
      && |touched| == if off == off0 then 0 else Blocks(off) - off0 / 512
    }

    /** One round of `writei`: map a block, copy bytes up to its end into it, log it. */
    method WriteBlock(ip: Inode, off0: nat, off: nat, src: seq<byte>, ghost nb: nat, ghost t0: seq<Dinode>,
                      ghost block0: seq<Block>, ghost free0: nat, ghost l0: set<nat>, ghost touched: seq<nat>)
      returns (m: nat, ghost nb': nat, ghost touched': seq<nat>)
      requires InLoop(ip, nb, t0, block0, free0, l0, touched, off0, off, src) && off < off0 + |src| <= MAXBYTES
      requires free0 + Cost(Blocks(ip.size)) >= Cost(Blocks(Max(ip.size, off0 + |src|)))
      modifies this`bitmap, this`block, this`logged, this`image, this`ws, this`owner, ip`addrs
      ensures 0 < m && off + m <= off0 + |src|
      ensures InLoop(ip, nb', t0, block0, free0, l0, touched', off0, off + m, src)
    {
      hide FileSystem.Rep, AllMapped, Ptr, Free, Cost, DataPtr;
      var bn := off / 512;
      m := Min(off0 + |src| - off, 512 - off % 512);
      Round(ip.size, off0, off, m, off0 + |src|);
      nb' := Max(nb, bn + 1);
      var addr := MapBlock(ip, bn, off0, off, src, nb, t0, block0);
      touched' := touched + [addr];
      LoggedMore(ip, old(ip.addrs), bn, addr, nb', old(logged), l0, touched);
      StoreBytes(ip, addr, off0, off, m, src, nb', t0, block0);
    }

    lemma LoggedMore(ip: Inode, addrs: seq<uint32>, bn: nat, addr: nat, nb: nat, before: set<nat>, l0: set<nat>,
                     touched: seq<nat>)
      requires Valid(ip, nb) && bn < nb && addr == DataPtr(Table(ip), block, ip.inum, bn)
      requires LoggedWithin(before, addrs, l0, touched) && IndirectStays(addrs, ip.addrs, bn)
      requires logged <= before + Touched(ip, bn, addr)
      ensures LoggedWithin(logged + {addr}, ip.addrs, l0, touched + [addr])
    {
      hide FileSystem.Rep;
      PtrInRange(g, Table(ip), block, bitmap, owner, ip.inum, DataSlot(ip.inum, bn));
      PtrInRange(g, Table(ip), block, bitmap, owner, ip.inum, Slot(ip.inum, NDIRECT));
      assert g.size <= BPB ==> forall b: nat :: b < g.size ==> BitmapSector(b) == BitmapSector(0);
      forall s | s in logged + {addr} && g.size <= BPB
        ensures s in l0 || s in touched + [addr] || s == BitmapSector(0) || (s == ip.addrs[NDIRECT] && s != 0)
      {
      }
    }

    /** The sectors in `logs` are those in l0, the blocks in `touched`, the indirect block, and the
        bitmap sector, if there is only one. */
    ghost predicate LoggedWithin(logs: set<nat>, addrs: seq<uint32>, l0: set<nat>, touched: seq<nat>)
      reads this`dinode
    {
      && |addrs| == NDIRECT + 1
      && (g.size <= BPB ==> forall s :: s in logs ==>
           s in l0 || s in touched || s == BitmapSector(0) || (s == addrs[NDIRECT] && s != 0))
    }

    ghost predicate LogWithin(ip: Inode, l0: set<nat>, touched: seq<nat>)
      reads this, ip
    {
      LoggedWithin(logged, ip.addrs, l0, touched)
    }

    lemma LoggedBody(ip: Inode, l0: set<nat>, touched: seq<nat>)
      requires Rep() && LogWithin(ip, l0, touched)
      ensures LoggedWithin(LoggedSet(ws), ip.addrs, l0, touched)
    {
      JournalSet(g, base, image, ws, logged);
    }

    /** The loop of `writei`. */
    method WriteLoop(ip: Inode, src: seq<byte>, off0: nat, ghost t0: seq<Dinode>, ghost block0: seq<Block>,
                     ghost free0: nat, ghost l0: set<nat>) returns (ghost nb: nat, ghost touched: seq<nat>)
      requires InLoop(ip, Blocks(ip.size), t0, block0, free0, l0, [], off0, off0, src) && off0 + |src| <= MAXBYTES
      requires free0 + Cost(Blocks(ip.size)) >= Cost(Blocks(Max(ip.size, off0 + |src|)))
      modifies this`bitmap, this`block, this`logged, this`image, this`ws, this`owner, ip`addrs
      ensures InLoop(ip, nb, t0, block0, free0, l0, touched, off0, off0 + |src|, src)
    {
      hide FileSystem.Rep, Ptr, Free, AllMapped, Balanced, Progress, FileSystem.LoggedWithin;
      var off := off0;
      nb, touched := Blocks(ip.size), [];
      while off < off0 + |src|
        invariant InLoop(ip, nb, t0, block0, free0, l0, touched, off0, off, src)
      {
        var m;
        m, nb, touched := WriteBlock(ip, off0, off, src, nb, t0, block0, free0, l0, touched);
        off := off + m;
      }
    }

    /** Between operations the in-memory inode agrees with the disk, and no file has a hole. */
    ghost predicate Synced(ip: Inode)
      reads this, ip
    {
      && ip.inum < |dinode| && Addressed(dinode) && dinode[ip.inum] == Dinode(ip.size, ip.addrs)
      && Valid(ip, Blocks(ip.size))
    }

    /** Record a new size and write the inode back. */
    method Grow(ip: Inode, size: nat, ghost nb: nat)
      requires Rep() && ip.inum < |dinode| && Balanced(g, Table(ip), block, bitmap, owner, ip.inum, nb)
               && size <= MAXBYTES
      modifies this`dinode, this`logged, this`image, this`ws, ip`size
      ensures ip.size == size && |dinode| == |old(dinode)|
              && dinode == Table(ip) == old(Table(ip)[ip.inum := Table(ip)[ip.inum].(size := size)])
      ensures Rep() && Balanced(g, Table(ip), block, bitmap, owner, ip.inum, nb)
      ensures logged == old(logged) + {InodeSector(ip.inum)} && OneMore(old(ws), ws)
    {
      hide FileSystem.Rep;
      Resized(g, Table(ip), block, bitmap, owner, ip.inum, nb, size,
              Table(ip)[ip.inum := Table(ip)[ip.inum].(size := size)]);
      ip.size := size;
      Iupdate(ip);
      assert dinode == Table(ip);
    }

    /** The end of `writei`: if the file grew, record its size and write the inode back. */
    method FinishWrite(ip: Inode, off: nat, src: seq<byte>, ghost nb: nat, ghost t0: seq<Dinode>,
                       ghost block0: seq<Block>, ghost free0: nat, ghost l0: set<nat>, ghost touched: seq<nat>)
      requires InLoop(ip, nb, t0, block0, free0, l0, touched, off, off + |src|, src)
      requires dinode == t0 && t0[ip.inum].size == ip.size
      modifies this`dinode, this`logged, this`image, this`ws, ip`size
      ensures Synced(ip) && Wrote(t0, block0, dinode, block, ip.inum, off, src)
      ensures Free(bitmap, g.logstart) == free0 + Cost(Blocks(old(ip.size))) - Cost(Blocks(ip.size))
      ensures |dinode| == |t0| && LoggedWithin(logged, ip.addrs, l0 + {InodeSector(ip.inum)}, touched)
      ensures ip.addrs == old(ip.addrs) && (ws == old(ws) || OneMore(old(ws), ws))
    {
      hide FileSystem.Rep;
      ghost var t, size := Table(ip), Max(ip.size, off + |src|);
      ghost var t' := t[ip.inum := t[ip.inum].(size := size)];
      WriteContents(t0, block0, t, block, ip.inum, off, src, size, t');
      if |src| > 0 && off + |src| > ip.size {
        BlocksMonotone(ip.size, size);
        Grow(ip, off + |src|, nb);
      } else {
        BlocksMonotone(off + |src|, ip.size);
        assert dinode == t' == Table(ip);
      }
    }

    /** `writei` on a file: splice src into its contents at off and leave every other file alone. The
        inode is written back only when the size grows, and yet never goes stale; and it is written back last, after
        `body`, the log_writes for blocks and bitmap. */
    method Writei(ip: Inode, src: seq<byte>, off: uint32)
        returns (r: int, ghost touched: seq<nat>, ghost body: L.Writes)
      requires Synced(ip) && |src| < 0x1_0000_0000
      requires WriteOk(ip.size, off, |src|) ==> Room(Cost(Blocks(Max(ip.size, off + |src|))) - Cost(Blocks(ip.size)))
      modifies this`dinode, this`bitmap, this`block, this`logged, this`image, this`ws, this`owner, ip`addrs, ip`size
      ensures Synced(ip) && |dinode| == |old(dinode)|
      ensures r == if WriteOk(old(ip.size), off, |src|) then |src| else -1
      ensures r >= 0 <==> off <= old(ip.size) && off + |src| <= (12 + 128) * 512
      ensures r == -1 ==> dinode == old(dinode) && block == old(block) && bitmap == old(bitmap) && logged == old(logged)
                          && image == old(image) && ws == old(ws)
      ensures r >= 0 ==> Wrote(old(dinode), old(block), dinode, block, ip.inum, off, src)
      ensures Free(bitmap, g.logstart) == Free(old(bitmap), g.logstart)
              + Cost(Blocks(old(ip.size))) - Cost(Blocks(ip.size))
      ensures |touched| <= (|src| + 1022) / 512
      ensures LoggedWithin(logged, ip.addrs, old(logged) + {InodeSector(ip.inum)}, touched)
      ensures (ws == body || OneMore(body, ws)) && LoggedWithin(LoggedSet(body), ip.addrs, old(logged), touched)
    {
      hide FileSystem.Rep, LoggedSet, OneMore;
      touched, body := [], ws;
      LoggedBody(ip, logged, []);
      var end := (off + |src|) % 0x1_0000_0000;
      if off > ip.size || end < off || end > MAXBYTES {
        return -1, [], ws;
      }
      assert Table(ip) == dinode;
      ghost var nb;
      BlocksMonotone(off, ip.size);
      nb, touched := WriteLoop(ip, src, off, old(dinode), old(block), Free(old(bitmap), g.logstart), old(logged));
      body := ws;
      LoggedBody(ip, old(logged), touched);
      FinishWrite(ip, off, src, nb, old(dinode), old(block), Free(old(bitmap), g.logstart), old(logged), touched);
      return |src|, touched, body;
    }

    /** One round of `readi`: the bytes from cur up to end or to the end of the block. */
    method ReadBlock(ip: Inode, cur: nat, end: nat) returns (piece: seq<byte>)
      requires Synced(ip) && cur < end <= ip.size
      modifies this`bitmap, this`block, this`logged, this`image, this`ws, this`owner, ip`addrs
      ensures bitmap == old(bitmap) && block == old(block) && logged == old(logged) && owner == old(owner)
              && ip.addrs == old(ip.addrs)
      ensures image == old(image) && ws == old(ws)
      ensures 0 < |piece| <= end - cur && piece == Contents(dinode, block, ip.inum)[cur..cur + |piece|]
    {
      hide FileSystem.Rep;
      var m := Min(end - cur, 512 - cur % 512);
      PosInBlocks(cur, ip.size);
      assert Table(ip) == dinode;
      ReadBytes(g, dinode, block, bitmap, owner, ip.inum, Blocks(ip.size), cur, m);
      var addr := Bmap(ip, cur / 512, Blocks(ip.size));
      piece := block[addr].bytes[cur % 512..cur % 512 + m];
    }

    /** `readi` on a file: the slice of its contents, clipped at its end. Every block it needs is
        already mapped, so reading never allocates. */
    method Readi(ip: Inode, off: uint32, n: uint32) returns (r: int, dst: seq<byte>)
      requires Synced(ip)
      modifies this`bitmap, this`block, this`logged, this`image, this`ws, this`owner, ip`addrs
      ensures bitmap == old(bitmap) && block == old(block) && logged == old(logged) && owner == old(owner)
              && ip.addrs == old(ip.addrs)
      ensures image == old(image) && ws == old(ws)
      ensures r == -1 <==> off > ip.size || off + n >= 0x1_0000_0000
      ensures r != -1 ==> r == |dst| && dst == Contents(dinode, block, ip.inum)[off..Min(off + n, ip.size)]
      ensures r != -1 ==> r == if off + n < ip.size then n else ip.size - off
    {
      hide FileSystem.Rep, FileSystem.Valid, Contents;
      dst := [];
      if off > ip.size || (off + n) % 0x1_0000_0000 < off {
        return -1, [];
      }
      var cur, end := off, Min(off + n, ip.size);
      ghost var all := Contents(dinode, block, ip.inum);
      while cur < end
        invariant off <= cur <= end
        invariant bitmap == old(bitmap) && block == old(block) && logged == old(logged) && owner == old(owner)
                  && ip.addrs == old(ip.addrs)
        invariant image == old(image) && ws == old(ws)
        invariant dst == all[off..cur]
      {
        var piece := ReadBlock(ip, cur, end);
        assert all[off..cur] + all[cur..cur + |piece|] == all[off..cur + |piece|];
        dst, cur := dst + piece, cur + |piece|;
      }
      return |dst|, dst;
    }

    /** `itrunc` has freed the first i direct blocks and the first `dead` indirect entries. */
    ghost predicate Truncating(ip: Inode, addrs0: seq<uint32>, owner0: map<nat, Slot>, i: nat, dead: nat)
      reads this, ip
    {
      && ip.inum < |dinode| && i <= NDIRECT && dead <= NINDIRECT && |addrs0| == |ip.addrs| == NDIRECT + 1
      && Rep() && Owned(g, Table(ip), block, bitmap, owner, ip.inum, dead)
      && OwnersLeft(owner0, owner, ip.inum, i, dead)
      && (forall q :: 0 <= q <= NDIRECT ==> ip.addrs[q] == if q < i then 0 else addrs0[q])
    }

    /** Free one direct block. Its bit is set, so `bfree` does not panic. */
    method FreeDirect(ip: Inode, i: nat, ghost addrs0: seq<uint32>, ghost owner0: map<nat, Slot>)
      requires Truncating(ip, addrs0, owner0, i, 0) && i < NDIRECT
      modifies this`bitmap, this`logged, this`image, this`ws, this`owner, ip`addrs
      ensures Truncating(ip, addrs0, owner0, i + 1, 0)
    {
      hide FileSystem.Rep, Ptr, OwnersLeft, IsSlot;
      DetachDirect(g, Table(ip), block, bitmap, owner0, owner, ip.inum, i);
      if ip.addrs[i] != 0 {
        var b := ip.addrs[i];
        Bfree(b);
        ip.addrs := ip.addrs[i := 0];
        owner := owner - {b};
        assert Table(ip) == SetAddr(old(Table(ip)), ip.inum, i, 0);
      }
    }

    /** The first loop of `itrunc`. */
    method FreeDirects(ip: Inode, ghost addrs0: seq<uint32>, ghost owner0: map<nat, Slot>)
      requires Truncating(ip, addrs0, owner0, 0, 0)
      modifies this`bitmap, this`logged, this`image, this`ws, this`owner, ip`addrs
      ensures Truncating(ip, addrs0, owner0, NDIRECT, 0)
    {
      hide FileSystem.Rep, Owned, OwnersLeft;
      var i := 0;
      while i < NDIRECT
        invariant i <= NDIRECT && Truncating(ip, addrs0, owner0, i, 0)
      {
        FreeDirect(ip, i, addrs0, owner0);
        i := i + 1;
      }
    }

    /** Free the block of one indirect entry. */
    method FreeEntry(ip: Inode, j: nat, p: uint32, ghost addrs0: seq<uint32>, ghost owner0: map<nat, Slot>)
      requires Truncating(ip, addrs0, owner0, NDIRECT, j) && j < NINDIRECT
      requires p == Ptr(Table(ip), block, Slot(ip.inum, NDIRECT + 1 + j))
      modifies this`bitmap, this`logged, this`image, this`ws, this`owner
      ensures Truncating(ip, addrs0, owner0, NDIRECT, j + 1)
    {
      hide FileSystem.Rep, Ptr;
      DetachEntry(g, Table(ip), block, bitmap, owner, ip.inum, j);
      if p != 0 {
        Bfree(p);
        owner := owner - {p};
      } else {
        assert forall b :: b in owner ==> Ptr(Table(ip), block, owner[b]) == b;
      }
    }

    /** Free what the indirect block points to; the block itself is left as it is. */
    method FreeEntries(ip: Inode, ghost addrs0: seq<uint32>, ghost owner0: map<nat, Slot>)
      requires Truncating(ip, addrs0, owner0, NDIRECT, 0) && 0 < ip.addrs[NDIRECT] < |block|
      modifies this`bitmap, this`logged, this`image, this`ws, this`owner
      ensures Truncating(ip, addrs0, owner0, NDIRECT, NINDIRECT)
    {
      hide FileSystem.Rep, Owned, OwnersLeft;
      var a := block[ip.addrs[NDIRECT]];
      var j := 0;
      while j < NINDIRECT
        invariant j <= NINDIRECT && Truncating(ip, addrs0, owner0, NDIRECT, j)
      {
        FreeEntry(ip, j, U32(a, j), addrs0, owner0);
        j := j + 1;
      }
    }

    /** Free the indirect block and what it points to. */
    method FreeIndirect(ip: Inode, ghost addrs0: seq<uint32>, ghost owner0: map<nat, Slot>)
      requires Truncating(ip, addrs0, owner0, NDIRECT, 0)
      modifies this`bitmap, this`logged, this`image, this`ws, this`owner, ip`addrs
      ensures Rep() && ip.inum < |dinode| && Owned(g, Table(ip), block, bitmap, owner, ip.inum, 0)
      ensures OwnersLeft(owner0, owner, ip.inum, NDIRECT + 1, NINDIRECT)
      ensures |ip.addrs| == NDIRECT + 1 && forall q :: 0 <= q <= NDIRECT ==> ip.addrs[q] == 0
    {
      hide FileSystem.Rep;
      var c := ip.addrs[NDIRECT];
      if c == 0 {
        NoOwners(g, Table(ip), block, bitmap, owner0, owner, ip.inum);
        return;
      }
      PtrInRange(g, Table(ip), block, bitmap, owner, ip.inum, Slot(ip.inum, NDIRECT));
      FreeEntries(ip, addrs0, owner0);
      FreeTable(ip, addrs0, owner0);
    }

    /** Free the indirect block itself. */
    method FreeTable(ip: Inode, ghost addrs0: seq<uint32>, ghost owner0: map<nat, Slot>)
      requires Truncating(ip, addrs0, owner0, NDIRECT, NINDIRECT) && ip.addrs[NDIRECT] != 0
      modifies this`bitmap, this`logged, this`image, this`ws, this`owner, ip`addrs
      ensures Rep() && ip.inum < |dinode| && Owned(g, Table(ip), block, bitmap, owner, ip.inum, 0)
      ensures OwnersLeft(owner0, owner, ip.inum, NDIRECT + 1, NINDIRECT)
      ensures |ip.addrs| == NDIRECT + 1 && forall q :: 0 <= q <= NDIRECT ==> ip.addrs[q] == 0
    {
      hide FileSystem.Rep;
      var c := ip.addrs[NDIRECT];
      DetachIndirect(g, Table(ip), block, bitmap, owner, ip.inum);
      LastOwners(g, Table(ip), block, bitmap, owner0, owner, ip.inum);
      ghost var t := SetAddr(Table(ip), ip.inum, NDIRECT, 0);
      Bfree(c);
      owner := owner - {c};
      ip.addrs := ip.addrs[NDIRECT := 0];
      assert Table(ip) == t;
    }

    /** `itrunc`: the file is empty, exactly its blocks are free again, and no other file changes. */
    method Itrunc(ip: Inode)
      requires Synced(ip)
      modifies this`dinode, this`bitmap, this`logged, this`image, this`ws, this`owner, ip`addrs, ip`size
      ensures Synced(ip) && ip.size == 0 && |dinode| == |old(dinode)|
      ensures forall b :: b in owner <==> b in old(owner) && old(owner)[b].i != ip.inum
      ensures |bitmap| == |old(bitmap)|
      ensures forall b: nat :: b < |bitmap| ==>
              (bitmap[b] <==> old(bitmap)[b] && !(b in old(owner) && old(owner)[b].i == ip.inum))
      ensures forall j :: 0 <= j < |dinode| && j != ip.inum ==>
              Contents(dinode, block, j) == Contents(old(dinode), block, j)
    {
      hide FileSystem.Rep, Ptr, Contents, IndirectIf, Dead;
      ghost var owner0, addrs0 := owner, ip.addrs;
      assert Table(ip) == dinode;
      FreeDirects(ip, addrs0, owner0);
      FreeIndirect(ip, addrs0, owner0);
      Empty(ip, old(dinode), Blocks(ip.size));
    }

    /** Record size 0 for an inode without blocks and write it back. */
    method Empty(ip: Inode, ghost t0: seq<Dinode>, ghost nb: nat)
      requires Rep() && ip.inum < |dinode| && dinode == t0 && Owned(g, Table(ip), block, bitmap, owner, ip.inum, 0)
      requires Sized(g, t0, block) && AllMapped(t0, block, ip.inum, nb) && Addressed(t0)
      requires |ip.addrs| == NDIRECT + 1 && forall q :: 0 <= q <= NDIRECT ==> ip.addrs[q] == 0
      modifies this`dinode, this`logged, this`image, this`ws, ip`size
      ensures Synced(ip) && ip.size == 0 && |dinode| == |t0|
      ensures forall j :: 0 <= j < |dinode| && j != ip.inum ==> Contents(dinode, block, j) == Contents(t0, block, j)
    {
      hide FileSystem.Rep;
      ghost var t := Table(ip)[ip.inum := Table(ip)[ip.inum].(size := 0)];
      ShrunkOwned(g, Table(ip), block, bitmap, owner, ip.inum, t);
      Emptied0(g, t0, t, block, ip.inum, nb);
      ip.size := 0;
      Iupdate(ip);
      assert dinode == t == Table(ip);
    }
  }

  /** `writei` takes a write that starts inside the file and ends within the largest file. */
  predicate WriteOk(size: nat, off: nat, n: nat) {
    off <= size && off + n <= MAXBYTES
  }

  /** The arithmetic of one round: where it ends, how many blocks are mapped by then, and that there
      is room for them. */
  lemma Round(size: nat, off0: nat, off: nat, m: nat, end: nat)
    requires off0 <= off < end && m == Min(end - off, 512 - off % 512)
    ensures 0 < m <= 512 - off % 512 && off + m <= end
    ensures (off + m) % 512 == 0 || off + m == end
    ensures off / 512 <= Blocks(off) && Blocks(off + m) == off / 512 + 1
    ensures off + m <= size ==> off / 512 < Blocks(size)
    ensures off == off0 || off % 512 == 0 ==>
              Blocks(off + m) - off0 / 512 == 1 + if off == off0 then 0 else Blocks(off) - off0 / 512
    ensures Max(Max(Blocks(size), Blocks(off)), off / 512 + 1) == Max(Blocks(size), Blocks(off + m))
    ensures Cost(Max(Blocks(size), Blocks(off))) <= Cost(Max(Blocks(size),
                                                             Blocks(off + m))) <= Cost(Blocks(Max(size, end)))
  {
  }

  /** The sectors that a transaction has logged, as a set. */
  ghost function LoggedSet(ws: L.Writes): set<nat> {
    set s: nat | s in L.Logged(ws)
  }

  lemma JournalSet(g: Geo, base: L.Image, image: L.Image, ws: L.Writes, logged: set<nat>)
    requires D.Journal(g, base, image, ws, logged)
    ensures forall s :: s in LoggedSet(ws) ==> s in logged
  {
  }

  predicate OneMore(front: L.Writes, ws: L.Writes) {
    ws.Then? && ws.front == front
  }

  function Min(a: nat, b: nat): nat {
    if a < b then a else b
  }

  function Max(a: nat, b: nat): nat {
    if a < b then b else a
  }

  /** Mapping a block leaves the indirect block alone once there is one, and for direct blocks. */
  predicate IndirectStays(a: seq<uint32>, b: seq<uint32>, bn: nat) {
    && |a| == |b| == NDIRECT + 1
    && (bn < NDIRECT || a[NDIRECT] != 0 ==> b[NDIRECT] == a[NDIRECT])
    && (bn >= NDIRECT ==> b[NDIRECT] != 0)
  }

  // ---- A new disk ------------------------------------------------------------------------------------

  lemma {:induction false} NoBits(k: nat)
    ensures !D.Bit(0, k)
  {
    if k > 0 {
      NoBits(k - 1);
    }
  }

  /** The first n bits set, the others clear. */
  function Marked(n: nat): (b: Block)
    requires n <= 4096
    ensures forall j: nat :: j < 4096 ==> (D.BitAt(b, j) <==> j < n)
  {
    if n == 0 then
      assert forall j: nat :: j < 4096 ==> !D.BitAt(ZeroBlock(), j) by {
        forall j: nat | j < 4096 ensures !D.BitAt(ZeroBlock(), j) {
          NoBits(j % 8);
        }
      }
      ZeroBlock()
    else D.PutBit(Marked(n - 1), n - 1, true)
  }

  /** The superblock that `mkfs` writes: size, nblocks, ninodes, nlog. */
  function Super(g: Geo, ninodes: nat): (b: Block)
    requires g.first <= g.logstart <= g.size <= 4096 && ninodes < 0x1_0000_0000
    ensures U32(b, 0) == g.size && U32(b, 1) == g.logstart - g.first && U32(b, 2) == ninodes
    ensures U32(b, 3) == g.size - g.logstart
  {
    var b0 := ZeroBlock();
    StoreBytes(b0, 0, g.size);
    var b1 := WithWord(b0, 0, g.size);
    StoreBytes(b1, 1, g.logstart - g.first);
    var b2 := WithWord(b1, 1, g.logstart - g.first);
    StoreBytes(b2, 2, ninodes);
    var b3 := WithWord(b2, 2, ninodes);
    StoreBytes(b3, 3, g.size - g.logstart);
    WithWord(b3, 3, g.size - g.logstart)
  }

  /** The sectors of a new disk: all zero but for the superblock and the bitmap's, in which the first `used` blocks are
      marked. */
  function Formatted(g: Geo, ninodes: nat, used: nat): L.Image
    requires g.first <= g.logstart <= g.size <= 4096 && ninodes < 0x1_0000_0000 && used <= 4096
  {
    seq(g.size, s => NewSector(g, ninodes, used, s))
  }

  function NewSector(g: Geo, ninodes: nat, used: nat, s: int): Block
    requires g.first <= g.logstart <= g.size <= 4096 && ninodes < 0x1_0000_0000 && used <= 4096
  {
    if s == 1 then Super(g, ninodes) else if s == ninodes / 8 + 3 then Marked(used) else ZeroBlock()
  }

  /** There are fewer inodes than fill the sectors before the data. */
  lemma FewInodes(g: Geo, ninodes: nat)
    requires D.Laid(g, ninodes) && g.size <= 4096
    ensures ninodes < 32768 && 3 < g.first
  {
    assert D.BitmapSector(ninodes, 0) < g.first;
  }

  const NOFILE := Dinode(0, seq(NDIRECT + 1, _ => 0))

  lemma FormattedRepresents(g: Geo, ninodes: nat, used: nat, dinode: seq<Dinode>, bitmap: seq<bool>)
    requires D.Laid(g, ninodes) && used <= g.size <= 4096 && ninodes < 0x1_0000_0000
    requires |dinode| == ninodes && forall i :: 0 <= i < ninodes ==> dinode[i] == NOFILE
    requires |bitmap| == g.size && forall b :: 0 <= b < g.size ==> (bitmap[b] <==> b < used)
    ensures D.Represents(g, Formatted(g, ninodes, used), dinode, bitmap, Formatted(g, ninodes, used))
  {
    hide Marked, U32, D.BitAt, Super;
    FewInodes(g, ninodes);
    var disk := Formatted(g, ninodes, used);
    assert disk[1] == Super(g, ninodes);
    forall i: nat | i < ninodes ensures D.InodeSector(i) < g.first && D.InodeAt(disk, i, dinode[i]) {
      D.Sectors(g, ninodes, i, 0);
      assert disk[D.InodeSector(i)] == ZeroBlock();
    }
    forall b: nat | b < g.size ensures D.BitAt(disk[D.BitmapSector(ninodes, b)], b % 4096) == bitmap[b] {
      assert disk[D.BitmapSector(ninodes, b)] == Marked(used) && b % 4096 == b;
    }
  }

  lemma NoFilesBalance(g: Geo, dinode: seq<Dinode>, bitmap: seq<bool>, block: seq<Block>, inum: nat)
    requires Sized(g, dinode, block) && inum < |dinode| && forall i :: 0 <= i < |dinode| ==> dinode[i] == NOFILE
    requires |bitmap| == g.size && forall b :: 0 <= b < g.size ==> (bitmap[b] <==> b < g.first)
    ensures Blocks(0) == 0 && Addressed(dinode) && Balanced(g, dinode, block, bitmap, map[], inum, 0)
            && IndirectIf(dinode, inum, 0)
  {
    assert Blocks(0) == 0;
  }

  /** What `mkfs` leaves, before any file is added: the metadata blocks are marked and the others, the log's
      included, are not. Every inode of it is an empty file, and the accounts balance. */
  method Mkfs(g: Geo, ninodes: nat, inum: nat) returns (fs: FileSystem, ip: Inode)
    requires D.Laid(g, ninodes) && g.size <= 4096 && inum < ninodes
    ensures fs.g == g && fs.Synced(ip) && ip.inum == inum && ip.size == 0 && fs.Room(g.logstart - g.first)
    ensures |fs.image| == g.size && fs.base == fs.image && fs.ws == L.Nothing && fs.logged == {}
    ensures ninodes < 32768 && fs.image == Formatted(g, ninodes, g.first)
    ensures forall s: nat :: g.logstart <= s < g.size ==> fs.image[s] == ZeroBlock()
    ensures g.first > 3 && U32(fs.image[1], 0) == g.size && U32(fs.image[1], 1) == g.logstart - g.first
    ensures U32(fs.image[1], 2) == ninodes && U32(fs.image[1], 3) == g.size - g.logstart
  {
    FewInodes(g, ninodes);
    var dinode, bitmap := seq(ninodes, _ => NOFILE), seq(g.size, b => b < g.first);
    FormattedRepresents(g, ninodes, g.first, dinode, bitmap);
    AllFree(bitmap, g.first, g.logstart);
    NoFilesBalance(g, dinode, bitmap, Formatted(g, ninodes, g.first), inum);
    hide D.Represents, Formatted, FileSystem.Rep, Free, Balanced, Addressed;
    fs := new FileSystem(g, dinode, bitmap, Formatted(g, ninodes, g.first), map[], Formatted(g, ninodes, g.first));
    ip := new Inode(inum, NOFILE);
    assert fs.Table(ip) == dinode;
  }

  lemma {:induction false} AllFree(bitmap: seq<bool>, first: nat, n: nat)
    requires first <= n <= |bitmap| && forall b :: 0 <= b < n ==> (bitmap[b] <==> b < first)
    ensures Free(bitmap, n) == n - first
    decreases n
  {
    if n > first {
      AllFree(bitmap, first, n - 1);
    } else if n > 0 {
      NoneFree(bitmap, n);
    }
  }

  lemma {:induction false} NoneFree(bitmap: seq<bool>, n: nat)
    requires n <= |bitmap| && forall b :: 0 <= b < n ==> bitmap[b]
    ensures Free(bitmap, n) == 0
  {
    if n > 0 {
      NoneFree(bitmap, n - 1);
    }
  }

  /** The scan for a free block does run into the log: on any disk of that kind with every data block in use it
      returns the log's first sector. `was` is the bitmap before. */
  method AllocatesLogBlock(g: Geo, ninodes: nat) returns (fs: FileSystem, r: Option<nat>, ghost was: seq<bool>)
    requires D.Laid(g, ninodes) && g.logstart < g.size <= 4096
    ensures fs.g == g && |was| == g.size && forall b :: 0 <= b < g.logstart ==> was[b]
    ensures r == Some(g.logstart) && !was[g.logstart] && fs.bitmap == was[g.logstart := true]
  {
    fs := FullDisk(g, ninodes);
    hide FileSystem.Rep, D.Laid;
    was := fs.bitmap;
    assert !was[g.logstart];
    r := fs.Balloc();
  }

  method FullDisk(g: Geo, ninodes: nat) returns (fs: FileSystem)
    requires D.Laid(g, ninodes) && g.size <= 4096
    ensures fresh(fs) && fs.g == g && fs.Rep() && |fs.bitmap| == |fs.block| == g.size
    ensures forall b :: 0 <= b < g.size ==> (fs.bitmap[b] <==> b < g.logstart)
  {
    FewInodes(g, ninodes);
    FormattedSize(g, ninodes, g.logstart);
    var dinode, bitmap := seq(ninodes, _ => NOFILE), seq(g.size, b => b < g.logstart);
    FormattedRepresents(g, ninodes, g.logstart, dinode, bitmap);
    hide D.Represents, Formatted, FileSystem.Rep, D.Laid;
    var disk := Formatted(g, ninodes, g.logstart);
    fs := new FileSystem(g, dinode, bitmap, disk, map[], disk);
  }

  lemma FormattedSize(g: Geo, ninodes: nat, used: nat)
    requires g.first <= g.logstart <= g.size <= 4096 && ninodes < 0x1_0000_0000 && used <= 4096
    ensures |Formatted(g, ninodes, used)| == g.size
  {
  }
}
