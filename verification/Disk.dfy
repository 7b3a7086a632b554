/** Where inodes, bitmap and data blocks are on the disk, and what a crash leaves of them. */
module Disk {
  import opened Bytes
  import opened FsSpec
  import L = LogSpec

  /** IBLOCK: eight inodes to a sector, after the boot block and the superblock. */
  function InodeSector(i: nat): nat {
    i / 8 + 2
  }

  /** BBLOCK: 4096 bits to a sector, after the inodes. */
  function BitmapSector(ninodes: nat, b: nat): nat {
    b / 4096 + ninodes / 8 + 3
  }

  // ---- Bits ------------------------------------------------------------------------------------------

  function Power(n: nat): nat {
    if n == 0 then 1 else 2 * Power(n - 1)
  }

  /** Bit k of x. */
  predicate Bit(x: nat, k: nat) {
    if k == 0 then x % 2 == 1 else Bit(x / 2, k - 1)
  }

  /** x with bit k set or cleared. */
  function WithBit(x: nat, k: nat, v: bool): nat {
    if k == 0 then 2 * (x / 2) + (if v then 1 else 0) else 2 * WithBit(x / 2, k - 1, v) + x % 2
  }

  /** Setting or clearing a bit leaves the others. */
  lemma {:induction false} WithBitBits(x: nat, k: nat, v: bool, m: nat)
    ensures Bit(WithBit(x, k, v), m) == if m == k then v else Bit(x, m)
  {
    if k > 0 && m > 0 {
      WithBitBits(x / 2, k - 1, v, m - 1);
    }
  }

  lemma {:induction false} WithBitRange(x: nat, k: nat, v: bool, n: nat)
    requires k < n && x < Power(n)
    ensures WithBit(x, k, v) < Power(n)
  {
    if k > 0 {
      WithBitRange(x / 2, k - 1, v, n - 1);
    }
  }

  /** Bit j of a block, lowest bit of the first byte first. */
  predicate BitAt(b: Block, j: nat)
    requires j < 4096
  {
    Bit(b.bytes[j / 8], j % 8)
  }

  function PutBit(b: Block, j: nat, v: bool): (r: Block)
    requires j < 4096
    ensures BitAt(r, j) == v && forall i: nat :: i < 4096 && i != j ==> BitAt(r, i) == BitAt(b, i)
  {
    var x := b.bytes[j / 8];
    WithBitRange(x, j % 8, v, 8);
    var r: Block := Data(b.bytes[j / 8 := WithBit(x, j % 8, v)]);
    assert forall i: nat :: i < 4096 ==> BitAt(r, i) == if i == j then v else BitAt(b, i) by {
      forall i: nat | i < 4096 ensures BitAt(r, i) == if i == j then v else BitAt(b, i) {
        WithBitBits(x, j % 8, v, i % 8);
      }
    }
    r
  }

  // ---- Layout ------------------------------------------------------------------------------------------

  /** The sectors before the data blocks hold the inodes and the bitmap. */
  predicate Laid(g: Geo, ninodes: nat) {
    0 < g.first <= g.logstart <= g.size && forall b: nat :: b < g.size ==> BitmapSector(ninodes, b) < g.first
  }

  /** Inode i is at its place: after four shorts, the size and the thirteen addresses. */
  ghost predicate InodeAt(d: L.Image, i: nat, n: Dinode)
    requires InodeSector(i) < |d|
  {
    var s, w := d[InodeSector(i)], 16 * (i % 8) + 2;
    && |n.addrs| == NDIRECT + 1 && U32(s, w) == n.size
    && forall q: nat :: q <= NDIRECT ==> U32(s, w + 1 + q) == n.addrs[q]
  }

  /** The superblock: the size of the disk, and how many data blocks, inodes and log blocks there are. */
  ghost predicate SuperAt(b: Block, g: Geo, ninodes: nat) {
    && U32(b, 0) == g.size && U32(b, 1) == g.logstart - g.first && U32(b, 2) == ninodes
    && U32(b, 3) == g.size - g.logstart
  }

  /** The disk holds this file system. */
  ghost predicate Represents(g: Geo, d: L.Image, t: seq<Dinode>, bitmap: seq<bool>, block: seq<Block>) {
    && Laid(g, |t|) && |bitmap| == |block| == g.size <= |d| && 1 < g.first && SuperAt(d[1], g, |t|)
    && (forall i: nat :: i < |t| ==> InodeSector(i) < g.first && InodeAt(d, i, t[i]))
    && (forall b: nat :: b < g.size ==> BitAt(d[BitmapSector(|t|, b)], b % 4096) == bitmap[b])
    && (forall b: nat :: g.first <= b < g.logstart ==> d[b] == block[b])
  }

  lemma Sectors(g: Geo, ninodes: nat, i: nat, b: nat)
    requires Laid(g, ninodes) && i < ninodes && b < g.size
    ensures InodeSector(i) < BitmapSector(ninodes, b) < g.first
  {
  }

  lemma BitmapStep(g: Geo, d: L.Image, t: seq<Dinode>, bitmap: seq<bool>, block: seq<Block>, b: nat, v: bool)
    requires Represents(g, d, t, bitmap, block) && b < g.size
    ensures var s := BitmapSector(|t|, b);
            s < g.first && Represents(g, d[s := PutBit(d[s], b % 4096, v)], t, bitmap[b := v], block)
  {
    var s := BitmapSector(|t|, b);
    var d' := d[s := PutBit(d[s], b % 4096, v)];
    forall i: nat | i < |t| ensures InodeAt(d', i, t[i]) {
      Sectors(g, |t|, i, b);
    }
    forall c: nat | c < g.size ensures BitAt(d'[BitmapSector(|t|, c)], c % 4096) == bitmap[b := v][c] {
      if BitmapSector(|t|, c) == s && c != b {
        assert c % 4096 != b % 4096;
      }
    }
  }

  lemma BlockStep(g: Geo, d: L.Image, t: seq<Dinode>, bitmap: seq<bool>, block: seq<Block>, b: nat, data: Block)
    requires Represents(g, d, t, bitmap, block) && g.first <= b < g.logstart
    ensures Represents(g, d[b := data], t, bitmap, block[b := data])
  {
    var d' := d[b := data];
    forall i: nat | i < |t| ensures InodeAt(d', i, t[i]) {
    }
  }

  /** The sector of inode i after `iupdate`. */
  ghost function WithInode(s: Block, i: nat, n: Dinode): Block
    requires n.size < 0x1_0000_0000 && |n.addrs| == NDIRECT + 1
  {
    L.PutWords(s, 16 * (i % 8) + 2, [n.size] + n.addrs)
  }

  lemma InodeStep(g: Geo, d: L.Image, t: seq<Dinode>, bitmap: seq<bool>, block: seq<Block>, i: nat, n: Dinode)
    requires Represents(g, d, t, bitmap, block) && i < |t| && n.size < 0x1_0000_0000 && |n.addrs| == NDIRECT + 1
    ensures var s := InodeSector(i);
            s < g.first && Represents(g, d[s := WithInode(d[s], i, n)], t[i := n], bitmap, block)
  {
    var s := InodeSector(i);
    var d', t' := d[s := WithInode(d[s], i, n)], t[i := n];
    forall j: nat | j < |t| ensures InodeAt(d', j, t'[j]) {
      InodeWords(d[s], i, n, j);
      assert InodeAt(d, j, t[j]);
    }
    forall b: nat | b < g.size ensures d'[BitmapSector(|t|, b)] == d[BitmapSector(|t|, b)] {
      Sectors(g, |t|, i, b);
    }
  }

  lemma InodeWords(s: Block, i: nat, n: Dinode, j: nat)
    requires n.size < 0x1_0000_0000 && |n.addrs| == NDIRECT + 1
    ensures var r, w := WithInode(s, i, n), 16 * (j % 8) + 2;
            if i % 8 == j % 8 then U32(r, w) == n.size
                && forall q: nat :: q <= NDIRECT ==> U32(r, w + 1 + q) == n.addrs[q]
            else forall k: nat :: w <= k <= w + NDIRECT + 1 ==> U32(r, k) == U32(s, k)
  {
    hide U32;
    var r, w, vs := WithInode(s, i, n), 16 * (i % 8) + 2, [n.size] + n.addrs;
    if i % 8 == j % 8 {
      assert U32(r, w + 0) == vs[0];
      forall q: nat | q <= NDIRECT ensures U32(r, w + 1 + q) == n.addrs[q] {
        assert U32(r, w + (1 + q)) == vs[1 + q];
      }
    } else {
      Apart(i % 8, j % 8);
    }
  }

  lemma Apart(a: nat, b: nat)
    requires a < 8 && b < 8 && a != b
    ensures 16 * a + 16 <= 16 * b || 16 * b + 16 <= 16 * a
  {
  }

  /** A disk holds one file system: nothing about it is left open but the blocks outside the data area. */
  lemma Unambiguous(g: Geo, d: L.Image, t: seq<Dinode>, bitmap: seq<bool>, block: seq<Block>,
                    t': seq<Dinode>, bitmap': seq<bool>, block': seq<Block>)
    requires Represents(g, d, t, bitmap, block) && Represents(g, d, t', bitmap', block') && |t| == |t'|
    ensures t == t' && bitmap == bitmap' && forall b: nat :: g.first <= b < g.logstart ==> block[b] == block'[b]
  {
    forall i: nat | i < |t| ensures t[i] == t'[i] {
      assert InodeAt(d, i, t[i]) && InodeAt(d, i, t'[i]);
      assert t[i].addrs == t'[i].addrs;
    }
    forall b: nat | b < g.size ensures bitmap[b] == bitmap'[b] {
      assert BitAt(d[BitmapSector(|t|, b)], b % 4096) == bitmap[b];
    }
  }

  // ---- The file system, read straight from the sectors -------------------------------------------------

  lemma {:induction false} BitIs(x: nat, k: nat)
    requires k < 8
    ensures Bit(x, k) <==> x / [1, 2, 4, 8, 16, 32, 64, 128][k] % 2 == 1
  {
    if k > 0 {
      BitIs(x / 2, k - 1);
      assert x / 2 / 2 == x / 4 && x / 2 / 4 == x / 8 && x / 2 / 8 == x / 16;
      assert x / 2 / 16 == x / 32 && x / 2 / 32 == x / 64 && x / 2 / 64 == x / 128;
    }
  }

  /** Block b is in use just if its bit is 1: after the inodes, 4096 bits to a sector and eight to a byte, lowest
      first. */
  lemma BitmapOnDisk(g: Geo, d: L.Image, t: seq<Dinode>, bitmap: seq<bool>, block: seq<Block>, b: nat)
    requires Represents(g, d, t, bitmap, block) && b < g.size
    ensures b / 4096 + |t| / 8 + 3 < |d|
    ensures bitmap[b] <==>
            d[b / 4096 + |t| / 8 + 3].bytes[b % 4096 / 8] / [1, 2, 4, 8, 16, 32, 64, 128][b % 4096 % 8] % 2 == 1
  {
    assert BitmapSector(|t|, b) < g.first;
    BitIs(d[BitmapSector(|t|, b)].bytes[b % 4096 / 8], b % 4096 % 8);
  }

  lemma InodeOnDisk(g: Geo, d: L.Image, t: seq<Dinode>, bitmap: seq<bool>, block: seq<Block>, i: nat)
    requires Represents(g, d, t, bitmap, block) && i < |t|
    ensures i / 8 + 2 < |d| && |t[i].addrs| == 13 && U32(d[i / 8 + 2], 16 * (i % 8) + 2) == t[i].size
    ensures forall q: nat :: q <= 12 ==> U32(d[i / 8 + 2], 16 * (i % 8) + 3 + q) == t[i].addrs[q]
  {
    hide U32;
    assert InodeAt(d, i, t[i]);
  }

  lemma BlockOnDisk(g: Geo, d: L.Image, t: seq<Dinode>, bitmap: seq<bool>, block: seq<Block>, b: nat)
    requires Represents(g, d, t, bitmap, block) && g.first <= b < g.logstart
    ensures b < |d| && b < |block| && d[b] == block[b]
  {
  }

  lemma ByteOf(t: seq<Dinode>, block: seq<Block>, i: nat, pos: nat)
    requires i < |t| && Addressed(t) && pos < t[i].size && DataPtr(t, block, i, pos / 512) < |block|
    ensures Contents(t, block, i)[pos] == block[DataPtr(t, block, i, pos / 512)].bytes[pos % 512]
  {
    FileAt(t, block, i, t[i].size);
  }

  /** Inode i is the i % 8-th of sector i / 8 + 2, sixteen words long: the size in word 2, then twelve addresses of
      data blocks, and that of a block with the addresses of the rest. */
  lemma FileOnDisk(g: Geo, d: L.Image, t: seq<Dinode>, bitmap: seq<bool>, block: seq<Block>, owner: map<nat, Slot>,
                   i: nat, pos: nat)
    requires Represents(g, d, t, bitmap, block) && i < |t| && Addressed(t) && pos < t[i].size
    requires Balanced(g, t, block, bitmap, owner, i, Blocks(t[i].size))
    ensures i / 8 + 2 < |d|
    ensures var s, w, bn := d[i / 8 + 2], 16 * (i % 8) + 2, pos / 512;
            && t[i].size == U32(s, w)
            && (bn < 12 ==>
                  U32(s, w + 1 + bn) < |d| && Contents(t, block, i)[pos] == d[U32(s, w + 1 + bn)].bytes[pos % 512])
            && (bn >= 12 ==>
                  && bn < 140 && U32(s, w + 13) < |d| && U32(d[U32(s, w + 13)], bn - 12) < |d|
                  && Contents(t, block, i)[pos] == d[U32(d[U32(s, w + 13)], bn - 12)].bytes[pos % 512])
  {
    hide Represents, Balanced, DataPtr, Contents, U32, Addressed;
    InodeOnDisk(g, d, t, bitmap, block, i);
    PointsAtData(g, t, block, bitmap, owner, i, pos / 512);
    BlockOnDisk(g, d, t, bitmap, block, DataPtr(t, block, i, pos / 512));
    ByteOf(t, block, i, pos);
    if pos / 512 >= 12 {
      BlockOnDisk(g, d, t, bitmap, block, t[i].addrs[12]);
      assert U32(d[i / 8 + 2], 16 * (i % 8) + 3 + 12) == t[i].addrs[12];
    } else {
      assert U32(d[i / 8 + 2], 16 * (i % 8) + 3 + pos / 512) == t[i].addrs[pos / 512];
    }
  }

  lemma PointsAtData(g: Geo, t: seq<Dinode>, block: seq<Block>, bitmap: seq<bool>, owner: map<nat, Slot>, i: nat,
                     bn: nat)
    requires i < |t| && Balanced(g, t, block, bitmap, owner, i, Blocks(t[i].size)) && 512 * bn < t[i].size
    ensures bn < MAXFILE && g.first <= DataPtr(t, block, i, bn) < g.logstart
    ensures bn < NDIRECT ==> DataPtr(t, block, i, bn) == t[i].addrs[bn]
    ensures bn >= NDIRECT ==>
              g.first <= t[i].addrs[NDIRECT] < g.logstart
              && DataPtr(t, block, i, bn) == U32(block[t[i].addrs[NDIRECT]], bn - NDIRECT)
  {
    assert bn < Blocks(t[i].size) && IsSlot(t, DataSlot(i, bn)) && IsSlot(t, Slot(i, NDIRECT));
  }

  // ---- Transactions ------------------------------------------------------------------------------------

  /** The log area is at the end. */
  function LogArea(g: Geo): L.Layout
    requires g.logstart <= g.size
  {
    L.Layout(g.logstart, g.size - g.logstart)
  }

  lemma HomeDecides(g: Geo, d: L.Image, e: L.Image, t: seq<Dinode>, bitmap: seq<bool>, block: seq<Block>)
    requires Represents(g, d, t, bitmap, block) && L.SameHome(LogArea(g), d, e)
    ensures Represents(g, e, t, bitmap, block)
  {
    forall s: nat | s < g.logstart ensures d[s] == e[s] {
      assert L.Home(LogArea(g), s);
    }
    forall i: nat | i < |t| ensures InodeAt(e, i, t[i]) {
      assert InodeAt(d, i, t[i]);
    }
    forall b: nat | b < g.size ensures BitAt(e[BitmapSector(|t|, b)], b % 4096) == bitmap[b] {
      assert BitAt(d[BitmapSector(|t|, b)], b % 4096) == bitmap[b];
    }
  }

  /** A transaction that began on disk `base` has logged ws, in sectors of `logged`, never the superblock's, and made it
      `image`. */
  ghost predicate Journal(g: Geo, base: L.Image, image: L.Image, ws: L.Writes, logged: set<nat>) {
    && g.logstart <= g.size <= |base| && L.HomeWrites(LogArea(g), |base|, ws) && image == L.Apply(LogArea(g), base, ws)
    && forall s :: s in L.Logged(ws) ==> s in logged && s != 1
  }

  lemma JournalStep(g: Geo, base: L.Image, image: L.Image, ws: L.Writes, logged: set<nat>, s: nat, data: Block)
    requires Journal(g, base, image, ws, logged) && s < g.logstart && s != 1 && |base| <= 0x1_0000_0000
    ensures Journal(g, base, image[s := data], L.Then(ws, L.Write(s, data)), logged + {s})
  {
  }

  lemma {:induction false} ApplySameHome(l: L.Layout, d: L.Image, e: L.Image, ws: L.Writes)
    requires L.SameHome(l, d, e) && L.HomeWrites(l, |d|, ws)
    ensures L.SameHome(l, L.Apply(l, d, ws), L.Apply(l, e, ws))
  {
    if ws.Then? {
      ApplySameHome(l, d, e, ws.front);
    }
  }

  /** Crash safety of the file system. A transaction takes the file system from one state to another. Whenever
      the machine stops, and however often it stops again during recovery, the recovered disk holds the file
      system before the transaction or the one after it, by whether the commit header had been written. */
  lemma CrashSafe(g: Geo, base: L.Image, image: L.Image, ws: L.Writes, logged: set<nat>, t: seq<Dinode>,
                  bitmap: seq<bool>, block: seq<Block>, t': seq<Dinode>, bitmap': seq<bool>, block': seq<Block>,
                  disk: L.Image, i: nat, ds: seq<L.Image>)
    requires Journal(g, base, image, ws, logged)
    requires Represents(g, base, t, bitmap, block) && Represents(g, image, t', bitmap', block')
    requires L.SameHome(LogArea(g), base, disk) && L.Loggable(LogArea(g), disk, ws)
    requires i < |L.TransactionImages(LogArea(g), disk, ws)|
    requires L.CrashChain(LogArea(g), ds) && ds[0] == L.TransactionImages(LogArea(g), disk, ws)[i]
    ensures L.WellFormed(LogArea(g), ds[|ds| - 1])
    ensures var r := L.Recovered(LogArea(g), ds[|ds| - 1]);
            if i <= L.Count(ws) then Represents(g, r, t, bitmap, block) else Represents(g, r, t', bitmap', block')
  {
    var l, last := LogArea(g), ds[|ds| - 1];
    hide Represents, L.Recovered, L.TransactionImages, L.CrashChain, L.Apply;
    L.CrashAtomicity(l, disk, ws, i, ds);
    var r := L.Recovered(l, last);
    if i <= L.Count(ws) {
      HomeDecides(g, base, disk, t, bitmap, block);
      SameHomeBack(l, r, disk);
      HomeDecides(g, disk, r, t, bitmap, block);
    } else {
      ApplySameHome(l, base, disk, ws);
      HomeDecides(g, image, L.Apply(l, disk, ws), t', bitmap', block');
      SameHomeBack(l, r, L.Apply(l, disk, ws));
      HomeDecides(g, L.Apply(l, disk, ws), r, t', bitmap', block');
    }
  }

  lemma SameHomeBack(l: L.Layout, a: L.Image, b: L.Image)
    requires L.SameHome(l, a, b)
    ensures L.SameHome(l, b, a)
  {
  }
}
