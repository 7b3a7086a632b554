/** `filewrite` on an inode: a long write cut into transactions that each fit the log. */
module File {
  import opened Bytes
  import opened Finite
  import opened FsSpec
  import opened Fs
  import D = Disk
  import L = LogSpec
  import B = BufferCache
  import Log

  const CHUNK: nat := 1536 // ((LOGSIZE - 1 - 1 - 2) / 2) * 512, written 1536 where it divides

  /** Two writes, the second where the first ends, are one write. */
  lemma WroteTwice(t0: seq<Dinode>, block0: seq<Block>, t1: seq<Dinode>, block1: seq<Block>, t2: seq<Dinode>,
                   block2: seq<Block>, x: nat, off: nat, a: seq<byte>, b: seq<byte>)
    requires Wrote(t0, block0, t1, block1, x, off, a) && Wrote(t1, block1, t2, block2, x, off + |a|, b)
    ensures Wrote(t0, block0, t2, block2, x, off, a + b)
  {
  }

  /** A write of addr at off into file x, of size0 before, has got i bytes far. */
  ghost predicate Chunks(t0: seq<Dinode>, block0: seq<Block>, t: seq<Dinode>, block: seq<Block>, x: nat, off: nat,
                         size0: nat, size: nat, addr: seq<byte>, i: nat)
  {
    && i <= |addr|
    && if i == 0 then t == t0 && block == block0 && size == size0
       else WriteOk(size0, off, i) && size == Max(size0, off + i) && Wrote(t0, block0, t, block, x, off, addr[..i])
  }

  /** The file system with some beginning of the write in file x, and all else as it was. */
  ghost predicate Begun(t0: seq<Dinode>, block0: seq<Block>, t: seq<Dinode>, block: seq<Block>, x: nat, off: nat,
                        addr: seq<byte>, i: nat)
  {
    x < |t0| && x < |t| && Chunks(t0, block0, t, block, x, off, t0[x].size, t[x].size, addr, i)
  }

  lemma ChunksNext(t0: seq<Dinode>, block0: seq<Block>, t: seq<Dinode>, block: seq<Block>, t': seq<Dinode>,
                   block': seq<Block>, x: nat, off: nat, size0: nat, size: nat, size': nat, addr: seq<byte>, i: nat,
                   n: nat)
    requires Chunks(t0, block0, t, block, x, off, size0, size, addr, i) && 0 < n && i + n <= |addr|
    requires WriteOk(size, off + i, n) && Wrote(t, block, t', block', x, off + i, addr[i..i + n])
    requires size' == Max(size, off + i + n)
    ensures Chunks(t0, block0, t', block', x, off, size0, size', addr, i + n)
  {
    assert addr[..i] + addr[i..i + n] == addr[..i + n];
    if i > 0 {
      WroteTwice(t0, block0, t, block, t', block', x, off, addr[..i], addr[i..i + n]);
    }
  }

  /** What is left of the room for the whole write is enough for the next chunk. */
  lemma ChunkRoom(size0: nat, off0: nat, i: nat, n: nat, n1: nat)
    requires i + n1 <= n
    ensures var size := if i == 0 then size0 else Max(size0, off0 + i);
            WriteOk(size, off0 + i, n1) ==>
              Cost(Blocks(Max(size, off0 + i + n1))) <= Cost(Blocks(Max(size0, Min(off0 + n, MAXBYTES))))
  {
  }

  /** One chunk logs at most seven sectors: four data blocks, the indirect block, the bitmap, the inode. */
  lemma SevenSectors(fs: FileSystem, logs: set<nat>, addrs: seq<uint32>, inode: nat, touched: seq<nat>)
    requires fs.g.size <= BPB && fs.LoggedWithin(logs, addrs, {inode}, touched) && |touched| <= 4
    ensures |logs| <= 7
  {
    var all := touched + [inode, fs.BitmapSector(0), addrs[NDIRECT]];
    assert forall s :: s in logs ==> s in all;
    SubsetSize(logs, Elements(all));
    ElementsSize(all);
  }

  /** All but the inode's is at most six. */
  lemma SixSectors(fs: FileSystem, body: L.Writes, addrs: seq<uint32>, touched: seq<nat>)
    requires fs.g.size <= BPB && fs.LoggedWithin(LoggedSet(body), addrs, {}, touched) && |touched| <= 4
    ensures |L.Logged(body)| <= 6
  {
    var all := touched + [fs.BitmapSector(0), addrs[NDIRECT]];
    assert forall s :: s in LoggedSet(body) ==> s in all;
    SubsetSize(LoggedSet(body), Elements(all));
    ElementsSize(all);
    FewLogged(body, LoggedSet(body));
  }

  /** Since the inode's comes last, a log of eight sectors has room at each log_write: "too big a transaction" does not
      happen. */
  lemma ChunkAccepted(l: L.Layout, body: L.Writes, ws: L.Writes)
    requires |L.Logged(body)| <= 6 && l.size > 7 && (ws == body || OneMore(body, ws))
    ensures L.Accepted(l, ws)
  {
    L.FewAccepted(l, body);
  }

  /** One transaction: the disk it began on, what it logged, what that makes of the disk, and the file system, with its
      block accounts, before and after it. */
  datatype Txn = Txn(base: L.Image, ws: L.Writes, image: L.Image,
                     t: seq<Dinode>, bitmap: seq<bool>, block: seq<Block>, owner: map<nat, Slot>,
                     t': seq<Dinode>, bitmap': seq<bool>, block': seq<Block>, owner': map<nat, Slot>)

  /** Its writes take the disk that holds the one file system to the disk that holds the other, fit the log, and pass
      the test for room at each log_write. */
  ghost predicate Sound(g: Geo, x: Txn) {
    && D.Represents(g, x.base, x.t, x.bitmap, x.block) && D.Represents(g, x.image, x.t', x.bitmap', x.block')
    && L.HomeWrites(D.LogArea(g), |x.base|, x.ws) && x.image == L.Apply(D.LogArea(g), x.base, x.ws)
    && |x.base| <= 0x1_0000_0000 && |L.Logged(x.ws)| <= 7 && 1 !in L.Logged(x.ws)
         && (g.size - g.logstart > 7 ==> L.Accepted(D.LogArea(g), x.ws))
  }

  /** The block accounts balance before and after it. */
  ghost predicate Accounted(g: Geo, x: Txn, inum: nat) {
    && inum < |x.t| && Balanced(g, x.t, x.block, x.bitmap, x.owner, inum, Blocks(x.t[inum].size))
    && inum < |x.t'| && Balanced(g, x.t', x.block', x.bitmap', x.owner', inum, Blocks(x.t'[inum].size))
  }

  /** Both file systems have some beginning of the write. */
  ghost predicate InWrite(t0: seq<Dinode>, block0: seq<Block>, x: Txn, inum: nat, off: nat, addr: seq<byte>) {
    exists i: nat, j: nat :: i <= j && Begun(t0, block0, x.t, x.block, inum, off, addr, i)
        && Begun(t0, block0, x.t', x.block', inum, off, addr, j)
  }

  /** Each transaction begins on the disk that the one before it left. */
  ghost predicate Chained(xs: seq<Txn>, from: L.Image, to: L.Image) {
    if xs == [] then from == to else xs[|xs| - 1].image == to && Chained(xs[..|xs| - 1], from, xs[|xs| - 1].base)
  }

  lemma ChainedMore(xs: seq<Txn>, from: L.Image, to: L.Image, x: Txn)
    requires Chained(xs, from, to) && x.base == to
    ensures Chained(xs + [x], from, x.image)
  {
    assert (xs + [x])[..|xs|] == xs;
  }

  /** What a write leaves behind: transactions in a row, each sound if the bitmap is one sector, and each between
      two beginnings of the write. */
  ghost predicate Story(g: Geo, xs: seq<Txn>, t0: seq<Dinode>, block0: seq<Block>, inum: nat, off: nat, addr: seq<byte>,
                        from: L.Image, to: L.Image)
  {
    && Chained(xs, from, to)
    && forall k :: 0 <= k < |xs| ==>
         InWrite(t0, block0, xs[k], inum, off, addr) && Accounted(g, xs[k], inum) && (g.size <= BPB ==> Sound(g, xs[k]))
  }

  lemma StoryStarts(g: Geo, t0: seq<Dinode>, block0: seq<Block>, inum: nat, off: nat, addr: seq<byte>, at: L.Image)
    ensures Story(g, [], t0, block0, inum, off, addr, at, at)
  {
  }

  lemma StoryMore(g: Geo, xs: seq<Txn>, t0: seq<Dinode>, block0: seq<Block>, inum: nat, off: nat, addr: seq<byte>,
                  from: L.Image, to: L.Image, x: Txn)
    requires Story(g, xs, t0, block0, inum, off, addr, from, to) && x.base == to
    requires InWrite(t0, block0, x, inum, off, addr) && Accounted(g, x, inum) && (g.size <= BPB ==> Sound(g, x))
    ensures Story(g, xs + [x], t0, block0, inum, off, addr, from, x.image)
  {
    ChainedMore(xs, from, to, x);
  }

  lemma FewLogged(ws: L.Writes, logged: set<nat>)
    requires forall s :: s in L.Logged(ws) ==> s in logged
    ensures |L.Logged(ws)| <= |logged|
  {
    L.LoggedOnce(ws);
    ElementsDistinct(L.Logged(ws));
    assert forall s :: s in Elements(L.Logged(ws)) ==> s in logged;
    SubsetSize(Elements(L.Logged(ws)), logged);
  }

  /** The machine stopped after the i-th sector write of transaction x, and again during recoveries: ds are the disks
      that it found when it started again. */
  ghost predicate Crashed(g: Geo, x: Txn, disk: L.Image, i: nat, ds: seq<L.Image>)
    requires g.logstart <= g.size && L.Loggable(D.LogArea(g), disk, x.ws)
  {
    && L.CrashChain(D.LogArea(g), ds) && i < |L.TransactionImages(D.LogArea(g), disk, x.ws)|
    && ds[0] == L.TransactionImages(D.LogArea(g), disk, x.ws)[i]
  }

  /** The file system survives a crash at any point of such a transaction, and any number of crashes in the
      recoveries that follow: the recovered disk holds it as it was before that transaction, or as it is after. */
  lemma SurvivesCrash(g: Geo, x: Txn, disk: L.Image, i: nat, ds: seq<L.Image>)
    requires Sound(g, x) && g.size - g.logstart > 7
    requires L.SameHome(D.LogArea(g), x.base, disk) && L.HeaderN(D.LogArea(g), disk) == 0
    ensures L.Accepted(D.LogArea(g), x.ws) && L.Loggable(D.LogArea(g), disk, x.ws)
    ensures Crashed(g, x, disk, i, ds) ==>
              && L.WellFormed(D.LogArea(g), ds[|ds| - 1])
              && var r := L.Recovered(D.LogArea(g), ds[|ds| - 1]);
              if i <= L.Count(x.ws) then D.Represents(g, r, x.t, x.bitmap, x.block)
                  else D.Represents(g, r, x.t', x.bitmap', x.block')
  {
    assert L.Loggable(D.LogArea(g), disk, x.ws);
    if Crashed(g, x, disk, i, ds) {
      assert D.Journal(g, x.base, x.image, x.ws, Elements(L.Logged(x.ws)));
      D.CrashSafe(g, x.base, x.image, x.ws, Elements(L.Logged(x.ws)), x.t, x.bitmap, x.block, x.t', x.bitmap', x.block',
                  disk, i, ds);
    }
  }

  /** Whenever the machine stops during a long write, and however often again while it recovers, the disk that
      recovery leaves holds a file system in which the file has some beginning of the write, all else is as it was, and
      the block accounts balance. */
  lemma CrashDuringWrite(g: Geo, xs: seq<Txn>, t0: seq<Dinode>, block0: seq<Block>, inum: nat, off: nat,
                         addr: seq<byte>, from: L.Image, to: L.Image, k: nat, disk: L.Image, i: nat, ds: seq<L.Image>)
    returns (t: seq<Dinode>, bitmap: seq<bool>, block: seq<Block>, owner: map<nat, Slot>, m: nat)
    requires Story(g, xs, t0, block0, inum, off, addr, from, to) && k < |xs| && g.size <= BPB
             && g.logstart + 7 < g.size <= |disk|
    requires L.SameHome(D.LogArea(g), xs[k].base, disk) && L.HeaderN(D.LogArea(g), disk) == 0
    ensures Begun(t0, block0, t, block, inum, off, addr, m) && L.Loggable(D.LogArea(g), disk, xs[k].ws)
    ensures inum < |t| && Balanced(g, t, block, bitmap, owner, inum, Blocks(t[inum].size))
    ensures Crashed(g, xs[k], disk, i, ds) ==>
              L.WellFormed(D.LogArea(g), ds[|ds| - 1])
                  && D.Represents(g, L.Recovered(D.LogArea(g), ds[|ds| - 1]), t, bitmap, block)
  {
    var x := xs[k];
    assert InWrite(t0, block0, x, inum, off, addr) && Accounted(g, x, inum) && Sound(g, x);
    var a: nat, b: nat :| a <= b && Begun(t0, block0, x.t, x.block, inum, off, addr, a)
        && Begun(t0, block0, x.t', x.block', inum, off, addr, b);
    hide Story, InWrite, Sound, Begun, Crashed, Balanced, D.Represents, L.Recovered;
    SurvivesCrash(g, x, disk, i, ds);
    if i <= L.Count(x.ws) {
      t, bitmap, block, owner, m := x.t, x.bitmap, x.block, x.owner, a;
    } else {
      t, bitmap, block, owner, m := x.t', x.bitmap', x.block', x.owner', b;
    }
  }

  /** The log's own code on such a transaction: its preconditions hold, so that no `log_write` and no `bget` panics, the
      disk ends with the file system after it, and the disks on the way are those that a crash is considered at. */
  method Commit(log: Log.Log, g: Geo, x: Txn)
    requires Sound(g, x) && g.size - g.logstart > 7 && log.Valid() && !log.busy && B.NoneBusy(log.cache.buf[..])
    requires log.l == D.LogArea(g) && L.SameHome(log.l, x.base, log.cache.disk)
    modifies log`n, log`busy, log`ws, log`base, log`earlier, log.sector, log.cache, log.cache.buf, log.cache.link
    ensures log.Valid() && !log.busy && B.NoneBusy(log.cache.buf[..])
    ensures L.SameHome(log.l, x.image, log.cache.disk) && D.Represents(g, log.cache.disk, x.t', x.bitmap', x.block')
    ensures L.Loggable(log.l, old(log.cache.disk), x.ws)
    ensures log.cache.trace == old(log.cache.trace) + SectorWrites(log.l, old(log.cache.disk), x.ws)
  {
    hide Log.Log.Valid, Sound, L.Apply, L.LogImages, L.CommitImages, L.TransactionImages, D.Represents, L.SameHome;
    SoundFits(g, x, log.cache.disk);
    log.Transaction(x.ws);
    SoundDone(g, x, old(log.cache.disk), log.cache.disk);
    L.AfterFirst(log.l, old(log.cache.disk), x.ws, old(log.cache.trace));
    L.NothingWritten(log.l, old(log.cache.disk));
  }

  lemma SoundFits(g: Geo, x: Txn, disk: L.Image)
    requires Sound(g, x) && g.size - g.logstart > 7 && L.SameHome(D.LogArea(g), x.base, disk)
    ensures L.HomeWrites(D.LogArea(g), |disk|, x.ws) && L.Accepted(D.LogArea(g), x.ws) && |L.Logged(x.ws)| < B.NBUF
  {
  }

  lemma SoundDone(g: Geo, x: Txn, disk: L.Image, disk': L.Image)
    requires Sound(g, x) && L.SameHome(D.LogArea(g), x.base, disk) && L.HomeWrites(D.LogArea(g), |disk|, x.ws)
    requires L.SameHome(D.LogArea(g), disk', L.Apply(D.LogArea(g), disk, x.ws))
    ensures L.SameHome(D.LogArea(g), x.image, disk') && D.Represents(g, disk', x.t', x.bitmap', x.block')
  {
    var l := D.LogArea(g);
    hide D.Represents, L.Apply;
    D.ApplySameHome(l, x.base, disk, x.ws);
    D.SameHomeBack(l, disk', L.Apply(l, disk, x.ws));
    D.HomeDecides(g, x.image, disk', x.t', x.bitmap', x.block');
  }

  /** The transactions xs can be committed one after the other, the k-th on disks[k]. */
  ghost predicate Committable(l: L.Layout, disks: seq<L.Image>, xs: seq<Txn>) {
    && |disks| == |xs| + 1
    && forall k :: 0 <= k < |xs| ==> L.SameHome(l, xs[k].base, disks[k]) && L.Loggable(l, disks[k], xs[k].ws)
  }

  /** The disks that the sector writes of one transaction make: none if it has logged nothing. */
  ghost function SectorWrites(l: L.Layout, disk: L.Image, ws: L.Writes): seq<L.Image>
    requires L.Loggable(l, disk, ws)
  {
    if ws == L.Nothing then [] else L.TransactionImages(l, disk, ws)[1..]
  }

  /** And those of the first n. */
  ghost function AllWrites(l: L.Layout, disks: seq<L.Image>, xs: seq<Txn>, n: nat): seq<L.Image>
    requires Committable(l, disks, xs) && n <= |xs|
  {
    if n == 0 then [] else AllWrites(l, disks, xs, n - 1) + SectorWrites(l, disks[n - 1], xs[n - 1].ws)
  }

  lemma {:induction false} AllWritesFront(l: L.Layout, disks: seq<L.Image>, xs: seq<Txn>, d: L.Image, x: Txn, n: nat)
    requires Committable(l, disks, xs) && Committable(l, disks + [d], xs + [x]) && n <= |xs|
    ensures AllWrites(l, disks + [d], xs + [x], n) == AllWrites(l, disks, xs, n)
  {
    hide L.Loggable, L.SameHome, SectorWrites;
    if n > 0 {
      AllWritesFront(l, disks, xs, d, x, n - 1);
    }
  }

  /** Each of them is a disk of some transaction. */
  lemma {:induction false} WriteOf(l: L.Layout, disks: seq<L.Image>, xs: seq<Txn>, n: nat, j: nat)
      returns (k: nat, i: nat)
    requires Committable(l, disks, xs) && n <= |xs| && j < |AllWrites(l, disks, xs, n)|
    ensures k < n && i < |L.TransactionImages(l, disks[k], xs[k].ws)|
    ensures AllWrites(l, disks, xs, n)[j] == L.TransactionImages(l, disks[k], xs[k].ws)[i]
  {
    hide L.TransactionImages, L.Loggable, L.SameHome;
    var front := AllWrites(l, disks, xs, n - 1);
    if j < |front| {
      k, i := WriteOf(l, disks, xs, n - 1, j);
    } else {
      k, i := n - 1, j - |front| + 1;
      var last := SectorWrites(l, disks[k], xs[k].ws);
      assert AllWrites(l, disks, xs, n) == front + last && (front + last)[j] == last[j - |front|];
    }
  }

  lemma MoreCommitted(l: L.Layout, disks: seq<L.Image>, xs: seq<Txn>, x: Txn, d: L.Image)
    requires Committable(l, disks, xs) && L.SameHome(l, x.base, disks[|xs|]) && L.Loggable(l, disks[|xs|], x.ws)
    ensures Committable(l, disks + [d], xs + [x])
    ensures AllWrites(l, disks + [d], xs + [x], |xs| + 1) == AllWrites(l, disks, xs, |xs|)
            + SectorWrites(l, disks[|xs|], x.ws)
  {
    hide L.Loggable, L.SameHome, SectorWrites;
    assert Committable(l, disks + [d], xs + [x]);
    AllWritesFront(l, disks, xs, d, x, |xs|);
  }

  lemma NothingCommitted(l: L.Layout, d: L.Image)
    ensures Committable(l, [d], []) && AllWrites(l, [d], [], 0) == []
  {
  }

  /** The log's code on all the transactions of a write, one after the other: the disk passes through their sector
      writes and no others, and ends with all of them. */
  method CommitAll(log: Log.Log, g: Geo, xs: seq<Txn>, ghost from: L.Image, ghost to: L.Image)
      returns (ghost disks: seq<L.Image>)
    requires Chained(xs, from, to) && (forall k :: 0 <= k < |xs| ==> Sound(g, xs[k])) && 7 < g.size - g.logstart
    requires log.Valid() && !log.busy && B.NoneBusy(log.cache.buf[..])
    requires log.l == D.LogArea(g) && L.SameHome(log.l, from, log.cache.disk)
    modifies log`n, log`busy, log`ws, log`base, log`earlier, log.sector, log.cache, log.cache.buf, log.cache.link
    ensures log.Valid() && !log.busy && B.NoneBusy(log.cache.buf[..]) && L.SameHome(log.l, to, log.cache.disk)
    ensures |disks| == |xs| + 1 && Committable(log.l, disks, xs) && disks[0] == old(log.cache.disk)
            && disks[|xs|] == log.cache.disk
    ensures log.cache.trace == old(log.cache.trace) + AllWrites(log.l, disks, xs, |xs|)
    decreases |xs|
  {
    hide Log.Log.Valid, Sound, L.SameHome, L.Loggable, L.TransactionImages, SectorWrites, Committable, D.Represents;
    disks := [log.cache.disk];
    NothingCommitted(log.l, log.cache.disk);
    if xs != [] {
      var n := |xs| - 1;
      disks := CommitAll(log, g, xs[..n], from, xs[n].base);
      Commit(log, g, xs[n]);
      MoreCommitted(log.l, disks, xs[..n], xs[n], log.cache.disk);
      disks := disks + [log.cache.disk];
      assert xs[..n] + [xs[n]] == xs;
    }
  }

  /** The disk holds a file system in which the file has some beginning of the write, all else is as it was, and the
      block accounts balance. */
  ghost predicate HoldsBeginning(g: Geo, d: L.Image, t0: seq<Dinode>, block0: seq<Block>, inum: nat, off: nat,
                                 addr: seq<byte>)
  {
    exists t: seq<Dinode>, bitmap, block, owner, m: nat ::
      && D.Represents(g, d, t, bitmap, block) && Begun(t0, block0, t, block, inum, off, addr, m)
      && Balanced(g, t, block, bitmap, owner, inum, Blocks(t[inum].size))
  }

  /** The machine may stop after any of these sector writes. */
  lemma CrashAnywhere(g: Geo, xs: seq<Txn>, t0: seq<Dinode>, block0: seq<Block>, inum: nat, off: nat, addr: seq<byte>,
                      from: L.Image, to: L.Image, disks: seq<L.Image>, j: nat, ds: seq<L.Image>)
    requires Story(g, xs, t0, block0, inum, off, addr, from, to) && g.size <= BPB && g.logstart + 7 < g.size
    requires Committable(D.LogArea(g), disks, xs) && j < |AllWrites(D.LogArea(g), disks, xs, |xs|)|
    requires StartsAt(D.LogArea(g), ds, AllWrites(D.LogArea(g), disks, xs, |xs|)[j])
    ensures Survives(g, ds, t0, block0, inum, off, addr)
  {
    var l := D.LogArea(g);
    hide Story, L.SameHome, L.TransactionImages, L.CrashChain, L.Recovered, D.Represents, Begun, Balanced;
    var k, i := WriteOf(l, disks, xs, |xs|, j);
    var t, bitmap, block, owner, m := CrashDuringWrite(g, xs, t0, block0, inum, off, addr, from, to, k, disks[k], i,
                                                       ds);
    assert Crashed(g, xs[k], disks[k], i, ds);
    StoryParts(g, xs, t0, block0, inum, off, addr, from, to);
    CrashFindsLog(g, xs[k], disks[k], i, ds);
    assert D.Represents(g, L.Recovered(l, ds[|ds| - 1]), t, bitmap, block);
  }

  /** The file system and the log together: committing what a write has logged, the machine may stop after any sector
      write, and again during any number of recoveries, and the recovered disk holds some beginning of the write. */
  method CommitWrite(log: Log.Log, g: Geo, xs: seq<Txn>, ghost t0: seq<Dinode>, ghost block0: seq<Block>,
                     ghost inum: nat, ghost off: nat, ghost addr: seq<byte>, ghost from: L.Image, ghost to: L.Image)
      returns (ghost images: seq<L.Image>)
    requires Story(g, xs, t0, block0, inum, off, addr, from, to) && g.size <= BPB && g.logstart + 7 < g.size
    requires log.Valid() && !log.busy && B.NoneBusy(log.cache.buf[..])
    requires log.l == D.LogArea(g) && L.SameHome(log.l, from, log.cache.disk)
    modifies log`n, log`busy, log`ws, log`base, log`earlier, log.sector, log.cache, log.cache.buf, log.cache.link
    ensures log.Valid() && !log.busy && B.NoneBusy(log.cache.buf[..]) && L.SameHome(log.l, to, log.cache.disk)
    ensures log.cache.trace == old(log.cache.trace) + images && Recoverable(g, images, t0, block0, inum, off, addr)
  {
    StoryParts(g, xs, t0, block0, inum, off, addr, from, to);
    hide Story, Sound, Chained, Log.Log.Valid, L.SameHome, Committable, Recoverable;
    ghost var disks := CommitAll(log, g, xs, from, to);
    images := AllWrites(log.l, disks, xs, |xs|);
    AllRecover(g, xs, t0, block0, inum, off, addr, from, to, disks);
  }

  lemma AllRecover(g: Geo, xs: seq<Txn>, t0: seq<Dinode>, block0: seq<Block>, inum: nat, off: nat, addr: seq<byte>,
                   from: L.Image, to: L.Image, disks: seq<L.Image>)
    requires Story(g, xs, t0, block0, inum, off, addr, from, to) && g.size <= BPB && g.logstart + 7 < g.size
    requires Committable(D.LogArea(g), disks, xs)
    ensures Recoverable(g, AllWrites(D.LogArea(g), disks, xs, |xs|), t0, block0, inum, off, addr)
  {
    hide Story, Survives, StartsAt, Committable, AllWrites;
    var l := D.LogArea(g);
    var images := AllWrites(l, disks, xs, |xs|);
    forall j: nat, ds | j < |images| && StartsAt(l, ds, images[j])
        ensures Survives(g, ds, t0, block0, inum, off, addr)
    {
      CrashAnywhere(g, xs, t0, block0, inum, off, addr, from, to, disks, j, ds);
    }
  }

  /** `initlog` on this disk looks for the log where it is. */
  ghost predicate FindsLog(g: Geo, d: L.Image) {
    && g.logstart <= g.size && |d| > 1 && Log.SuperLog(d[1]) <= Log.SuperSize(d[1])
    && Log.LayoutOf(d) == D.LogArea(g)
  }

  lemma SuperFindsLog(g: Geo, d: L.Image, ninodes: nat)
    requires g.logstart <= g.size && |d| > 1 && D.SuperAt(d[1], g, ninodes)
    ensures FindsLog(g, d)
  {
  }

  /** Whenever the machine stops, the superblock is what it was, and the log is found again. */
  lemma CrashFindsLog(g: Geo, x: Txn, disk: L.Image, i: nat, ds: seq<L.Image>)
    requires Sound(g, x) && g.logstart <= g.size && L.SameHome(D.LogArea(g), x.base, disk)
    requires L.Loggable(D.LogArea(g), disk, x.ws) && Crashed(g, x, disk, i, ds)
    ensures FindsLog(g, ds[|ds| - 1])
  {
    var l := D.LogArea(g);
    assert L.Home(l, 1) && 1 < |disk| && disk[1] == x.base[1] && D.SuperAt(disk[1], g, |x.t|);
    hide D.Represents, L.TransactionImages, L.Recovered, L.SameHome, L.CrashStep;
    L.LeftAlone(l, disk, x.ws, i, ds, 1);
    SuperFindsLog(g, ds[|ds| - 1], |x.t|);
  }

  /** Starting the machine on a disk: the log is found through the superblock and recovered. */
  method Start(g: Geo, disk: L.Image) returns (log: Log.Log)
    requires FindsLog(g, disk) && L.WellFormed(D.LogArea(g), disk)
    ensures fresh(log) && fresh(log.sector) && fresh(log.cache) && fresh(log.cache.buf) && fresh(log.cache.link)
    ensures log.Valid() && !log.busy && B.NoneBusy(log.cache.buf[..]) && log.l == D.LogArea(g)
    ensures log.cache.disk == L.Recovered(log.l, disk)
  {
    hide Log.Log.Valid, L.WellFormed, L.Recovered, L.RecoveryImages;
    var cache := new B.Cache(disk);
    log := new Log.Log(cache);
    log.InitLog();
  }

  /** The first boot from a new disk: the log and the file system agree, so that a write can be committed. */
  method Boot(g: Geo, ninodes: nat, inum: nat) returns (log: Log.Log, fs: FileSystem, ip: Inode)
    requires D.Laid(g, ninodes) && g.logstart < g.size <= 4096 && inum < ninodes
    ensures log.Valid() && !log.busy && B.NoneBusy(log.cache.buf[..]) && log.l == D.LogArea(g)
    ensures fs.g == g && fs.Synced(ip) && ip.inum == inum && ip.size == 0 && fs.Room(g.logstart - g.first)
    ensures L.SameHome(log.l, fs.image, log.cache.disk)
  {
    fs, ip := Mkfs(g, ninodes, inum);
    var disk := Formatted(g, ninodes, g.first);
    NewDiskFinds(g, disk, ninodes);
    hide Log.Log.Valid, L.WellFormed, L.Recovered, L.SameHome, FileSystem.Synced, FindsLog, Formatted, D.Laid;
    log := Start(g, disk);
  }

  lemma NewDiskFinds(g: Geo, d: L.Image, ninodes: nat)
    requires g.logstart < g.size == |d| <= 4096 && 1 < g.logstart && D.SuperAt(d[1], g, ninodes)
    requires forall s: nat :: g.logstart <= s < g.size ==> d[s] == ZeroBlock()
    ensures FindsLog(g, d) && L.WellFormed(D.LogArea(g), d) && L.SameHome(D.LogArea(g), d, L.Recovered(D.LogArea(g), d))
  {
    SuperFindsLog(g, d, ninodes);
  }

  /** After the last of these crashes the log is found, and recovering gives a disk that holds some beginning of the
      write. */
  ghost predicate Survives(g: Geo, ds: seq<L.Image>, t0: seq<Dinode>, block0: seq<Block>, inum: nat, off: nat,
                           addr: seq<byte>)
  {
    && g.logstart <= g.size && |ds| > 0 && FindsLog(g, ds[|ds| - 1]) && L.WellFormed(D.LogArea(g), ds[|ds| - 1])
    && HoldsBeginning(g, L.Recovered(D.LogArea(g), ds[|ds| - 1]), t0, block0, inum, off, addr)
  }

  /** A first crash left disk d, and others during recovery the rest of ds. */
  ghost predicate StartsAt(l: L.Layout, ds: seq<L.Image>, d: L.Image) {
    |ds| > 0 && L.CrashChain(l, ds) && ds[0] == d
  }

  /** So it is from every one of these disks. */
  ghost predicate Recoverable(g: Geo, images: seq<L.Image>, t0: seq<Dinode>, block0: seq<Block>, inum: nat, off: nat,
                              addr: seq<byte>)
    requires g.logstart <= g.size
  {
    forall j: nat, ds :: j < |images| && StartsAt(D.LogArea(g), ds, images[j]) ==>
        Survives(g, ds, t0, block0, inum, off, addr)
  }

  lemma StoryParts(g: Geo, xs: seq<Txn>, t0: seq<Dinode>, block0: seq<Block>, inum: nat, off: nat, addr: seq<byte>,
                   from: L.Image, to: L.Image)
    requires Story(g, xs, t0, block0, inum, off, addr, from, to) && g.size <= BPB
    ensures Chained(xs, from, to) && forall k :: 0 <= k < |xs| ==> Sound(g, xs[k])
  {
  }

  class Writer {
    const fs: FileSystem
    const ip: Inode
    var off: nat // f->off
    ghost var largest: nat // the most sectors any transaction has logged
    ghost var history: seq<Txn> // the transactions so far

    constructor (fs: FileSystem, ip: Inode, off: nat)
      ensures this.fs == fs && this.ip == ip && this.off == off && largest == 0 && history == []
    {
      this.fs, this.ip, this.off, largest, history := fs, ip, off, 0, [];
    }

    /** The transaction that took the file system to where it is. */
    ghost function Last(t: seq<Dinode>, bitmap: seq<bool>, block: seq<Block>, owner: map<nat, Slot>): Txn
      reads fs
    {
      Txn(fs.base, fs.ws, fs.image, t, bitmap, block, owner, fs.dinode, fs.bitmap, fs.block, fs.owner)
    }

    /** begin_trans: what is there now is the disk. */
    method Begin()
      requires fs.Synced(ip)
      modifies fs`logged, fs`base, fs`ws
      ensures fs.Synced(ip) && fs.logged == {} && fs.base == fs.image && fs.ws == L.Nothing
    {
      fs.logged, fs.base, fs.ws := {}, fs.image, L.Nothing;
    }

    /** begin_trans, writei, advance the offset, commit_trans. */
    method WriteChunk(data: seq<byte>) returns (r: int)
      requires fs.Synced(ip) && off < 0x1_0000_0000 && |data| <= CHUNK
      requires WriteOk(ip.size, off, |data|) ==>
                 fs.Room(Cost(Blocks(Max(ip.size, off + |data|))) - Cost(Blocks(ip.size)))
      modifies this, fs, ip
      ensures fs.Synced(ip) && |fs.dinode| == |old(fs.dinode)|
      ensures r == if WriteOk(old(ip.size), old(off), |data|) then |data| else -1
      ensures r == -1 ==>
              off == old(off) && ip.size == old(ip.size) && fs.dinode == old(fs.dinode) && fs.block == old(fs.block)
      ensures r >= 0 ==> off == old(off) + |data| && ip.size == Max(old(ip.size), off)
                         && Wrote(old(fs.dinode), old(fs.block), fs.dinode, fs.block, ip.inum, old(off), data)
      ensures Free(fs.bitmap, fs.g.logstart) == Free(old(fs.bitmap), fs.g.logstart)
              + Cost(Blocks(old(ip.size))) - Cost(Blocks(ip.size))
      ensures fs.g.size <= BPB ==> largest <= Max(old(largest), 7)
      ensures history == old(history) + [Last(old(fs.dinode), old(fs.bitmap), old(fs.block), old(fs.owner))]
              && fs.base == old(fs.image)
      ensures Accounted(fs.g, Last(old(fs.dinode), old(fs.bitmap), old(fs.block), old(fs.owner)), ip.inum)
      ensures fs.g.size <= BPB ==> Sound(fs.g, Last(old(fs.dinode), old(fs.bitmap), old(fs.block), old(fs.owner)))
    {
      hide D.Represents, Cost, Blocks, LoggedSet, L.Accepted, Balanced;
      assert fs.dinode == fs.Table(ip);
      Begin();
      ghost var touched, body;
      r, touched, body := fs.Writei(ip, data, off);
      if r > 0 {
        off := off + r;
      }
      if fs.g.size <= BPB {
        SevenSectors(fs, fs.logged, ip.addrs, fs.InodeSector(ip.inum), touched);
        FewLogged(fs.ws, fs.logged);
        SixSectors(fs, body, ip.addrs, touched);
        if fs.g.size - fs.g.logstart > 7 {
          ChunkAccepted(D.LogArea(fs.g), body, fs.ws);
        }
      }
      assert fs.dinode == fs.Table(ip);
      history := history + [Last(old(fs.dinode), old(fs.bitmap), old(fs.block), old(fs.owner))];
      largest := Max(largest, |fs.logged|);
    }

    /** One round of the loop of `filewrite`. */
    method WriteNext(addr: seq<byte>, i: nat, n: nat, ghost off0: nat, ghost size0: nat, ghost t0: seq<Dinode>,
                     ghost block0: seq<Block>, ghost h0: nat, ghost image0: L.Image)
      returns (r: int)
      requires fs.Synced(ip) && Chunks(t0, block0, fs.dinode, fs.block, ip.inum, off0, size0, ip.size, addr, i)
      requires i < n <= |addr| < 0x8000_0000 && off == off0 + i < 0x1_0000_0000
      requires ip.inum < |t0| && size0 == t0[ip.inum].size && h0 <= |history|
      requires Story(fs.g, history[h0..], t0, block0, ip.inum, off0, addr, image0, fs.image)
      requires WriteOk(ip.size, off, Min(n - i, CHUNK)) ==>
                 fs.Room(Cost(Blocks(Max(size0, Min(off0 + n, MAXBYTES)))) - Cost(Blocks(ip.size)))
      modifies this, fs, ip
      ensures fs.Synced(ip)
      ensures r == if WriteOk(old(ip.size), old(off), Min(n - i, CHUNK)) then Min(n - i, CHUNK) else -1
      ensures r < 0 ==>
              off == old(off) && ip.size == old(ip.size) && fs.dinode == old(fs.dinode) && fs.block == old(fs.block)
      ensures r >= 0 ==>
              off == old(off) + r && Chunks(t0, block0, fs.dinode, fs.block, ip.inum, off0, size0, ip.size, addr, i + r)
      ensures Free(fs.bitmap, fs.g.logstart) == Free(old(fs.bitmap), fs.g.logstart)
              + Cost(Blocks(old(ip.size))) - Cost(Blocks(ip.size))
      ensures fs.g.size <= BPB ==> largest <= Max(old(largest), 7)
      ensures old(history) <= history && |history| > |old(history)|
      ensures Story(fs.g, history[h0..], t0, block0, ip.inum, off0, addr, image0, fs.image)
    {
      hide FileSystem.Valid, Addressed, Wrote, Free, Cost, Sound, Accounted, Story;
      var n1 := Min(n - i, CHUNK);
      ChunkRoom(size0, off0, i, n, n1);
      r := WriteChunk(addr[i..i + n1]);
      if r >= 0 {
        ChunksNext(t0, block0, old(fs.dinode), old(fs.block), fs.dinode, fs.block, ip.inum, off0, size0, old(ip.size),
                   ip.size, addr, i, n1);
      }
      ghost var x := Last(old(fs.dinode), old(fs.bitmap), old(fs.block), old(fs.owner));
      assert Begun(t0, block0, x.t, x.block, ip.inum, off0, addr, i);
      assert Begun(t0, block0, x.t', x.block', ip.inum, off0, addr, if r < 0 then i else i + r);
      StoryMore(fs.g, old(history[h0..]), t0, block0, ip.inum, off0, addr, image0, old(fs.image), x);
      assert history[h0..] == old(history[h0..]) + [x];
    }

    /** The loop of `filewrite`: it gets to the end, or to a chunk that does not fit. */
    method WriteAll(addr: seq<byte>, n: nat) returns (i: nat)
      requires fs.Synced(ip) && off < 0x8000_0000 && n <= |addr| < 0x8000_0000
      requires off <= ip.size && n > 0 ==>
                 fs.Room(Cost(Blocks(Max(ip.size, Min(off + n, MAXBYTES)))) - Cost(Blocks(ip.size)))
      modifies this, fs, ip
      ensures fs.Synced(ip) && i <= n && off == old(off) + i
      ensures i < n ==> i % 1536 == 0 && !WriteOk(ip.size, off, Min(n - i, CHUNK))
      ensures Chunks(old(fs.dinode), old(fs.block), fs.dinode, fs.block, ip.inum, old(off), old(ip.size), ip.size, addr,
                     i)
      ensures fs.g.size <= BPB ==> largest <= Max(old(largest), 7)
      ensures old(history) <= history && (n > 0 ==> |history| > |old(history)|)
      ensures Story(fs.g, history[|old(history)|..], old(fs.dinode), old(fs.block), ip.inum, old(off), addr,
                    old(fs.image), fs.image)
    {
      hide Blocks, Wrote, Free, Cost, AllMapped, Addressed, IndirectIf, Story, FileSystem.Rep;
      ghost var t0, block0, off0, size0, free0 := fs.dinode, fs.block, off, ip.size, Free(fs.bitmap, fs.g.logstart);
      i := 0;
      StoryStarts(fs.g, t0, block0, ip.inum, off0, addr, fs.image);
      assert history[|old(history)|..] == [];
      while i < n
        invariant i <= n && off == off0 + i && (i % 1536 == 0 || i == n)
        invariant fs.Synced(ip) && Chunks(t0, block0, fs.dinode, fs.block, ip.inum, off0, size0, ip.size, addr, i)
        invariant Free(fs.bitmap, fs.g.logstart) == free0 + Cost(Blocks(size0)) - Cost(Blocks(ip.size))
        invariant fs.g.size <= BPB ==> largest <= Max(old(largest), 7)
        invariant old(history) <= history && (i > 0 ==> |history| > |old(history)|)
        invariant Story(fs.g, history[|old(history)|..], t0, block0, ip.inum, off0, addr, old(fs.image), fs.image)
      {
        var r := WriteNext(addr, i, n, off0, size0, t0, block0, |old(history)|, old(fs.image));
        if r < 0 {
          return;
        }
        i := i + r;
      }
    }

    /** `filewrite`: it succeeds just if the whole write fits the largest file, and then it is one
        write of n bytes; if not, it has written the chunks before the first that does not fit. */
    method Filewrite(addr: seq<byte>, n: int) returns (r: int, ghost done: nat)
      requires fs.Synced(ip) && off < 0x8000_0000 && n <= |addr| < 0x8000_0000
      requires off <= ip.size && n > 0 ==>
                 fs.Room(Cost(Blocks(Max(ip.size, Min(off + n, MAXBYTES)))) - Cost(Blocks(ip.size)))
      modifies this, fs, ip
      ensures fs.Synced(ip)
      ensures r == if n == 0 || (n > 0 && WriteOk(old(ip.size), old(off), n)) then n else -1
      ensures off == old(off) + done && (r >= 0 ==> done == n)
      ensures Chunks(old(fs.dinode), old(fs.block), fs.dinode, fs.block, ip.inum, old(off), old(ip.size), ip.size, addr,
                     done)
      ensures r == -1 && n > 0 ==> done < n && done % 1536 == 0 && !WriteOk(ip.size, off, Min(n - done, CHUNK))
      ensures fs.g.size <= BPB ==> largest <= Max(old(largest), 7)
      ensures old(history) <= history && (n > 0 ==> |history| > |old(history)|)
      ensures Story(fs.g, history[|old(history)|..], old(fs.dinode), old(fs.block), ip.inum, old(off), addr,
                    old(fs.image), fs.image)
    {
      hide FileSystem.Synced, FileSystem.Room, Story, Wrote, Blocks, Cost;
      var i := 0;
      if n > 0 {
        i := WriteAll(addr, n);
      } else {
        StoryStarts(fs.g, fs.dinode, fs.block, ip.inum, off, addr, fs.image);
        assert history[|old(history)|..] == [];
      }
      return (if i == n then n else -1), i;
    }
  }
}
