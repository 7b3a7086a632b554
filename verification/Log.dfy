/** The redo log over the buffer cache: `log.c` step by step, against the images of LogSpec. */
module Log {
  import opened Bytes
  import opened Finite
  import opened LogSpec
  import opened BufferCache

  /** Only the given sectors have dirty buffers. */
  ghost predicate DirtyWithin(bufs: seq<Buf>, sectors: seq<uint32>) {
    forall i :: 0 <= i < |bufs| && bufs[i].dirty ==> bufs[i].dev == ROOTDEV && bufs[i].sector in sectors
  }

  ghost predicate AllPinned(bufs: seq<Buf>, sectors: seq<uint32>) {
    forall s :: s in sectors ==> Pinned(bufs, s)
  }

  /** Fewer dirty sectors than buffers leave a clean buffer. */
  lemma CleanBuffer(bufs: seq<Buf>, sectors: seq<uint32>)
    requires |bufs| == NBUF && Unique(bufs) && DirtyWithin(bufs, sectors) && |sectors| < NBUF
    ensures exists i :: 0 <= i < |bufs| && !bufs[i].dirty
  {
    if forall i :: 0 <= i < |bufs| ==> bufs[i].dirty {
      var cached := seq(NBUF, i requires 0 <= i < NBUF => bufs[i].sector);
      ElementsDistinct(cached);
      assert Elements(cached) <= Elements(sectors);
      SubsetSize(Elements(cached), Elements(sectors));
      ElementsSize(sectors);
    }
  }

  /** With nothing dirty, what has been written is on the disk. */
  lemma CleanView(bufs: seq<Buf>, disk: Image, view: Image)
    requires Coherent(bufs, disk, view) && NoneDirty(bufs)
    ensures view == disk
  {
  }

  /** In a transaction that started from disk `base` and has logged ws: the disk is `base` plus log
      blocks; what has been written is `base` plus the transaction; the pinned sectors are the
      logged ones; and the disk went through the images that LogSpec lists. */
  ghost predicate Logging(l: Layout, base: Image, ws: Writes, sectors: seq<uint32>, bufs: seq<Buf>,
                          disk: Image, view: Image, earlier: seq<Image>, trace: seq<Image>)
  {
    && Loggable(l, base, ws)
    && sectors == Logged(ws)
    && disk == LogImage(l, base, ws)
    && SameHome(l, view, Apply(l, base, ws))
    && DirtyWithin(bufs, sectors) && AllPinned(bufs, sectors)
    && trace == earlier + LogImages(l, base, ws)
  }

  /** Between transactions: nothing is logged and nothing is pinned. */
  lemma NothingLogged(l: Layout, disk: Image, bufs: seq<Buf>, view: Image, trace: seq<Image>)
    requires LayoutFits(l, |disk|) && HeaderN(l, disk) == 0 && NoneDirty(bufs) && view == disk
    ensures Logging(l, disk, Nothing, [], bufs, disk, view, trace, trace)
  {
    assert trace + [] == trace;
  }

  /** What has been written, after one more write of w and of its log block p. */
  lemma ViewGrows(l: Layout, base: Image, ws: Writes, w: Write, view: Image, p: nat)
    requires HomeWrites(l, |base|, Then(ws, w)) && SameHome(l, view, Apply(l, base, ws)) && p < |base| && !Home(l, p)
    ensures SameHome(l, view[p := w.data][w.sector := w.data], Apply(l, base, Then(ws, w)))
  {
  }

  lemma LoggableMore(l: Layout, base: Image, ws: Writes, w: Write)
    requires Loggable(l, base, ws) && |Logged(ws)| < LOGSIZE && |Logged(ws)| + 1 < l.size && w.sector < |base|
    requires Home(l, w.sector)
    ensures Loggable(l, base, Then(ws, w))
  {
  }

  /** One more `log_write` of buffer b. */
  lemma LoggingStep(l: Layout, base: Image, ws: Writes, sectors: seq<uint32>, bufs: seq<Buf>,
                    disk: Image, view: Image, earlier: seq<Image>, trace: seq<Image>,
                    b: nat, more: seq<uint32>, bufs': seq<Buf>, disk': Image, view': Image)
    requires Logging(l, base, ws, sectors, bufs, disk, view, earlier, trace)
    requires |sectors| < LOGSIZE && |sectors| + 1 < l.size
    requires |view| == |disk| && b < |bufs| && bufs[b].dev == ROOTDEV && bufs[b].sector < |disk|
             && Home(l, bufs[b].sector)
    requires more == if bufs[b].sector in sectors then sectors else sectors + [bufs[b].sector]
    requires Logs(bufs, bufs', b)
    requires disk' == disk[l.start + 1 + Slot(sectors, bufs[b].sector) := bufs[b].data]
    requires view' == view[l.start + 1 + Slot(sectors, bufs[b].sector) := bufs[b].data][bufs[b].sector := bufs[b].data]
    ensures Logging(l, base, Then(ws, Write(bufs[b].sector, bufs[b].data)), more, bufs', disk', view', earlier, trace
                    + [disk'])
  {
    hide U32, DirtyWithin, AllPinned, Logs, SameHome, Apply, HomeWrites, HeaderN;
    var w := Write(bufs[b].sector, bufs[b].data);
    PinsGrow(bufs, bufs', b, sectors, more);
    LoggableMore(l, base, ws, w);
    ViewGrows(l, base, ws, w, view, l.start + 1 + Slot(sectors, w.sector));
    assert LogImage(l, base, Then(ws, w)) == disk';
    assert (earlier + LogImages(l, base, ws)) + [disk'] == earlier + (LogImages(l, base, ws) + [disk']);
  }

  class Log {
    var l: Layout // `log.start` and `log.size`
    var busy: bool
    var n: nat
    const sector: array<uint32>
    const cache: Cache

    ghost var base: Image     // the disk before the transaction
    ghost var ws: Writes      // what the transaction has logged, in order
    ghost var earlier: seq<Image> // the trace before the transaction

    /** The in-memory state is well formed. */
    ghost predicate Shape()
      reads this, cache, cache.buf, cache.link
    {
      cache.Valid() && sector.Length == LOGSIZE && n <= LOGSIZE && LayoutFits(l, |cache.disk|)
    }

    ghost predicate Valid()
      reads this, sector, cache, cache.buf, cache.link
    {
      && Shape() && (!busy ==> ws == Nothing)
      && Logging(l, base, ws, sector[..n], cache.buf[..], cache.disk, cache.view, earlier, cache.trace)
    }

    /** The static `log` structure, all zero. */
    constructor (c: Cache)
      ensures cache == c && fresh(sector) && sector.Length == LOGSIZE && n == 0 && !busy && ws == Nothing
    {
      cache := c;
      sector := new uint32[LOGSIZE];
      busy, n, l := false, 0, Layout(0, 0);
      ws, base, earlier := Nothing, [], [];
    }

    /** `initlog`: find the log through the superblock and recover. */
    method InitLog()
      requires cache.Valid() && NoneBusy(cache.buf[..]) && NoneDirty(cache.buf[..])
      requires sector.Length == LOGSIZE && n == 0 && !busy && ws == Nothing
      requires |cache.disk| > 1 && SuperLog(cache.disk[1]) <= SuperSize(cache.disk[1])
      requires WellFormed(LayoutOf(cache.disk), cache.disk)
      modifies this, sector, cache, cache.buf, cache.link
      ensures Valid() && !busy && ws == Nothing
      ensures l == old(LayoutOf(cache.disk))
      ensures l == old(Layout(U32(cache.disk[1], 0) - U32(cache.disk[1], 3), U32(cache.disk[1], 3)))
      ensures Replayed(l, old(cache.disk), cache.disk)
      ensures cache.disk == Recovered(l, old(cache.disk)) && cache.view == cache.disk
      ensures cache.trace == old(cache.trace) + RecoveryImages(l, old(cache.disk))
      ensures NoneBusy(cache.buf[..])
    {
      hide Linked, Recovered, RecoveryImages, HeaderN;
      CleanView(cache.buf[..], cache.disk, cache.view);
      assert Recyclable(cache.buf[..][0]);
      var sb := cache.ReadSector(1);
      l := Layout(SuperSize(sb) - SuperLog(sb), SuperLog(sb));
      Recover();
      RecoveredIsClean(l, old(cache.disk));
      RecoveredReplays(l, old(cache.disk));
      base, earlier := cache.disk, cache.trace;
      assert sector[..n] == [];
    }

    /** Read the on-disk header into memory. */
    method ReadHead()
      requires Shape() && WellFormed(l, cache.disk) && NoneBusy(cache.buf[..]) && NoneDirty(cache.buf[..])
      modifies this`n, sector, cache, cache.buf, cache.link
      ensures Shape() && NoneBusy(cache.buf[..]) && NoneDirty(cache.buf[..])
      ensures cache.disk == old(cache.disk) && cache.trace == old(cache.trace)
      ensures HeaderLoaded(l, cache.disk, sector[..], n)
      ensures n == U32(cache.disk[l.start], 0)
              && forall i: nat :: i < n ==> sector[i] == U32(cache.disk[l.start], 1 + i)
    {
      CleanView(cache.buf[..], cache.disk, cache.view);
      assert Recyclable(cache.buf[..][0]);
      var data := cache.ReadSector(l.start);
      n := U32(data, 0);
      var i := 0;
      while i < n
        modifies sector
        invariant 0 <= i <= n
        invariant forall j: nat :: j < i ==> sector[j] == U32(data, 1 + j)
      {
        sector[i] := U32(data, 1 + i);
        i := i + 1;
      }
    }

    /** The header block `write_head` builds over the old one. */
    method EncodeHead(was: Block) returns (data: Block)
      requires sector.Length == LOGSIZE && n <= LOGSIZE
      ensures data == HeaderBlock(was, sector[..n])
      ensures U32(data, 0) == n && forall i: nat :: i < n ==> U32(data, 1 + i) == sector[i]
      ensures forall w: nat :: n < w < WORDS ==> U32(data, w) == U32(was, w)
    {
      hide U32;
      data := StoreU32(was, 0, n);
      var i := 0;
      while i < n
        invariant 0 <= i <= n
        invariant data == PutWords(PutU32(was, 0, n), 1, sector[..i])
      {
        data := StoreU32(data, 1 + i, sector[i]);
        assert sector[..i + 1][..i] == sector[..i];
        i := i + 1;
      }
    }

    /** Write the in-memory header to disk: one sector, and the point at which a transaction
        commits. */
    method WriteHead()
      requires Shape() && Available(cache.buf[..], l.start) && !Pinned(cache.buf[..], l.start)
      modifies cache, cache.buf, cache.link
      ensures Shape() && Kept(old(cache.buf[..]), cache.buf[..])
      ensures cache.disk == old(cache.disk[l.start := HeaderBlock(cache.view[l.start], sector[..n])])
      ensures cache.view == old(cache.view[l.start := HeaderBlock(cache.view[l.start], sector[..n])])
      ensures cache.trace == old(cache.trace) + [cache.disk]
    {
      var r := cache.Bread(ROOTDEV, l.start);
      var data := EncodeHead(cache.buf[r.b].data);
      cache.Fill(r.b, data);
      cache.Bwrite(r.b);
      cache.Brelse(r.b);
    }

    /** One round of `install_trans`. */
    method InstallOne(tail: nat)
      requires Shape() && tail < n && tail + 1 < l.size
      requires sector[tail] < |cache.disk| && forall k :: tail <= k < n ==> Home(l, sector[k])
      requires NoneBusy(cache.buf[..]) && InstallReady(cache.buf[..], sector[tail..n])
      modifies cache, cache.buf, cache.link
      ensures Shape()
      ensures NoneBusy(cache.buf[..]) && InstallReady(cache.buf[..], sector[tail + 1..n])
      ensures cache.disk == old(cache.disk[sector[tail] := cache.disk[l.start + tail + 1]])
      ensures cache.trace == old(cache.trace) + [cache.disk]
    {
      ghost var before, rest := cache.buf[..], sector[tail..n];
      LogBlockFree(l, before, cache.disk, cache.view, rest, l.start + tail + 1);
      assert rest[0] == sector[tail] && rest[1..] == sector[tail + 1..n];
      cache.CopySector(l.start + tail + 1, sector[tail]);
      StillReady(before, cache.buf[..], rest);
    }

    /** `install_trans` started from image d and has copied the first `tail` log blocks. */
    ghost predicate Installing(d: Image, earlier: seq<Image>, tail: nat)
      reads this, sector, cache, cache.buf, cache.link
    {
      && Shape() && WellFormed(l, d) && HeaderLoaded(l, d, sector[..], n) && tail <= n
      && NoneBusy(cache.buf[..]) && InstallReady(cache.buf[..], sector[tail..n])
      && cache.disk == Installed(l, d, tail)
      && cache.trace == earlier + InstallImages(l, d, tail)
    }

    method InstallNext(tail: nat, ghost d: Image, ghost earlier: seq<Image>)
      requires Installing(d, earlier, tail) && tail < n
      modifies cache, cache.buf, cache.link
      ensures Installing(d, earlier, tail + 1)
    {
      hide Cache.Valid, Installed, InstallImages, InstallReady;
      assert forall k: nat :: k < n ==> sector[k] == HeaderSector(l, d, k);
      ghost var before := cache.disk;
      InstallOne(tail);
      InstalledStep(l, d, tail, sector[tail], before, cache.disk);
    }

    /** Copy the committed log blocks to their home sectors, one sector write each. */
    method InstallTrans()
      requires Shape() && WellFormed(l, cache.disk) && HeaderLoaded(l, cache.disk, sector[..], n)
      requires NoneBusy(cache.buf[..]) && InstallReady(cache.buf[..], sector[..n])
      modifies cache, cache.buf, cache.link
      ensures Shape() && NoneBusy(cache.buf[..]) && NoneDirty(cache.buf[..])
      ensures cache.disk == Installed(l, old(cache.disk), n)
      ensures cache.trace == old(cache.trace) + InstallImages(l, old(cache.disk), n)
    {
      var tail := 0;
      while tail < n
        invariant Installing(old(cache.disk), old(cache.trace), tail)
      {
        InstallNext(tail, old(cache.disk), old(cache.trace));
        tail := tail + 1;
      }
    }

    /** `recover_from_log`: whatever the disk held, it ends as `Recovered` says, through the images
        that LogSpec lists. */
    method Recover()
      requires Shape() && WellFormed(l, cache.disk) && NoneBusy(cache.buf[..]) && NoneDirty(cache.buf[..])
      modifies this`n, sector, cache, cache.buf, cache.link
      ensures Shape() && n == 0 && NoneBusy(cache.buf[..]) && NoneDirty(cache.buf[..])
      ensures cache.disk == Recovered(l, old(cache.disk)) && cache.view == cache.disk
      ensures cache.trace == old(cache.trace) + RecoveryImages(l, old(cache.disk))
    {
      ReadHead();
      InstallAndErase();
    }

    /** The end of recovery and of a commit: install the logged blocks, then erase the log. */
    method InstallAndErase()
      requires Shape() && WellFormed(l, cache.disk) && HeaderLoaded(l, cache.disk, sector[..], n)
      requires NoneBusy(cache.buf[..]) && InstallReady(cache.buf[..], sector[..n])
      modifies this`n, cache, cache.buf, cache.link
      ensures Shape() && n == 0 && NoneBusy(cache.buf[..]) && NoneDirty(cache.buf[..])
      ensures cache.disk == Recovered(l, old(cache.disk)) && cache.view == cache.disk
      ensures cache.trace == old(cache.trace) + RecoveryImages(l, old(cache.disk))
    {
      InstallTrans();
      n := 0;
      EraseHead();
    }

    /** The second `write_head` of a commit and the only one of recovery. */
    method EraseHead()
      requires Shape() && n == 0 && NoneBusy(cache.buf[..]) && NoneDirty(cache.buf[..])
      modifies cache, cache.buf, cache.link
      ensures Shape() && NoneBusy(cache.buf[..]) && NoneDirty(cache.buf[..])
      ensures cache.disk == Cleared(l, old(cache.disk)) && cache.view == cache.disk
      ensures cache.trace == old(cache.trace) + [cache.disk]
    {
      CleanView(cache.buf[..], cache.disk, cache.view);
      assert Recyclable(cache.buf[..][0]);
      assert sector[..0] == [];
      WriteHead();
    }

    /** Start a transaction, or sleep because another one is active. */
    method BeginTrans() returns (ok: bool)
      requires Valid()
      modifies this`busy, this`earlier
      ensures Valid()
      ensures ok <==> !old(busy)
      ensures ok ==> busy && ws == Nothing && earlier == cache.trace
      ensures !ok ==> busy == old(busy) && earlier == old(earlier)
    {
      if busy {
        return false;
      }
      busy, earlier := true, cache.trace;
      return true;
    }

    /** The log slot for a sector, with absorption. */
    method FindSlot(s: uint32) returns (i: nat)
      requires sector.Length == LOGSIZE && n <= LOGSIZE
      ensures i == Slot(sector[..n], s)
    {
      i := 0;
      while i < n && sector[i] != s
        invariant 0 <= i <= n
        invariant forall j :: 0 <= j < i ==> sector[j] != s
      {
        i := i + 1;
      }
      assert SlotFor(sector[..n], s, i);
    }

    /** The header bookkeeping of `log_write`. */
    method Record(s: uint32) returns (i: nat)
      requires sector.Length == LOGSIZE && n < LOGSIZE
      modifies this`n, sector
      ensures n <= LOGSIZE
      ensures i == Slot(old(sector[..n]), s)
      ensures sector[..n] == if s in old(sector[..n]) then old(sector[..n]) else old(sector[..n]) + [s]
    {
      i := FindSlot(s);
      sector[i] := s;
      if i == n {
        n := n + 1;
        assert sector[..n] == old(sector[..n]) + [s];
      } else {
        assert sector[..n] == old(sector[..n]);
      }
    }

    /** `log_write` without its meaning: one log block written, one sector recorded, b pinned. */
    method Append(b: nat)
      requires Shape() && n < LOGSIZE && n + 1 < l.size
      requires b < NBUF && cache.buf[b].busy && cache.buf[b].valid
      requires var s := l.start + 1 + Slot(sector[..n], cache.buf[b].sector);
               Available(cache.buf[..], s) && !Pinned(cache.buf[..], s)
      modifies this`n, this`ws, sector, cache, cache.buf, cache.link
      ensures Shape()
      ensures ws == Then(old(ws), old(Write(cache.buf[b].sector, cache.buf[b].data)))
      ensures sector[..n] == old(if cache.buf[b].sector in sector[..n] then sector[..n]
                                 else sector[..n] + [cache.buf[b].sector])
      ensures var s, w := l.start + 1 + Slot(old(sector[..n]), old(cache.buf[b].sector)), old(cache.buf[b]);
              cache.disk == old(cache.disk)[s := w.data]
                  && cache.view == old(cache.view)[s := w.data][w.sector := w.data]
      ensures cache.trace == old(cache.trace) + [cache.disk]
      ensures Logs(old(cache.buf[..]), cache.buf[..], b)
    {
      ws := Then(ws, Write(cache.buf[b].sector, cache.buf[b].data));
      var i := Record(cache.buf[b].sector);
      cache.LogThrough(b, l.start + 1 + i);
    }

    /** Append the held buffer's contents to the log, over the slot its sector already has if it
        has one, and pin the buffer. */
    method LogWrite(b: nat)
      requires Valid() && busy && n < LOGSIZE && n + 1 < l.size
      requires b < NBUF && cache.buf[b].busy && cache.buf[b].valid && Home(l, cache.buf[b].sector)
      requires Available(cache.buf[..], l.start + 1 + Slot(sector[..n], cache.buf[b].sector))
      modifies this`n, this`ws, sector, cache, cache.buf, cache.link
      ensures Valid()
      ensures ws == Then(old(ws), old(Write(cache.buf[b].sector, cache.buf[b].data)))
      ensures Logs(old(cache.buf[..]), cache.buf[..], b)
    {
      hide Apply, Logged, AllPinned;
      NoLogPins(l, cache.buf[..], |base|, ws, l.start + 1 + Slot(sector[..n], cache.buf[b].sector));
      Append(b);
      LoggingStep(l, base, old(ws), old(sector[..n]), old(cache.buf[..]), old(cache.disk), old(cache.view), earlier,
                  old(cache.trace), b, sector[..n], cache.buf[..], cache.disk, cache.view);
    }

    /** The commit point: one header write turns the logged disk into the committed one. */
    method CommitHead()
      requires Valid() && n < NBUF && NoneBusy(cache.buf[..])
      modifies cache, cache.buf, cache.link
      ensures Shape() && NoneBusy(cache.buf[..]) && InstallReady(cache.buf[..], sector[..n])
      ensures cache.disk == CommitImage(l, base, ws)
      ensures WellFormed(l, cache.disk) && HeaderLoaded(l, cache.disk, sector[..], n)
      ensures cache.trace == old(cache.trace) + [cache.disk]
    {
      ghost var bufs := cache.buf[..];
      LoggedOnce(ws);
      LoggedAreHome(l, |base|, ws);
      LogBlockFree(l, bufs, cache.disk, cache.view, sector[..n], l.start);
      CommittedIsRedone(l, base, ws);
      HeaderIsLoaded(l, base, ws, sector[..]);
      WriteHead();
      KeptReady(bufs, cache.buf[..], sector[..n]);
    }

    /** The body of `commit_trans` when something was logged: the header, the installs, the erased
        header. */
    method CommitLogged()
      requires Valid() && n < NBUF && NoneBusy(cache.buf[..])
      modifies this`n, cache, cache.buf, cache.link
      ensures Shape() && n == 0 && NoneBusy(cache.buf[..]) && NoneDirty(cache.buf[..])
      ensures WellFormed(l, CommitImage(l, base, ws))
      ensures cache.disk == Recovered(l, CommitImage(l, base, ws)) && cache.view == cache.disk
      ensures cache.trace == old(cache.trace) + CommitImages(l, base, ws)
    {
      CommitHead();
      ghost var c := cache.disk;
      InstallAndErase();
      Associative(old(cache.trace), [c], RecoveryImages(l, c));
    }

    method CommitOrNot()
      requires Valid() && n < NBUF && NoneBusy(cache.buf[..])
      modifies this`n, cache, cache.buf, cache.link
      ensures Shape() && n == 0 && NoneBusy(cache.buf[..]) && NoneDirty(cache.buf[..]) && HeaderN(l, cache.disk) == 0
      ensures SameHome(l, cache.disk, Apply(l, base, ws)) && cache.view == cache.disk
      ensures cache.trace == earlier + LogImages(l, base, ws) + if ws == Nothing then [] else CommitImages(l, base, ws)
    {
      hide Recovered, U32, Coherent, CommitImages;
      if n > 0 {
        CommittedIsRedone(l, base, ws);
        CommitLogged();
        RecoveredIsClean(l, CommitImage(l, base, ws));
      } else {
        LoggedSomething(ws);
        NothingPinned(cache.buf[..], cache.disk, cache.view, sector[..n]);
      }
    }

    /** `commit_trans`: afterwards the disk holds the whole transaction, having passed through the
        images of LogSpec and no others. */
    method CommitTrans()
      requires Valid() && busy && n < NBUF && NoneBusy(cache.buf[..])
      modifies this`n, this`busy, this`ws, this`base, this`earlier, cache, cache.buf, cache.link
      ensures Valid() && !busy && NoneBusy(cache.buf[..])
      ensures SameHome(l, cache.disk, Apply(l, old(base), old(ws)))
      ensures cache.view == cache.disk
      ensures cache.trace == old(earlier) + LogImages(l, old(base), old(ws)) +
                             if old(ws) == Nothing then [] else CommitImages(l, old(base), old(ws))
    {
      CommitOrNot();
      hide Logging, HeaderN;
      NothingLogged(l, cache.disk, cache.buf[..], cache.view, cache.trace);
      assert sector[..0] == [];
      busy, ws, base, earlier := false, Nothing, cache.disk, cache.trace;
    }

    /** bread inside a transaction: it returns what the transaction has written so far, and it does
        not let any of that reach its home sector. */
    method Bread(s: uint32) returns (r: Get)
      requires Valid() && s < |cache.disk|
      modifies cache, cache.buf, cache.link
      ensures Valid()
      ensures r.Got? <==> Available(old(cache.buf[..]), s)
      ensures !r.Got? ==> cache.buf[..] == old(cache.buf[..])
      ensures r.Got? ==>
              r.b < NBUF && cache.buf[..] == old(cache.buf[..])[r.b := cache.buf[r.b]] && !old(cache.buf[r.b].busy)
      ensures r.Got? ==> var b := cache.buf[r.b];
                         && b.busy && b.valid && Caches(b, s) && b.data == cache.view[s]
                              && b.dirty == old(cache.buf[r.b].dirty)
                         && (Home(l, s) ==> b.data == Apply(l, base, ws)[s])
      ensures SameHome(l, cache.disk, base)
    {
      r := cache.Bread(ROOTDEV, s);
      if r.Got? {
        Repinned(old(cache.buf[..]), cache.buf[..], r.b, sector[..n]);
      }
    }

    /** brelse inside a transaction, of a buffer whose changes, if any, have been logged. */
    method Brelse(b: nat)
      requires Valid() && b < NBUF && cache.buf[b].busy && cache.buf[b].valid
      requires cache.buf[b].data == cache.view[cache.buf[b].sector]
      modifies cache, cache.buf, cache.link
      ensures Valid()
      ensures cache.buf[..] == old(cache.buf[..])[b := old(cache.buf[b]).(busy := false)]
      ensures SameHome(l, cache.disk, base)
    {
      cache.Brelse(b);
      Repinned(old(cache.buf[..]), cache.buf[..], b, sector[..n]);
    }

    /** The holder of a buffer changes its data. */
    method Fill(b: nat, data: Block)
      requires Valid() && b < NBUF && cache.buf[b].busy && cache.buf[b].valid
      modifies cache.buf
      ensures Valid()
      ensures cache.buf[..] == old(cache.buf[..])[b := old(cache.buf[b]).(data := data)]
    {
      cache.Fill(b, data);
      Repinned(old(cache.buf[..]), cache.buf[..], b, sector[..n]);
    }

    method Modify(w: Write) returns (b: nat)
      requires Valid() && n < NBUF && NoneBusy(cache.buf[..]) && w.sector < |cache.disk|
      modifies cache, cache.buf, cache.link
      ensures Valid() && OnlyHeld(cache.buf[..], b, w)
    {
      HomeBufferFree(cache.buf[..], sector[..n], w.sector);
      var r := Bread(w.sector);
      b := r.b;
      Fill(b, w.data);
    }

    method LogAndRelease(b: nat, ghost w: Write)
      requires Valid() && busy && n < LOGSIZE && n + 1 < l.size && OnlyHeld(cache.buf[..], b, w)
      requires w.sector < |cache.disk| && Home(l, w.sector) && |Plus(sector[..n], w.sector)| < NBUF
      modifies this`n, this`ws, sector, cache, cache.buf, cache.link
      ensures Valid() && NoneBusy(cache.buf[..]) && ws == Then(old(ws), w)
    {
      LogBlockIff(l, |base|, ws, cache.buf[..], b);
      LogWrite(b);
      StillHeld(old(cache.buf[..]), cache.buf[..], b, w);
      Brelse(b);
    }

    /** The idiom of every file-system update: bread, modify, log_write, brelse. */
    method Update(w: Write)
      requires Valid() && busy && n < LOGSIZE && n + 1 < l.size && NoneBusy(cache.buf[..])
      requires w.sector < |cache.disk| && Home(l, w.sector) && |Plus(sector[..n], w.sector)| < NBUF
      modifies this`n, this`ws, sector, cache, cache.buf, cache.link
      ensures Valid() && NoneBusy(cache.buf[..]) && ws == Then(old(ws), w)
    {
      var b := Modify(w);
      LogAndRelease(b, w);
    }

    method UpdateAll(todo: Writes)
      requires Valid() && busy && ws == Nothing && NoneBusy(cache.buf[..])
      requires HomeWrites(l, |cache.disk|, todo) && Accepted(l, todo) && |Logged(todo)| < NBUF
      modifies this`n, this`ws, sector, cache, cache.buf, cache.link
      ensures Valid() && NoneBusy(cache.buf[..]) && ws == todo
      decreases todo
    {
      match todo
      case Nothing =>
      case Then(front, w) =>
        UpdateAll(front);
        Update(w);
    }

    /** A whole transaction, for any writes that `log_write` accepts and that leave a buffer unpinned: the disk ends
        with all of them applied, and the sector writes on the way are exactly those of LogSpec, so that
        CrashAtomicity speaks about every point at which the machine can stop. */
    method Transaction(todo: Writes)
      requires Valid() && !busy && NoneBusy(cache.buf[..])
      requires HomeWrites(l, |cache.disk|, todo) && Accepted(l, todo) && |Logged(todo)| < NBUF
      modifies this`n, this`busy, this`ws, this`base, this`earlier, sector, cache, cache.buf, cache.link
      ensures Valid() && !busy && NoneBusy(cache.buf[..])
      ensures Loggable(l, old(cache.disk), todo)
      ensures SameHome(l, cache.disk, Apply(l, old(cache.disk), todo)) && cache.view == cache.disk
      ensures cache.trace == old(cache.trace) + LogImages(l, old(cache.disk), todo) +
                             if todo == Nothing then [] else CommitImages(l, old(cache.disk), todo)
    {
      var _ := BeginTrans();
      UpdateAll(todo);
      CommitTrans();
    }

    /** Any other transaction that `log_write` accepts stops at its last write: the tests for room pass, but every
        buffer is pinned or held, and there is none for the log block. */
    method RunsOut(todo: Writes) returns (b: nat)
      requires Valid() && !busy && NoneBusy(cache.buf[..])
      requires HomeWrites(l, |cache.disk|, todo) && Accepted(l, todo) && |Logged(todo)| >= NBUF
      modifies this`n, this`busy, this`ws, this`base, this`earlier, sector, cache, cache.buf, cache.link
      ensures Valid() && busy && ws == todo.front && OnlyHeld(cache.buf[..], b, todo.last)
      ensures n < LOGSIZE && n + 1 < l.size
              && !Available(cache.buf[..], l.start + 1 + Slot(sector[..n], todo.last.sector))
    {
      hide Coherent, DirtyWithin, Loggable;
      assert Accepted(l, todo.front) && |Logged(todo.front)| < NBUF && |Logged(todo.front)| + 1 < l.size;
      assert Logged(todo) == Plus(Logged(todo.front), todo.last.sector);
      hide Apply, Accepted, Logged, AllPinned, Available, Linked, Plus;
      var _ := BeginTrans();
      UpdateAll(todo.front);
      b := Modify(todo.last);
      LogBlockIff(l, |base|, ws, cache.buf[..], b);
    }
  }

  /** Buffer b is held, with the data of w, and no other is. */
  ghost predicate OnlyHeld(bufs: seq<Buf>, b: nat, w: Write) {
    && b < |bufs| && bufs[b].busy && bufs[b].valid && Caches(bufs[b], w.sector) && bufs[b].data == w.data
    && forall i :: 0 <= i < |bufs| && bufs[i].busy ==> i == b
  }

  lemma StillHeld(before: seq<Buf>, after: seq<Buf>, b: nat, w: Write)
    requires OnlyHeld(before, b, w) && Logs(before, after, b)
    ensures OnlyHeld(after, b, w)
  {
    var same := after[b := before[b]];
    forall i | 0 <= i < |after| && i != b ensures !after[i].busy {
      assert after[i] == same[i];
    }
  }

  lemma HomeBufferFree(bufs: seq<Buf>, sectors: seq<uint32>, s: uint32)
    requires |bufs| == NBUF && Unique(bufs) && NoneBusy(bufs) && DirtyWithin(bufs, sectors) && |sectors| < NBUF
    ensures Available(bufs, s)
  {
    CleanBuffer(bufs, sectors);
    var i :| 0 <= i < |bufs| && !bufs[i].dirty;
    assert Recyclable(bufs[i]);
  }

  /** The logged sectors after one more. */
  function Plus(sectors: seq<uint32>, s: uint32): seq<uint32> {
    if s in sectors then sectors else sectors + [s]
  }

  ghost function SectorsOf(bufs: seq<Buf>): (r: seq<uint32>)
    ensures |r| == |bufs| && forall i :: 0 <= i < |bufs| ==> r[i] == bufs[i].sector
  {
    seq(|bufs|, i requires 0 <= i < |bufs| => bufs[i].sector)
  }

  /** While one buffer is held, a sector that is not pinned can be had exactly when the held and the pinned sectors
      do not take up all buffers. */
  lemma BufferIff(bufs: seq<Buf>, sectors: seq<uint32>, b: nat, s: uint32)
    requires |bufs| == NBUF && b < NBUF && Unique(bufs) && DirtyWithin(bufs, sectors) && AllPinned(bufs, sectors)
             && Distinct(sectors)
    requires bufs[b].busy && forall i :: 0 <= i < |bufs| && bufs[i].busy ==> i == b
    requires bufs[b].dev == ROOTDEV && s !in Plus(sectors, bufs[b].sector)
    ensures Available(bufs, s) <==> |Plus(sectors, bufs[b].sector)| < NBUF
  {
    var more := Plus(sectors, bufs[b].sector);
    if |more| < NBUF {
      var all := bufs[b := bufs[b].(dirty := true)];
      assert DirtyWithin(all, more);
      CleanBuffer(all, more);
      var i :| 0 <= i < |all| && !all[i].dirty;
      assert Recyclable(bufs[i]);
    } else if Available(bufs, s) {
      var i :| 0 <= i < |bufs| && i != b && !bufs[i].dirty;
      TakenElsewhere(bufs, sectors, b, i);
    }
  }

  /** If some buffer is neither dirty nor the held one, all the others suffice for the held and the pinned sectors. */
  lemma TakenElsewhere(bufs: seq<Buf>, sectors: seq<uint32>, b: nat, i: nat)
    requires |bufs| == NBUF && b < NBUF && i < NBUF && i != b && !bufs[i].dirty
    requires AllPinned(bufs, sectors) && Distinct(sectors)
    ensures |Plus(sectors, bufs[b].sector)| < NBUF
  {
    var more, others := Plus(sectors, bufs[b].sector), SectorsOf(bufs[..i] + bufs[i + 1..]);
    forall s | s in more ensures s in others {
      CachedElsewhere(bufs, sectors, b, i, s);
    }
    assert Distinct(more);
    hide AllPinned, Distinct, Plus;
    assert forall s :: s in Elements(more) ==> s in Elements(others);
    SubsetSize(Elements(more), Elements(others));
    ElementsDistinct(more);
    ElementsSize(others);
  }

  lemma CachedElsewhere(bufs: seq<Buf>, sectors: seq<uint32>, b: nat, i: nat, s: uint32)
    requires |bufs| == NBUF && b < NBUF && i < NBUF && i != b && !bufs[i].dirty && AllPinned(bufs, sectors)
             && s in Plus(sectors, bufs[b].sector)
    ensures s in SectorsOf(bufs[..i] + bufs[i + 1..])
  {
    var others, k := bufs[..i] + bufs[i + 1..], b;
    if s in sectors {
      assert Pinned(bufs, s);
      k :| 0 <= k < |bufs| && Caches(bufs[k], s) && bufs[k].dirty;
    }
    assert others[if k < i then k else k - 1] == bufs[k];
    assert SectorsOf(others)[if k < i then k else k - 1] == s;
  }

  /** For `log_write` of the held buffer: its log block can be had exactly when there is a buffer for it beside those
      of the logged sectors. */
  lemma LogBlockIff(l: Layout, sectors: nat, ws: Writes, bufs: seq<Buf>, b: nat)
    requires HomeWrites(l, sectors, ws) && |bufs| == NBUF && b < NBUF && Unique(bufs) && DirtyWithin(bufs, Logged(ws))
             && AllPinned(bufs, Logged(ws))
    requires bufs[b].busy && (forall i :: 0 <= i < |bufs| && bufs[i].busy ==> i == b) && bufs[b].dev == ROOTDEV
             && Home(l, bufs[b].sector)
    requires |Logged(ws)| + 1 < l.size && l.start + l.size <= 0x1_0000_0000
    ensures Available(bufs, l.start + 1 + Slot(Logged(ws), bufs[b].sector)) <==>
            |Plus(Logged(ws), bufs[b].sector)| < NBUF
  {
    LoggedOnce(ws);
    LoggedAreHome(l, sectors, ws);
    var s := l.start + 1 + Slot(Logged(ws), bufs[b].sector);
    assert !Home(l, s);
    BufferIff(bufs, Logged(ws), b, s);
  }

  /** Changing a buffer but not whether it is dirty or what it caches keeps the pinned sectors. */
  lemma Repinned(before: seq<Buf>, after: seq<Buf>, b: nat, sectors: seq<uint32>)
    requires DirtyWithin(before, sectors) && AllPinned(before, sectors)
    requires b < |before| == |after| && after == before[b := after[b]] && after[b].dirty == before[b].dirty
    requires before[b].dirty ==> after[b].dev == before[b].dev && after[b].sector == before[b].sector
    ensures DirtyWithin(after, sectors) && AllPinned(after, sectors)
  {
    forall s | s in sectors ensures Pinned(after, s) {
      assert Pinned(before, s);
      var i :| 0 <= i < |before| && Caches(before[i], s) && before[i].dirty;
      assert Caches(after[i], s) && after[i].dirty;
    }
  }

  lemma Associative<T>(a: seq<T>, b: seq<T>, c: seq<T>)
    ensures a + b + c == a + (b + c)
  {
  }

  lemma LoggedSomething(ws: Writes)
    ensures Logged(ws) == [] <==> ws == Nothing
  {
  }

  lemma NothingPinned(bufs: seq<Buf>, disk: Image, view: Image, sectors: seq<uint32>)
    requires Coherent(bufs, disk, view) && DirtyWithin(bufs, sectors) && sectors == []
    ensures NoneDirty(bufs) && view == disk
  {
  }

  lemma KeptReady(before: seq<Buf>, after: seq<Buf>, sectors: seq<uint32>)
    requires Kept(before, after) && NoneBusy(before) && NoneBusy(after)
    requires DirtyWithin(before, sectors) && AllPinned(before, sectors) && Distinct(sectors) && |sectors| < NBUF
    ensures InstallReady(after, sectors)
  {
  }

  lemma HeaderIsLoaded(l: Layout, base: Image, ws: Writes, sectors: seq<uint32>)
    requires Loggable(l, base, ws) && |sectors| == LOGSIZE && sectors[..|Logged(ws)|] == Logged(ws)
    ensures HeaderLoaded(l, CommitImage(l, base, ws), sectors, |Logged(ws)|)
  {
    var c := CommitImage(l, base, ws);
    forall i: nat | i < |Logged(ws)| ensures sectors[i] == HeaderSector(l, c, i) {
      assert Logged(ws)[i] == sectors[i];
    }
  }

  lemma PinsGrow(before: seq<Buf>, after: seq<Buf>, b: nat, sectors: seq<uint32>, more: seq<uint32>)
    requires Logs(before, after, b) && before[b].dev == ROOTDEV
    requires DirtyWithin(before, sectors) && AllPinned(before, sectors)
    requires more == if before[b].sector in sectors then sectors else sectors + [before[b].sector]
    ensures DirtyWithin(after, more) && AllPinned(after, more)
  {
    assert Caches(after[b], before[b].sector);
    forall i | 0 <= i < |after| && after[i].dirty ensures after[i].dev == ROOTDEV && after[i].sector in more {
      assert after[i] == after[b := before[b]][i] || i == b;
    }
    forall s | s in more ensures Pinned(after, s) {
      if s != before[b].sector {
        assert Pinned(before, s);
        var i :| 0 <= i < |before| && Caches(before[i], s) && before[i].dirty;
        assert Caches(after[i], s) && after[i].dirty;
      }
    }
  }

  /** Log blocks are written through, so they are never pinned. */
  lemma NoLogPins(l: Layout, bufs: seq<Buf>, sectors: nat, ws: Writes, s: nat)
    requires HomeWrites(l, sectors, ws)
    requires DirtyWithin(bufs, Logged(ws)) && !Home(l, s)
    ensures !Pinned(bufs, s)
  {
    LoggedAreHome(l, sectors, ws);
  }

  /** Before a commit is installed its sectors are pinned; before recovery nothing is. */
  ghost predicate InstallReady(bufs: seq<Buf>, sectors: seq<uint32>) {
    || NoneDirty(bufs)
    || (DirtyWithin(bufs, sectors) && AllPinned(bufs, sectors) && Distinct(sectors) && |sectors| < NBUF)
  }

  /** A sector of the log is never pinned and can always be had during a commit or recovery. */
  lemma LogBlockFree(l: Layout, bufs: seq<Buf>, disk: Image, view: Image, sectors: seq<uint32>, s: nat)
    requires |bufs| == NBUF && Unique(bufs) && Coherent(bufs, disk, view) && NoneBusy(bufs)
    requires InstallReady(bufs, sectors)
    requires forall k :: 0 <= k < |sectors| ==> Home(l, sectors[k])
    requires s < |disk| && !Home(l, s)
    ensures Available(bufs, s) && !Pinned(bufs, s) && view[s] == disk[s]
  {
    if NoneDirty(bufs) {
      assert Recyclable(bufs[0]);
    } else {
      CleanBuffer(bufs, sectors);
      var k :| 0 <= k < |bufs| && !bufs[k].dirty;
      assert Recyclable(bufs[k]);
    }
    var pinned := Pinned(bufs, s);
    assert view[s] != disk[s] ==> pinned;
  }

  lemma StillReady(before: seq<Buf>, after: seq<Buf>, sectors: seq<uint32>)
    requires sectors != [] && InstallReady(before, sectors) && Unpinned(before, after, sectors[0])
    ensures InstallReady(after, sectors[1..])
  {
    if !NoneDirty(before) {
      forall s | s in sectors[1..] ensures Pinned(after, s) {
        assert Pinned(before, s);
        var i :| 0 <= i < |before| && Caches(before[i], s) && before[i].dirty;
        assert after[i] == before[i];
      }
    }
  }

  ghost predicate HeaderLoaded(l: Layout, d: Image, sectors: seq<uint32>, n: nat)
    requires l.start < |d|
  {
    && n == HeaderN(l, d) && n <= |sectors| == LOGSIZE
    && forall i: nat :: i < n ==> sectors[i] == HeaderSector(l, d, i)
  }

  // ---- The superblock ----------------------------------------------------------------------

  function SuperSize(b: Block): uint32 {
    U32(b, 0)
  }

  function SuperLog(b: Block): uint32 {
    U32(b, 3)
  }

  function LayoutOf(d: Image): Layout
    requires |d| > 1 && SuperLog(d[1]) <= SuperSize(d[1])
  {
    Layout(SuperSize(d[1]) - SuperLog(d[1]), SuperLog(d[1]))
  }

  // ---- A log larger than the cache ------------------------------------------------------------

  /** k writes to k sectors. */
  function Spread(k: nat): Writes
    requires k <= 10
  {
    if k == 0 then Nothing else Then(Spread(k - 1), Write(k + 1, ZeroBlock()))
  }

  lemma {:induction false} SpreadAccepted(l: Layout, k: nat)
    requires k <= 10 && k < l.size && 12 <= l.start
    ensures |Logged(Spread(k))| == k && (forall s :: s in Logged(Spread(k)) ==> s < k + 2)
    ensures Accepted(l, Spread(k)) && HomeWrites(l, l.start, Spread(k))
  {
    if k > 0 {
      SpreadAccepted(l, k - 1);
    }
  }

  lemma {:induction false} HomeWritesMore(l: Layout, n: nat, m: nat, ws: Writes)
    requires HomeWrites(l, n, ws) && n <= m
    ensures HomeWrites(l, m, ws)
  {
    if ws.Then? {
      HomeWritesMore(l, n, m, ws.front);
    }
  }

  /** A disk of thirty sectors, eleven of them the log's. */
  method FreshDisk() returns (image: Image)
    ensures |image| == 30 && SuperLog(image[1]) <= SuperSize(image[1])
    ensures LayoutOf(image) == Layout(19, 11) && WellFormed(Layout(19, 11), image)
  {
    var super := StoreU32(ZeroBlock(), 0, 30);
    super := StoreU32(super, 3, 11);
    image := seq(30, i => if i == 1 then super else ZeroBlock());
  }

  /** From such a disk, ten writes to ten sectors come to that point. */
  method PinsEveryBuffer() returns (log: Log, b: nat)
    ensures log.Valid() && log.l.size == 11 && log.n == 9 && OnlyHeld(log.cache.buf[..], b, Spread(10).last)
    ensures !Available(log.cache.buf[..], log.l.start + 1 + Slot(log.sector[..9], Spread(10).last.sector))
  {
    hide Log.Shape, OnlyHeld, Replayed, Slot;
    var image := FreshDisk();
    SpreadAccepted(Layout(19, 11), 9);
    SpreadAccepted(Layout(19, 11), 10);
    HomeWritesMore(Layout(19, 11), 19, 30, Spread(10));
    hide Spread, WellFormed, Recovered, RecoveryImages, Accepted, HomeWrites, LayoutOf, Linked;
    var cache := new Cache(image);
    log := new Log(cache);
    log.InitLog();
    b := log.RunsOut(Spread(10));
  }
}
