/** The buffer cache: NBUF buffers on a circular doubly linked list through a head node, most
    recently used first, over a disk that moves one sector at a time. */
module BufferCache {
  import opened Bytes
  import opened LogSpec
  import opened Finite

  const NBUF: nat := 10
  const HEAD: nat := NBUF // the list head, addressed like the buffers
  const ROOTDEV: int := 1

  /** The part of `struct buf` that does not belong to the list. */
  datatype Buf = Buf(busy: bool, valid: bool, dirty: bool, dev: int, sector: uint32, data: Block)

  datatype Link = Link(prev: nat, next: nat)

  /** `bget` returns a buffer, goes to sleep on a busy one, or panics. */
  datatype Get = Got(b: nat) | Asleep(b: nat) | NoBuffers

  // ---- The list ------------------------------------------------------------------------

  /** The k-th node in list order; the head is on both sides of the buffers. */
  function Node(order: seq<nat>, k: int): nat {
    if 0 <= k < |order| then order[k] else HEAD
  }

  ghost predicate Linked(links: seq<Link>, order: seq<nat>) {
    && |links| == NBUF + 1
    && (forall k :: 0 <= k < |order| ==> order[k] < NBUF)
    && Distinct(order)
    && (forall j, k :: -1 <= j < |order| && k == j + 1 ==>
          links[Node(order, j)].next == Node(order, k) && links[Node(order, k)].prev == Node(order, j))
  }

  /** The neighbours of b are linked to each other. */
  function Unlink(ls: seq<Link>, b: nat): (r: seq<Link>)
    requires b < |ls| && ls[b].next < |ls| && ls[b].prev < |ls| && ls[b].next != b
  {
    var r := ls[ls[b].next := ls[ls[b].next].(prev := ls[b].prev)];
    r[r[b].prev := r[r[b].prev].(next := r[b].next)]
  }

  /** b goes between the head and the first buffer. */
  function PushFront(ls: seq<Link>, b: nat): (r: seq<Link>)
    requires |ls| == NBUF + 1 && b < NBUF && ls[HEAD].next < |ls|
  {
    var r := ls[b := Link(HEAD, ls[HEAD].next)];
    var s := r[r[HEAD].next := r[r[HEAD].next].(prev := b)];
    s[HEAD := s[HEAD].(next := b)]
  }

  lemma UnlinkLinked(ls: seq<Link>, order: seq<nat>, i: nat)
    requires Linked(ls, order) && i < |order|
    ensures ls[order[i]].next < |ls| && ls[order[i]].prev < |ls| && ls[order[i]].next != order[i]
    ensures Linked(Unlink(ls, order[i]), order[..i] + order[i + 1..])
  {
    var b, rest := order[i], order[..i] + order[i + 1..];
    assert Node(order, i) == b;
    assert ls[b].next == Node(order, i + 1) && ls[b].prev == Node(order, i - 1) by {
      assert Node(order, i - 1) == Node(order, i - 1);
    }
    var r := Unlink(ls, b);
    forall j, k | -1 <= j < |rest| && k == j + 1
      ensures r[Node(rest, j)].next == Node(rest, k) && r[Node(rest, k)].prev == Node(rest, j)
    {
      assert Node(rest, j) == if j < i then Node(order, j) else Node(order, j + 1);
      assert Node(rest, k) == if k < i then Node(order, k) else Node(order, k + 1);
    }
  }

  lemma PushFrontLinked(ls: seq<Link>, order: seq<nat>, b: nat)
    requires Linked(ls, order) && b < NBUF && b !in order
    ensures ls[HEAD].next < |ls|
    ensures Linked(PushFront(ls, b), [b] + order)
  {
    var more := [b] + order;
    assert Node(order, -1) == HEAD && ls[HEAD].next == Node(order, 0);
    var r := PushFront(ls, b);
    forall j, k | -1 <= j < |more| && k == j + 1
      ensures r[Node(more, j)].next == Node(more, k) && r[Node(more, k)].prev == Node(more, j)
    {
      if j > 0 {
        assert Node(more, j) == Node(order, j - 1) && Node(more, k) == Node(order, j);
      } else if j == 0 {
        assert Node(more, k) == Node(order, 0);
      }
    }
  }

  // ---- What the buffers hold ---------------------------------------------------------------

  /** Buffer i caches sector s of the disk. */
  predicate Caches(b: Buf, s: nat) {
    b.dev == ROOTDEV && b.sector == s
  }

  predicate Recyclable(b: Buf) {
    !b.busy && !b.dirty
  }

  /** No sector is cached twice. */
  ghost predicate Unique(bufs: seq<Buf>) {
    forall i, j :: 0 <= i < j < |bufs| && bufs[i].dev == ROOTDEV && bufs[j].dev == ROOTDEV
                   ==> bufs[i].sector != bufs[j].sector
  }

  /** `view` is what the file system has written so far, whether or not it has reached the disk.
      Where the two differ a dirty buffer is pinned; a busy buffer's data is its holder's business. */
  ghost predicate Coherent(bufs: seq<Buf>, disk: Image, view: Image) {
    && |view| == |disk|
    && (forall i :: 0 <= i < |bufs| ==> BufOk(bufs[i], disk, view))
    && (forall s: nat :: s < |disk| && view[s] != disk[s] ==> Pinned(bufs, s))
  }

  ghost predicate BufOk(b: Buf, disk: Image, view: Image)
    requires |view| == |disk|
  {
    && (b.dirty ==> b.valid)
    && (b.valid ==>
          && b.dev == ROOTDEV && b.sector < |disk|
          && (!b.busy ==> b.data == view[b.sector])
          && (!b.dirty ==> view[b.sector] == disk[b.sector]))
  }

  ghost predicate Pinned(bufs: seq<Buf>, s: nat) {
    exists i :: 0 <= i < |bufs| && Caches(bufs[i], s) && bufs[i].dirty
  }

  /** `bget` for s returns at once: s is cached and free, or something can be recycled. */
  ghost predicate Available(bufs: seq<Buf>, s: nat) {
    if exists i :: 0 <= i < |bufs| && Caches(bufs[i], s)
    then forall i :: 0 <= i < |bufs| && Caches(bufs[i], s) ==> !bufs[i].busy
    else exists i :: 0 <= i < |bufs| && Recyclable(bufs[i])
  }

  class Cache {
    var disk: Image
    const buf: array<Buf>
    const link: array<Link>
    ghost var order: seq<nat> // the buffers in list order
    ghost var view: Image
    ghost var trace: seq<Image> // the disk after each sector write so far

    ghost predicate Valid()
      reads this, buf, link
    {
      && buf.Length == NBUF && link.Length == NBUF + 1
      && |order| == NBUF && Linked(link[..], order)
      && Unique(buf[..]) && Coherent(buf[..], disk, view)
    }

    /** `binit`: every buffer on the list, none caching anything. */
    constructor (image: Image)
      ensures Valid() && fresh(buf) && fresh(link)
      ensures disk == view == image && trace == []
      ensures forall i :: 0 <= i < NBUF ==> Recyclable(buf[i]) && !buf[i].valid && buf[i].dev != ROOTDEV
    {
      disk, view, trace := image, image, [];
      buf := new Buf[NBUF](_ => Buf(false, false, false, -1, 0, ZeroBlock()));
      link := new Link[NBUF + 1](_ => Link(HEAD, HEAD));
      order := [];
      new;
      var b := 0;
      while b < NBUF
        invariant 0 <= b <= NBUF && |order| == b
        invariant forall k :: 0 <= k < b ==> order[k] < b
        invariant link.Length == NBUF + 1 && Linked(link[..], order)
        invariant buf.Length == NBUF && fresh(buf) && fresh(link) && disk == view == image && trace == []
        invariant forall i :: 0 <= i < NBUF ==> buf[i] == Buf(false, false, false, -1, 0, ZeroBlock())
      {
        ghost var before := link[..];
        PushFrontLinked(before, order, b);
        link[b] := Link(HEAD, link[HEAD].next);
        link[link[HEAD].next] := link[link[HEAD].next].(prev := b);
        link[HEAD] := link[HEAD].(next := b);
        assert link[..] == PushFront(before, b);
        order := [b] + order;
        b := b + 1;
      }
    }

    /** Forward along the list: the buffer that caches the sector, or the head. */
    method FindCached(dev: int, sector: uint32) returns (b: nat)
      requires Valid() && dev == ROOTDEV
      ensures b <= HEAD
      ensures b < HEAD ==> Caches(buf[b], sector)
      ensures b == HEAD ==> forall i :: 0 <= i < NBUF ==> !Caches(buf[i], sector)
    {
      assert Node(order, -1) == HEAD;
      b := link[HEAD].next;
      ghost var k := 0;
      while b != HEAD
        invariant 0 <= k <= NBUF && b == Node(order, k)
        invariant forall j :: 0 <= j < k ==> !Caches(buf[order[j]], sector)
        decreases NBUF - k
      {
        if buf[b].dev == dev && buf[b].sector == sector {
          return;
        }
        assert Node(order, k + 1) == link[b].next;
        b, k := link[b].next, k + 1;
      }
      Pigeonhole(order, NBUF);
      forall i | 0 <= i < NBUF ensures !Caches(buf[i], sector) {
        assert i in order;
      }
    }

    /** Backward along the list: the least recently used buffer that can be recycled, or the head. */
    method FindRecyclable() returns (b: nat)
      requires Valid()
      ensures b <= HEAD
      ensures b < HEAD ==> LeastRecent(buf[..], order, b)
      ensures b < HEAD ==> exists k :: 0 <= k < |order| && order[k] == b && !buf[b].busy && !buf[b].dirty
                               && forall j :: k < j < |order| ==> buf[order[j]].busy || buf[order[j]].dirty
      ensures b == HEAD ==> forall i :: 0 <= i < NBUF ==> !Recyclable(buf[i])
    {
      assert Node(order, NBUF) == HEAD && Node(order, NBUF - 1) == link[HEAD].prev;
      b := link[HEAD].prev;
      ghost var k := NBUF - 1;
      while b != HEAD
        invariant -1 <= k < NBUF && b == Node(order, k)
        invariant forall j :: k < j < NBUF ==> !Recyclable(buf[order[j]])
        decreases k
      {
        if !buf[b].busy && !buf[b].dirty {
          assert order[k] == b;
          return;
        }
        assert Node(order, k - 1) == link[b].prev;
        b, k := link[b].prev, k - 1;
      }
      Pigeonhole(order, NBUF);
      forall i | 0 <= i < NBUF ensures !Recyclable(buf[i]) {
        assert i in order;
      }
    }

    /** The sector is cached: return its buffer, or sleep until it is released. Otherwise take
        over the least recently used buffer that is neither busy nor dirty. */
    method Bget(dev: int, sector: uint32) returns (r: Get)
      requires Valid() && dev == ROOTDEV && sector < |disk|
      modifies buf
      ensures Valid()
      ensures r.Got? <==> Available(old(buf[..]), sector)
      ensures r.Asleep? ==> r.b < NBUF && Caches(buf[r.b], sector) && buf[r.b].busy
      ensures !r.Got? ==> buf[..] == old(buf[..])
      ensures r.Got? ==> r.b < NBUF && buf[..] == old(buf[..])[r.b := buf[r.b]]
      ensures r.Got? ==>
                || (Caches(old(buf[r.b]), sector) && buf[r.b] == old(buf[r.b]).(busy := true))
                || (&& (forall i :: 0 <= i < NBUF ==> !Caches(old(buf[i]), sector))
                    && buf[r.b] == Buf(true, false, false, dev, sector, old(buf[r.b]).data)
                    && LeastRecent(old(buf[..]), order, r.b))
    {
      var b := FindCached(dev, sector);
      if b < HEAD {
        assert Caches(buf[..][b], sector);
        if buf[b].busy {
          return Asleep(b);
        }
        Taken(buf[..], disk, view, b, buf[b].(busy := true));
        buf[b] := buf[b].(busy := true);
        return Got(b);
      }
      b := FindRecyclable();
      if b < HEAD {
        Taken(buf[..], disk, view, b, Buf(true, false, false, dev, sector, buf[b].data));
        buf[b] := Buf(true, false, false, dev, sector, buf[b].data);
        return Got(b);
      }
      return NoBuffers;
    }

    /** Synchronize a busy buffer with the disk: a dirty one is written, one that is not valid is
        read. */
    method Iderw(b: nat)
      requires Valid() && b < NBUF && buf[b].busy
      requires buf[b].dirty || !buf[b].valid
      requires buf[b].dev == ROOTDEV && buf[b].sector < |disk|
      modifies this`disk, this`view, this`trace, buf
      ensures Valid()
      ensures buf[..] == old(buf[..])[b := buf[b]]
      ensures old(buf[b].dirty) ==>
                && disk == old(disk[buf[b].sector := buf[b].data])
                && view == old(view[buf[b].sector := buf[b].data])
                && trace == old(trace) + [disk]
                && buf[b] == old(buf[b]).(dirty := false)
      ensures !old(buf[b].dirty) ==>
                && disk == old(disk) && view == old(view) && trace == old(trace)
                && buf[b] == old(buf[b].(valid := true, data := disk[buf[b].sector]))
    {
      var s := buf[b].sector;
      if buf[b].dirty {
        Written(buf[..], disk, view, b);
        disk := disk[s := buf[b].data];
        view := view[s := buf[b].data];
        trace := trace + [disk];
        buf[b] := buf[b].(dirty := false);
      } else {
        NotPinned(buf[..], disk, view, b);
        Taken(buf[..], disk, view, b, buf[b].(valid := true, data := disk[s]));
        buf[b] := buf[b].(valid := true, data := disk[s]);
      }
    }

    /** Return the sector's buffer, busy and holding the latest contents: a valid buffer is never
        read again, so contents that exist only in a pinned buffer are not lost. */
    method Bread(dev: int, sector: uint32) returns (r: Get)
      requires Valid() && dev == ROOTDEV && sector < |disk|
      modifies this`disk, this`view, this`trace, buf
      ensures Valid()
      ensures disk == old(disk) && view == old(view) && trace == old(trace)
      ensures r.Got? <==> Available(old(buf[..]), sector)
      ensures !r.Got? ==> buf[..] == old(buf[..])
      ensures r.Got? ==> r.b < NBUF && buf[..] == old(buf[..])[r.b := buf[r.b]] && !old(buf[r.b].busy)
      ensures r.Got? ==> buf[r.b] == Buf(true, true, old(buf[r.b].dirty), dev, sector, view[sector])
      ensures r.Got? ==> Caches(old(buf[r.b]), sector) || Recyclable(old(buf[r.b]))
      ensures r.Got? ==> Caches(old(buf[r.b]), sector) || forall i :: 0 <= i < NBUF ==> !Caches(old(buf[i]), sector)
    {
      r := Bget(dev, sector);
      if r.Got? && !buf[r.b].valid {
        NotPinned(buf[..], disk, view, r.b);
        Iderw(r.b);
      }
    }

    /** Write a busy buffer through to the disk. */
    method Bwrite(b: nat)
      requires Valid() && b < NBUF && buf[b].busy && buf[b].valid
      modifies this`disk, this`view, this`trace, buf
      ensures Valid()
      ensures disk == old(disk[buf[b].sector := buf[b].data])
      ensures view == old(view[buf[b].sector := buf[b].data])
      ensures trace == old(trace) + [disk]
      ensures buf[..] == old(buf[..])[b := old(buf[b]).(dirty := false)]
    {
      Taken(buf[..], disk, view, b, buf[b].(dirty := true));
      buf[b] := buf[b].(dirty := true);
      Iderw(b);
    }

    /** The holder of a busy buffer changes its data. */
    method Fill(b: nat, data: Block)
      requires Valid() && b < NBUF && buf[b].busy && buf[b].valid
      modifies buf
      ensures Valid()
      ensures buf[..] == old(buf[..])[b := old(buf[b]).(data := data)]
    {
      Taken(buf[..], disk, view, b, buf[b].(data := data));
      buf[b] := buf[b].(data := data);
    }

    /** The log marks a held buffer dirty: it now carries the latest contents, and stays. */
    method Pin(b: nat)
      requires Valid() && b < NBUF && buf[b].busy && buf[b].valid
      modifies this`view, buf
      ensures Valid()
      ensures view == old(view[buf[b].sector := buf[b].data])
      ensures buf[..] == old(buf[..])[b := old(buf[b]).(dirty := true)]
    {
      PinnedNow(buf[..], disk, view, b);
      view := view[buf[b].sector := buf[b].data];
      buf[b] := buf[b].(dirty := true);
    }

    /** Unlink b and put it first. */
    method MoveToFront(b: nat)
      requires Valid() && b < NBUF
      modifies this`order, link
      ensures Valid()
      ensures MovedToFront(old(order), b, order)
    {
      hide Unique, BufOk;
      Pigeonhole(order, NBUF);
      assert b in order;
      ghost var i: nat :| i < |order| && order[i] == b;
      ghost var before, rest := link[..], order[..i] + order[i + 1..];
      UnlinkLinked(before, order, i);
      link[link[b].next] := link[link[b].next].(prev := link[b].prev);
      link[link[b].prev] := link[link[b].prev].(next := link[b].next);
      assert link[..] == Unlink(before, b);
      PushFrontLinked(link[..], rest, b);
      link[b] := link[b].(next := link[HEAD].next);
      link[b] := link[b].(prev := HEAD);
      link[link[HEAD].next] := link[link[HEAD].next].(prev := b);
      link[HEAD] := link[HEAD].(next := b);
      assert link[..] == PushFront(Unlink(before, b), b);
      assert [b] + rest == [b] + order[..i] + order[i + 1..];
      order := [b] + rest;
    }

    /** Release a busy buffer and move it to the front of the list. Its data must be what was last
        written, through the log or to the disk. */
    method Brelse(b: nat)
      requires Valid() && b < NBUF && buf[b].busy && buf[b].valid
      requires buf[b].data == view[buf[b].sector]
      modifies this`order, buf, link
      ensures Valid()
      ensures buf[..] == old(buf[..])[b := old(buf[b]).(busy := false)]
      ensures MovedToFront(old(order), b, order) && order[0] == b
    {
      MoveToFront(b);
      Taken(buf[..], disk, view, b, buf[b].(busy := false));
      buf[b] := buf[b].(busy := false);
    }

    /** bread, copy out, brelse. */
    method ReadSector(sector: uint32) returns (data: Block)
      requires Valid() && sector < |disk| && Available(buf[..], sector)
      modifies this, buf, link
      ensures Valid()
      ensures disk == old(disk) && view == old(view) && trace == old(trace)
      ensures data == view[sector]
      ensures Kept(old(buf[..]), buf[..])
    {
      var r := Bread(ROOTDEV, sector);
      data := buf[r.b].data;
      Brelse(r.b);
    }

    /** bread, overwrite, bwrite, brelse. */
    method WriteSector(sector: uint32, data: Block)
      requires Valid() && sector < |disk| && Available(buf[..], sector)
      requires !Pinned(buf[..], sector)
      modifies this, buf, link
      ensures Valid()
      ensures disk == old(disk)[sector := data] && view == old(view)[sector := data]
      ensures trace == old(trace) + [disk]
      ensures Kept(old(buf[..]), buf[..])
    {
      var r := Bread(ROOTDEV, sector);
      Fill(r.b, data);
      Bwrite(r.b);
      Brelse(r.b);
    }

    /** Write a held buffer's contents to another sector, and keep the buffer until they are
        written to its own. */
    method LogThrough(b: nat, sector: uint32)
      requires Valid() && b < NBUF && buf[b].busy && buf[b].valid
      requires sector < |disk| && Available(buf[..], sector) && !Pinned(buf[..], sector)
      modifies this, buf, link
      ensures Valid()
      ensures disk == old(disk[sector := buf[b].data]) && trace == old(trace) + [disk]
      ensures view == old(view[sector := buf[b].data][buf[b].sector := buf[b].data])
      ensures Logs(old(buf[..]), buf[..], b)
    {
      WriteSector(sector, buf[b].data);
      Pin(b);
    }

    /** Copy one held buffer over another, write that one, release both. */
    method CopyBuffer(lbuf: nat, dbuf: nat)
      requires Valid() && lbuf < NBUF && dbuf < NBUF && lbuf != dbuf
      requires buf[lbuf].busy && buf[lbuf].valid && buf[dbuf].busy && buf[dbuf].valid
      requires buf[lbuf].data == view[buf[lbuf].sector]
      modifies this, buf, link
      ensures Valid()
      ensures disk == old(disk[buf[dbuf].sector := buf[lbuf].data]) && trace == old(trace) + [disk]
      ensures buf[..] == old(buf[..])[lbuf := old(buf[lbuf]).(busy := false)]
                                     [dbuf := old(buf[dbuf]).(busy := false, dirty := false,
                                                              data := old(buf[lbuf]).data)]
    {
      Fill(dbuf, buf[lbuf].data);
      Bwrite(dbuf);
      Brelse(lbuf);
      Brelse(dbuf);
    }

    /** Read both sectors, copy one buffer to the other, write it, release both. */
    method CopySector(from: uint32, to: uint32)
      requires Valid() && from < |disk| && to < |disk| && from != to
      requires NoneBusy(buf[..]) && Available(buf[..], from) && !Pinned(buf[..], from)
      requires NoneDirty(buf[..]) || Pinned(buf[..], to)
      modifies this, buf, link
      ensures Valid() && NoneBusy(buf[..])
      ensures disk == old(disk[to := view[from]]) && trace == old(trace) + [disk]
      ensures Unpinned(old(buf[..]), buf[..], to)
    {
      hide Available, Pinned, Logs;
      ghost var before := buf[..];
      var r := Bread(ROOTDEV, from);
      var lbuf := r.b;
      SecondBuffer(before, buf[..], lbuf, from, to);
      r := Bread(ROOTDEV, to);
      var dbuf := r.b;
      CopyBuffer(lbuf, dbuf);
    }
  }

  ghost predicate NoneBusy(bufs: seq<Buf>) {
    forall i :: 0 <= i < |bufs| ==> !bufs[i].busy
  }

  ghost predicate NoneDirty(bufs: seq<Buf>) {
    forall i :: 0 <= i < |bufs| ==> !bufs[i].dirty
  }

  /** The buffer of sector s is no longer dirty; nothing else about dirty buffers has changed. */
  ghost predicate Unpinned(before: seq<Buf>, after: seq<Buf>, s: nat) {
    && |before| == |after|
    && (forall i :: 0 <= i < |after| && after[i].dirty ==> after[i] == before[i] && after[i].sector != s)
    && (forall i :: 0 <= i < |before| && before[i].dirty && !Caches(before[i], s) ==> after[i] == before[i])
  }

  /** While a log block is held its home block can still be had: it is pinned, or nothing is. */
  lemma SecondBuffer(before: seq<Buf>, after: seq<Buf>, b: nat, s: uint32, home: uint32)
    requires |before| == |after| == NBUF && b < NBUF && s != home && Unique(before)
    requires NoneBusy(before) && after == before[b := after[b]] && Caches(after[b], s)
    requires Recyclable(before[b]) || Caches(before[b], s)
    requires NoneDirty(before) || Pinned(before, home)
    ensures Available(after, home)
  {
    if Pinned(before, home) {
      var i :| 0 <= i < |before| && Caches(before[i], home) && before[i].dirty;
      assert Caches(after[i], home);
    } else {
      var i := if b == 0 then 1 else 0;
      assert Recyclable(after[i]);
    }
  }

  /** What `log_write` does to the buffers: b is dirty now, and the other busy and dirty ones are
      as they were. */
  ghost predicate Logs(before: seq<Buf>, after: seq<Buf>, b: nat) {
    && |before| == |after| && b < |before| && after[b] == before[b].(dirty := true)
    && Kept(before, after[b := before[b]])
  }

  /** Busy and dirty buffers are as they were, and there are no new ones. */
  ghost predicate Kept(before: seq<Buf>, after: seq<Buf>) {
    && |before| == |after|
    && forall i :: 0 <= i < |before| && !(Recyclable(before[i]) && Recyclable(after[i])) ==> after[i] == before[i]
  }

  ghost predicate MovedToFront(before: seq<nat>, b: nat, after: seq<nat>) {
    exists i: nat :: i < |before| && before[i] == b && after == [b] + before[..i] + before[i + 1..]
  }

  /** b can be recycled and everything used less recently cannot. */
  ghost predicate LeastRecent(bufs: seq<Buf>, order: seq<nat>, b: nat)
    requires forall k :: 0 <= k < |order| ==> order[k] < |bufs|
  {
    exists k :: 0 <= k < |order| && order[k] == b && Recyclable(bufs[b])
                && forall j :: k < j < |order| ==> !Recyclable(bufs[order[j]])
  }

  /** Replacing one buffer keeps the cache coherent if it does not drop a pinned sector. */
  lemma Taken(bufs: seq<Buf>, disk: Image, view: Image, b: nat, now: Buf)
    requires Coherent(bufs, disk, view) && Unique(bufs) && b < |bufs|
    requires BufOk(now, disk, view)
    requires bufs[b].dirty ==> now.dirty && now.sector == bufs[b].sector
    requires || (bufs[b].dev == now.dev && bufs[b].sector == now.sector)
             || (forall i :: 0 <= i < |bufs| ==> !Caches(bufs[i], now.sector))
    ensures Coherent(bufs[b := now], disk, view) && Unique(bufs[b := now])
  {
    var after := bufs[b := now];
    forall s: nat | s < |disk| && view[s] != disk[s] ensures Pinned(after, s) {
      assert Pinned(bufs, s);
      var i :| 0 <= i < |bufs| && Caches(bufs[i], s) && bufs[i].dirty;
      assert Caches(after[i], s) && after[i].dirty;
    }
  }

  /** A buffer that is not dirty caches a sector whose latest contents are on the disk. */
  lemma NotPinned(bufs: seq<Buf>, disk: Image, view: Image, b: nat)
    requires Coherent(bufs, disk, view) && Unique(bufs) && b < |bufs|
    requires !bufs[b].dirty && bufs[b].dev == ROOTDEV && bufs[b].sector < |disk|
    ensures view[bufs[b].sector] == disk[bufs[b].sector]
  {
  }

  lemma Written(bufs: seq<Buf>, disk: Image, view: Image, b: nat)
    requires Coherent(bufs, disk, view) && Unique(bufs) && b < |bufs| && bufs[b].valid && bufs[b].busy
    ensures var s, after := bufs[b].sector, bufs[b := bufs[b].(dirty := false)];
            && Coherent(after, disk[s := bufs[b].data], view[s := bufs[b].data])
            && Unique(after)
  {
    var sector := bufs[b].sector;
    var after, d, v := bufs[b := bufs[b].(dirty := false)], disk[sector := bufs[b].data], view[sector := bufs[b].data];
    forall s: nat | s < |d| && v[s] != d[s] ensures Pinned(after, s) {
      assert Pinned(bufs, s);
      var i :| 0 <= i < |bufs| && Caches(bufs[i], s) && bufs[i].dirty;
      assert Caches(after[i], s) && after[i].dirty;
    }
  }

  lemma PinnedNow(bufs: seq<Buf>, disk: Image, view: Image, b: nat)
    requires Coherent(bufs, disk, view) && Unique(bufs) && b < |bufs| && bufs[b].valid && bufs[b].busy
    ensures var s, after := bufs[b].sector, bufs[b := bufs[b].(dirty := true)];
            Coherent(after, disk, view[s := bufs[b].data]) && Unique(after)
  {
    var sector := bufs[b].sector;
    var after, v := bufs[b := bufs[b].(dirty := true)], view[sector := bufs[b].data];
    assert Caches(after[b], sector) && after[b].dirty;
    forall s: nat | s < |disk| && v[s] != disk[s] ensures Pinned(after, s) {
      if s != sector {
        assert Pinned(bufs, s);
        var i :| 0 <= i < |bufs| && Caches(bufs[i], s) && bufs[i].dirty;
        assert Caches(after[i], s) && after[i].dirty;
      }
    }
  }
}
