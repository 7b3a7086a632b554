/** Pipes: a ring of 512 bytes under a lock, with counters that wrap at 2^32. A method is what a process does
    between taking the lock and giving it up, by returning or by going to sleep. */
module Pipe {
  import opened Bytes

  const PIPESIZE := 512

  datatype WriteResult = Written | WriteSleeps | Broken

  datatype ReadResult = Got(bytes: seq<byte>) | ReadSleeps | Interrupted

  /** 32-bit addition. */
  function Add(x: int, y: int): int {
    (x + y) % 0x1_0000_0000
  }

  function Wrapped(x: nat): int {
    x % 0x1_0000_0000
  }

  lemma AddWrapped(x: nat, y: nat)
    ensures Add(Wrapped(x), y) == Wrapped(x + y)
  {
  }

  /** The ring's size divides 2^32, so wrapping does not disturb the place of a byte. */
  lemma WrappedPlace(x: nat)
    ensures Wrapped(x) % 512 == x % 512
  {
  }

  /** Counters that are no more than the ring apart are equal when they look equal. */
  lemma WrappedApart(r: nat, w: nat)
    requires r <= w <= r + 512
    ensures Wrapped(r) == Wrapped(w) <==> r == w
    ensures Wrapped(w) == Add(Wrapped(r), 512) <==> w == r + 512
  {
  }

  lemma PlaceApart(k: nat, w: nat)
    requires k < w < k + 512
    ensures k % 512 != w % 512
  {
  }

  function Place(k: nat): (p: nat)
    ensures p < 512
  {
    k % 512
  }

  // ---- The pipe as a queue ---------------------------------------------------------------------------

  /** What a pipe is to those who use it: the bytes it holds, which ends are open, and who sleeps on which side. */
  datatype Queue = Queue(held: seq<byte>, readopen: bool, writeopen: bool, readers: set<int>, writers: set<int>)

  /** A write, or the rest of one that slept; a read; the end of one side; a wakeup for another reason. */
  datatype Event =
    | DoWrite(p: int, bytes: seq<byte>, killed: bool)
    | DoRead(p: int, count: nat, killed: bool)
    | DoClose(writable: bool)
    | DoWake(p: int)

  /** An end is used while it is open, and closed when no one is asleep in it. */
  predicate Enabled(q: Queue, e: Event) {
    match e
    case DoWrite(_, _, _) => q.writeopen
    case DoRead(_, _, _) => q.readopen
    case DoClose(writable) => if writable then q.writers == {} else q.readers == {}
    case DoWake(_) => true
  }

  function Least(x: nat, y: nat): nat {
    if x < y then x else y
  }

  /** The bytes that an event puts in: as many as there is room for. */
  function Accepted(q: Queue, e: Event): seq<byte>
    requires |q.held| <= PIPESIZE
  {
    if e.DoWrite? && Enabled(q, e) then e.bytes[..Least(|e.bytes|, PIPESIZE - |q.held|)] else []
  }

  /** The bytes that an event takes out: as many as there are and were asked for. */
  function Returned(q: Queue, e: Event): seq<byte> {
    if e.DoRead? && Enabled(q, e) then q.held[..Least(e.count, |q.held|)] else []
  }

  predicate Finishes(q: Queue, bytes: seq<byte>) {
    |q.held| + |bytes| <= PIPESIZE
  }

  function Next(q: Queue, e: Event): Queue
    requires |q.held| <= PIPESIZE
  {
    if !Enabled(q, e) then q
    else
      match e
      case DoWrite(p, bytes, killed) =>
        var more := q.(held := q.held + Accepted(q, e));
        if Finishes(q, bytes) then more.(readers := {})
        else if !q.readopen || killed then more
        else more.(readers := {}, writers := q.writers + {p})
      case DoRead(p, count, killed) =>
        if q.held == [] && q.writeopen then if killed then q else q.(readers := q.readers + {p})
        else q.(held := q.held[|Returned(q, e)|..], writers := {})
      case DoClose(writable) =>
        if writable then q.(writeopen := false, readers := {}) else q.(readopen := false, writers := {})
      case DoWake(p) => q.(readers := q.readers - {p}, writers := q.writers - {p})
  }

  lemma NextFits(q: Queue, e: Event)
    requires |q.held| <= PIPESIZE
    ensures |Next(q, e).held| <= PIPESIZE
  {
  }

  /** The queue after a run, and all bytes that went in and came out in it, in order. */
  function After(q: Queue, es: seq<Event>): (r: Queue)
    requires |q.held| <= PIPESIZE
    ensures |r.held| <= PIPESIZE
  {
    if es == [] then q
    else
      NextFits(After(q, es[..|es| - 1]), es[|es| - 1]);
      Next(After(q, es[..|es| - 1]), es[|es| - 1])
  }

  function PutIn(q: Queue, es: seq<Event>): seq<byte>
    requires |q.held| <= PIPESIZE
  {
    if es == [] then [] else PutIn(q, es[..|es| - 1]) + Accepted(After(q, es[..|es| - 1]), es[|es| - 1])
  }

  function TakenOut(q: Queue, es: seq<Event>): seq<byte>
    requires |q.held| <= PIPESIZE
  {
    if es == [] then [] else TakenOut(q, es[..|es| - 1]) + Returned(After(q, es[..|es| - 1]), es[|es| - 1])
  }

  /** An event loses, makes up or reorders nothing. */
  lemma NextConserves(q: Queue, e: Event)
    requires |q.held| <= PIPESIZE
    ensures q.held + Accepted(q, e) == Returned(q, e) + Next(q, e).held
  {
  }

  /** First in, first out, over any run of any processes, killed ones among them: what was held and what has been
      put in is what has been taken out and what is held now, in that order, and that is at most 512 bytes. */
  lemma {:induction false} FirstInFirstOut(q: Queue, es: seq<Event>)
    requires |q.held| <= PIPESIZE
    ensures q.held + PutIn(q, es) == TakenOut(q, es) + After(q, es).held && |After(q, es).held| <= PIPESIZE
  {
    if es != [] {
      var front, e := es[..|es| - 1], es[|es| - 1];
      FirstInFirstOut(q, front);
      var m := After(q, front);
      NextConserves(m, e);
      hide Next, Accepted, Returned;
      Regroup(q.held, PutIn(q, front), Accepted(m, e), TakenOut(q, front), m.held, Returned(m, e), Next(m, e).held);
    }
  }

  lemma Regroup(a: seq<byte>, b: seq<byte>, c: seq<byte>, d: seq<byte>, h: seq<byte>, r: seq<byte>, h': seq<byte>)
    requires a + b == d + h && h + c == r + h'
    ensures a + (b + c) == (d + r) + h'
  {
    assert a + (b + c) == (a + b) + c == d + (h + c) == d + (r + h');
  }

  /** A sleeping reader waits for an empty pipe that can still be written, a sleeping writer for a full one that
      can still be read. */
  ghost predicate Reasons(q: Queue) {
    && (q.readers != {} ==> q.held == [] && q.writeopen && q.readopen)
    && (q.writers != {} ==> |q.held| == PIPESIZE && q.writeopen && q.readopen)
  }

  /** A killed writer with more bytes than the pipe takes, while a reader sleeps: it fills the pipe and returns
      without waking the reader. */
  predicate Strands(q: Queue, e: Event) {
    e.DoWrite? && q.writeopen && e.killed && q.readers != {} && |e.bytes| > PIPESIZE
  }

  /** One event keeps everyone's reason to sleep exactly when it is not that one. */
  lemma ReasonsIff(q: Queue, e: Event)
    requires |q.held| <= PIPESIZE && Reasons(q)
    ensures Reasons(Next(q, e)) <==> !Strands(q, e)
  {
  }

  lemma Extended(q: Queue, es: seq<Event>, k: nat)
    requires |q.held| <= PIPESIZE && k < |es|
    ensures After(q, es[..k + 1]) == Next(After(q, es[..k]), es[k])
  {
    assert es[..k + 1][..k] == es[..k];
  }

  /** Throughout a run no one sleeps without a reason exactly when that never happens in it. */
  lemma {:induction false} NoOneForgotten(q: Queue, es: seq<Event>)
    requires |q.held| <= PIPESIZE && Reasons(q)
    ensures (forall k :: 0 <= k <= |es| ==> Reasons(After(q, es[..k]))) <==>
            (forall k :: 0 <= k < |es| ==> !Strands(After(q, es[..k]), es[k]))
  {
    if forall k :: 0 <= k < |es| ==> !Strands(After(q, es[..k]), es[k]) {
      forall k | 0 <= k <= |es| ensures Reasons(After(q, es[..k])) {
        StaysSo(q, es, k);
      }
    } else {
      var k :| 0 <= k < |es| && Strands(After(q, es[..k]), es[k]);
      Extended(q, es, k);
      if Reasons(After(q, es[..k])) {
        ReasonsIff(After(q, es[..k]), es[k]);
        assert !Reasons(After(q, es[..k + 1]));
      }
    }
  }

  lemma {:induction false} StaysSo(q: Queue, es: seq<Event>, k: nat)
    requires |q.held| <= PIPESIZE && Reasons(q) && k <= |es|
    requires forall m :: 0 <= m < |es| ==> !Strands(After(q, es[..m]), es[m])
    ensures Reasons(After(q, es[..k]))
  {
    if k > 0 {
      StaysSo(q, es, k - 1);
      Extended(q, es, k - 1);
      ReasonsIff(After(q, es[..k - 1]), es[k - 1]);
    }
  }

  /** It does happen, from a new pipe: a reader sleeps, a killed writer fills the pipe and leaves, and the reader
      sleeps on beside 512 bytes. */
  lemma KilledWriter(bytes: seq<byte>)
    requires |bytes| > PIPESIZE
    ensures var q := After(Queue([], true, true, {}, {}), [DoRead(1, 1, false), DoWrite(2, bytes, true)]);
            1 in q.readers && |q.held| == PIPESIZE && !Reasons(q)
  {
    var q, read, write := Queue([], true, true, {}, {}), DoRead(1, 1, false), DoWrite(2, bytes, true);
    assert [read, write][..1] == [read] && [read][..0] == [];
    assert After(q, []) == q;
    assert After(q, [read]) == Next(q, read) == q.(readers := {1});
    assert After(q, [read, write]) == Next(q.(readers := {1}), write);
  }

  // ---- The ring --------------------------------------------------------------------------------------

  class Ring {
    const data: array<byte>
    var nread: int
    var nwrite: int
    var readopen: bool
    var writeopen: bool
    var readers: set<int> // asleep on &nread
    var writers: set<int> // asleep on &nwrite
    ghost var r: nat      // bytes read and written since the pipe was made
    ghost var w: nat
    ghost var written: seq<byte>

    /** `pipealloc` */
    constructor ()
      ensures Fifo() && Contents() == Queue([], true, true, {}, {}) && fresh(data)
    {
      data := new byte[512];
      nread, nwrite, readopen, writeopen, readers, writers := 0, 0, true, true, {}, {};
      r, w, written := 0, 0, [];
    }

    /** The ring holds the bytes written and not yet read, at most 512 of them, and the counters count them. */
    ghost predicate Fifo()
      reads this, data
    {
      && data.Length == 512 && nread == Wrapped(r) && nwrite == Wrapped(w) && r <= w <= r + 512 && |written| == w
      && forall k: nat :: r <= k < w ==> data[Place(k)] == written[k]
    }

    /** The queue that the ring stands for. */
    ghost function Contents(): (q: Queue)
      requires Fifo()
      reads this, data
      ensures |q.held| == w - r <= PIPESIZE
    {
      Queue(written[r..], readopen, writeopen, readers, writers)
    }

    method Put(b: byte)
      requires Fifo() && w < r + 512
      modifies this`nwrite, this`w, this`written, data
      ensures Fifo() && w == old(w) + 1 && written == old(written) + [b]
    {
      WrappedPlace(w);
      AddWrapped(w, 1);
      forall k: nat | r <= k < w ensures Place(k) != Place(w) {
        PlaceApart(k, w);
      }
      hide Wrapped;
      data[nwrite % 512] := b;
      nwrite := Add(nwrite, 1);
      w, written := w + 1, written + [b];
    }

    method Take() returns (b: byte)
      requires Fifo() && r < w
      modifies this`nread, this`r
      ensures Fifo() && r == old(r) + 1 && b == written[old(r)]
    {
      WrappedPlace(r);
      AddWrapped(r, 1);
      hide Wrapped;
      b := data[nread % 512];
      nread := Add(nread, 1);
      r := r + 1;
    }

    /** `pipewrite` by process p, from its i-th byte on, until it returns or sleeps. */
    method Write(p: int, bytes: seq<byte>, i: nat, killed: bool) returns (result: WriteResult, j: nat)
      requires Fifo() && i <= |bytes| && writeopen
      modifies this`nwrite, this`w, this`written, this`readers, this`writers, data
      ensures Fifo() && Contents() == Next(old(Contents()), DoWrite(p, bytes[i..], killed))
      ensures i <= j <= |bytes| && bytes[i..j] == Accepted(old(Contents()), DoWrite(p, bytes[i..], killed))
      ensures result == Written <==> old(w - r) + (|bytes| - i) <= 512
      ensures result == Broken <==> old(w - r) + (|bytes| - i) > 512 && (!readopen || killed)
      ensures j == if result == Written then |bytes| else i + (512 - old(w - r))
      ensures Contents().held == old(Contents().held) + bytes[i..j]
      ensures readers == if result == Broken then old(readers) else {}
      ensures writers == if result == WriteSleeps then old(writers) + {p} else old(writers)
    {
      j := i;
      while j < |bytes|
        invariant i <= j <= |bytes| && Fifo() && written == old(written) + bytes[i..j] && readers == old(readers)
                  && writers == old(writers)
        invariant w == old(w) + (j - i)
      {
        WrappedApart(r, w);
        if nwrite == Add(nread, PIPESIZE) {
          Grown(old(written), r, bytes, i, j);
          if !readopen || killed {
            return Broken, j;
          }
          readers := {};
          writers := writers + {p};
          return WriteSleeps, j;
        }
        Put(bytes[j]);
        j := j + 1;
      }
      Grown(old(written), r, bytes, i, j);
      readers := {};
      return Written, j;
    }

    /** The loop of `piperead`. */
    method Copy(n: nat) returns (bytes: seq<byte>)
      requires Fifo()
      modifies this`nread, this`r
      ensures Fifo() && r == old(r) + |bytes| && bytes == written[old(r)..r] && |bytes| == Least(n, old(w - r))
    {
      bytes := [];
      while |bytes| < n
        invariant |bytes| <= n && Fifo() && r == old(r) + |bytes| && bytes == written[old(r)..r]
      {
        WrappedApart(r, w);
        if nread == nwrite {
          break;
        }
        hide Wrapped;
        var b := Take();
        bytes := bytes + [b];
      }
    }

    /** `piperead` by process p of up to n bytes, until it returns or sleeps. Nothing to read and no one left to
        write reads as nothing. */
    method Read(p: int, n: nat, killed: bool) returns (result: ReadResult)
      requires Fifo() && readopen
      modifies this`nread, this`r, this`readers, this`writers
      ensures Fifo() && Contents() == Next(old(Contents()), DoRead(p, n, killed))
      ensures result.Got? <==> old(w - r) > 0 || !writeopen
      ensures result.Interrupted? <==> old(w - r) == 0 && writeopen && killed
      ensures result.Got? ==> |result.bytes| == (if n < old(w - r) then n else old(w - r))
                              && old(Contents().held) == result.bytes + Contents().held
      ensures !result.Got? ==> Contents().held == old(Contents().held)
      ensures result.Got? ==> result.bytes == Returned(old(Contents()), DoRead(p, n, killed))
      ensures readers == if result.ReadSleeps? then old(readers) + {p} else old(readers)
      ensures writers == if result.Got? then {} else old(writers)
    {
      WrappedApart(r, w);
      hide Wrapped, Place;
      if nread == nwrite && writeopen {
        if killed {
          return Interrupted;
        }
        readers := readers + {p};
        return ReadSleeps;
      }
      var bytes := Copy(n);
      Shrunk(written, old(r), r);
      writers := {};
      return Got(bytes);
    }

    /** `pipeclose` of one end, when no one uses that end any more. */
    method Close(writable: bool)
      requires Fifo() && (if writable then writers == {} else readers == {})
      modifies this`readopen, this`writeopen, this`readers, this`writers
      ensures Fifo() && Contents() == Next(old(Contents()), DoClose(writable))
      ensures writeopen == (old(writeopen) && !writable) && readopen == (old(readopen) && writable)
      ensures readers == (if writable then {} else old(readers)) && writers == if writable then old(writers) else {}
    {
      if writable {
        writeopen := false;
        readers := {};
      } else {
        readopen := false;
        writers := {};
      }
    }

    /** `kill` wakes a sleeper. */
    method Wake(p: int)
      requires Fifo()
      modifies this`readers, this`writers
      ensures Fifo() && Contents() == Next(old(Contents()), DoWake(p))
      ensures readers == old(readers) - {p} && writers == old(writers) - {p}
    {
      readers, writers := readers - {p}, writers - {p};
    }

    /** One event, and the bytes it has accepted or returned. */
    method Perform(e: Event) returns (put: seq<byte>, got: seq<byte>)
      requires Fifo()
      modifies this, data
      ensures Fifo() && Contents() == Next(old(Contents()), e)
      ensures put == Accepted(old(Contents()), e) && got == Returned(old(Contents()), e)
    {
      put, got := [], [];
      match e {
        case DoWrite(p, bytes, killed) =>
          if writeopen {
            assert bytes[0..] == bytes;
            var result, j := Write(p, bytes, 0, killed);
            put := bytes[..j];
            assert bytes[0..j] == put;
          }
        case DoRead(p, count, killed) =>
          if readopen {
            var result := Read(p, count, killed);
            if result.Got? {
              got := result.bytes;
            }
          }
        case DoClose(writable) =>
          if if writable then writers == {} else readers == {} {
            Close(writable);
          }
        case DoWake(p) =>
          Wake(p);
      }
    }

    /** Over any run, in any order, by any number of processes, the ring with its wrapping counters is the queue. What
        the writes have accepted and the reads have returned are the queue's, so that FirstInFirstOut is about them. */
    method Run(es: seq<Event>) returns (put: seq<byte>, got: seq<byte>)
      requires Fifo()
      modifies this, data
      ensures Fifo() && Contents() == After(old(Contents()), es)
      ensures put == PutIn(old(Contents()), es) && got == TakenOut(old(Contents()), es)
      ensures old(Contents()).held + put == got + Contents().held
    {
      put, got := [], [];
      ghost var q := Contents();
      for n := 0 to |es|
        invariant Fifo() && Contents() == After(q, es[..n]) && put == PutIn(q, es[..n]) && got == TakenOut(q, es[..n])
      {
        var a, b := Perform(es[n]);
        put, got := put + a, got + b;
        assert es[..n + 1][..n] == es[..n];
      }
      assert es[..|es|] == es;
      FirstInFirstOut(q, es);
    }
  }

  lemma Grown(was: seq<byte>, r: nat, bytes: seq<byte>, i: nat, j: nat)
    requires r <= |was| && i <= j <= |bytes|
    ensures (was + bytes[i..j])[r..] == was[r..] + bytes[i..][..j - i] && bytes[i..][..j - i] == bytes[i..j]
  {
  }

  lemma Shrunk(written: seq<byte>, was: nat, r: nat)
    requires was <= r <= |written|
    ensures written[was..][r - was..] == written[r..] && written[was..][..r - was] == written[was..r]
    ensures written[was..] == written[was..r] + written[r..]
  {
  }
}
