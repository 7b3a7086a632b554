/** The redo log as a function of the disk image: what the on-disk log means, what recovery
    makes of any image a crash can leave behind, and why that is all or nothing. */
module LogSpec {
  import opened Bytes
  import opened Finite

  const LOGSIZE: nat := 10

  /** Sector number to contents; a crash keeps this and loses everything else. */
  type Image = seq<Block>

  /** `log.start` and `log.size`: the header sector is `start`, log block i is `start + 1 + i`. */
  datatype Layout = Layout(start: nat, size: nat)

  datatype Write = Write(sector: uint32, data: Block)

  /** The `log_write`s of a transaction, in order. */
  datatype Writes = Nothing | Then(front: Writes, last: Write)

  predicate LayoutFits(l: Layout, sectors: nat) {
    0 < l.size && l.start + l.size <= sectors <= 0x1_0000_0000
  }

  /** A sector of the file system proper, outside the log area. */
  predicate Home(l: Layout, s: nat) {
    s < l.start || l.start + l.size <= s
  }

  ghost predicate SameHome(l: Layout, a: Image, b: Image) {
    |a| == |b| && forall s: nat :: s < |a| && Home(l, s) ==> a[s] == b[s]
  }

  // ---- The on-disk header --------------------------------------------------------------

  function HeaderN(l: Layout, d: Image): (n: nat)
    requires l.start < |d|
  {
    U32(d[l.start], 0)
  }

  function HeaderSector(l: Layout, d: Image, i: nat): (s: nat)
    requires l.start < |d| && i < LOGSIZE
  {
    U32(d[l.start], 1 + i)
  }

  /** A header that recovery can act on: in bounds, and naming only home sectors. */
  ghost predicate WellFormed(l: Layout, d: Image) {
    && LayoutFits(l, |d|)
    && HeaderN(l, d) <= LOGSIZE
    && HeaderN(l, d) < l.size
    && forall i: nat :: i < HeaderN(l, d) ==> HeaderSector(l, d, i) < |d| && Home(l, HeaderSector(l, d, i))
  }

  /** The block `write_head` produces from the old header block and the in-memory header. */
  ghost function HeaderBlock(b: Block, sectors: seq<uint32>): (r: Block)
    requires |sectors| <= LOGSIZE
    ensures U32(r, 0) == |sectors|
    ensures forall i: nat :: i < |sectors| ==> U32(r, 1 + i) == sectors[i]
  {
    PutWords(PutU32(b, 0, |sectors|), 1, sectors)
  }

  ghost function PutWords(b: Block, w: nat, vs: seq<uint32>): (r: Block)
    requires w + |vs| <= WORDS
    ensures forall i: nat :: i < |vs| ==> U32(r, w + i) == vs[i]
    ensures forall k: nat :: k < WORDS && !(w <= k < w + |vs|) ==> U32(r, k) == U32(b, k)
  {
    if vs == [] then b
    else
      var last := |vs| - 1;
      PutU32(PutWords(b, w, vs[..last]), w + last, vs[last])
  }

  // ---- Recovery ------------------------------------------------------------------------

  /** The image after `install_trans` has copied the first k log blocks home. */
  function Installed(l: Layout, d: Image, k: nat): (r: Image)
    requires WellFormed(l, d) && k <= HeaderN(l, d)
    ensures |r| == |d|
    ensures forall s: nat :: s < |d| && !Home(l, s) ==> r[s] == d[s]
  {
    if k == 0 then d
    else Installed(l, d, k - 1)[HeaderSector(l, d, k - 1) := d[l.start + k]]
  }

  ghost function Cleared(l: Layout, d: Image): (r: Image)
    requires l.start < |d|
  {
    d[l.start := HeaderBlock(d[l.start], [])]
  }

  /** What a completed `recover_from_log` leaves on disk. */
  ghost function Recovered(l: Layout, d: Image): (r: Image)
    requires WellFormed(l, d)
    ensures |r| == |d|
  {
    Cleared(l, Installed(l, d, HeaderN(l, d)))
  }

  /** The images recovery passes through, one per sector write. */
  ghost function RecoveryImages(l: Layout, d: Image): (t: seq<Image>)
    requires WellFormed(l, d)
  {
    InstallImages(l, d, HeaderN(l, d)) + [Recovered(l, d)]
  }

  function InstallImages(l: Layout, d: Image, k: nat): (t: seq<Image>)
    requires WellFormed(l, d) && k <= HeaderN(l, d)
    ensures |t| == k
    ensures forall i: nat :: i < k ==> t[i] == Installed(l, d, i + 1)
  {
    if k == 0 then [] else InstallImages(l, d, k - 1) + [Installed(l, d, k)]
  }

  lemma InstalledStep(l: Layout, d: Image, k: nat, to: nat, before: Image, after: Image)
    requires WellFormed(l, d) && k < HeaderN(l, d) && to == HeaderSector(l, d, k)
    requires before == Installed(l, d, k) && after == before[to := before[l.start + k + 1]]
    ensures after == Installed(l, d, k + 1)
    ensures InstallImages(l, d, k + 1) == InstallImages(l, d, k) + [after]
  {
  }

  /** The last of the first k header entries that names sector s, or -1. */
  function LastNaming(h: Block, k: nat, s: nat): (i: int)
    requires k <= LOGSIZE
    ensures -1 <= i < k
  {
    if k == 0 then -1
    else if U32(h, k) == s then k - 1
    else LastNaming(h, k - 1, s)
  }

  /** A home sector ends up with the contents of the last log block the header names it for. */
  lemma {:induction false} InstalledAt(l: Layout, d: Image, k: nat, s: nat)
    requires WellFormed(l, d) && k <= HeaderN(l, d) && s < |d|
    ensures var i := LastNaming(d[l.start], k, s);
            Installed(l, d, k)[s] == if i < 0 then d[s] else d[l.start + 1 + i]
  {
    if k > 0 {
      InstalledAt(l, d, k - 1, s);
    }
  }

  lemma RecoveredAt(l: Layout, d: Image, s: nat, i: int)
    requires WellFormed(l, d) && s < |d| && Home(l, s)
    requires i == LastNaming(d[l.start], HeaderN(l, d), s)
    ensures i < 0 ==> Recovered(l, d)[s] == d[s]
    ensures i >= 0 ==> Recovered(l, d)[s] == d[l.start + 1 + i]
  {
    InstalledAt(l, d, HeaderN(l, d), s);
  }

  /** Entry i of a log header is the last of its entries to name sector s. */
  ghost predicate LastEntry(h: Block, i: nat, s: nat) {
    && i < U32(h, 0) <= LOGSIZE && U32(h, 1 + i) == s
    && forall j: nat :: 1 + i < j <= U32(h, 0) ==> U32(h, j) != s
  }

  /** What recovery is for: every sector that the header names has the log block of the last entry that names it, the
      others outside the log are as they were, and the log is empty. */
  ghost predicate Replayed(l: Layout, d: Image, r: Image) {
    && |r| == |d| && l.start < |d| && U32(r[l.start], 0) == 0
    && (forall s: nat, i: nat :: s < |d| && LastEntry(d[l.start], i, s) ==>
          l.start + 1 + i < |d| && r[s] == d[l.start + 1 + i])
    && (forall s: nat :: s < |d| && Home(l, s) && (forall i: nat :: !LastEntry(d[l.start], i, s)) ==> r[s] == d[s])
  }

  lemma {:induction false} LastNamingIs(h: Block, k: nat, s: nat, i: nat)
    requires k <= LOGSIZE
    ensures LastNaming(h, k, s) == i <==>
            i < k && U32(h, 1 + i) == s && forall j: nat :: 1 + i < j <= k ==> U32(h, j) != s
  {
    hide U32;
    if k > 0 {
      LastNamingIs(h, k - 1, s, i);
    }
  }

  lemma RecoveredReplays(l: Layout, d: Image)
    requires WellFormed(l, d)
    ensures Replayed(l, d, Recovered(l, d))
  {
    var r, n := Recovered(l, d), HeaderN(l, d);
    forall s: nat, i: nat | s < |d| && LastEntry(d[l.start], i, s)
      ensures l.start + 1 + i < |d| && r[s] == d[l.start + 1 + i]
    {
      LastNamingIs(d[l.start], n, s, i);
      assert HeaderSector(l, d, i) == s;
      RecoveredAt(l, d, s, i);
    }
    forall s: nat | s < |d| && Home(l, s) && forall i: nat :: !LastEntry(d[l.start], i, s) ensures r[s] == d[s] {
      var i := LastNaming(d[l.start], n, s);
      if i >= 0 {
        LastNamingIs(d[l.start], n, s, i);
        assert LastEntry(d[l.start], i, s);
      }
      RecoveredAt(l, d, s, i);
    }
  }

  lemma {:induction false} LastNamingMonotone(h: Block, k: nat, n: nat, s: nat)
    requires k <= n <= LOGSIZE
    ensures LastNaming(h, k, s) <= LastNaming(h, n, s)
    decreases n
  {
    if k < n {
      LastNamingMonotone(h, k, n - 1, s);
    }
  }

  lemma SameHeader(l: Layout, d: Image, e: Image)
    requires WellFormed(l, d) && |e| == |d| && e[l.start] == d[l.start]
    ensures WellFormed(l, e) && HeaderN(l, e) == HeaderN(l, d)
  {
    forall i: nat | i < HeaderN(l, e)
      ensures HeaderSector(l, e, i) < |e| && Home(l, HeaderSector(l, e, i))
    {
      assert HeaderSector(l, e, i) == HeaderSector(l, d, i);
    }
  }

  /** A partly installed image is as good as the original: installing again finishes the job. */
  lemma InstallAgain(l: Layout, d: Image, k: nat)
    requires WellFormed(l, d) && k <= HeaderN(l, d)
    ensures WellFormed(l, Installed(l, d, k)) && HeaderN(l, Installed(l, d, k)) == HeaderN(l, d)
    ensures Installed(l, Installed(l, d, k), HeaderN(l, d)) == Installed(l, d, HeaderN(l, d))
  {
    var e, n := Installed(l, d, k), HeaderN(l, d);
    SameHeader(l, d, e);
    hide Installed, WellFormed;
    forall s: nat | s < |d| ensures Installed(l, e, n)[s] == Installed(l, d, n)[s] {
      InstallAgainAt(l, d, k, s);
    }
  }

  lemma InstallAgainAt(l: Layout, d: Image, k: nat, s: nat)
    requires WellFormed(l, d) && k <= HeaderN(l, d) && s < |d|
    requires WellFormed(l, Installed(l, d, k)) && HeaderN(l, Installed(l, d, k)) == HeaderN(l, d)
    ensures Installed(l, Installed(l, d, k), HeaderN(l, d))[s] == Installed(l, d, HeaderN(l, d))[s]
  {
    var e, n := Installed(l, d, k), HeaderN(l, d);
    InstalledAt(l, e, n, s);
    InstalledAt(l, d, n, s);
    InstalledAt(l, d, k, s);
    LastNamingMonotone(d[l.start], k, n, s);
  }

  /** Recovering a recovered disk changes nothing. */
  lemma RecoveredIsClean(l: Layout, d: Image)
    requires WellFormed(l, d)
    ensures WellFormed(l, Recovered(l, d)) && HeaderN(l, Recovered(l, d)) == 0
    ensures Recovered(l, Recovered(l, d)) == Recovered(l, d)
  {
    var r := Recovered(l, d);
    assert U32(r[l.start], 0) == 0;
    PutSame(r[l.start], 0);
  }

  /** A crash at any sector write of recovery leaves an image that recovers to the same disk. */
  lemma CrashInRecovery(l: Layout, d: Image, i: nat)
    requires WellFormed(l, d) && i < |RecoveryImages(l, d)|
    ensures WellFormed(l, RecoveryImages(l, d)[i])
    ensures Recovered(l, RecoveryImages(l, d)[i]) == Recovered(l, d)
  {
    hide Installed, Cleared, U32;
    if i < HeaderN(l, d) {
      InstallAgain(l, d, i + 1);
    } else {
      RecoveredIsClean(l, d);
    }
  }

  /** Reboots that each crash during recovery: every image is the one before it, or one of the
      images that recovering the one before it writes. */
  ghost predicate CrashChain(l: Layout, ds: seq<Image>) {
    && |ds| > 0
    && WellFormed(l, ds[0])
    && forall j: nat :: j + 1 < |ds| ==> CrashStep(l, ds[j], ds[j + 1])
  }

  ghost predicate CrashStep(l: Layout, d: Image, e: Image) {
    WellFormed(l, d) && (e == d || e in RecoveryImages(l, d))
  }

  /** However often recovery is itself cut short, the recovery that completes gives the same disk. */
  lemma {:induction false} CrashChainRecovers(l: Layout, ds: seq<Image>)
    requires CrashChain(l, ds)
    ensures WellFormed(l, ds[|ds| - 1])
    ensures Recovered(l, ds[|ds| - 1]) == Recovered(l, ds[0])
  {
    if |ds| > 1 {
      var n := |ds| - 1;
      var front := ds[..n];
      assert CrashChain(l, front) by {
        forall j: nat | j + 1 < |front| ensures CrashStep(l, front[j], front[j + 1]) {
          assert CrashStep(l, ds[j], ds[j + 1]);
        }
      }
      CrashChainRecovers(l, front);
      assert CrashStep(l, ds[n - 1], ds[n - 1 + 1]);
      if ds[n] != ds[n - 1] {
        var i :| 0 <= i < |RecoveryImages(l, ds[n - 1])| && RecoveryImages(l, ds[n - 1])[i] == ds[n];
        CrashInRecovery(l, ds[n - 1], i);
      }
    }
  }

  // ---- One transaction -----------------------------------------------------------------

  function Count(ws: Writes): nat {
    match ws
    case Nothing => 0
    case Then(front, _) => Count(front) + 1
  }

  /** Every write goes to a sector of the disk outside the log. */
  predicate HomeWrites(l: Layout, sectors: nat, ws: Writes) {
    match ws
    case Nothing => true
    case Then(front, w) => HomeWrites(l, sectors, front) && w.sector < sectors && Home(l, w.sector)
  }

  /** What the transaction means: the writes applied in order to a plain sector map. */
  function Apply(l: Layout, d: Image, ws: Writes): (r: Image)
    requires HomeWrites(l, |d|, ws)
    ensures |r| == |d|
  {
    match ws
    case Nothing => d
    case Then(front, w) => Apply(l, d, front)[w.sector := w.data]
  }

  /** The sectors in the in-memory header after logging ws, with absorption. */
  function Logged(ws: Writes): (sectors: seq<uint32>) {
    match ws
    case Nothing => []
    case Then(front, w) =>
      if w.sector in Logged(front) then Logged(front) else Logged(front) + [w.sector]
  }

  lemma {:induction false} LoggedOnce(ws: Writes)
    ensures Distinct(Logged(ws))
  {
    if ws.Then? {
      LoggedOnce(ws.front);
    }
  }

  /** Only home sectors are in the header. */
  lemma {:induction false} LoggedAreHome(l: Layout, n: nat, ws: Writes)
    requires HomeWrites(l, n, ws)
    ensures forall i :: 0 <= i < |Logged(ws)| ==> Logged(ws)[i] < n && Home(l, Logged(ws)[i])
  {
    if ws.Then? {
      LoggedAreHome(l, n, ws.front);
    }
  }

  /** The slot `log_write` picks for sector s: the first that already holds it, or the next. */
  ghost function Slot(sectors: seq<uint32>, s: uint32): (i: nat)
    ensures SlotFor(sectors, s, i)
  {
    SlotExists(sectors, s);
    var i: nat :| SlotFor(sectors, s, i);
    i
  }

  ghost predicate SlotFor(sectors: seq<uint32>, s: uint32, i: nat) {
    && i <= |sectors|
    && (i < |sectors| ==> sectors[i] == s)
    && forall j :: 0 <= j < i ==> sectors[j] != s
  }

  lemma {:induction false} SlotExists(sectors: seq<uint32>, s: uint32)
    ensures exists i: nat :: SlotFor(sectors, s, i)
  {
    if sectors == [] || sectors[0] == s {
      assert SlotFor(sectors, s, 0);
    } else {
      SlotExists(sectors[1..], s);
      var i: nat :| SlotFor(sectors[1..], s, i);
      assert forall j :: 0 < j <= i ==> sectors[j] == sectors[1..][j - 1];
      assert SlotFor(sectors, s, i + 1);
    }
  }

  /** The writes fit the log and leave it alone. */
  ghost predicate Loggable(l: Layout, d: Image, ws: Writes) {
    && LayoutFits(l, |d|)
    && HeaderN(l, d) == 0
    && |Logged(ws)| <= LOGSIZE
    && |Logged(ws)| < l.size
    && HomeWrites(l, |d|, ws)
  }

  /** `log_write` checks for room before each write, whether or not it will be absorbed. */
  predicate Accepted(l: Layout, ws: Writes) {
    match ws
    case Nothing => true
    case Then(front, _) => Accepted(l, front) && |Logged(front)| < LOGSIZE && |Logged(front)| + 1 < l.size
  }

  /** What leaves room for one more sector has been accepted throughout. */
  lemma {:induction false} FewAccepted(l: Layout, ws: Writes)
    requires |Logged(ws)| < LOGSIZE && |Logged(ws)| + 1 < l.size
    ensures Accepted(l, ws)
  {
    if ws.Then? {
      FewAccepted(l, ws.front);
    }
  }

  /** The disk after the `log_write`s and before the commit. */
  ghost function LogImage(l: Layout, d: Image, ws: Writes): (r: Image)
    requires Loggable(l, d, ws)
    ensures |r| == |d| && r[l.start] == d[l.start] && SameHome(l, r, d)
  {
    match ws
    case Nothing => d
    case Then(front, w) => LogImage(l, d, front)[l.start + 1 + Slot(Logged(front), w.sector) := w.data]
  }

  /** The disk right after `write_head` has written the commit header. */
  ghost function CommitImage(l: Layout, d: Image, ws: Writes): (r: Image)
    requires Loggable(l, d, ws)
    ensures |r| == |d| && HeaderN(l, r) == |Logged(ws)| && SameHome(l, r, d)
  {
    var r := LogImage(l, d, ws);
    r[l.start := HeaderBlock(r[l.start], Logged(ws))]
  }

  /** Before the commit the log holds, slot by slot, the latest contents of the logged sectors. */
  lemma {:induction false} LogHoldsLatest(l: Layout, d: Image, ws: Writes, i: nat)
    requires Loggable(l, d, ws) && i < |Logged(ws)|
    ensures Logged(ws)[i] < |d|
    ensures LogImage(l, d, ws)[l.start + 1 + i] == Apply(l, d, ws)[Logged(ws)[i]]
  {
    var front, s := ws.front, ws.last.sector;
    LoggedOnce(front);
    if i < |Logged(front)| {
      LogHoldsLatest(l, d, front, i);
    }
  }

  /** A sector that was never written keeps its contents. */
  lemma {:induction false} ApplyElsewhere(l: Layout, d: Image, ws: Writes, s: nat)
    requires HomeWrites(l, |d|, ws)
    requires s < |d| && s !in Logged(ws)
    ensures Apply(l, d, ws)[s] == d[s]
  {
    if ws.Then? {
      ApplyElsewhere(l, d, ws.front, s);
    }
  }

  /** Without the commit header, recovery undoes the transaction. */
  lemma UncommittedIsUndone(l: Layout, d: Image, ws: Writes)
    requires Loggable(l, d, ws)
    ensures WellFormed(l, LogImage(l, d, ws))
    ensures SameHome(l, Recovered(l, LogImage(l, d, ws)), d)
  {
  }

  /** With the commit header, recovery completes it. */
  lemma CommittedIsRedone(l: Layout, d: Image, ws: Writes)
    requires Loggable(l, d, ws)
    ensures WellFormed(l, CommitImage(l, d, ws))
    ensures SameHome(l, Recovered(l, CommitImage(l, d, ws)), Apply(l, d, ws))
  {
    var c, sectors := CommitImage(l, d, ws), Logged(ws);
    LoggedAreHome(l, |d|, ws);
    forall i: nat | i < HeaderN(l, c)
      ensures HeaderSector(l, c, i) < |c| && Home(l, HeaderSector(l, c, i))
    {
      assert HeaderSector(l, c, i) == sectors[i];
    }
    forall s: nat | s < |d| && Home(l, s)
      ensures Recovered(l, c)[s] == Apply(l, d, ws)[s]
    {
      CommittedSector(l, d, ws, s);
    }
  }

  lemma CommittedSector(l: Layout, d: Image, ws: Writes, s: nat)
    requires Loggable(l, d, ws) && WellFormed(l, CommitImage(l, d, ws))
    requires s < |d| && Home(l, s)
    ensures Recovered(l, CommitImage(l, d, ws))[s] == Apply(l, d, ws)[s]
  {
    hide HeaderBlock, Installed, Cleared, U32, LogImage, Logged, LastNaming;
    var c := CommitImage(l, d, ws);
    var i := LastNaming(c[l.start], HeaderN(l, c), s);
    RecoveredAt(l, c, s, i);
    CommittedNaming(l, d, ws, s);
    if i >= 0 {
      LogHoldsLatest(l, d, ws, i);
    } else {
      ApplyElsewhere(l, d, ws, s);
    }
  }

  /** The commit header names exactly the logged sectors, and the log blocks are untouched by it. */
  lemma CommittedNaming(l: Layout, d: Image, ws: Writes, s: nat)
    requires Loggable(l, d, ws)
    ensures var i := LastNaming(CommitImage(l, d, ws)[l.start], |Logged(ws)|, s);
            if i >= 0
            then Logged(ws)[i] == s && CommitImage(l, d, ws)[l.start + 1 + i] == LogImage(l, d, ws)[l.start + 1 + i]
            else s !in Logged(ws)
  {
    var h := CommitImage(l, d, ws)[l.start];
    LastNamingFinds(h, Logged(ws), |Logged(ws)|, s);
  }

  lemma {:induction false} LastNamingFinds(h: Block, sectors: seq<uint32>, k: nat, s: nat)
    requires k <= |sectors| <= LOGSIZE
    requires forall i: nat :: i < |sectors| ==> U32(h, 1 + i) == sectors[i]
    ensures var i := LastNaming(h, k, s);
            if i >= 0 then sectors[i] == s else forall j: nat :: j < k ==> sectors[j] != s
  {
    if k > 0 {
      assert U32(h, 1 + (k - 1)) == sectors[k - 1];
      LastNamingFinds(h, sectors, k - 1, s);
    }
  }

  /** The images that the `log_write`s write. */
  ghost function LogImages(l: Layout, d: Image, ws: Writes): (t: seq<Image>)
    requires Loggable(l, d, ws)
    ensures |t| == Count(ws)
  {
    match ws
    case Nothing => []
    case Then(front, _) => LogImages(l, d, front) + [LogImage(l, d, ws)]
  }

  /** Every image the disk passes through in one transaction: the one before it, one per
      `log_write`, then the commit header, the installs, and the erased header. */
  ghost function TransactionImages(l: Layout, d: Image, ws: Writes): (t: seq<Image>)
    requires Loggable(l, d, ws)
    ensures |t| > Count(ws)
  {
    UncommittedImages(l, d, ws) + CommitImages(l, d, ws)
  }

  ghost function UncommittedImages(l: Layout, d: Image, ws: Writes): (t: seq<Image>)
    requires Loggable(l, d, ws)
    ensures |t| == Count(ws) + 1
  {
    [d] + LogImages(l, d, ws)
  }

  ghost function CommitImages(l: Layout, d: Image, ws: Writes): (t: seq<Image>)
    requires Loggable(l, d, ws)
  {
    CommittedIsRedone(l, d, ws);
    [CommitImage(l, d, ws)] + RecoveryImages(l, CommitImage(l, d, ws))
  }

  /** All but the first are what the log's sector writes add to any earlier ones. */
  lemma AfterFirst(l: Layout, d: Image, ws: Writes, earlier: seq<Image>)
    requires Loggable(l, d, ws)
    ensures earlier + LogImages(l, d, ws) + CommitImages(l, d, ws) == earlier + TransactionImages(l, d, ws)[1..]
  {
    hide LogImages, CommitImages;
    DropFirst(earlier, d, LogImages(l, d, ws), CommitImages(l, d, ws));
  }

  lemma NothingWritten(l: Layout, d: Image)
    requires Loggable(l, d, Nothing)
    ensures LogImages(l, d, Nothing) == []
  {
  }

  lemma DropFirst<T>(e: seq<T>, d: T, a: seq<T>, b: seq<T>)
    ensures e + a + b == e + ([d] + a + b)[1..]
  {
    assert ([d] + a + b)[1..] == a + b;
  }

  lemma {:induction false} LogImageRecovers(l: Layout, d: Image, ws: Writes, i: nat)
    requires Loggable(l, d, ws) && i < Count(ws)
    ensures WellFormed(l, LogImages(l, d, ws)[i])
    ensures SameHome(l, Recovered(l, LogImages(l, d, ws)[i]), d)
  {
    if i + 1 < Count(ws) {
      LogImageRecovers(l, d, ws.front, i);
    } else {
      UncommittedIsUndone(l, d, ws);
    }
  }

  lemma {:induction false} UncommittedImageRecovers(l: Layout, d: Image, ws: Writes, i: nat)
    requires Loggable(l, d, ws) && i <= Count(ws)
    ensures WellFormed(l, UncommittedImages(l, d, ws)[i])
    ensures SameHome(l, Recovered(l, UncommittedImages(l, d, ws)[i]), d)
  {
    if i > 0 {
      LogImageRecovers(l, d, ws, i - 1);
    }
  }

  lemma CommitImageRecovers(l: Layout, d: Image, ws: Writes, k: nat)
    requires Loggable(l, d, ws) && k < |CommitImages(l, d, ws)|
    ensures WellFormed(l, CommitImages(l, d, ws)[k])
    ensures SameHome(l, Recovered(l, CommitImages(l, d, ws)[k]), Apply(l, d, ws))
  {
    CommittedIsRedone(l, d, ws);
    if k > 0 {
      CrashInRecovery(l, CommitImage(l, d, ws), k - 1);
    }
  }

  /** Crash atomicity. Take any transaction, cut the power after any of its sector writes, and
      cut it again during any number of recoveries: the recovery that completes finds the home
      sectors as they were before the transaction, or as they are after all of it, and which of
      the two depends only on whether the commit header had been written. */
  lemma CrashAtomicity(l: Layout, d: Image, ws: Writes, i: nat, ds: seq<Image>)
    requires Loggable(l, d, ws)
    requires i < |TransactionImages(l, d, ws)|
    requires CrashChain(l, ds) && ds[0] == TransactionImages(l, d, ws)[i]
    ensures WellFormed(l, ds[|ds| - 1])
    ensures SameHome(l, Recovered(l, ds[|ds| - 1]), if i <= Count(ws) then d else Apply(l, d, ws))
  {
    hide Recovered, SameHome, CrashChain, UncommittedImages, LogImage;
    CrashChainRecovers(l, ds);
    if i <= Count(ws) {
      UncommittedImageRecovers(l, d, ws, i);
    } else {
      CommitImageRecovers(l, d, ws, i - Count(ws) - 1);
    }
  }

  // ---- Sectors that are left alone -----------------------------------------------------------

  /** Recovery of this disk has nothing to do with home sector s. */
  ghost predicate Spares(l: Layout, d: Image, s: nat) {
    && WellFormed(l, d) && s < |d| && Home(l, s)
    && forall i: nat :: i < HeaderN(l, d) ==> HeaderSector(l, d, i) != s
  }

  lemma {:induction false} InstalledSpares(l: Layout, d: Image, k: nat, s: nat)
    requires Spares(l, d, s) && k <= HeaderN(l, d)
    ensures Installed(l, d, k)[s] == d[s] && Spares(l, Installed(l, d, k), s)
  {
    if k > 0 {
      InstalledSpares(l, d, k - 1, s);
      assert HeaderSector(l, d, k - 1) != s;
    }
    var e := Installed(l, d, k);
    SameHeader(l, d, e);
    forall i: nat | i < HeaderN(l, e) ensures HeaderSector(l, e, i) != s {
      assert HeaderSector(l, e, i) == HeaderSector(l, d, i);
    }
  }

  lemma StepSpares(l: Layout, d: Image, e: Image, s: nat)
    requires CrashStep(l, d, e) && Spares(l, d, s)
    ensures Spares(l, e, s) && e[s] == d[s]
  {
    hide Cleared, HeaderN, HeaderSector;
    if e != d {
      hide Spares, Installed;
      var i :| 0 <= i < |RecoveryImages(l, d)| && RecoveryImages(l, d)[i] == e;
      if i < HeaderN(l, d) {
        InstalledSpares(l, d, i + 1, s);
      } else {
        RecoveredSpares(l, d, s);
      }
    }
  }

  lemma RecoveredSpares(l: Layout, d: Image, s: nat)
    requires Spares(l, d, s)
    ensures Spares(l, Recovered(l, d), s) && Recovered(l, d)[s] == d[s]
  {
    InstalledSpares(l, d, HeaderN(l, d), s);
    RecoveredIsClean(l, d);
  }

  lemma {:induction false} ChainSpares(l: Layout, ds: seq<Image>, s: nat)
    requires CrashChain(l, ds) && Spares(l, ds[0], s)
    ensures Spares(l, ds[|ds| - 1], s) && ds[|ds| - 1][s] == ds[0][s]
  {
    if |ds| > 1 {
      hide Spares;
      var n := |ds| - 1;
      var front := ds[..n];
      assert CrashChain(l, front) by {
        forall j: nat | j + 1 < |front| ensures CrashStep(l, front[j], front[j + 1]) {
          assert CrashStep(l, ds[j], ds[j + 1]);
        }
      }
      ChainSpares(l, front, s);
      assert CrashStep(l, ds[n - 1], ds[n - 1 + 1]);
      StepSpares(l, ds[n - 1], ds[n], s);
    }
  }

  lemma {:induction false} LogImageSpares(l: Layout, d: Image, ws: Writes, i: nat, s: nat)
    requires Loggable(l, d, ws) && i < Count(ws) && s < |d| && Home(l, s)
    ensures Spares(l, LogImages(l, d, ws)[i], s) && LogImages(l, d, ws)[i][s] == d[s]
  {
    if i + 1 < Count(ws) {
      LogImageSpares(l, d, ws.front, i, s);
    } else {
      UncommittedIsUndone(l, d, ws);
    }
  }

  lemma CommitSpares(l: Layout, d: Image, ws: Writes, s: nat)
    requires Loggable(l, d, ws) && s < |d| && Home(l, s) && s !in Logged(ws)
    ensures Spares(l, CommitImage(l, d, ws), s) && CommitImage(l, d, ws)[s] == d[s]
  {
    CommittedIsRedone(l, d, ws);
    var c := CommitImage(l, d, ws);
    forall i: nat | i < HeaderN(l, c) ensures HeaderSector(l, c, i) != s {
      assert HeaderSector(l, c, i) == Logged(ws)[i];
    }
  }

  /** A home sector that is not logged is the same at every crash point, and after any crashes in recovery. */
  lemma LeftAlone(l: Layout, d: Image, ws: Writes, i: nat, ds: seq<Image>, s: nat)
    requires Loggable(l, d, ws) && s < |d| && Home(l, s) && s !in Logged(ws) && i < |TransactionImages(l, d, ws)|
    requires CrashChain(l, ds) && ds[0] == TransactionImages(l, d, ws)[i]
    ensures Spares(l, ds[|ds| - 1], s) && ds[|ds| - 1][s] == d[s]
  {
    hide Spares, CrashStep, TransactionImages, Logged;
    ImageSpares(l, d, ws, i, s);
    ChainSpares(l, ds, s);
  }

  lemma ImageSpares(l: Layout, d: Image, ws: Writes, i: nat, s: nat)
    requires Loggable(l, d, ws) && s < |d| && Home(l, s) && s !in Logged(ws) && i < |TransactionImages(l, d, ws)|
    ensures Spares(l, TransactionImages(l, d, ws)[i], s) && TransactionImages(l, d, ws)[i][s] == d[s]
  {
    hide Spares, LogImages, CommitImages, Logged;
    if i == 0 {
      StartSpares(l, d, ws, s);
    } else if i <= Count(ws) {
      LogImageSpares(l, d, ws, i - 1, s);
    } else {
      CommitImagesSpare(l, d, ws, i - Count(ws) - 1, s);
    }
  }

  lemma CommitImagesSpare(l: Layout, d: Image, ws: Writes, j: nat, s: nat)
    requires Loggable(l, d, ws) && s < |d| && Home(l, s) && s !in Logged(ws) && j < |CommitImages(l, d, ws)|
    ensures Spares(l, CommitImages(l, d, ws)[j], s) && CommitImages(l, d, ws)[j][s] == d[s]
  {
    CommitSpares(l, d, ws, s);
    hide Spares, RecoveryImages, Logged, CommitImage;
    var c := CommitImage(l, d, ws);
    if j > 0 {
      CommittedIsRedone(l, d, ws);
      assert CommitImages(l, d, ws)[j] == RecoveryImages(l, c)[j - 1];
      assert CrashStep(l, c, RecoveryImages(l, c)[j - 1]);
      StepSpares(l, c, RecoveryImages(l, c)[j - 1], s);
    }
  }

  lemma StartSpares(l: Layout, d: Image, ws: Writes, s: nat)
    requires Loggable(l, d, ws) && s < |d| && Home(l, s)
    ensures Spares(l, d, s)
  {
  }
}
