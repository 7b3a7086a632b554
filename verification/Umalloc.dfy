/** The user-level heap allocator. Addresses and sizes count headers of 8 bytes, which is what C's
    pointer arithmetic on `Header*` does. */
module Umalloc {
  datatype Header = Header(ptr: int, size: nat)

  /** What `sbrk` answers: no memory, or the address of the memory it added. */
  datatype Sbrk = Fails | Extends(at: int)

  // ---- The free list -----------------------------------------------------------------------------

  /** q comes after p on a circular list of `nodes` in address order with one wrap. */
  ghost predicate Succ(nodes: set<int>, p: int, q: int) {
    && p in nodes && q in nodes
    && if p < q then forall x :: x in nodes ==> x <= p || q <= x
       else forall x :: x in nodes ==> q <= x <= p
  }

  ghost predicate Linked(mem: map<int, Header>, nodes: set<int>, x: int) {
    x in mem && Succ(nodes, x, mem[x].ptr)
  }

  ghost predicate Ring(mem: map<int, Header>, nodes: set<int>) {
    forall x {:trigger Linked(mem, nodes, x)} :: x in nodes ==> Linked(mem, nodes, x)
  }

  /** All links but the one out of p are in place. */
  ghost predicate RingBut(mem: map<int, Header>, nodes: set<int>, p: int) {
    forall x {:trigger Linked(mem, nodes, x)} :: x in nodes && x != p ==> Linked(mem, nodes, x)
  }

  /** Following `ptr` n times. */
  ghost function Walk(mem: map<int, Header>, p: int, n: nat): int {
    if n == 0 then p else var q := Walk(mem, p, n - 1); if q in mem then mem[q].ptr else q
  }

  ghost predicate Reaches(mem: map<int, Header>, p: int, q: int) {
    exists n: nat :: Walk(mem, p, n) == q
  }

  lemma WalkOn(mem: map<int, Header>, p: int, q: int)
    requires Reaches(mem, p, q) && q in mem
    ensures Reaches(mem, p, mem[q].ptr)
  {
    var n: nat :| Walk(mem, p, n) == q;
    assert Walk(mem, p, n + 1) == mem[q].ptr;
  }

  lemma {:induction false} Above(mem: map<int, Header>, nodes: set<int>, start: int, p: int, q: int)
    requires Ring(mem, nodes) && p in nodes && q in nodes && p <= q && Reaches(mem, start, p)
    ensures Reaches(mem, start, q)
    decreases q - p
  {
    if p < q {
      assert Linked(mem, nodes, p);
      WalkOn(mem, start, p);
      Above(mem, nodes, start, mem[p].ptr, q);
    }
  }

  /** The list is one circle: every free block is reached from every other. */
  lemma OneCircle(mem: map<int, Header>, nodes: set<int>, p: int, q: int)
    requires Ring(mem, nodes) && p in nodes && q in nodes
    ensures Reaches(mem, p, q)
  {
    assert Walk(mem, p, 0) == p;
    var top := Highest(nodes, p);
    Above(mem, nodes, p, p, top);
    assert Linked(mem, nodes, top);
    WalkOn(mem, p, top);
    Above(mem, nodes, p, mem[top].ptr, q);
  }

  lemma {:induction false} Highest(nodes: set<int>, p: int) returns (m: int)
    requires p in nodes
    ensures m in nodes && forall x :: x in nodes ==> x <= m
    decreases nodes
  {
    var rest := nodes - {p};
    assert forall x :: x in nodes && x != p ==> x in rest;
    if q :| q in rest {
      m := Highest(rest, q);
      if m < p {
        m := p;
      }
    } else {
      m := p;
    }
  }

  lemma OnePredecessor(nodes: set<int>, p: int, x: int, q: int)
    requires Succ(nodes, p, q) && Succ(nodes, x, q)
    ensures x == p
  {
  }

  lemma SuccWithout(nodes: set<int>, q: int, x: int, y: int)
    requires Succ(nodes, x, y) && x != q && y != q
    ensures Succ(nodes - {q}, x, y)
  {
  }

  lemma SuccJoin(nodes: set<int>, p: int, q: int, r: int)
    requires Succ(nodes, p, q) && Succ(nodes, q, r) && p != q
    ensures Succ(nodes - {q}, p, r)
  {
  }

  /** Unlinking q, the successor of p. */
  lemma Unlink(mem: map<int, Header>, nodes: set<int>, p: int, q: int)
    requires RingBut(mem, nodes, p) && Succ(nodes, p, q) && p != q
    ensures q in mem && Succ(nodes - {q}, p, mem[q].ptr) && RingBut(mem, nodes - {q}, p)
  {
    assert Linked(mem, nodes, q);
    forall x | x in nodes - {q} && x != p ensures Linked(mem, nodes - {q}, x) {
      hide Succ;
      assert Linked(mem, nodes, x);
      if mem[x].ptr == q {
        OnePredecessor(nodes, p, x, q);
      }
      SuccWithout(nodes, q, x, mem[x].ptr);
    }
    SuccJoin(nodes, p, q, mem[q].ptr);
  }

  /** Linking b in after p. */
  lemma Insert(mem: map<int, Header>, nodes: set<int>, p: int, b: int, q: int)
    requires RingBut(mem, nodes, p) && Succ(nodes, p, q) && b !in nodes && p < b && (b < q || q <= p)
    requires p in mem && b in mem && mem[p].ptr == b && mem[b].ptr == q
    ensures Ring(mem, nodes + {b})
  {
    forall x | x in nodes + {b} ensures Linked(mem, nodes + {b}, x) {
      assert x in nodes && x != p ==> Linked(mem, nodes, x);
    }
  }

  /** Only the headers of the listed blocks matter. */
  lemma SameRing(mem: map<int, Header>, mem': map<int, Header>, nodes: set<int>, p: int)
    requires RingBut(mem, nodes, p)
    requires forall x :: x in nodes && x != p ==> x in mem && x in mem' && mem'[x].ptr == mem[x].ptr
    ensures RingBut(mem', nodes, p)
  {
    forall x | x in nodes && x != p ensures Linked(mem', nodes, x) {
      assert Linked(mem, nodes, x);
    }
  }

  // ---- Blocks ------------------------------------------------------------------------------------

  ghost function End(blocks: map<int, nat>, b: int): int
    requires b in blocks
  {
    b + blocks[b]
  }

  ghost predicate Covers(blocks: map<int, nat>, b: int, u: int) {
    b in blocks && b <= u < b + blocks[b]
  }

  /** The blocks are disjoint and together are exactly the units that `sbrk` gave. */
  ghost predicate Tiles(blocks: map<int, nat>, arena: set<int>) {
    && (forall b :: b in blocks ==> blocks[b] > 0)
    && (forall b, c :: b in blocks && c in blocks && b < c ==> End(blocks, b) <= c)
    && (forall b, u :: Covers(blocks, b, u) ==> u in arena)
    && (forall u :: u in arena ==> exists b :: Covers(blocks, b, u))
  }

  /** No two free blocks abut. */
  ghost predicate Apart(blocks: map<int, nat>, live: set<int>) {
    forall b, c :: b in blocks && c in blocks && b !in live && c !in live && b < c ==> End(blocks, b) < c
  }

  ghost function Nodes(blocks: map<int, nat>, live: set<int>, base: int): set<int> {
    blocks.Keys - live + {base}
  }

  ghost predicate HeapOk(base: int, mem: map<int, Header>, blocks: map<int, nat>, live: set<int>, arena: set<int>) {
    && base > 0 && base in mem && arena <= mem.Keys && live <= blocks.Keys
    && Tiles(blocks, arena) && Apart(blocks, live)
    && forall b :: b in blocks ==> base < b && b in mem && mem[b].size == blocks[b]
  }

  /** The units of the live blocks hold what they held. */
  ghost predicate Untouched(mem: map<int, Header>, mem': map<int, Header>, blocks: map<int, nat>, live: set<int>) {
    forall b, u :: b in live && Covers(blocks, b, u) ==> u in mem && u in mem' && mem'[u] == mem[u]
  }

  ghost predicate SameBlocks(blocks: map<int, nat>, blocks': map<int, nat>, live: set<int>) {
    forall b :: b in live ==> b in blocks && b in blocks' && blocks'[b] == blocks[b]
  }

  lemma UntouchedTwice(mem: map<int, Header>, mem1: map<int, Header>, mem2: map<int, Header>, blocks: map<int, nat>,
                       blocks1: map<int, nat>, blocks2: map<int, nat>, live: set<int>)
    requires SameBlocks(blocks, blocks1, live) && Untouched(mem, mem1, blocks, live)
    requires SameBlocks(blocks1, blocks2, live) && Untouched(mem1, mem2, blocks1, live)
    ensures SameBlocks(blocks, blocks2, live) && Untouched(mem, mem2, blocks, live)
  {
  }

  ghost function Units(at: int, n: nat): (s: set<int>)
    ensures forall u :: u in s <==> at <= u < at + n
  {
    if n == 0 then {} else Units(at, n - 1) + {at + n - 1}
  }

  function ZeroUnits(at: int, n: nat): (m: map<int, Header>)
    ensures forall u :: u in m <==> at <= u < at + n
    ensures forall u :: u in m ==> m[u] == Header(0, 0)
  {
    if n == 0 then map[] else ZeroUnits(at, n - 1)[at + n - 1 := Header(0, 0)]
  }

  /** Block b absorbs block c, which starts where b ends. */
  ghost function Merge(blocks: map<int, nat>, b: int, c: int): map<int, nat>
    requires b in blocks && c in blocks
  {
    (blocks - {c})[b := blocks[b] + blocks[c]]
  }

  lemma MergeTiles(blocks: map<int, nat>, arena: set<int>, b: int, c: int)
    requires Tiles(blocks, arena) && b in blocks && c in blocks && b + blocks[b] == c
    ensures Tiles(Merge(blocks, b, c), arena)
  {
    var m := Merge(blocks, b, c);
    forall x, u | Covers(m, x, u) ensures u in arena {
      assert Covers(blocks, x, u) || Covers(blocks, c, u);
    }
    forall u | u in arena ensures exists x :: Covers(m, x, u) {
      var x :| Covers(blocks, x, u);
      assert Covers(m, if x == c then b else x, u);
    }
  }

  /** The last n units of block b become a block of their own. */
  ghost function Split(blocks: map<int, nat>, b: int, n: nat): map<int, nat>
    requires b in blocks && n < blocks[b]
  {
    blocks[b := blocks[b] - n][b + blocks[b] - n := n]
  }

  lemma SplitTiles(blocks: map<int, nat>, arena: set<int>, b: int, n: nat)
    requires Tiles(blocks, arena) && b in blocks && 0 < n < blocks[b]
    ensures b + blocks[b] - n !in blocks
    ensures Tiles(Split(blocks, b, n), arena)
  {
    var c := b + blocks[b] - n;
    assert c in blocks ==> End(blocks, b) <= c;
    var m := Split(blocks, b, n);
    forall x, u | Covers(m, x, u) ensures u in arena {
      assert Covers(blocks, x, u) || Covers(blocks, b, u);
    }
    forall u | u in arena ensures exists x :: Covers(m, x, u) {
      var x :| Covers(blocks, x, u);
      assert Covers(m, x, u) || Covers(m, c, u);
    }
  }

  lemma GrowTiles(blocks: map<int, nat>, arena: set<int>, at: int, n: nat)
    requires Tiles(blocks, arena) && n > 0 && forall u :: u in arena ==> u < at
    ensures at !in blocks && Tiles(blocks[at := n], arena + Units(at, n))
  {
    var m := blocks[at := n];
    forall b | b in blocks ensures b + blocks[b] <= at {
      assert Covers(blocks, b, b + blocks[b] - 1);
    }
    forall x, u | Covers(m, x, u) ensures u in arena + Units(at, n) {
      assert x != at ==> Covers(blocks, x, u);
    }
    forall u | u in arena + Units(at, n) ensures exists x :: Covers(m, x, u) {
      if u in arena {
        var x :| Covers(blocks, x, u);
        assert Covers(m, x, u);
      } else {
        assert Covers(m, at, u);
      }
    }
  }

  // ---- Requests ----------------------------------------------------------------------------------

  /** Units for a request of so many bytes, in 32-bit arithmetic: the payload rounded up, and a header. */
  function UnitsFor(nbytes: nat): (n: nat)
    requires nbytes < 0x1_0000_0000
    ensures n > 0
  {
    (nbytes + 7) % 0x1_0000_0000 / 8 + 1
  }

  /** The signed argument that `sbrk` gets for so many units. */
  function SbrkArgument(nu: nat): int {
    var bytes := nu * 8 % 0x1_0000_0000;
    if bytes < 0x8000_0000 then bytes else bytes - 0x1_0000_0000
  }

  /** A block of `UnitsFor(nbytes)` units has room for the payload exactly when the sum does not wrap. */
  lemma RoomIff(nbytes: nat)
    requires nbytes < 0x1_0000_0000
    ensures 8 * (UnitsFor(nbytes) - 1) >= nbytes <==> nbytes <= 0xFFFF_FFF8
    ensures 8 * (UnitsFor(nbytes) - 1) < nbytes + 8
  {
  }

  /** What `malloc` asks `sbrk` for is what it then takes to have got exactly for requests up to 2^31 - 16 bytes, and
      for those so large that the units wrap around to one: in between the product is negative as an int, or zero. */
  lemma GrowthIff(nbytes: nat)
    requires nbytes < 0x1_0000_0000
    ensures SbrkArgument(UnitsFor(nbytes)) == 8 * UnitsFor(nbytes) <==> AsksRight(nbytes)
  {
  }

  /** The requests for which `sbrk` is asked for what is meant. */
  predicate AsksRight(nbytes: nat) {
    nbytes <= 0x7FFF_FFF0 || 0xFFFF_FFF8 < nbytes < 0x1_0000_0000
  }

  // ---- Freeing -----------------------------------------------------------------------------------

  /** Block bp lies between p and the free block q that follows p; nothing on the list names it yet. */
  ghost predicate Between(base: int, mem: map<int, Header>, blocks: map<int, nat>, live: set<int>, p: int, bp: int,
                          q: int)
  {
    && bp in live && bp in blocks && p < bp && p in mem
    && RingBut(mem, Nodes(blocks, live, base), p) && Succ(Nodes(blocks, live, base), p, q)
    && (bp < q || q <= p)
  }

  /** The first half of `free`: bp takes over its upper neighbour if they abut, and points past it. */
  lemma JoinUpper(base: int, mem: map<int, Header>, blocks: map<int, nat>, live: set<int>, arena: set<int>, p: int,
                  bp: int)
    requires HeapOk(base, mem, blocks, live, arena) && Ring(mem, Nodes(blocks, live, base))
    requires p in mem && Between(base, mem, blocks, live, p, bp, mem[p].ptr) && mem[p].ptr in mem && bp in mem
    requires bp + mem[bp].size == mem[p].ptr
    ensures mem[p].ptr in blocks
    ensures var q := mem[p].ptr;
            var mem' := mem[bp := Header(mem[q].ptr, mem[bp].size + mem[q].size)];
            var blocks' := Merge(blocks, bp, q);
            && HeapOk(base, mem', blocks', live, arena) && Between(base, mem', blocks', live, p, bp, mem'[bp].ptr)
            && p in mem' && mem'[p] == mem[p]
            && bp + mem'[bp].size != mem'[bp].ptr
            && SameBlocks(blocks, blocks', live - {bp}) && Untouched(mem, mem', blocks, live - {bp})
  {
    var q, nodes := mem[p].ptr, Nodes(blocks, live, base);
    assert Linked(mem, nodes, q);
    assert mem[bp].size == blocks[bp] && q in blocks && q !in live && mem[q].size == blocks[q];
    hide Tiles, Apart;
    UpperHeap(base, mem, blocks, live, arena, bp, q, mem[q].ptr);
    UpperRing(base, mem, blocks, live, p, bp, q);
  }

  lemma UpperHeap(base: int, mem: map<int, Header>, blocks: map<int, nat>, live: set<int>, arena: set<int>, bp: int,
                  q: int, r: int)
    requires HeapOk(base, mem, blocks, live, arena) && bp in blocks && bp in live && q in blocks && q !in live
             && bp + blocks[bp] == q
    ensures var mem', blocks' := mem[bp := Header(r, blocks[bp] + blocks[q])], Merge(blocks, bp, q);
            && HeapOk(base, mem', blocks', live, arena)
            && SameBlocks(blocks, blocks', live - {bp}) && Untouched(mem, mem', blocks, live - {bp})
  {
    MergeTiles(blocks, arena, bp, q);
    var mem' := mem[bp := Header(r, blocks[bp] + blocks[q])];
    forall b, u | b in live - {bp} && Covers(blocks, b, u) ensures u in mem && mem'[u] == mem[u] {
      if u == bp {
        OneOwner(blocks, arena, b, bp, u);
      }
    }
    hide Tiles, Covers;
  }

  lemma UpperRing(base: int, mem: map<int, Header>, blocks: map<int, nat>, live: set<int>, p: int, bp: int, q: int)
    requires Between(base, mem, blocks, live, p, bp, q) && q in mem && q in blocks && q !in live && base < bp < q
    ensures var mem', blocks' := mem[bp := Header(mem[q].ptr, blocks[bp] + blocks[q])], Merge(blocks, bp, q);
            Between(base, mem', blocks', live, p, bp, mem[q].ptr) && (q < mem[q].ptr || mem[q].ptr <= p)
  {
    var nodes, nodes' := Nodes(blocks, live, base), Nodes(Merge(blocks, bp, q), live, base);
    var mem' := mem[bp := Header(mem[q].ptr, blocks[bp] + blocks[q])];
    Unlink(mem, nodes, p, q);
    assert nodes' == nodes - {q};
    forall x | x in nodes' && x != p ensures x in mem && x != bp {
      assert Linked(mem, nodes', x);
    }
    hide Nodes;
    SameRing(mem, mem', nodes', p);
  }

  lemma PassUpper(base: int, mem: map<int, Header>, blocks: map<int, nat>, live: set<int>, arena: set<int>, p: int,
                  bp: int)
    requires HeapOk(base, mem, blocks, live, arena) && Ring(mem, Nodes(blocks, live, base))
    requires p in mem && bp in mem && Between(base, mem, blocks, live, p, bp, mem[p].ptr)
    ensures var mem' := mem[bp := mem[bp].(ptr := mem[p].ptr)];
            && HeapOk(base, mem', blocks, live, arena) && Between(base, mem', blocks, live, p, bp, mem[p].ptr)
            && Untouched(mem, mem', blocks, live - {bp})
  {
    SameRing(mem, mem[bp := mem[bp].(ptr := mem[p].ptr)], Nodes(blocks, live, base), p);
  }

  /** The second half: p takes over bp if they abut, and otherwise points to it. */
  lemma JoinLower(base: int, mem: map<int, Header>, blocks: map<int, nat>, live: set<int>, arena: set<int>, p: int,
                  bp: int)
    requires HeapOk(base, mem, blocks, live, arena) && bp in mem && Between(base, mem, blocks, live, p, bp, mem[bp].ptr)
    requires mem[base].size == 0 && bp + mem[bp].size != mem[bp].ptr && p + mem[p].size == bp
    ensures p in blocks
    ensures var mem' := mem[p := Header(mem[bp].ptr, mem[p].size + mem[bp].size)];
            var blocks' := Merge(blocks, p, bp);
            && HeapOk(base, mem', blocks', live - {bp}, arena) && Ring(mem', Nodes(blocks', live - {bp}, base))
            && p in Nodes(blocks', live - {bp}, base)
            && SameBlocks(blocks, blocks', live - {bp}) && Untouched(mem, mem', blocks, live - {bp})
  {
    var mem' := mem[p := Header(mem[bp].ptr, mem[p].size + mem[bp].size)];
    var blocks' := Merge(blocks, p, bp);
    MergeTiles(blocks, arena, p, bp);
    var nodes := Nodes(blocks, live, base);
    StaysApart(base, blocks, live, arena, p, bp, mem[bp].ptr);
    assert Nodes(blocks', live - {bp}, base) == nodes;
    SameRing(mem, mem', nodes, p);
    assert Linked(mem', nodes, p);
  }

  lemma StaysApart(base: int, blocks: map<int, nat>, live: set<int>, arena: set<int>, p: int, bp: int, q: int)
    requires Tiles(blocks, arena) && Apart(blocks, live) && bp in blocks && bp in live && p < bp && (bp < q || q <= p)
    requires Succ(Nodes(blocks, live, base), p, q) && End(blocks, bp) != q && (forall b :: b in blocks ==> base < b)
    ensures p in blocks && End(blocks, p) == bp ==> Apart(Merge(blocks, p, bp), live - {bp})
    ensures (p in blocks ==> End(blocks, p) != bp) ==> Apart(blocks, live - {bp})
  {
    var nodes := Nodes(blocks, live, base);
    forall b | b in blocks && b !in live ensures b <= p || (q <= b && End(blocks, bp) < b) {
      assert b in nodes;
    }
    assert p in nodes;
  }

  lemma LinkLower(base: int, mem: map<int, Header>, blocks: map<int, nat>, live: set<int>, arena: set<int>, p: int,
                  bp: int)
    requires HeapOk(base, mem, blocks, live, arena) && bp in mem && Between(base, mem, blocks, live, p, bp, mem[bp].ptr)
    requires mem[base].size == 0 && bp + mem[bp].size != mem[bp].ptr && p + mem[p].size != bp
    ensures var mem' := mem[p := mem[p].(ptr := bp)];
            && HeapOk(base, mem', blocks, live - {bp}, arena) && Ring(mem', Nodes(blocks, live - {bp}, base))
            && p in Nodes(blocks, live - {bp}, base)
            && Untouched(mem, mem', blocks, live - {bp})
  {
    var mem' := mem[p := mem[p].(ptr := bp)];
    var nodes := Nodes(blocks, live, base);
    StaysApart(base, blocks, live, arena, p, bp, mem[bp].ptr);
    assert Nodes(blocks, live - {bp}, base) == nodes + {bp};
    SameRing(mem, mem', nodes, p);
    Insert(mem', nodes, p, bp, mem[bp].ptr);
  }

  /** A block fresh from `sbrk` counts as live until it is freed. */
  lemma Grown(base: int, mem: map<int, Header>, mem': map<int, Header>, blocks: map<int, nat>, live: set<int>,
              arena: set<int>, at: int, nu: nat)
    requires HeapOk(base, mem, blocks, live, arena) && Ring(mem, Nodes(blocks, live, base))
    requires nu > 0 && base < at && forall u :: u in arena ==> u < at
    requires forall u :: u in arena || u == base ==> u in mem' && mem'[u] == mem[u]
    requires forall u :: at <= u < at + nu ==> u in mem'
    requires mem'[at].size == nu
    ensures at !in blocks && Nodes(blocks[at := nu], live + {at}, base) == Nodes(blocks, live, base)
    ensures HeapOk(base, mem', blocks[at := nu], live + {at}, arena + Units(at, nu))
            && Ring(mem', Nodes(blocks, live, base))
    ensures Untouched(mem, mem', blocks, live)
  {
    var nodes := Nodes(blocks, live, base);
    GrowTiles(blocks, arena, at, nu);
    assert Nodes(blocks[at := nu], live + {at}, base) == nodes;
    forall b | b in blocks ensures b in mem' && mem'[b] == mem[b] {
      assert Covers(blocks, b, b);
    }
    SameRing(mem, mem', nodes, at);
  }

  /** A unit of one block is a unit of no other. */
  lemma OneOwner(blocks: map<int, nat>, arena: set<int>, b: int, c: int, u: int)
    requires Tiles(blocks, arena) && Covers(blocks, b, u) && Covers(blocks, c, u)
    ensures b == c
  {
  }

  // ---- Allocating --------------------------------------------------------------------------------

  /** Taking a whole block off the list. */
  lemma TakeWhole(base: int, mem: map<int, Header>, blocks: map<int, nat>, live: set<int>, arena: set<int>, prevp: int,
                  p: int)
    requires HeapOk(base, mem, blocks, live, arena) && Ring(mem, Nodes(blocks, live, base))
    requires prevp in Nodes(blocks, live, base) && prevp in mem && mem[prevp].ptr == p && p in blocks
    ensures p in mem && p !in live
    ensures var mem' := mem[prevp := mem[prevp].(ptr := mem[p].ptr)];
            && HeapOk(base, mem', blocks, live + {p}, arena) && Ring(mem', Nodes(blocks, live + {p}, base))
            && prevp in Nodes(blocks, live + {p}, base)
            && Untouched(mem, mem', blocks, live)
  {
    var nodes := Nodes(blocks, live, base);
    var mem' := mem[prevp := mem[prevp].(ptr := mem[p].ptr)];
    assert Linked(mem, nodes, prevp);
    assert base in nodes && base < p;
    Unlink(mem, nodes, prevp, p);
    assert Nodes(blocks, live + {p}, base) == nodes - {p};
    SameRing(mem, mem', nodes - {p}, prevp);
    forall b, u | b in live && Covers(blocks, b, u) ensures u in mem && mem'[u] == mem[u] {
      if u == prevp {
        NotFreeHeader(blocks, arena, live, base, b, u);
      }
    }
  }

  /** The header of a free block, or `base`, is in no live block. */
  lemma NotFreeHeader(blocks: map<int, nat>, arena: set<int>, live: set<int>, base: int, b: int, u: int)
    requires Tiles(blocks, arena) && b in live && Covers(blocks, b, u) && forall x :: x in blocks ==> base < x
    ensures u !in Nodes(blocks, live, base)
  {
  }

  /** Taking the tail of a larger block, which stays on the list. */
  lemma TakeTail(base: int, mem: map<int, Header>, blocks: map<int, nat>, live: set<int>, arena: set<int>, p: int,
                 n: nat)
    requires HeapOk(base, mem, blocks, live, arena) && Ring(mem, Nodes(blocks, live, base))
    requires p in Nodes(blocks, live, base) && p in blocks && 0 < n < blocks[p]
    ensures p in mem && var c := p + mem[p].size - n;
            && c !in blocks && c in mem
            && var mem', blocks' := mem[p := mem[p].(size := mem[p].size - n)][c := mem[c].(size := n)],
                 Split(blocks, p, n);
               && HeapOk(base, mem', blocks', live + {c}, arena) && Ring(mem', Nodes(blocks', live + {c}, base))
               && Nodes(blocks', live + {c}, base) == Nodes(blocks, live, base)
               && SameBlocks(blocks, blocks', live) && Untouched(mem, mem', blocks, live)
  {
    var c, nodes := p + mem[p].size - n, Nodes(blocks, live, base);
    SplitTiles(blocks, arena, p, n);
    assert Covers(blocks, p, c) && Covers(blocks, p, p);
    var mem', blocks' := mem[p := mem[p].(size := mem[p].size - n)][c := mem[c].(size := n)], Split(blocks, p, n);
    TailUntouched(blocks, live, arena, mem, mem', p, c);
    assert Nodes(blocks', live + {c}, base) == nodes;
    TailApart(blocks, live, arena, p, n);
    hide Tiles, Apart, Nodes, Covers, Succ;
    SameRing(mem, mem', nodes, c);
  }

  lemma TailApart(blocks: map<int, nat>, live: set<int>, arena: set<int>, p: int, n: nat)
    requires Tiles(blocks, arena) && Apart(blocks, live) && p in blocks && 0 < n < blocks[p]
    ensures Apart(Split(blocks, p, n), live + {p + blocks[p] - n})
  {
  }

  lemma TailUntouched(blocks: map<int, nat>, live: set<int>, arena: set<int>, mem: map<int, Header>,
                      mem': map<int, Header>, p: int, c: int)
    requires Tiles(blocks, arena) && arena <= mem.Keys <= mem'.Keys && p in blocks && p !in live && Covers(blocks, p, p)
             && Covers(blocks, p, c)
    requires forall u :: u in mem && u != p && u != c ==> mem'[u] == mem[u]
    ensures Untouched(mem, mem', blocks, live)
  {
    forall b, u | b in live && Covers(blocks, b, u) ensures u in mem && u in mem' && mem'[u] == mem[u] {
      if u == c || u == p {
        OneOwner(blocks, arena, b, p, u);
      }
    }
  }

  /** What a program keeps in the payload of a live block is nothing to the allocator. */
  lemma PayloadIsFree(base: int, mem: map<int, Header>, blocks: map<int, nat>, live: set<int>, arena: set<int>, b: int,
                      u: int, h: Header)
    requires HeapOk(base, mem, blocks, live, arena) && b in live && Covers(blocks, b, u) && u != b
    ensures HeapOk(base, mem[u := h], blocks, live, arena) && u != base
    ensures Ring(mem, Nodes(blocks, live, base)) ==> Ring(mem[u := h], Nodes(blocks, live, base))
  {
    assert u in blocks ==> Covers(blocks, u, u);
    NotFreeHeader(blocks, arena, live, base, b, u);
    if Ring(mem, Nodes(blocks, live, base)) {
      forall x | x in Nodes(blocks, live, base) ensures x in mem {
        assert Linked(mem, Nodes(blocks, live, base), x);
      }
      SameRing(mem, mem[u := h], Nodes(blocks, live, base), u);
    }
  }

  ghost function Total(blocks: map<int, nat>, keys: set<int>): nat
    requires keys <= blocks.Keys
  {
    if exists b :: b in keys then var b :| b in keys; blocks[b] + Total(blocks, keys - {b}) else 0
  }

  ghost function UnitsOf(blocks: map<int, nat>, keys: set<int>, arena: set<int>): set<int> {
    set u | u in arena && exists b :: b in keys && Covers(blocks, b, u)
  }

  lemma {:induction false} TotalIs(blocks: map<int, nat>, keys: set<int>, arena: set<int>)
    requires Tiles(blocks, arena) && keys <= blocks.Keys
    ensures Total(blocks, keys) == |UnitsOf(blocks, keys, arena)|
    decreases keys
  {
    if exists b :: b in keys {
      var b :| b in keys && Total(blocks, keys) == blocks[b] + Total(blocks, keys - {b});
      TotalIs(blocks, keys - {b}, arena);
      UnitsSize(b, blocks[b]);
      UnitsAdd(blocks, keys, arena, b);
    } else {
      assert UnitsOf(blocks, keys, arena) == {};
    }
  }

  lemma UnitsAdd(blocks: map<int, nat>, keys: set<int>, arena: set<int>, b: int)
    requires Tiles(blocks, arena) && keys <= blocks.Keys && b in keys
    ensures UnitsOf(blocks, keys, arena) == UnitsOf(blocks, keys - {b}, arena) + Units(b, blocks[b])
    ensures UnitsOf(blocks, keys - {b}, arena) !! Units(b, blocks[b])
  {
    forall u ensures u in UnitsOf(blocks, keys, arena) <==>
        u in UnitsOf(blocks, keys - {b}, arena) || u in Units(b, blocks[b])
    {
      UnitsOne(blocks, keys, arena, b, u);
    }
    forall u | u in UnitsOf(blocks, keys - {b}, arena) ensures u !in Units(b, blocks[b]) {
      UnitsOne(blocks, keys, arena, b, u);
    }
  }

  lemma UnitsOne(blocks: map<int, nat>, keys: set<int>, arena: set<int>, b: int, u: int)
    requires Tiles(blocks, arena) && keys <= blocks.Keys && b in keys
    ensures u in UnitsOf(blocks, keys, arena) <==> u in UnitsOf(blocks, keys - {b}, arena) || u in Units(b, blocks[b])
    ensures u in UnitsOf(blocks, keys - {b}, arena) ==> u !in Units(b, blocks[b])
  {
    hide Units;
    if c :| c in keys && Covers(blocks, c, u) {
      assert c != b ==> c in keys - {b};
    }
    if c :| c in keys - {b} && Covers(blocks, c, u) {
      assert Covers(blocks, b, u) ==> b == c;
    }
    assert u in Units(b, blocks[b]) <==> Covers(blocks, b, u);
  }

  lemma {:induction false} UnitsSize(at: int, n: nat)
    ensures |Units(at, n)| == n
  {
    if n > 0 {
      UnitsSize(at, n - 1);
    }
  }

  /** Free and live blocks add up to what `sbrk` gave. */
  lemma Conserved(blocks: map<int, nat>, live: set<int>, arena: set<int>)
    requires Tiles(blocks, arena) && live <= blocks.Keys
    ensures Total(blocks, live) + Total(blocks, blocks.Keys - live) == |arena|
  {
    var free := blocks.Keys - live;
    var a, b := UnitsOf(blocks, live, arena), UnitsOf(blocks, free, arena);
    TotalIs(blocks, live, arena);
    TotalIs(blocks, free, arena);
    forall u ensures (u in arena <==> u in a || u in b) && !(u in a && u in b) {
      InOnePart(blocks, live, arena, u);
    }
    hide Tiles, UnitsOf, Total;
    assert a + b == arena;
  }

  /** A unit is in a live block or in a free one, and not in both. */
  lemma InOnePart(blocks: map<int, nat>, live: set<int>, arena: set<int>, u: int)
    requires Tiles(blocks, arena) && live <= blocks.Keys
    ensures var a, b := UnitsOf(blocks, live, arena), UnitsOf(blocks, blocks.Keys - live, arena);
            (u in arena <==> u in a || u in b) && !(u in a && u in b)
  {
    if u in arena {
      var c :| Covers(blocks, c, u);
      forall d | Covers(blocks, d, u) ensures d == c {
        OneOwner(blocks, arena, c, d, u);
      }
    }
  }

  lemma HeadersInArena(blocks: map<int, nat>, arena: set<int>)
    requires Tiles(blocks, arena)
    ensures blocks.Keys <= arena
  {
    forall b | b in blocks ensures b in arena {
      assert Covers(blocks, b, b);
    }
  }

  /** No free block has n units. */
  ghost predicate NoFit(blocks: map<int, nat>, live: set<int>, n: nat) {
    forall b :: b in blocks && b !in live ==> blocks[b] < n
  }

  /** x comes strictly between p and q on the way round the list. */
  ghost predicate Passed(p: int, x: int, q: int) {
    if p < q then p < x < q else p < x || x < q
  }

  class Heap {
    const base: int // the address of the static header `base`
    var mem: map<int, Header>
    var freep: int // 0: no list yet
    ghost var blocks: map<int, nat>
    ghost var live: set<int>
    ghost var arena: set<int>

    constructor (at: int)
      requires at > 0
      ensures Valid() && live == {} && arena == {} && freep == 0 && base == at
    {
      base, mem, freep := at, map[at := Header(0, 0)], 0;
      blocks, live, arena := map[], {}, {};
    }

    ghost predicate Valid()
      reads this
    {
      && HeapOk(base, mem, blocks, live, arena) && mem[base].size == 0
      && if freep == 0 then arena == {} else freep in Nodes(blocks, live, base) && Ring(mem, Nodes(blocks, live, base))
    }

    /** The loop of `free`: the free block after which bp belongs. */
    method FindPlace(bp: int) returns (p: int)
      requires Valid() && freep != 0 && bp in live
      ensures p in mem && Between(base, mem, blocks, live, p, bp, mem[p].ptr)
    {
      ghost var nodes := Nodes(blocks, live, base);
      ghost var top := Highest(nodes, base);
      p := freep;
      while !(bp > p && bp < mem[p].ptr)
        invariant p in nodes
        decreases if p > bp then 1 else 0, top - p
      {
        assert Linked(mem, nodes, p);
        if p >= mem[p].ptr && (bp > p || bp < mem[p].ptr) {
          break;
        }
        p := mem[p].ptr;
      }
      assert Linked(mem, nodes, p);
    }

    method Absorb(bp: int, p: int)
      requires Valid() && freep != 0 && bp in live && p in mem && Between(base, mem, blocks, live, p, bp, mem[p].ptr)
      modifies this`mem, this`blocks
      ensures HeapOk(base, mem, blocks, live, arena) && bp in mem
              && Between(base, mem, blocks, live, p, bp, mem[bp].ptr)
      ensures mem[base].size == 0 && bp + mem[bp].size != mem[bp].ptr && mem.Keys == old(mem).Keys
      ensures mem[bp].size >= old(mem)[bp].size
      ensures SameBlocks(old(blocks), blocks, live - {bp}) && Untouched(old(mem), mem, old(blocks), live - {bp})
    {
      var q := mem[p].ptr;
      assert Linked(mem, Nodes(blocks, live, base), q);
      if bp + mem[bp].size == q {
        JoinUpper(base, mem, blocks, live, arena, p, bp);
        mem, blocks := mem[bp := Header(mem[q].ptr, mem[bp].size + mem[q].size)], Merge(blocks, bp, q);
      } else {
        PassUpper(base, mem, blocks, live, arena, p, bp);
        mem := mem[bp := mem[bp].(ptr := q)];
      }
    }

    method Finish(bp: int, p: int)
      requires HeapOk(base, mem, blocks, live, arena) && bp in mem
               && Between(base, mem, blocks, live, p, bp, mem[bp].ptr)
      requires mem[base].size == 0 && bp + mem[bp].size != mem[bp].ptr
      modifies this`mem, this`blocks, this`live
      ensures HeapOk(base, mem, blocks, live, arena) && Ring(mem, Nodes(blocks, live, base))
              && p in Nodes(blocks, live, base)
      ensures live == old(live) - {bp} && mem[base].size == 0 && mem.Keys == old(mem).Keys
      ensures mem[p].size >= old(mem)[bp].size || (mem[p].ptr == bp && mem[bp].size >= old(mem)[bp].size)
      ensures SameBlocks(old(blocks), blocks, live) && Untouched(old(mem), mem, old(blocks), live)
    {
      if p + mem[p].size == bp {
        JoinLower(base, mem, blocks, live, arena, p, bp);
        mem, blocks, live := mem[p := Header(mem[bp].ptr, mem[p].size + mem[bp].size)], Merge(blocks, p, bp),
            live - {bp};
      } else {
        LinkLower(base, mem, blocks, live, arena, p, bp);
        mem, live := mem[p := mem[p].(ptr := bp)], live - {bp};
      }
    }

    /** `free` of a live block: the block goes back to the list, alone or as part of a larger one, where the
        next search will look first or last, and no other live block is touched. */
    method Free(ap: int)
      requires Valid() && freep != 0 && ap - 1 in live
      modifies this
      ensures freep in mem && ap - 1 in old(mem)
      ensures mem[freep].size >= old(mem)[ap - 1].size
              || (mem[freep].ptr == ap - 1 && ap - 1 in mem && mem[ap - 1].size >= old(mem)[ap - 1].size)
      ensures Valid() && freep != 0 && arena == old(arena) && live == old(live) - {ap - 1} && mem.Keys == old(mem).Keys
      ensures SameBlocks(old(blocks), blocks, live) && Untouched(old(mem), mem, old(blocks), live)
    {
      var bp := ap - 1;
      var p := FindPlace(bp);
      Absorb(bp, p);
      ghost var mem1, blocks1 := mem, blocks;
      Finish(bp, p);
      UntouchedTwice(old(mem), mem1, mem, old(blocks), blocks1, blocks, live);
      freep := p;
    }

    /** `morecore`: the answer of `sbrk` becomes one more block, and is freed. */
    method MoreCore(units: nat, answer: Sbrk) returns (p: int)
      requires Valid() && freep != 0
      requires answer.Extends? ==> base < answer.at && forall u :: u in arena ==> u < answer.at
      modifies this
      ensures Valid() && freep != 0 && live == old(live)
      ensures p == 0 <==> answer.Fails?
      ensures p == 0 ==> mem == old(mem) && blocks == old(blocks) && arena == old(arena) && freep == old(freep)
      ensures p != 0 ==> p == freep && arena == old(arena) + Units(answer.at, if units < 4096 then 4096 else units)
      ensures p != 0 ==>
              freep in mem && (mem[freep].size >= units || (mem[freep].ptr in mem && mem[mem[freep].ptr].size >= units))
      ensures SameBlocks(old(blocks), blocks, live) && Untouched(old(mem), mem, old(blocks), live)
    {
      var nu := if units < 4096 then 4096 else units;
      if answer.Fails? {
        return 0;
      }
      AddBlock(answer.at, nu);
      ghost var mem1, blocks1 := mem, blocks;
      Free(answer.at + 1);
      UntouchedTwice(old(mem), mem1, mem, old(blocks), blocks1, blocks, live);
      return freep;
    }

    /** The zeroed memory that `sbrk` adds, with the header that `morecore` puts at its start. */
    method AddBlock(at: int, nu: nat)
      requires Valid() && freep != 0 && nu > 0 && base < at && forall u :: u in arena ==> u < at
      modifies this
      ensures Valid() && freep == old(freep) && at !in old(live) && live == old(live) + {at}
              && arena == old(arena) + Units(at, nu)
      ensures at in mem && mem[at].size == nu
      ensures SameBlocks(old(blocks), blocks, old(live)) && Untouched(old(mem), mem, old(blocks), old(live))
    {
      mem := mem + ZeroUnits(at, nu);
      mem := mem[at := mem[at].(size := nu)];
      Grown(base, old(mem), mem, blocks, live, arena, at, nu);
      blocks, live, arena := blocks[at := nu], live + {at}, arena + Units(at, nu);
    }

    /** One lap of the loop of `malloc`: the first large enough block after `freep`, if there is one. */
    method Search(nunits: nat) returns (found: bool, prevp: int, p: int)
      requires Valid() && freep != 0
      ensures prevp in Nodes(blocks, live, base) && prevp in mem && p == mem[prevp].ptr
              && p in Nodes(blocks, live, base) && p in mem
      ensures found ==> mem[p].size >= nunits
      ensures found ==>
                forall x :: x in Nodes(blocks, live, base) && Passed(freep, x, p) ==> x in mem && mem[x].size < nunits
      ensures !found ==> forall x :: x in Nodes(blocks, live, base) ==> x in mem && mem[x].size < nunits
    {
      ghost var nodes := Nodes(blocks, live, base);
      ghost var top := Highest(nodes, base);
      assert Linked(mem, nodes, freep);
      prevp, p := freep, mem[freep].ptr;
      while true
        invariant prevp in nodes && prevp in mem && p == mem[prevp].ptr && p in nodes
        invariant forall x :: x in nodes && Passed(freep, x, p) ==> x in mem && mem[x].size < nunits
        decreases if p > freep then 1 else 0, top - p
      {
        assert Linked(mem, nodes, p);
        if mem[p].size >= nunits {
          return true, prevp, p;
        }
        if p == freep {
          return false, prevp, p;
        }
        prevp, p := p, mem[p].ptr;
      }
    }

    /** The two ways in which `malloc` takes nunits from the block p that follows prevp. */
    method Take(prevp: int, p: int, nunits: nat) returns (b: int)
      requires Valid() && freep != 0 && nunits > 0 && p in mem && mem[p].size >= nunits
      requires prevp in Nodes(blocks, live, base) && prevp in mem && p == mem[prevp].ptr
               && p in Nodes(blocks, live, base)
      modifies this
      ensures Valid() && freep == prevp && freep != 0 && arena == old(arena)
      ensures b > 0 && b !in old(live) && live == old(live) + {b} && b in blocks && blocks[b] == nunits
      ensures b == p + old(mem)[p].size - nunits
      ensures SameBlocks(old(blocks), blocks, old(live)) && Untouched(old(mem), mem, old(blocks), old(live))
    {
      if mem[p].size == nunits {
        TakeWhole(base, mem, blocks, live, arena, prevp, p);
        mem, live := mem[prevp := mem[prevp].(ptr := mem[p].ptr)], live + {p};
        b := p;
      } else {
        TakeTail(base, mem, blocks, live, arena, p, nunits);
        b := p + mem[p].size - nunits;
        mem := mem[p := mem[p].(size := mem[p].size - nunits)][b := mem[b].(size := nunits)];
        blocks, live := Split(blocks, p, nunits), live + {b};
      }
      freep := prevp;
    }

    /** The first call makes the list: `base` alone. */
    method Start()
      requires Valid()
      modifies this`mem, this`freep
      ensures Valid() && freep != 0
      ensures SameBlocks(blocks, blocks, live) && Untouched(old(mem), mem, blocks, live)
      ensures freep == if old(freep) == 0 then base else old(freep)
    {
      if freep == 0 {
        mem := mem[base := Header(base, 0)];
        freep := base;
        HeadersInArena(blocks, arena);
        assert blocks.Keys == {};
        assert Nodes(blocks, live, base) == {base};
      }
    }

    /** The loop of `malloc`: a lap, and if nothing fits, more memory and a second lap, which cannot fail. */
    method Fit(nunits: nat, answer: Sbrk) returns (found: bool, prevp: int, p: int)
      requires Valid() && freep != 0 && nunits > 0
      requires answer.Extends? ==> base < answer.at && forall u :: u in arena ==> u < answer.at
      modifies this
      ensures Valid() && freep != 0 && live == old(live)
      ensures !found <==> answer.Fails? && NoFit(old(blocks), old(live), nunits)
      ensures found ==> prevp in Nodes(blocks, live, base) && prevp in mem
      ensures found ==> p == mem[prevp].ptr && p in Nodes(blocks, live, base)
      ensures found ==> p in mem && mem[p].size >= nunits
      ensures arena == if answer.Extends? && NoFit(old(blocks), old(live), nunits)
                       then old(arena) + Units(answer.at, if nunits < 4096 then 4096 else nunits) else old(arena)
      ensures SameBlocks(old(blocks), blocks, old(live)) && Untouched(old(mem), mem, old(blocks), old(live))
    {
      found, prevp, p := Search(nunits);
      if found {
        assert p in blocks && p !in live && blocks[p] >= nunits;
        return;
      }
      assert NoFit(blocks, live, nunits) by {
        assert forall b :: b in blocks && b !in live ==> b in Nodes(blocks, live, base);
      }
      p := MoreCore(nunits, answer);
      if p != 0 {
        assert Linked(mem, Nodes(blocks, live, base), freep);
        found, prevp, p := Search(nunits);
      }
    }

    /** `malloc`: a new block, or 0 when no free block is large enough and `sbrk` fails. `sbrk` is asked only when
        nothing fits, and then once. The block has room for the request exactly when the request does not wrap. Any
        request will do for which `sbrk` is not asked, or is asked for what is meant. */
    method Malloc(nbytes: nat, answer: Sbrk) returns (r: int)
      requires Valid() && nbytes < 0x1_0000_0000 && (AsksRight(nbytes) || !NoFit(blocks, live, UnitsFor(nbytes)))
      requires answer.Extends? ==> base < answer.at && forall u :: u in arena ==> u < answer.at
      modifies this
      ensures Valid() && freep != 0
      ensures r == 0 <==> answer.Fails? && NoFit(old(blocks), old(live), UnitsFor(nbytes))
      ensures r == 0 ==> live == old(live)
      ensures r != 0 ==>
              r - 1 !in old(live) && live == old(live) + {r - 1} && r - 1 in blocks && blocks[r - 1] == UnitsFor(nbytes)
      ensures r != 0 ==> (8 * (blocks[r - 1] - 1) >= nbytes <==> nbytes <= 0xFFFF_FFF8)
      ensures r != 0 ==> 8 * (blocks[r - 1] - 1) < nbytes + 8
      ensures arena == if answer.Extends? && NoFit(old(blocks), old(live), UnitsFor(nbytes))
                       then old(arena) + Units(answer.at, if UnitsFor(nbytes) < 4096 then 4096 else UnitsFor(nbytes))
                           else old(arena)
      ensures SameBlocks(old(blocks), blocks, old(live)) && Untouched(old(mem), mem, old(blocks), old(live))
    {
      hide HeapOk, Ring, NoFit, SameBlocks, Untouched, UnitsFor;
      RoomIff(nbytes);
      r := Allocate(UnitsFor(nbytes), answer);
    }

    /** The body of `malloc`. */
    method Allocate(nunits: nat, answer: Sbrk) returns (r: int)
      requires Valid() && nunits > 0
      requires answer.Extends? ==> base < answer.at && forall u :: u in arena ==> u < answer.at
      modifies this
      ensures Valid() && freep != 0
      ensures r == 0 <==> answer.Fails? && NoFit(old(blocks), old(live), nunits)
      ensures r == 0 ==> live == old(live)
      ensures r != 0 ==>
              r - 1 !in old(live) && live == old(live) + {r - 1} && r - 1 in blocks && blocks[r - 1] == nunits
      ensures arena == if answer.Extends? && NoFit(old(blocks), old(live), nunits)
                       then old(arena) + Units(answer.at, if nunits < 4096 then 4096 else nunits) else old(arena)
      ensures SameBlocks(old(blocks), blocks, old(live)) && Untouched(old(mem), mem, old(blocks), old(live))
    {
      hide HeapOk, Ring, Nodes, NoFit, SameBlocks, Untouched;
      Start();
      ghost var mem0 := mem;
      var found, prevp, p := Fit(nunits, answer);
      if !found {
        UntouchedTwice(old(mem), mem0, mem, old(blocks), old(blocks), blocks, old(live));
        return 0;
      }
      ghost var mem1, blocks1 := mem, blocks;
      r := Take(prevp, p, nunits);
      UntouchedTwice(mem0, mem1, mem, old(blocks), blocks1, blocks, old(live));
      UntouchedTwice(old(mem), mem0, mem, old(blocks), old(blocks), blocks, old(live));
      r := r + 1;
    }

    /** A program stores anything in the payload of a live block. */
    method Store(b: int, u: int, h: Header)
      requires Valid() && b in live && Covers(blocks, b, u) && u != b
      modifies this`mem
      ensures Valid() && mem == old(mem)[u := h]
    {
      PayloadIsFree(base, mem, blocks, live, arena, b, u, h);
      mem := mem[u := h];
    }
  }
}
