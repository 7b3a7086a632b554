/** Bytes, disk blocks and the little-endian 32-bit words that the kernel reads and
    writes by casting a block's bytes to `uint*` or to a structure made of `uint`s. */
module Bytes {

  type byte = x: int | 0 <= x < 256
  type uint32 = x: int | 0 <= x < 0x1_0000_0000

  const BSIZE: nat := 512
  const WORDS: nat := 128 // 32-bit words in a block

  datatype Data = Data(bytes: seq<byte>)

  /** The contents of one disk sector. */
  type Block = b: Data | |b.bytes| == BSIZE witness Data(seq(BSIZE, i => 0))

  /** A block of zero bytes. */
  function ZeroBlock(): (b: Block)
    ensures forall w: nat :: w < WORDS ==> U32(b, w) == 0
  {
    var b: Block := Data(seq(BSIZE, i => 0));
    ZeroWords(b);
    b
  }

  lemma ZeroWords(b: Block)
    requires forall i :: 0 <= i < BSIZE ==> b.bytes[i] == 0
    ensures forall w: nat :: w < WORDS ==> U32(b, w) == 0
  {
    forall w: nat | w < WORDS ensures U32(b, w) == 0 {
      WordBytes(b, w);
    }
  }

  /** The value of bytes in little-endian order. */
  function LittleEndian(s: seq<byte>): (v: nat) {
    if s == [] then 0 else s[0] as int + 256 * LittleEndian(s[1..])
  }

  /** The w-th little-endian word of a block. */
  function U32(b: Block, w: nat): (v: uint32)
    requires w < WORDS
  {
    Word(b.bytes[4 * w..4 * w + 4]);
    LittleEndian(b.bytes[4 * w..4 * w + 4])
  }

  lemma Word(s: seq<byte>)
    requires |s| == 4
    ensures LittleEndian(s) == WordValue(s[0], s[1], s[2], s[3])
  {
    var t, u, v := s[1..], s[2..], s[3..];
    assert t[1..] == u && u[1..] == v && v[1..] == [];
    assert LittleEndian(v) == s[3] as int;
    assert LittleEndian(u) == s[2] as int + 256 * LittleEndian(v);
  }

  function WordValue(a: int, b: int, c: int, d: int): int {
    a + 256 * b + 65536 * c + 16777216 * d
  }

  lemma WordBytes(b: Block, w: nat)
    requires w < WORDS
    ensures U32(b, w) == WordValue(b.bytes[4 * w], b.bytes[4 * w + 1], b.bytes[4 * w + 2], b.bytes[4 * w + 3])
  {
    Word(b.bytes[4 * w..4 * w + 4]);
  }

  /** The lowest byte comes first. */
  lemma LowestFirst(b: Block, w: nat)
    requires w < WORDS
    ensures U32(b, w) == b.bytes[4 * w] as int + 0x100 * b.bytes[4 * w + 1] as int
                         + 0x1_0000 * b.bytes[4 * w + 2] as int + 0x100_0000 * b.bytes[4 * w + 3] as int
  {
    WordBytes(b, w);
  }

  /** Two blocks with the same words are the same block. */
  lemma SameWords(a: Block, b: Block)
    requires forall w: nat :: w < WORDS ==> U32(a, w) == U32(b, w)
    ensures a == b
  {
    forall i | 0 <= i < BSIZE ensures a.bytes[i] == b.bytes[i] {
      var w := i / 4;
      assert U32(a, w) == U32(b, w);
      WordBytes(a, w);
      WordBytes(b, w);
      WordDigits(a.bytes[4 * w], a.bytes[4 * w + 1], a.bytes[4 * w + 2], a.bytes[4 * w + 3]);
      WordDigits(b.bytes[4 * w], b.bytes[4 * w + 1], b.bytes[4 * w + 2], b.bytes[4 * w + 3]);
    }
  }

  ghost predicate WordStored(b: Block, w: nat, v: uint32, r: Block)
    requires w < WORDS
  {
    U32(r, w) == v && forall k: nat :: k < WORDS && k != w ==> U32(r, k) == U32(b, k)
  }

  /** The block b with its w-th word replaced by v. */
  ghost function PutU32(b: Block, w: nat, v: uint32): (r: Block)
    requires w < WORDS
    ensures WordStored(b, w, v, r)
  {
    StoreBytes(b, w, v);
    var r: Block :| WordStored(b, w, v, r);
    r
  }

  /** Four byte stores, lowest first. */
  function WithWord(b: Block, w: nat, v: uint32): Block
    requires w < WORDS
  {
    SplitWord(v);
    Data(b.bytes[4 * w := v % 256][4 * w + 1 := v / 256 % 256][4 * w + 2 := v / 65536 % 256][4 * w + 3 := v / 16777216])
  }

  lemma StoreBytes(b: Block, w: nat, v: uint32)
    requires w < WORDS
    ensures WordStored(b, w, v, WithWord(b, w, v))
  {
    SplitWord(v);
    var r: Block := WithWord(b, w, v);
    WordBytes(r, w);
    forall k: nat | k < WORDS && k != w ensures U32(r, k) == U32(b, k) {
      assert r.bytes[4 * k..4 * k + 4] == b.bytes[4 * k..4 * k + 4];
    }
  }

  /** Store v as four bytes, lowest first. */
  method StoreU32(b: Block, w: nat, v: uint32) returns (r: Block)
    requires w < WORDS
    ensures r == PutU32(b, w, v)
  {
    StoreBytes(b, w, v);
    r := WithWord(b, w, v);
    SameWords(r, PutU32(b, w, v));
  }

  /** Storing the value that is already there changes nothing. */
  lemma PutSame(b: Block, w: nat)
    requires w < WORDS
    ensures PutU32(b, w, U32(b, w)) == b
  {
    SameWords(PutU32(b, w, U32(b, w)), b);
  }

  lemma SplitWord(v: uint32)
    ensures v / 16777216 < 256
    ensures v == WordValue(v % 256, v / 256 % 256, v / 65536 % 256, v / 16777216)
  {
    assert v / 256 / 256 == v / 65536;
    assert v / 65536 / 256 == v / 16777216;
  }

  lemma WordDigits(a: byte, b: byte, c: byte, d: byte)
    ensures var v := WordValue(a, b, c, d);
            v % 256 == a && v / 256 % 256 == b && v / 65536 % 256 == c && v / 16777216 == d
  {
    var v := WordValue(a, b, c, d);
    assert v / 256 == b as int + 256 * c as int + 65536 * d as int;
    assert v / 65536 == c as int + 256 * d as int;
  }
}
