/**
 * Chunk arithmetic of `mmolib/src/chunk.rs`: a block position `(x, y)` of
 * two u32 coordinates lies in the 32x32 chunk whose id packs `x / 32` into
 * the upper and `y / 32` into the lower 32 bits of a u64.
 */
module Chunks {
  import opened Wrappers
  import opened Fmt

  const CHUNK_SIZE: nat := 32

  // ---------------------------------------------------------------------
  // Bitwise OR and AND on naturals, written out bit by bit.

  /** Bitwise OR (`|`). */
  function BitOr(a: nat, b: nat): nat
    decreases a + b
  {
    if a == 0 then b
    else if b == 0 then a
    else 2 * BitOr(a / 2, b / 2) + (if a % 2 == 1 || b % 2 == 1 then 1 else 0)
  }

  /** Bitwise AND (`&`). */
  function BitAnd(a: nat, b: nat): nat
    decreases a + b
  {
    if a == 0 || b == 0 then 0
    else 2 * BitAnd(a / 2, b / 2) + (if a % 2 == 1 && b % 2 == 1 then 1 else 0)
  }

  /** `a >> k`. */
  function Shr(a: nat, k: nat): nat
  {
    var p := Pow2(k);
    DivNat(a, p);
    a / p
  }

  lemma DivNat(a: nat, p: nat)
    requires p >= 1
    ensures a / p >= 0
  {
  }

  /** OR of a multiple of 2^k with a number below 2^k is their sum. */
  lemma {:induction false} BitOrDisjoint(c: nat, b: nat, k: nat)
    requires b < Pow2(k)
    ensures BitOr(c * Pow2(k), b) == c * Pow2(k) + b
    decreases k
  {
    if k == 0 {
      assert b == 0;
    } else if c != 0 && b != 0 {
      var half := c * Pow2(k - 1);
      assert c * Pow2(k) == 2 * half;
      assert (2 * half) / 2 == half && (2 * half) % 2 == 0;
      BitOrDisjoint(c, b / 2, k - 1);
    }
  }

  /** AND with the mask 2^k - 1 keeps the low k bits: the rest is a multiple of 2^k. */
  lemma {:induction false} BitAndMask(x: nat, k: nat) returns (q: nat)
    ensures BitAnd(x, Pow2(k) - 1) < Pow2(k)
    ensures x == q * Pow2(k) + BitAnd(x, Pow2(k) - 1)
    decreases k
  {
    if k == 0 {
      q := x;
    } else if x == 0 {
      q := 0;
    } else {
      var p := Pow2(k - 1);
      var q' := BitAndMask(x / 2, k - 1);
      BitAndOddMask(x, p);
      assert x == 2 * (q' * p) + 2 * BitAnd(x / 2, p - 1) + x % 2;
      MulTwo(q', p);
      q := q';
    }
  }

  /** AND with `2p - 1` is AND of the halves with `p - 1`, plus the low bit of `x`. */
  lemma BitAndOddMask(x: nat, p: nat)
    requires x > 0 && p >= 1
    ensures BitAnd(x, 2 * p - 1) == 2 * BitAnd(x / 2, p - 1) + x % 2
  {
    var m := 2 * p - 1;
    assert m / 2 == p - 1 && m % 2 == 1;
  }

  lemma MulTwo(q: nat, p: nat)
    ensures 2 * (q * p) == q * (2 * p)
  {
  }

  /** `x & (32 - 1) == x % 32`. */
  lemma MaskLowBits(x: nat)
    ensures BitAnd(x, CHUNK_SIZE - 1) == x % CHUNK_SIZE
  {
    Pow2Facts();
    var q := BitAndMask(x, 5);
    var r := BitAnd(x, CHUNK_SIZE - 1);
    assert r < 32 && x == q * 32 + r;
    ModOfMultiplePlus(x, q, r);
  }

  lemma ModOfMultiplePlus(x: nat, q: nat, r: nat)
    requires r < 32 && x == q * 32 + r
    ensures x % 32 == r
  {
    assert x == 32 * (x / 32) + x % 32;
    assert 32 * (x / 32 - q) == r - x % 32;
  }

  lemma Pow2Facts()
    ensures Pow2(5) == 32 && Pow2(32) == TWO_POW_32
  {
    assert Pow2(5) == 32;
    Pow2Of32();
  }

  // ---------------------------------------------------------------------
  // Ids and positions.

  datatype ChunkId = ChunkId(raw: U64)

  function NewRaw(n: U64): (c: ChunkId)
    ensures Id(c) == n
  {
    ChunkId(n)
  }

  function Id(c: ChunkId): U64
  {
    c.raw
  }

  /** A block position (two u32 coordinates). */
  type Position = (U32, U32)

  /** `u64::try_into::<u32>()`. */
  function TryIntoU32(n: nat): Option<U32>
  {
    if n < TWO_POW_32 then Some(n) else None
  }

  /** `n as u32`: keeps the low 32 bits. */
  function AsU32(n: nat): U32
  {
    n % TWO_POW_32
  }

  /** `chunk_id_from_position`: `(x / 32) << 32 | (y / 32)`. */
  function ChunkIdFromPosition(p: Position): (c: ChunkId)
    ensures Id(c) == (p.0 / CHUNK_SIZE) * TWO_POW_32 + p.1 / CHUNK_SIZE
  {
    Pow2Facts();
    var hi := Shl64(p.0 / CHUNK_SIZE, 32);
    assert hi == (p.0 / CHUNK_SIZE) * TWO_POW_32;
    BitOrDisjoint(p.0 / CHUNK_SIZE, p.1 / CHUNK_SIZE, 32);
    NewRaw(BitOr(hi, p.1 / CHUNK_SIZE))
  }

  /** `convert_to_chunk_relative_position`: each coordinate `& (32 - 1)`. */
  function ConvertToChunkRelativePosition(p: Position): (r: Position)
    ensures r.0 == p.0 % CHUNK_SIZE && r.1 == p.1 % CHUNK_SIZE
    ensures r.0 < CHUNK_SIZE && r.1 < CHUNK_SIZE
  {
    MaskLowBits(p.0);
    MaskLowBits(p.1);
    (BitAnd(p.0, CHUNK_SIZE - 1), BitAnd(p.1, CHUNK_SIZE - 1))
  }

  /**
   * `position_of_chunk`: the upper 32 bits (through `try_into().unwrap()`,
   * which the precondition of `value` shows can never fail) and `as u32` of
   * the id.
   */
  function PositionOfChunk(c: ChunkId): (p: Position)
    ensures p.0 == Id(c) / TWO_POW_32 && p.1 == Id(c) % TWO_POW_32
  {
    Pow2Facts();
    var hi := TryIntoU32(Shr(Id(c), 32));
    (hi.value, AsU32(Id(c)))
  }

  /** `Display for ChunkId`: `chunk<x,y>` of `position_of_chunk`. */
  function ChunkIdDisplay(c: ChunkId): string
  {
    var p := PositionOfChunk(c);
    "chunk<" + Dec(p.0) + "," + Dec(p.1) + ">"
  }

  /** Unpacking a packed position gives the chunk coordinates. */
  lemma PositionOfChunkFromPosition(p: Position)
    ensures PositionOfChunk(ChunkIdFromPosition(p)) == (p.0 / CHUNK_SIZE, p.1 / CHUNK_SIZE)
  {
    var hi, lo := p.0 / CHUNK_SIZE, p.1 / CHUNK_SIZE;
    assert (hi * TWO_POW_32 + lo) / TWO_POW_32 == hi;
  }

  /** For any raw id, `position_of_chunk` splits it into its two halves. */
  lemma PositionOfNewRaw(n: U64)
    ensures PositionOfChunk(NewRaw(n)) == (n / TWO_POW_32, n % TWO_POW_32)
    ensures n == (n / TWO_POW_32) * TWO_POW_32 + n % TWO_POW_32
  {
  }

  /** A coordinate is its chunk start plus its chunk-relative offset. */
  lemma Reconstruction(p: Position)
    ensures CHUNK_SIZE * PositionOfChunk(ChunkIdFromPosition(p)).0
            + ConvertToChunkRelativePosition(p).0 == p.0
    ensures CHUNK_SIZE * PositionOfChunk(ChunkIdFromPosition(p)).1
            + ConvertToChunkRelativePosition(p).1 == p.1
  {
    PositionOfChunkFromPosition(p);
  }

  /** Two positions share a chunk id exactly when they share chunk coordinates. */
  lemma ChunkIdInjective(p: Position, q: Position)
    ensures ChunkIdFromPosition(p) == ChunkIdFromPosition(q)
            <==> (p.0 / CHUNK_SIZE, p.1 / CHUNK_SIZE) == (q.0 / CHUNK_SIZE, q.1 / CHUNK_SIZE)
  {
    PositionOfChunkFromPosition(p);
    PositionOfChunkFromPosition(q);
  }

  /** The test `test_chunks`: (32, 64) is in chunk (1, 2) at offset (0, 0). */
  lemma TestChunks()
    ensures PositionOfChunk(ChunkIdFromPosition((32, 64))) == (1, 2)
    ensures ConvertToChunkRelativePosition((32, 64)) == (0, 0)
  {
    PositionOfChunkFromPosition((32, 64));
  }

  /** Distinct chunk ids print differently. */
  lemma ChunkIdDisplayInjective(a: ChunkId, b: ChunkId)
    requires ChunkIdDisplay(a) == ChunkIdDisplay(b)
    ensures a == b
  {
    var pa, pb := PositionOfChunk(a), PositionOfChunk(b);
    PairDisplayInjective(pa.0, pa.1, pb.0, pb.1);
    PositionOfNewRaw(a.raw);
    PositionOfNewRaw(b.raw);
  }

  /** `chunk<x,y>` determines both coordinates. */
  lemma PairDisplayInjective(x: nat, y: nat, x': nat, y': nat)
    requires "chunk<" + Dec(x) + "," + Dec(y) + ">" == "chunk<" + Dec(x') + "," + Dec(y') + ">"
    ensures x == x' && y == y'
  {
    var s := "chunk<" + Dec(x) + "," + Dec(y) + ">";
    var s' := "chunk<" + Dec(x') + "," + Dec(y') + ">";
    assert s[6..] == Dec(x) + [','] + (Dec(y) + ">");
    assert s'[6..] == Dec(x') + [','] + (Dec(y') + ">");
    RadixAvoids(x, 10, ',');
    RadixAvoids(x', 10, ',');
    SplitAtFirst(Dec(x), Dec(y) + ">", Dec(x'), Dec(y') + ">", ',');
    assert Dec(y) == (Dec(y) + ">")[..|Dec(y) + ">"| - 1];
    assert Dec(y') == (Dec(y') + ">")[..|Dec(y') + ">"| - 1];
    RadixInjective(x, x', 10);
    RadixInjective(y, y', 10);
  }

  // ---------------------------------------------------------------------
  // Chunks of blocks.

  /** `BlockTypeId` of `block_type.rs`. */
  type BlockTypeId = U64

  /** A 32x32 grid of block type ids, as the fixed-size array type demands. */
  type Blocks = b: seq<seq<BlockTypeId>> | |b| == CHUNK_SIZE && forall i :: 0 <= i < |b| ==> |b[i]| == CHUNK_SIZE
    witness seq(CHUNK_SIZE, _ => seq(CHUNK_SIZE, _ => 0))

  datatype Chunk = Chunk(blocks: Blocks)

  /** `Chunk::new_from_array`. */
  function NewFromArray(blocks: Blocks): Chunk
  {
    Chunk(blocks)
  }

  /**
   * The block at a chunk-relative offset, read straight out of the array
   * (`chunk.rs` has no such accessor: the `blocks` field is private. This
   * read exists so that properties of `new_from_array` can be stated.)
   */
  function BlockAt(c: Chunk, r: Position): BlockTypeId
    requires r.0 < CHUNK_SIZE && r.1 < CHUNK_SIZE
  {
    c.blocks[r.0][r.1]
  }

  /**
   * Every position's chunk-relative offset indexes a chunk built from an
   * array, and finds that array's entry.
   */
  lemma RelativePositionIndexesChunk(blocks: Blocks, p: Position)
    ensures var r := ConvertToChunkRelativePosition(p);
      r.0 < CHUNK_SIZE && r.1 < CHUNK_SIZE
      && BlockAt(NewFromArray(blocks), r) == blocks[p.0 % CHUNK_SIZE][p.1 % CHUNK_SIZE]
  {
  }
}
