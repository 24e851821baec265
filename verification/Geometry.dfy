// Sizes, reserved values and the order in which the sectors of a block are
// written and read.
module Geometry {

  newtype byte = x: int | 0 <= x < 256

  const ERASED_BYTE: byte := 0xFF
  const ERASED16 := 0xFFFF
  const ERASED32 := 0xFFFF_FFFF
  const WORD32 := 0x1_0000_0000

  /** The value that stands for "no block". */
  const NO_BLOCK := ERASED16

  const SECTOR_SIZE := 512
  const SECTORS_PER_PAGE := 4

  const STATISTICS_SECTOR := 0
  const INIT_SECTOR := 1
  const TAIL_SECTOR := 3
  const FIRST_ENTRY_SECTOR := 4

  const INIT_HEADER_SIZE := 12
  const TAIL_HEADER_SIZE := 16

  const MAX_NAME := 32

  datatype Option<+T> = None | Some(value: T)

  /** An unsigned 32-bit counter. */
  type word = n: nat | n < WORD32

  /** Addition that wraps around at 32 bits. */
  function Add32(a: nat, b: nat): word {
    (a + b) % WORD32
  }

  lemma ProductsGrow(a: nat, b: nat, n: nat)
    ensures a <= b ==> a * n <= b * n
  {
  }

  lemma RemainderUnique(x: int, q: int, r: nat)
    requires r < WORD32 && x == q * WORD32 + r
    ensures x % WORD32 == r
  {
    var d := q - x / WORD32;
    assert WORD32 * d == x % WORD32 - r;
    assert d >= 1 ==> WORD32 * d >= WORD32;
    assert d <= -1 ==> WORD32 * d <= -WORD32;
  }

  lemma RemainderOfSum(a: nat, b: nat)
    ensures (a % WORD32 + b) % WORD32 == (a + b) % WORD32
  {
    var c := a % WORD32 + b;
    RemainderUnique(a + b, a / WORD32 + c / WORD32, c % WORD32);
  }

  /** Equal remainders stay equal, and different ones different, when the same is added. */
  lemma SameRemainderAdded(a: nat, b: nat, k: nat)
    ensures (a + k) % WORD32 == (b + k) % WORD32 <==> a % WORD32 == b % WORD32
  {
    if a % WORD32 == b % WORD32 {
      RemainderOfSum(a, k);
      RemainderOfSum(b, k);
    }
    if (a + k) % WORD32 == (b + k) % WORD32 {
      RemainderUnique(a, (a + k) / WORD32 - (b + k) / WORD32 + b / WORD32, b % WORD32);
    }
  }

  /** `bytes` with those from `offset` on replaced by `data`. */
  function Splice(bytes: seq<byte>, offset: nat, data: seq<byte>): (r: seq<byte>)
    requires offset + |data| <= |bytes|
    ensures |r| == |bytes|
  {
    bytes[..offset] + data + bytes[offset + |data|..]
  }

  function SectorCount(pages: nat): nat {
    pages * SECTORS_PER_PAGE
  }

  /** The number of sectors of a file block that can hold data: all but the statistics sector. */
  function SlotCount(pages: nat): nat
    requires pages >= 1
  {
    SectorCount(pages) - 1
  }

  /** The sector after `sector` in the order in which a block is filled. */
  function IncrementSector(pages: nat, sector: nat): nat {
    if sector == TAIL_SECTOR - 1 then SECTORS_PER_PAGE
    else if sector == SectorCount(pages) - 1 then TAIL_SECTOR
    else sector + 1
  }

  /** The bytes of a sector that its header takes. */
  function HeaderSize(sector: nat): nat {
    if sector == INIT_SECTOR then INIT_HEADER_SIZE
    else if sector == TAIL_SECTOR then TAIL_HEADER_SIZE
    else 0
  }

  /** The sector that is filled after `slot` other sectors of its block. */
  function SectorOf(pages: nat, slot: nat): nat {
    if slot == 0 then INIT_SECTOR
    else if slot == 1 then TAIL_SECTOR - 1
    else if slot + 2 == SectorCount(pages) then TAIL_SECTOR
    else slot + 2
  }

  /** The inverse of SectorOf. */
  function SlotOf(pages: nat, sector: nat): nat
    requires 1 <= sector < SectorCount(pages)
  {
    if sector == INIT_SECTOR then 0
    else if sector == TAIL_SECTOR - 1 then 1
    else if sector == TAIL_SECTOR then SectorCount(pages) - 2
    else sector - 2
  }

  /** The data bytes that fit in a slot. */
  function Capacity(pages: nat, slot: nat): nat {
    SECTOR_SIZE - HeaderSize(SectorOf(pages, slot))
  }

  /** The sector reached from INIT_SECTOR in `steps` increments. */
  function Iterate(pages: nat, steps: nat): nat {
    if steps == 0 then INIT_SECTOR else IncrementSector(pages, Iterate(pages, steps - 1))
  }

  /** What a block holds whose first `slots` slots are filled to the brim. */
  function CapacityUpTo(pages: nat, slots: nat): nat {
    if slots == 0 then 0 else CapacityUpTo(pages, slots - 1) + Capacity(pages, slots - 1)
  }

  lemma {:induction false} IterateIsSectorOf(pages: nat, steps: nat)
    requires pages >= 2
    requires steps < SlotCount(pages)
    ensures Iterate(pages, steps) == SectorOf(pages, steps)
  {
    if steps > 0 {
      IterateIsSectorOf(pages, steps - 1);
    }
  }

  /** Iterating from the INIT sector visits every sector but the statistics
      sector exactly once, and the TAIL sector last. */
  lemma SectorOrderIsBijection(pages: nat)
    requires pages >= 2
    ensures forall k :: 0 <= k < SlotCount(pages) ==> 1 <= Iterate(pages, k) < SectorCount(pages)
    ensures forall k, m :: 0 <= k < m < SlotCount(pages) ==> Iterate(pages, k) != Iterate(pages, m)
    ensures forall s :: 1 <= s < SectorCount(pages) ==>
      SlotOf(pages, s) < SlotCount(pages) && Iterate(pages, SlotOf(pages, s)) == s
    ensures forall k :: 0 <= k < SlotCount(pages) ==>
      (Iterate(pages, k) == TAIL_SECTOR <==> k == SlotCount(pages) - 1)
  {
    forall k | 0 <= k < SlotCount(pages)
      ensures Iterate(pages, k) == SectorOf(pages, k)
    {
      IterateIsSectorOf(pages, k);
    }
  }

  /** With a single page the order leaves the block, so `pages >= 2` above is the exact bound. */
  lemma SectorOrderNeedsTwoPages(pages: nat)
    requires pages >= 1
    ensures pages >= 2 <==> forall k :: 0 <= k < SlotCount(pages) ==> Iterate(pages, k) < SectorCount(pages)
  {
    if pages >= 2 {
      SectorOrderIsBijection(pages);
    } else {
      assert Iterate(pages, 1) == 2;
      assert Iterate(pages, 2) == 4;
    }
  }

  /** A block filled without early flushes holds 512 bytes a slot but for its two headers. */
  lemma {:induction false} BlockCapacity(pages: nat, slots: nat)
    requires pages >= 2
    requires 1 <= slots <= SlotCount(pages)
    ensures CapacityUpTo(pages, slots) ==
            SECTOR_SIZE * slots - INIT_HEADER_SIZE -
            (if slots == SlotCount(pages) then TAIL_HEADER_SIZE else 0)
  {
    if slots == 1 {
      assert CapacityUpTo(pages, 0) == 0;
    } else {
      BlockCapacity(pages, slots - 1);
    }
  }

  lemma {:induction false} CapacityGrows(pages: nat, a: nat, b: nat)
    requires a <= b
    ensures CapacityUpTo(pages, a) <= CapacityUpTo(pages, b)
    ensures a < b ==> CapacityUpTo(pages, a) < CapacityUpTo(pages, b)
    decreases b - a
  {
    if a < b { CapacityGrows(pages, a, b - 1); }
  }

  /** The most that a block can hold. */
  function BlockSize(pages: nat): (r: nat)
    requires pages >= 2
    ensures r > 0
  {
    CapacityGrows(pages, 0, SlotCount(pages));
    CapacityUpTo(pages, SlotCount(pages))
  }

  /** What still fits in a block behind `offset` of `sector`. */
  function Room(pages: nat, sector: nat, offset: nat): int
    requires pages >= 2 && 1 <= sector < SectorCount(pages)
  {
    BlockSize(pages) - CapacityUpTo(pages, SlotOf(pages, sector)) - (offset - HeaderSize(sector))
  }

  /** The room behind a full sector is that of the next one; there is none behind a full TAIL sector. */
  lemma RoomBehind(pages: nat, sector: nat)
    requires pages >= 2 && 1 <= sector < SectorCount(pages)
    ensures sector == TAIL_SECTOR ==> Room(pages, sector, SECTOR_SIZE) == 0
    ensures var next := IncrementSector(pages, sector);
      sector != TAIL_SECTOR ==> 1 <= next < SectorCount(pages) && Room(pages, next, HeaderSize(next)) == Room(pages, sector, SECTOR_SIZE)
  {
    var slot := SlotOf(pages, sector);
    assert SectorOf(pages, slot) == sector;
    assert CapacityUpTo(pages, slot + 1) == CapacityUpTo(pages, slot) + Capacity(pages, slot);
  }

  lemma RoomBounds(pages: nat, sector: nat, offset: nat)
    requires pages >= 2 && 1 <= sector < SectorCount(pages)
    requires HeaderSize(sector) <= offset < SECTOR_SIZE
    ensures 0 < Room(pages, sector, offset) <= BlockSize(pages)
    ensures Room(pages, INIT_SECTOR, INIT_HEADER_SIZE) == BlockSize(pages)
  {
    var slot := SlotOf(pages, sector);
    assert SectorOf(pages, slot) == sector;
    assert CapacityUpTo(pages, slot + 1) == CapacityUpTo(pages, slot) + Capacity(pages, slot);
    CapacityGrows(pages, slot + 1, SlotCount(pages));
    assert CapacityUpTo(pages, 0) == 0;
  }
}
