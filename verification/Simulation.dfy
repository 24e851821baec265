// The device of sectors that the file system is proved against, run in step
// with the flat mapping: whatever the one accepts, the other does not refuse.
module Simulation {
  import opened Geometry
  import opened Flash
  import MappedDevice

  /** How structures and spares are laid out in bytes. Only the sizes matter, and that a spare
      that has not been written is erased. */
  datatype Encoding = Encoding(header: Header -> seq<byte>, spare: Spare -> seq<byte>)

  ghost predicate EncodingOk(e: Encoding) {
    && (forall h :: |e.header(h)| == HeaderBytes(h))
    && (forall s :: |e.spare(s)| == MappedDevice.SPARE_SIZE)
    && MappedDevice.AllErased(e.spare(ERASED_SPARE))
  }

  /** The bytes of a sector and of its spare are those of `s`. */
  ghost predicate SectorMatches(e: Encoding, s: Sector, data: seq<byte>, spare: seq<byte>) {
    var n := HeaderBytes(s.header);
    && |s.bytes| == |data| == SECTOR_SIZE
    && data[..n] == e.header(s.header)
    && data[n..] == s.bytes[n..]
    && spare == e.spare(s.spare)
  }

  /** A write that the device of sectors accepts hits erased bytes, and leaves matching sectors. */
  lemma WrittenMatches(e: Encoding, s: Sector, data: seq<byte>, spare: seq<byte>, offset: nat, h: Header, payload: seq<byte>)
    requires EncodingOk(e) && SectorMatches(e, s, data, spare)
    requires h.NoHeader? || offset == 0
    requires RegionErased(s, offset, HeaderBytes(h) + |payload|)
    ensures offset + |e.header(h) + payload| <= |data|
    ensures MappedDevice.AllErased(data[offset..offset + |e.header(h) + payload|])
    ensures SectorMatches(e, Written(s, offset, h, payload), Splice(data, offset, e.header(h) + payload), spare)
  {
    hide Splice;
    var n, m, bytes := HeaderBytes(s.header), HeaderBytes(h), e.header(h) + payload;
    assert |bytes| == m + |payload|;
    forall i | offset <= i < offset + |bytes| ensures data[i] == ERASED_BYTE {
      assert data[i] == data[n..][i - n] == s.bytes[n..][i - n];
    }
    if |bytes| == 0 {
      NothingReplaced(s.bytes, offset);
      NothingReplaced(data, offset);
      assert bytes == payload == [];
    } else if h.NoHeader? {
      assert e.header(h) == [] && bytes == payload;
      HeadReplaced(data, s.bytes, n, offset, payload);
    } else {
      assert n == 0;
      BodyReplaced(data, s.bytes, e.header(h), payload);
    }
  }

  lemma NothingReplaced(data: seq<byte>, offset: nat)
    requires offset <= |data|
    ensures Splice(data, offset, []) == data
  {
  }

  lemma HeadReplaced(data: seq<byte>, bytes: seq<byte>, n: nat, offset: nat, payload: seq<byte>)
    requires n <= offset && offset + |payload| <= |data| == |bytes| && data[n..] == bytes[n..]
    ensures Splice(data, offset, payload)[n..] == Splice(bytes, offset, payload)[n..]
    ensures Splice(data, offset, payload)[..n] == data[..n]
  {
    forall i | offset + |payload| <= i < |data| ensures data[i] == bytes[i] {
      assert data[n..][i - n] == bytes[n..][i - n];
    }
    forall i | n <= i < offset ensures data[i] == bytes[i] {
      assert data[n..][i - n] == bytes[n..][i - n];
    }
  }

  lemma BodyReplaced(data: seq<byte>, bytes: seq<byte>, head: seq<byte>, payload: seq<byte>)
    requires |head| + |payload| <= |data| == |bytes| && data[0..] == bytes[0..]
    ensures Splice(data, 0, head + payload)[|head|..] == Splice(bytes, |head|, payload)[|head|..]
    ensures Splice(data, 0, head + payload)[..|head|] == head
  {
    assert data == data[0..] == bytes[0..] == bytes;
  }

  /** The areas of a sector. */
  function DataArea(b: nat, s: nat): MappedDevice.Area {
    MappedDevice.Data(b, s / SECTORS_PER_PAGE, s % SECTORS_PER_PAGE)
  }

  function SpareArea(b: nat, s: nat): MappedDevice.Area {
    MappedDevice.Spare(b, s / SECTORS_PER_PAGE, s % SECTORS_PER_PAGE)
  }

  /** Sector `s` of block `b` is the same in the blocks and in the areas of the flat device. */
  ghost predicate MatchesAt(e: Encoding, blocks: seq<Block>, held: imap<MappedDevice.Area, seq<byte>>, b: nat, s: nat) {
    && b < |blocks| && s < |blocks[b]|
    && DataArea(b, s) in held && SpareArea(b, s) in held
    && SectorMatches(e, blocks[b][s], held[DataArea(b, s)], held[SpareArea(b, s)])
  }

  ghost predicate MatchesBlock(e: Encoding, pages: nat, blocks: seq<Block>, held: imap<MappedDevice.Area, seq<byte>>, b: nat) {
    forall s {:trigger MatchesAt(e, blocks, held, b, s)} | 0 <= s < SectorCount(pages) :: MatchesAt(e, blocks, held, b, s)
  }

  ghost predicate Matches(e: Encoding, pages: nat, blocks: seq<Block>, held: imap<MappedDevice.Area, seq<byte>>) {
    forall b {:trigger MatchesBlock(e, pages, blocks, held, b)} | 0 <= b < |blocks| :: MatchesBlock(e, pages, blocks, held, b)
  }

  lemma AreasDiffer(b: nat, s: nat, c: nat, r: nat)
    ensures DataArea(c, r) != SpareArea(b, s) && SpareArea(c, r) != DataArea(b, s)
    ensures c != b || r != s ==> DataArea(c, r) != DataArea(b, s) && SpareArea(c, r) != SpareArea(b, s)
  {
  }

  /** One sector and its areas changed together. */
  lemma PutMatches(e: Encoding, pages: nat, blocks: seq<Block>, held: imap<MappedDevice.Area, seq<byte>>, b: nat, s: nat,
                   x: Sector, data: seq<byte>, spare: seq<byte>)
    requires Matches(e, pages, blocks, held)
    requires b < |blocks| && s < |blocks[b]|
    requires SectorMatches(e, x, data, spare)
    ensures Matches(e, pages, Put(blocks, b, s, x), held[DataArea(b, s) := data][SpareArea(b, s) := spare])
  {
    hide SectorMatches, DataArea, SpareArea;
    var after, now := Put(blocks, b, s, x), held[DataArea(b, s) := data][SpareArea(b, s) := spare];
    forall c | 0 <= c < |after| ensures MatchesBlock(e, pages, after, now, c) {
      assert MatchesBlock(e, pages, blocks, held, c);
      forall r | 0 <= r < SectorCount(pages) ensures MatchesAt(e, after, now, c, r) {
        assert MatchesAt(e, blocks, held, c, r);
        AreasDiffer(b, s, c, r);
      }
    }
  }

  lemma SpareMatches(e: Encoding, s: Sector, data: seq<byte>, bytes: seq<byte>, spare: Spare)
    requires EncodingOk(e) && SectorMatches(e, s, data, bytes) && s.spare == ERASED_SPARE
    ensures MappedDevice.AllErased(bytes) && |e.spare(spare)| == MappedDevice.SPARE_SIZE
    ensures SectorMatches(e, s.(spare := spare), data, e.spare(spare))
  {
  }

  lemma BlankMatches(e: Encoding, data: seq<byte>, spare: seq<byte>)
    requires EncodingOk(e)
    requires |data| == SECTOR_SIZE && |spare| == MappedDevice.SPARE_SIZE
    requires MappedDevice.AllErased(data) && MappedDevice.AllErased(spare)
    ensures SectorMatches(e, BlankSector(), data, spare)
  {
    assert data == BlankBytes();
    assert spare == e.spare(ERASED_SPARE);
    assert e.header(NoHeader) == [];
  }

  /** Two devices of the same shape with the same page open. */
  ghost predicate Paired(device: FlashDevice, flat: MappedDevice.Device)
    reads device, flat
  {
    && flat.Valid()
    && Shaped(device.pages, device.blocks)
    && flat.pages == device.pages && flat.blockCount == |device.blocks|
    && flat.openBlock == device.openBlock && flat.openPage == device.openPage
  }

  lemma Here(device: FlashDevice, flat: MappedDevice.Device, sector: nat)
    requires Paired(device, flat) && device.Ready()
    ensures flat.PageOpen()
    ensures device.Target(sector) < SectorCount(device.pages) == |device.blocks[device.openBlock]|
    ensures flat.DataHere(sector) == DataArea(device.openBlock, device.Target(sector))
    ensures flat.SpareHere(sector) == SpareArea(device.openBlock, device.Target(sector))
  {
    assert BlockShaped(device.pages, device.blocks[device.openBlock]);
  }

  /** The same write on both devices: the flat one never refuses what the other accepts. */
  method WriteSector(e: Encoding, device: FlashDevice, flat: MappedDevice.Device, sector: nat, offset: nat, h: Header, payload: seq<byte>)
    returns (ok: bool)
    requires Paired(device, flat) && device.Ready()
    requires EncodingOk(e) && Matches(e, device.pages, device.blocks, flat.Held())
    requires h.NoHeader? || offset == 0
    requires RegionErased(device.blocks[device.openBlock][device.Target(sector)], offset, HeaderBytes(h) + |payload|)
    modifies device`blocks, flat.mapped
    ensures ok && Paired(device, flat) && Matches(e, device.pages, device.blocks, flat.Held())
  {
    hide SectorMatches, Written, Splice, RegionErased, Matches, DataArea, SpareArea, Put, Shaped;
    Here(device, flat, sector);
    ghost var b, t, was, held := device.openBlock, device.Target(sector), device.blocks, flat.Held();
    MatchesHere(e, device.pages, was, held, b, t);
    ghost var data, spare := held[DataArea(b, t)], held[SpareArea(b, t)];
    WrittenMatches(e, was[b][t], data, spare, offset, h, payload);
    device.WriteSector(sector, offset, h, payload);
    ok := flat.WriteSector(sector, offset, e.header(h) + payload);
    PutAt(was, b, t, Written(was[b][t], offset, h, payload));
    PutMatches(e, device.pages, was, held, b, t, Written(was[b][t], offset, h, payload),
               Splice(data, offset, e.header(h) + payload), spare);
    AreasDiffer(b, t, b, t);
    SameAgain(held[DataArea(b, t) := Splice(data, offset, e.header(h) + payload)], SpareArea(b, t));
  }

  lemma SameAgain(held: imap<MappedDevice.Area, seq<byte>>, a: MappedDevice.Area)
    requires a in held
    ensures held[a := held[a]] == held
  {
  }

  lemma MatchesHere(e: Encoding, pages: nat, blocks: seq<Block>, held: imap<MappedDevice.Area, seq<byte>>, b: nat, s: nat)
    requires Matches(e, pages, blocks, held) && b < |blocks| && s < SectorCount(pages)
    ensures MatchesAt(e, blocks, held, b, s)
  {
    assert MatchesBlock(e, pages, blocks, held, b);
  }

  method WriteSpare(e: Encoding, device: FlashDevice, flat: MappedDevice.Device, sector: nat, spare: Spare)
    returns (ok: bool)
    requires Paired(device, flat) && device.Ready()
    requires EncodingOk(e) && Matches(e, device.pages, device.blocks, flat.Held())
    requires device.blocks[device.openBlock][device.Target(sector)].spare == ERASED_SPARE
    modifies device`blocks, flat.mapped
    ensures ok && Paired(device, flat) && Matches(e, device.pages, device.blocks, flat.Held())
  {
    hide SectorMatches, Matches, DataArea, SpareArea, Put, Shaped;
    Here(device, flat, sector);
    ghost var b, t, was, held := device.openBlock, device.Target(sector), device.blocks, flat.Held();
    MatchesHere(e, device.pages, was, held, b, t);
    ghost var data, bytes := held[DataArea(b, t)], held[SpareArea(b, t)];
    SpareMatches(e, was[b][t], data, bytes, spare);
    device.WriteSpare(sector, spare);
    ok := flat.WriteSpare(sector, e.spare(spare));
    PutAt(was, b, t, was[b][t].(spare := spare));
    PutMatches(e, device.pages, was, held, b, t, was[b][t].(spare := spare), data, e.spare(spare));
    SameAgain(held, DataArea(b, t));
  }

  /** Erasing a block on both devices makes it match, whatever it held; all other blocks match if they did. */
  method EraseBlock(e: Encoding, device: FlashDevice, flat: MappedDevice.Device, block: nat)
    requires Paired(device, flat) && block < |device.blocks|
    requires EncodingOk(e)
    modifies device`blocks, flat.mapped
    ensures Paired(device, flat)
    ensures MatchesBlock(e, device.pages, device.blocks, flat.Held(), block)
    ensures forall b | 0 <= b < |device.blocks| && old(MatchesBlock(e, device.pages, device.blocks, flat.Held(), b)) ::
      MatchesBlock(e, device.pages, device.blocks, flat.Held(), b)
  {
    ghost var was, held := device.blocks, flat.Held();
    device.EraseBlock(block);
    flat.EraseBlock(block);
    forall s | 0 <= s < SectorCount(device.pages)
      ensures MatchesAt(e, device.blocks, flat.Held(), block, s)
    {
      BlankMatches(e, flat.Bytes(DataArea(block, s)), flat.Bytes(SpareArea(block, s)));
    }
    forall b | 0 <= b < |device.blocks| && b != block && MatchesBlock(e, device.pages, was, held, b)
      ensures MatchesBlock(e, device.pages, device.blocks, flat.Held(), b)
    {
      forall s | 0 <= s < SectorCount(device.pages)
        ensures MatchesAt(e, device.blocks, flat.Held(), b, s)
      {
        assert MatchesAt(e, was, held, b, s);
      }
    }
  }

  /** The start of the simulation: once every block has been erased on both, the devices match, from
      any contents of either. */
  method EraseDevices(e: Encoding, device: FlashDevice, flat: MappedDevice.Device)
    requires Paired(device, flat)
    requires EncodingOk(e)
    modifies device`blocks, flat.mapped
    ensures Paired(device, flat) && Matches(e, device.pages, device.blocks, flat.Held())
  {
    hide MatchesBlock;
    for block := 0 to |device.blocks|
      invariant Paired(device, flat) && |device.blocks| == |old(device.blocks)|
      invariant forall b {:trigger MatchesBlock(e, device.pages, device.blocks, flat.Held(), b)} | 0 <= b < block ::
        MatchesBlock(e, device.pages, device.blocks, flat.Held(), b)
    {
      EraseBlock(e, device, flat, block);
    }
  }

  /** Both devices read the same structure. */
  method ReadHeader(e: Encoding, device: FlashDevice, flat: MappedDevice.Device, sector: nat) returns (h: Header, data: seq<byte>)
    requires Paired(device, flat) && device.Ready()
    requires EncodingOk(e) && Matches(e, device.pages, device.blocks, flat.Held())
    ensures h == device.blocks[device.openBlock][device.Target(sector)].header
    ensures data == e.header(h)
  {
    Here(device, flat, sector);
    MatchesHere(e, device.pages, device.blocks, flat.Held(), device.openBlock, device.Target(sector));
    h := device.ReadHeader(sector);
    SmallHeader(h);
    data := flat.ReadSector(sector, 0, HeaderBytes(h));
  }

  lemma SmallHeader(h: Header)
    ensures HeaderBytes(h) <= SECTOR_SIZE
  {
  }

  /** Both devices read the same bytes behind the structure of a sector. */
  method ReadBytes(e: Encoding, device: FlashDevice, flat: MappedDevice.Device, sector: nat, offset: nat, n: nat)
    returns (data: seq<byte>, bytes: seq<byte>)
    requires Paired(device, flat) && device.Ready()
    requires EncodingOk(e) && Matches(e, device.pages, device.blocks, flat.Held())
    requires HeaderBytes(device.blocks[device.openBlock][device.Target(sector)].header) <= offset && offset + n <= SECTOR_SIZE
    ensures data == bytes && |data| == n
    ensures data <= device.blocks[device.openBlock][device.Target(sector)].bytes[offset..]
  {
    Here(device, flat, sector);
    MatchesHere(e, device.pages, device.blocks, flat.Held(), device.openBlock, device.Target(sector));
    data := device.ReadBytes(sector, offset, n);
    bytes := flat.ReadSector(sector, offset, n);
    ghost var s, t := device.blocks[device.openBlock][device.Target(sector)], flat.Bytes(flat.DataHere(sector));
    SliceBehind(s.bytes, t, HeaderBytes(s.header), offset, n);
  }

  lemma SliceBehind(a: seq<byte>, b: seq<byte>, from: nat, offset: nat, n: nat)
    requires from <= offset && offset + n <= |a| == |b| && a[from..] == b[from..]
    ensures a[offset..offset + n] == b[offset..offset + n]
    ensures a[offset..offset + n] <= a[offset..]
  {
    forall i | offset <= i < offset + n ensures a[i] == b[i] {
      assert a[from..][i - from] == b[from..][i - from];
    }
  }

  /** Both devices read the same spare. */
  method ReadSpare(e: Encoding, device: FlashDevice, flat: MappedDevice.Device, sector: nat) returns (spare: Spare, data: seq<byte>)
    requires Paired(device, flat) && device.Ready()
    requires EncodingOk(e) && Matches(e, device.pages, device.blocks, flat.Held())
    ensures spare == device.blocks[device.openBlock][device.Target(sector)].spare
    ensures data == e.spare(spare)
  {
    Here(device, flat, sector);
    MatchesHere(e, device.pages, device.blocks, flat.Held(), device.openBlock, device.Target(sector));
    spare := device.ReadSpare(sector);
    data := flat.ReadSpare(sector);
  }
}
