/**
 * `ChunkRegion`: a region expanded into its 1024 chunk slots, each the parsed
 * NBT value of the slot's decompressed payload, or nothing.
 *
 * NBT parsing is a foreign library; it is the parameter `parse`, a partial
 * function from bytes to the opaque NBT type `Nbt`.
 */
module ChunkRegion {
  import opened Base
  import Region

  datatype ChunkRegion<Nbt> = ChunkRegion(x: int32, y: int32, path: Path, chunks: seq<Option<Nbt>>)

  /** `ChunkRegion::new`: the given coordinates and path, and no chunks yet. */
  function New<Nbt>(x: int32, y: int32, path: Path): (r: ChunkRegion<Nbt>)
    ensures r.x == x && r.y == y && r.path == path && r.chunks == []
  {
    ChunkRegion(x, y, path, [])
  }

  /**
   * What slot `index` of a region's bytes becomes: the parsed NBT value when
   * the slot holds a decompressed payload that parses, nothing when the slot
   * is absent, holds an error or does not parse; a panic of
   * `get_chunk_nbt_data` passes through.
   */
  function SlotChunk<Nbt>(data: seq<byte>, index: nat, inflate: seq<byte> -> Option<seq<byte>>,
                          parse: seq<byte> -> Option<Nbt>): (r: Outcome<Option<Nbt>>)
    ensures r.Panics? <==> Region.ChunkNbtData(data, index, inflate).Panics?
    ensures r.Panics? ==> r.cause == Region.ChunkNbtData(data, index, inflate).cause
    ensures Region.Location(data, index) == Returns(None) ==> r == Returns(None)
    ensures var nbtData := Region.ChunkNbtData(data, index, inflate);
            nbtData.Returns? && nbtData.value.Err? ==> r == Returns(None)
    ensures var nbtData := Region.ChunkNbtData(data, index, inflate);
            r.Returns? && r.value.Some? <==>
              && nbtData.Returns? && nbtData.value.Ok? && nbtData.value.value.Some?
              && parse(nbtData.value.value.value).Some?
    ensures var nbtData := Region.ChunkNbtData(data, index, inflate);
            r.Returns? && r.value.Some? ==> r.value == parse(nbtData.value.value.value)
  {
    match Region.ChunkNbtData(data, index, inflate)
    case Panics(c) => Panics(c)
    case Returns(Ok(Some(bytes))) => Returns(parse(bytes))
    case Returns(_) => Returns(None)
  }

  /**
   * The body of the slot loop of `From<Region>`: decompress slot `index`,
   * parse it if it held a payload, and keep nothing otherwise.
   */
  method ExpandSlot<Nbt>(data: seq<byte>, index: nat, inflate: seq<byte> -> Option<seq<byte>>,
                         parse: seq<byte> -> Option<Nbt>)
    returns (slot: Outcome<Option<Nbt>>)
    ensures slot == SlotChunk(data, index, inflate, parse)
  {
    var nbtData := Region.ChunkNbtData(data, index, inflate);
    if nbtData.Panics? {
      return Panics(nbtData.cause);
    }
    if nbtData.value.Ok? && nbtData.value.value.Some? {
      var parsed := parse(nbtData.value.value.value);
      if parsed.Some? {
        slot := Returns(Some(parsed.value));
      } else {
        slot := Returns(None);
      }
    } else {
      slot := Returns(None);
    }
  }

  /** What each of the first `n` slots becomes, slot `i` at position `i`. */
  function Slots<Nbt>(data: seq<byte>, inflate: seq<byte> -> Option<seq<byte>>,
                      parse: seq<byte> -> Option<Nbt>, n: nat): (slots: seq<Outcome<Option<Nbt>>>)
    ensures |slots| == n
    ensures forall i | 0 <= i < n :: slots[i] == SlotChunk(data, i, inflate, parse)
  {
    if n == 0 then [] else Slots(data, inflate, parse, n - 1) + [SlotChunk(data, n - 1, inflate, parse)]
  }

  /**
   * The slot loop of `From<Region>` over the first `count` slots: slot `i`
   * is pushed at position `i`, and a slot that panics ends the loop with
   * that panic.
   */
  method ExpandSlots<Nbt>(data: seq<byte>, inflate: seq<byte> -> Option<seq<byte>>,
                          parse: seq<byte> -> Option<Nbt>, count: nat)
    returns (r: Outcome<seq<Option<Nbt>>>)
    ensures r == Collect(Slots(data, inflate, parse, count))
  {
    var chunks: seq<Option<Nbt>> := [];
    for index := 0 to count
      invariant Collect(Slots(data, inflate, parse, index)) == Returns(chunks)
    {
      var slot := ExpandSlot(data, index, inflate, parse);
      CollectSnoc(Slots(data, inflate, parse, index), slot);
      if slot.Panics? {
        CollectFirstPanic(Slots(data, inflate, parse, count), index);
        return Panics(slot.cause);
      }
      chunks := chunks + [slot.value];
    }
    r := Returns(chunks);
  }

  /**
   * `From<Region> for ChunkRegion`: every one of the 1024 slots expanded in
   * order, with the coordinates of the region and an empty path; a slot that
   * panics ends the whole conversion with that panic.
   */
  method FromRegion<Nbt>(region: Region.Region, inflate: seq<byte> -> Option<seq<byte>>,
                         parse: seq<byte> -> Option<Nbt>)
    returns (r: Outcome<ChunkRegion<Nbt>>)
    ensures var expanded := Collect(Slots(region.data, inflate, parse, Region.SLOT_COUNT));
            && (r.Panics? <==> expanded.Panics?)
            && (r.Panics? ==> r.cause == expanded.cause)
            && (r.Returns? ==> r.value == ChunkRegion(region.XCoord(), region.ZCoord(), [], expanded.value))
  {
    var chunks := ExpandSlots(region.data, inflate, parse, Region.SLOT_COUNT);
    if chunks.Panics? {
      return Panics(chunks.cause);
    }
    r := Returns(ChunkRegion(region.XCoord(), region.ZCoord(), [], chunks.value));
  }

  /**
   * Expanding the first `n` slots (all 1024 in `FromRegion`) gives, when it
   * returns, exactly one entry per slot, each what its own slot becomes,
   * whatever the other slots hold; it returns exactly when no slot panics,
   * and otherwise the panic is that of the first slot that panics.
   */
  lemma ExpandedSlots<Nbt>(data: seq<byte>, inflate: seq<byte> -> Option<seq<byte>>,
                           parse: seq<byte> -> Option<Nbt>, n: nat)
    ensures var expanded := Collect(Slots(data, inflate, parse, n));
            && (expanded.Returns? <==> forall i | 0 <= i < n :: SlotChunk(data, i, inflate, parse).Returns?)
            && (expanded.Returns? ==>
                  && |expanded.value| == n
                  && forall i | 0 <= i < n :: SlotChunk(data, i, inflate, parse) == Returns(expanded.value[i]))
            && (expanded.Panics? ==> exists i | 0 <= i < n ::
                  && SlotChunk(data, i, inflate, parse) == Panics(expanded.cause)
                  && forall j | 0 <= j < i :: SlotChunk(data, j, inflate, parse).Returns?)
  {
    var slots := Slots(data, inflate, parse, n);
    assert forall i | 0 <= i < n :: slots[i] == SlotChunk(data, i, inflate, parse);
  }
}
