/**
 * The Anvil region file (.mca) container: the location table at the start of
 * the file, the byte range of a chunk slot, and the chunk payload header that
 * selects the decompressor.
 *
 * A region file begins with 1024 four-byte location entries. An entry holds a
 * 24-bit big-endian sector offset and an 8-bit sector count; a sector is
 * 4096 bytes. The payload of a chunk starts at its first sector with a 4-byte
 * big-endian length, a 1-byte compression tag, and length - 1 bytes of
 * compressed data.
 */
module Region {
  import opened Base
  import opened Bytes
  import opened Errors

  const SECTOR_SIZE: nat := 4096

  /** Number of chunk slots in a region (32 by 32). */
  const SLOT_COUNT: nat := 1024

  /** Compression tag of zlib-wrapped deflate, the only one the reader accepts. */
  const ZLIB: byte := 2

  /** The decoded location entry of a present slot, in sectors. */
  datatype SlotLocation = SlotLocation(sectorOffset: nat, sectorCount: nat)

  /** A loaded region file: its coordinates and its whole contents. */
  datatype Region = Region(x: int32, y: int32, data: seq<byte>)
  {
    /** `get_x_coord`: the region's x coordinate. */
    function XCoord(): (r: int32)
      ensures r == x
    {
      x
    }

    /** `get_z_coord`: the region's z coordinate, kept in the field `y`. */
    function ZCoord(): (r: int32)
      ensures r == y
    {
      y
    }
  }

  /** The four bytes of a location entry (reference encoding of the table). */
  function EncodeLocation(offset: nat, count: byte): (entry: seq<byte>)
    requires offset < Pow256(3)
    ensures |entry| == 4 && entry[3] == count
  {
    ToBigEndian(offset, 3) + [count]
  }

  /**
   * `get_location`: the entry of slot `index`. Slicing bytes
   * `4*index .. 4*index + 4` panics when the buffer is shorter; the slot is
   * absent when the offset OR the count is zero.
   */
  function Location(data: seq<byte>, index: nat): (r: Outcome<Option<SlotLocation>>)
    ensures r.Panics? <==> |data| < index * 4 + 4
    ensures r.Panics? ==> r.cause == SliceOutOfBounds
    ensures r.Returns? ==>
              var entry := data[index * 4 .. index * 4 + 4];
              (r.value.None? <==> (entry[0] == 0 && entry[1] == 0 && entry[2] == 0) || entry[3] == 0)
    ensures r.Returns? && r.value.Some? ==>
              var loc := r.value.value;
              && 0 < loc.sectorOffset < Pow256(3)
              && 0 < loc.sectorCount < 0x100
              && data[index * 4 .. index * 4 + 4] == EncodeLocation(loc.sectorOffset, loc.sectorCount)
  {
    if |data| < index * 4 + 4 then Panics(SliceOutOfBounds)
    else
      var entry := data[index * 4 .. index * 4 + 4];
      var position := BigEndian(entry[..3]);
      var size := entry[3];
      ToBigEndianOfBigEndian(entry[..3]);
      assert entry == entry[..3] + [size];
      assert position == 0 <==> forall k | 0 <= k < 3 :: entry[..3][k] == 0;
      if position != 0 && size != 0 then Returns(Some(SlotLocation(position, size)))
      else Returns(None)
  }

  /** Reading an entry written by `EncodeLocation` gives back its offset and count. */
  lemma LocationOfEncoded(data: seq<byte>, index: nat, offset: nat, count: byte)
    requires offset < Pow256(3)
    requires index * 4 + 4 <= |data|
    requires data[index * 4 .. index * 4 + 4] == EncodeLocation(offset, count)
    ensures Location(data, index) ==
              Returns(if offset == 0 || count == 0 then None else Some(SlotLocation(offset, count)))
  {
    var entry := data[index * 4 .. index * 4 + 4];
    assert entry[..3] == ToBigEndian(offset, 3);
    BigEndianOfToBigEndian(offset, 3);
  }

  /**
   * `get_chunk_data`: the bytes of a present slot, from its first sector for
   * `sectorCount` sectors, with the end clamped to the buffer. A first sector
   * beyond the end of the buffer makes the slice panic.
   */
  function ChunkData(data: seq<byte>, index: nat): (r: Outcome<Option<seq<byte>>>)
    ensures Location(data, index).Panics? ==> r == Panics(SliceOutOfBounds)
    ensures r == Returns(None) <==> Location(data, index) == Returns(None)
    ensures Location(data, index).Returns? && Location(data, index).value.Some? ==>
              var loc := Location(data, index).value.value;
              var begin := loc.sectorOffset * SECTOR_SIZE;
              && (r.Panics? <==> |data| < begin)
              && (r.Panics? ==> r.cause == SliceOutOfBounds)
              && (r.Returns? ==>
                    var s := r.value.value;
                    && |s| <= loc.sectorCount * SECTOR_SIZE
                    && begin + |s| <= |data|
                    && s == data[begin .. begin + |s|]
                    && (|s| == loc.sectorCount * SECTOR_SIZE || begin + |s| == |data|))
  {
    match Location(data, index)
    case Panics(c) => Panics(c)
    case Returns(None) => Returns(None)
    case Returns(Some(loc)) =>
      var begin := loc.sectorOffset * SECTOR_SIZE;
      var end := Min(begin + loc.sectorCount * SECTOR_SIZE, |data|);
      if begin > end then Panics(SliceOutOfBounds)
      else Returns(Some(data[begin..end]))
  }

  /** A chunk payload as written: declared length, tag, compressed bytes. */
  function EncodePayload(tag: byte, compressed: seq<byte>): (s: seq<byte>)
    requires |compressed| + 1 < Pow256(4)
    ensures |s| == 5 + |compressed| && s[4] == tag && s[5..] == compressed
  {
    ToBigEndian(|compressed| + 1, 4) + [tag] + compressed
  }

  /**
   * `range` starts with a zlib payload whose compressed bytes are
   * `compressed`: the declared length covers them and the tag.
   */
  predicate HoldsPayload(range: seq<byte>, compressed: seq<byte>) {
    && 5 + |compressed| <= |range|
    && |compressed| + 1 < Pow256(4)
    && range[..5 + |compressed|] == EncodePayload(ZLIB, compressed)
  }

  /**
   * The header part of `get_chunk_nbt_data`: read the 4-byte length and the
   * tag (an I/O error when the range is too short for them), reject every tag
   * but zlib, and cut out bytes `5 .. 4 + length`, the bytes handed to the
   * decompressor. A length of zero, or one reaching past the range, makes
   * that slice panic.
   */
  function CompressedBytes(range: seq<byte>): (r: Outcome<Result<seq<byte>, MCLoadError>>)
    ensures r == Returns(Err(IoError(EofError))) <==> |range| < 5
    ensures |range| >= 5 && range[4] != ZLIB ==>
              r == Returns(Err(IncompatibleCompressionType(range[4])))
    ensures r.Returns? && r.value.Err? ==>
              r.value.error == IoError(EofError) ||
              (r.value.error == IncompatibleCompressionType(range[4]) && range[4] != ZLIB)
    ensures r.Panics? <==>
              && |range| >= 5 && range[4] == ZLIB
              && (BigEndian(range[..4]) == 0 || |range| < 4 + BigEndian(range[..4]))
    ensures r.Panics? ==> r.cause == SliceOutOfBounds
    ensures r.Returns? && r.value.Ok? ==>
              && |range| >= 5 && 1 <= BigEndian(range[..4]) && 4 + BigEndian(range[..4]) <= |range|
              && r.value.value == range[5 .. 4 + BigEndian(range[..4])]
              && HoldsPayload(range, r.value.value)
  {
    if |range| < 5 then Returns(Err(IoError(EofError)))
    else
      var realSize := BigEndian(range[..4]);
      var compression := range[4];
      if compression != ZLIB then Returns(Err(IncompatibleCompressionType(compression)))
      else if 5 > 4 + realSize || 4 + realSize > |range| then Panics(SliceOutOfBounds)
      else
        var compressed := range[5 .. 4 + realSize];
        HeaderHoldsPayload(range, realSize);
        Returns(Ok(compressed))
  }

  /** A zlib header whose length fits the range declares the bytes after it as the payload. */
  lemma HeaderHoldsPayload(range: seq<byte>, realSize: nat)
    requires |range| >= 5 && range[4] == ZLIB
    requires realSize == BigEndian(range[..4]) && 1 <= realSize && 4 + realSize <= |range|
    ensures HoldsPayload(range, range[5 .. 4 + realSize])
  {
    var compressed := range[5 .. 4 + realSize];
    ToBigEndianOfBigEndian(range[..4]);
    assert range[..5 + |compressed|] == range[..4] + [range[4]] + compressed;
  }

  /**
   * Reading the header of a payload written by `EncodePayload`, followed by
   * any padding: for zlib exactly the written compressed bytes are cut out,
   * and every other tag is rejected with that tag.
   */
  lemma CompressedBytesOfEncoded(tag: byte, compressed: seq<byte>, padding: seq<byte>)
    requires |compressed| + 1 < Pow256(4)
    ensures CompressedBytes(EncodePayload(tag, compressed) + padding) ==
              if tag != ZLIB then Returns(Err(IncompatibleCompressionType(tag)))
              else Returns(Ok(compressed))
  {
    var range := EncodePayload(tag, compressed) + padding;
    assert range[..4] == ToBigEndian(|compressed| + 1, 4);
    BigEndianOfToBigEndian(|compressed| + 1, 4);
    assert range[5 .. 4 + |compressed| + 1] == compressed;
  }

  /**
   * The slot at `loc` starts with a zlib payload whose compressed bytes are
   * `compressed`, within both the slot's sectors and the buffer.
   */
  predicate SlotHolds(data: seq<byte>, loc: SlotLocation, compressed: seq<byte>) {
    var begin := loc.sectorOffset * SECTOR_SIZE;
    && begin + 5 + |compressed| <= |data|
    && 5 + |compressed| <= loc.sectorCount * SECTOR_SIZE
    && |compressed| + 1 < Pow256(4)
    && data[begin .. begin + 5 + |compressed|] == EncodePayload(ZLIB, compressed)
  }

  lemma SlotHoldsPrefix(data: seq<byte>, loc: SlotLocation, range: seq<byte>, compressed: seq<byte>)
    requires loc.sectorOffset * SECTOR_SIZE + |range| <= |data|
    requires |range| <= loc.sectorCount * SECTOR_SIZE
    requires range == data[loc.sectorOffset * SECTOR_SIZE .. loc.sectorOffset * SECTOR_SIZE + |range|]
    requires HoldsPayload(range, compressed)
    ensures SlotHolds(data, loc, compressed)
  {
    var begin := loc.sectorOffset * SECTOR_SIZE;
    assert data[begin .. begin + 5 + |compressed|] == range[..5 + |compressed|];
  }

  /**
   * `get_chunk_nbt_data`: the decompressed payload of slot `index`, `Ok(None)`
   * for an absent slot, or an error; never an error other than a short range
   * or an unsupported tag. A failed inflation panics through `unwrap`.
   */
  function ChunkNbtData(data: seq<byte>, index: nat, inflate: seq<byte> -> Option<seq<byte>>):
    (r: Outcome<Result<Option<seq<byte>>, MCLoadError>>)
    ensures r == Returns(Ok(None)) <==> Location(data, index) == Returns(None)
    ensures |data| < index * 4 + 4 ==> r == Panics(SliceOutOfBounds)
    ensures r.Panics? ==> r.cause == SliceOutOfBounds || r.cause == InflateFailed
    ensures ChunkData(data, index).Panics? ==> r == Panics(SliceOutOfBounds)
    ensures var chunk := ChunkData(data, index);
            chunk.Returns? && chunk.value.Some? ==>
              var header := CompressedBytes(chunk.value.value);
              && (header.Panics? ==> r == Panics(header.cause))
              && (header.Returns? && header.value.Err? ==> r == Returns(Err(header.value.error)))
              && (header.Returns? && header.value.Ok? ==>
                    r == if inflate(header.value.value).None? then Panics(InflateFailed)
                         else Returns(Ok(Some(inflate(header.value.value).value))))
    ensures r.Returns? && r.value.Err? ==>
              r.value.error == IoError(EofError) ||
              (r.value.error.IncompatibleCompressionType? && r.value.error.tag != ZLIB)
    ensures r.Returns? && r.value.Ok? && r.value.value.Some? ==>
              && Location(data, index).Returns? && Location(data, index).value.Some?
              && exists compressed :: SlotHolds(data, Location(data, index).value.value, compressed) &&
                                      inflate(compressed) == Some(r.value.value.value)
  {
    match ChunkData(data, index)
    case Panics(c) => Panics(c)
    case Returns(None) => Returns(Ok(None))
    case Returns(Some(range)) =>
      match CompressedBytes(range)
      case Panics(c) => Panics(c)
      case Returns(Err(e)) => Returns(Err(e))
      case Returns(Ok(compressed)) =>
        match inflate(compressed)
        case None => Panics(InflateFailed)
        case Some(bytes) =>
          SlotHoldsPrefix(data, Location(data, index).value.value, range, compressed);
          Returns(Ok(Some(bytes)))
  }

  /**
   * A slot whose entry and payload were written with the reference encodings
   * reads back as the decompression of the written bytes (zlib), or as the
   * incompatible-compression error carrying the written tag.
   */
  lemma ChunkNbtDataOfEncoded(data: seq<byte>, index: nat, offset: nat, count: byte,
                              tag: byte, compressed: seq<byte>,
                              inflate: seq<byte> -> Option<seq<byte>>)
    requires 0 < offset < Pow256(3) && 0 < count
    requires |compressed| + 1 < Pow256(4)
    requires index * 4 + 4 <= |data|
    requires data[index * 4 .. index * 4 + 4] == EncodeLocation(offset, count)
    requires 5 + |compressed| <= count * SECTOR_SIZE
    requires offset * SECTOR_SIZE + 5 + |compressed| <= |data|
    requires data[offset * SECTOR_SIZE .. offset * SECTOR_SIZE + 5 + |compressed|] ==
             EncodePayload(tag, compressed)
    ensures ChunkNbtData(data, index, inflate) ==
              if tag != ZLIB then Returns(Err(IncompatibleCompressionType(tag)))
              else if inflate(compressed).None? then Panics(InflateFailed)
              else Returns(Ok(Some(inflate(compressed).value)))
  {
    LocationOfEncoded(data, index, offset, count);
    var begin := offset * SECTOR_SIZE;
    var end := Min(begin + count * SECTOR_SIZE, |data|);
    var range := data[begin..end];
    var payload := EncodePayload(tag, compressed);
    assert range == payload + range[|payload|..];
    assert ChunkData(data, index) == Returns(Some(range));
    CompressedBytesOfEncoded(tag, compressed, range[|payload|..]);
  }
}
