# ranvil core in Dafny

A model of the core of `ranvil`, a Rust library that reads Minecraft save
worlds stored in the Anvil format, with proofs about it.

**The region file.** A region file (`r.<x>.<z>.mca`) begins with a location
table of 1024 four-byte entries. Each entry holds a 24-bit big-endian sector
offset and an 8-bit sector count, and a sector is 4096 bytes. A chunk's
payload starts at its first sector with:
- a 4-byte big-endian length;
- a 1-byte compression tag;
- `length - 1` bytes of compressed NBT data.

**What the model covers:**
- reading the location table (`get_location`);
- cutting out a slot's bytes (`get_chunk_data`);
- reading the payload header and accepting only zlib (`get_chunk_nbt_data`);
- the region coordinates;
- parsing region file names with `r\.(-?\d+)\.(-?\d+)\.mca`, and the name formatter;
- the save catalogue: `Save::from_path`, `get_region`, `get_region_path`, `load_region`, and the load-once guard of `Region::load`;
- expanding a region into its 1024 chunk slots (`From<Region> for ChunkRegion`);
- the error type `MCLoadError`, with its conversion and its messages.

**Modules:**
- `Base`: bytes, i32, `Option`, `Result`, and `Outcome` (a call either returns or panics). It also has `Collect`, which runs steps that may panic, in order.
- `Bytes`: big-endian numbers.
- `Decimal`: `{}` formatting of integers and `str::parse::<i32>`.
- `Errors`: `MCLoadError`.
- `Region`: the region-file container (src/region.rs).
- `RegionName`: `get_region_coords` and the file-name formatter.
- `Save`: the catalogue, as classes with mutable state (src/lib.rs).
- `ChunkRegion`: the slot loop (src/chunkregion.rs).

**How the source is represented:**
- **Panics.** Every path on which the Rust code panics is an explicit `Panics(cause)` result. This covers a slice out of range, `unwrap` on a failed decompression, a file name that does not match, and a save path without a file name. Two panics are not results: the file open in `Region::load`, which is a precondition instead, and the `to_str().unwrap()` on a file name that is not valid UTF-8, which cannot arise because names are Dafny strings.
- **Foreign libraries.** zlib inflation (`flate2`) and NBT parsing (`rnbt`) are function parameters that may fail.
- **File system.** It is an input. A path is its list of components, and the readable files are a map from path to contents.

**Code written twice in the source.** src/lib.rs repeats src/region.rs's `get_location`, `get_chunk_data`, `get_chunk_nbt_data` and `get_region_coords`, and src/error.rs's `MCLoadError`, line for line.
- Each is modelled once. Its row in the table below cites the copy in src/region.rs or src/error.rs, and names the lines of the copy in src/lib.rs.
- The region of src/region.rs is immutable and only ever reads its bytes, so it is the datatype `Region.Region`.
- The region of src/lib.rs is filled in place by `load`, so it is the class `Save.Region`. Its read-only operations are the functions of module `Region` applied to its `data`.

**Where the code and the intended design differ**, the model follows the code:
- a slot is absent when its offset **or** its count is zero;
- a file in the region directory whose name contains no match of the pattern anywhere makes `from_path` panic, instead of being skipped (the search is unanchored, so a name such as `r.0.0.mca.bak` still becomes a region);
- a zlib (tag 2) slot whose declared length is zero, or reaches past its sectors, panics instead of returning an error; any other tag is reported as `IncompatibleCompressionType` before the length is used.

## Model

| member | source | states |
|---|---|---|
| Bytes.BigEndian | src/region.rs:43 | the big-endian value of n bytes is below 256^n, and is zero exactly when every byte is zero |
| Bytes.ToBigEndian | src/region.rs:43 | writing a value that fits in n bytes gives exactly n bytes |
| Bytes.BigEndianOfToBigEndian | src/region.rs:43 | reading back the n big-endian bytes of a value that fits gives the value |
| Bytes.ToBigEndianOfBigEndian | src/region.rs:81 | the bytes of a big-endian field are the encoding of the value read from them, so a header is determined by its length |
| Decimal.DigitChar | src/error.rs:21 | each decimal digit value d maps to the ASCII digit whose code is `'0' + d` |
| Decimal.NatToString | src/error.rs:21 | `{}` of a natural number is a non-empty string of ASCII digits without a leading zero whose value is the number |
| Decimal.IntToString | src/lib.rs:189 | `{}` of an integer starts with `-` exactly when it is negative; the rest is the canonical decimal (`NatToString`) of its magnitude |
| Decimal.ParseI32 | src/region.rs:115-116 | `parse::<i32>` succeeds only on a non-empty string |
| Decimal.ParseOfIntToString | src/lib.rs:189 | parsing the formatted form of any i32 gives it back |
| Errors.FromIoError | src/error.rs:9-13 | every I/O error converts to `IoError` carrying that same error (the copy at src/lib.rs:130-134 behaves the same) |
| Errors.Message | src/error.rs:15-25 | `Path not found`; `IO error: ` then the I/O error's own message; `Incompatible compression type ` then the canonical decimal of the tag, which parses back to the tag (the copy at src/lib.rs:136-146 behaves the same) |
| Base.Min | src/region.rs:60 | `min` is at most both operands and is one of them |
| Region.Region.XCoord | src/region.rs:100-102 | `get_x_coord` is the region's x |
| Region.Region.ZCoord | src/region.rs:103-105 | `get_z_coord` is the region's field y, unchanged |
| Region.EncodeLocation | src/region.rs:40-45 | a location entry is four bytes, the last of which is the sector count |
| Region.Location | src/region.rs:40-51 | panics exactly when the buffer is shorter than `4*index + 4`; returns no slot exactly when the 24-bit offset or the count is zero; a returned slot has a non-zero offset below 2^24 and a non-zero count below 256, and the entry is exactly their encoding (the copy at src/lib.rs:67-78 behaves the same) |
| Region.LocationOfEncoded | src/region.rs:40-51 | reading an entry written with any offset and count gives them back, or no slot when either is zero |
| Region.ChunkData | src/region.rs:57-65 | an absent slot gives `None` and only then; a short table panics; otherwise the call panics exactly when the first sector starts beyond the buffer, and else returns bytes of the buffer from that sector on, at most `count*4096` of them, ending at `count*4096` or at the end of the buffer (the copy at src/lib.rs:80-88 behaves the same) |
| Region.EncodePayload | src/region.rs:80-85 | a payload is 5 header bytes, the tag at offset 4, then the compressed bytes |
| Region.CompressedBytes | src/region.rs:80-85 | fewer than 5 bytes is exactly the end-of-file I/O error; a tag other than 2 is `IncompatibleCompressionType` carrying that tag; for tag 2 the call panics exactly when the length is 0 or `4 + length` exceeds the range, and otherwise returns `range[5 .. 4 + length]`, the payload's declared compressed bytes (the copy at src/lib.rs:96-101 behaves the same) |
| Region.HeaderHoldsPayload | src/region.rs:81-85 | a zlib header whose length fits the range is the payload encoding of the bytes it declares |
| Region.CompressedBytesOfEncoded | src/region.rs:80-94 | for a payload written with any tag and bytes, then padding: zlib gives back exactly the written bytes, and any other tag is rejected with that tag |
| Region.SlotHoldsPrefix | src/region.rs:76-78 | a payload at the start of a slot's bytes lies within the buffer and within the slot's sectors |
| Region.ChunkNbtData | src/region.rs:71-98 | `Ok(None)` exactly for an absent slot; a short table, or a first sector beyond the buffer, panics; for a present slot the result follows the header of its bytes: the header's panic, its error (end-of-file below 5 bytes, or the slot's own tag when it is not 2), or the inflation of exactly the declared bytes, panicking when inflation fails; a chunk is the inflation of a zlib payload that the slot really holds (the copy at src/lib.rs:90-112 behaves the same) |
| Region.ChunkNbtDataOfEncoded | src/region.rs:71-98 | a slot written with the entry and payload encodings reads back as the inflation of the written bytes for zlib, as the incompatible-tag error for any other tag, and panics when inflation fails |
| RegionName.PatternAtMatched | src/lib.rs:189 | the text `r.<a>.<b>.mca` holds the pattern's pieces with captures a and b |
| RegionName.DigitRun | src/region.rs:113 | a greedy `\d+` from a position takes only digits and stops at a non-digit or at the end |
| RegionName.DigitRunExact | src/region.rs:113 | a run of digits followed by a non-digit is exactly what greedy matching takes |
| RegionName.NumeralEnd | src/region.rs:113 | a greedy `-?\d+` match covers a numeral |
| RegionName.NumeralEndExact | src/region.rs:113 | a numeral followed by a non-digit is matched exactly |
| RegionName.MatchAt | src/region.rs:113-114 | a match at a position has numeral captures, and the pattern's text is there |
| RegionName.MatchAtComplete | src/region.rs:113-114 | wherever the pattern's text with numeral captures occurs, the pattern matches there with exactly those captures |
| RegionName.Matches | src/region.rs:114 | entry p says whether, and with which captures, the pattern matches at position p, for every position including the end |
| RegionName.FirstSome | src/region.rs:114 | the unanchored search stops at the leftmost matching position, with no match before it, or finds none when no position matches |
| RegionName.RegionCoords | src/region.rs:112-118 | panics with `NoPatternMatch` exactly when no position matches; otherwise, at the leftmost matching position, panics with `ParseIntFailed` exactly when a capture is not an i32, and else returns the i32 values of the two captures (the copy at src/lib.rs:115-121 behaves the same) |
| RegionName.RegionCoordsOfPattern | src/region.rs:112-118 | a name that starts with `r.<a>.<b>.mca` parses to the numbers a and b |
| RegionName.FileName | src/lib.rs:188-190 | the name is exactly `r.`, the `{}` form of x, `.`, the `{}` form of z, `.mca`; and it parses back to (x, y) |
| RegionName.RegionCoordsOfOrigin | src/region.rs:112-118 | `r.0.0.mca` parses to (0, 0) |
| RegionName.RegionCoordsOfNegative | src/region.rs:112-118 | `r.-12.7.mca` parses to (-12, 7) |
| RegionName.RegionCoordsOfBadName | src/region.rs:112-118 | `r.abc.mca` makes the parse panic |
| Save.LoadedData | src/lib.rs:59-65 | a region already holding bytes keeps them; otherwise it gets the file's contents |
| Save.LoadIsIdempotent | src/lib.rs:60-62 | loading twice leaves the bytes as the first load left them |
| Save.LoadedRegionIgnoresFile | src/lib.rs:60-62 | after a load that produced bytes, a later load does not read the file, whatever it holds |
| Save.Region.constructor | src/lib.rs:55-57 | `Region::new` has the given coordinates and no bytes |
| Save.Region.Load | src/lib.rs:59-65 | `load` sets the bytes to their loaded value and changes nothing else |
| Save.FindFrom | src/lib.rs:180-182 | the index of the first region with both coordinates equal, or none when no region has them |
| Save.ReadableNamesOfOne | src/lib.rs:160-163 | a readable entry becomes its name, an unreadable one nothing |
| Save.ReadableNamesOfConcat | src/lib.rs:156-165 | filtering a listing is filtering its parts in order and concatenating, so names keep the listing's order and multiplicity |
| Save.ReadableNames | src/lib.rs:159-163 | directory entries that are errors are skipped, and exactly the readable names are kept |
| Base.Collect | src/lib.rs:156-165 | collecting steps that may panic returns every value in order exactly when none panics; otherwise it panics with the first panicking step's cause |
| Base.CollectSnoc | src/chunkregion.rs:29-40 | running one more step keeps an earlier panic, or adds the step's panic or value |
| Base.CollectFirstPanic | src/chunkregion.rs:29-40 | the first step that panics decides the panic of the whole run |
| Save.CoordsOfNames | src/lib.rs:160-163 | `get_region_coords` is applied to each name, in order |
| Save.NewRegions | src/lib.rs:164-165 | one new, distinct, unloaded region per coordinate pair, in order |
| Save.Save.constructor | src/lib.rs:167-177 | a save with the given name, path and regions, whose regions are distinct objects |
| Save.Save.FromPath | src/lib.rs:151-178 | a missing path is `PathNotFoundError`; an unreadable region directory is an `IoError` of that error; otherwise the first bad name panics; a path without a file name panics; and else the save holds one new, unloaded region per readable name, in listing order, named after the path's last component |
| Save.Save.Display | src/lib.rs:21-25 | the text is the name, ` [`, the canonical decimal of the region count, and ` regions]` |
| Save.Save.GetRegion | src/lib.rs:180-186 | the first region whose x and y both match, or none exactly when no region matches; `get_region_mut` performs the same search |
| Save.Save.GetRegionPath | src/lib.rs:188-190 | the save's path, then `region`, then the region's file name |
| Save.Save.RegionPathParsesBack | src/lib.rs:188-190 | the file name of `get_region_path(x, y)` parses back to (x, y) |
| Save.Save.LoadRegion | src/lib.rs:192-197 | only the first region at (x, y) changes, to its loaded bytes; every other region keeps its bytes, and nothing changes when no region matches |
| ChunkRegion.New | src/chunkregion.rs:14-21 | `ChunkRegion::new` stores its arguments and has no chunks |
| ChunkRegion.SlotChunk | src/chunkregion.rs:30-39 | a slot becomes a chunk exactly when it decompresses to bytes that parse, and then becomes the parsed value; an absent slot, an error and an unparsable payload all become `None`; panics pass through with their cause |
| ChunkRegion.ExpandSlot | src/chunkregion.rs:30-39 | the loop body computes what the slot becomes |
| ChunkRegion.Slots | src/chunkregion.rs:29 | position i holds what slot i becomes |
| ChunkRegion.ExpandSlots | src/chunkregion.rs:26-40 | the loop pushes slot after slot in increasing order, and ends with the first panic |
| ChunkRegion.FromRegion | src/chunkregion.rs:24-48 | the result has the region's `get_x_coord` and `get_z_coord`, an empty path, and the expansion of all 1024 slots; it panics exactly when that expansion panics |
| ChunkRegion.ExpandedSlots | src/chunkregion.rs:29-40 | the expansion returns exactly when no slot panics. When it returns, it has one entry per slot, each what its own slot becomes, whatever the other slots hold. Otherwise its panic is that of the first slot that panics |

## Left out

- **File I/O** is not modelled: `File::open`, `read_to_end`, `read_dir`, `exists`, `dirs::config_dir`, `get_saves` and `get_save`. File contents, the existence of the save path and the directory listing are inputs.
- **The file-reading constructor `Region::new` of src/region.rs:31-36** is left out, because it only reads a file. A `Region.Region` is built from bytes directly.
- **zlib decompression and NBT parsing** are not modelled. They are the function parameters `inflate` and `parse`.
- **The regex engine** is modelled only for the fixed pattern `r\.(-?\d+)\.(-?\d+)\.mca`.
- RegionName.DigitRun: treats `\d` as the ASCII digits 0-9. The regex crate's `\d` also matches other Unicode decimal digits, which `parse::<i32>` then rejects with a panic.
- Save.Save.FromPath:
  - does not model the `to_str().unwrap()` panic on a file name that is not valid UTF-8, because names are Dafny strings;
  - paths are normalised component lists. The root or empty path is `[]`, and a path ending in `..` has no file name.
- Save.Region.Load: failing to open or read the file is a precondition (the file is in the file-system map) rather than a modelled panic.
- **Integer widths.** `usize` arithmetic is unbounded here, which assumes a 64-bit target. `position * 4096`, `size * 4096` and `4 + real_size` cannot overflow on 64-bit, because the offset has 24 bits, the count 8 and the length 32.
- Region.Location: does not model the overflow of `index * 4` and `(index + 1) * 4` for an index of 2^62 or more, because `index` is unbounded here. Rust panics on that overflow in a debug build and wraps in a release build (index 2^62 reads slot 0), while the model reports `SliceOutOfBounds`. The same holds for `ChunkData` and `ChunkNbtData`, which take the same index; `From<Region>` only uses indices below 1024.
- **Compression tags 1, 3 and 127, and the timestamp table** are not modelled, because the code implements none of them. Every tag but 2 is rejected.
- **The `std::io::Result` layer of `get_location` and `get_chunk_data`** is dropped. A 4-byte slice always has room for `read_u24` and `read_u8`, so those calls can never return `Err`.
- **The text of `std::io::Error`'s own `Display`** is an input (`StdIoError.message`). Only the end-of-file error's text is fixed, as the standard library writes it.
- Decimal.ParseI32: its contract states only that success needs a non-empty string. Its full behaviour (sign, digits, range) is its definition, and `ParseOfIntToString` and the `RegionCoordsOf*` lemmas prove facts about it.
