/**
 * A save world and its catalogue of region files: discovering the regions
 * from the names in the save's `region` directory, finding a region by its
 * coordinates, naming its file, and loading its contents on demand.
 *
 * The file system is an input: a path is its list of components, and the
 * files that can be opened are a map from path to contents.
 */
module Save {
  import opened Base
  import opened Errors
  import RegionName
  import Decimal

  /** The files that can be opened and read, with their contents. */
  type FileSystem = map<Path, seq<byte>>

  /** One entry of a directory listing: a file name, or the error reading it. */
  type DirEntry = Result<string, StdIoError>

  /**
   * The contents of a region after `load`: what it held if that was not
   * empty, otherwise everything read from the file at `path`.
   */
  function LoadedData(current: seq<byte>, path: Path, fs: FileSystem): (data: seq<byte>)
    requires current == [] ==> path in fs
    ensures current != [] ==> data == current
    ensures current == [] ==> data == fs[path]
  {
    if |current| > 0 then current else fs[path]
  }

  /** Loading a second time from the same file leaves the bytes as the first load left them. */
  lemma LoadIsIdempotent(current: seq<byte>, path: Path, fs: FileSystem)
    requires current == [] ==> path in fs
    ensures LoadedData(LoadedData(current, path, fs), path, fs) == LoadedData(current, path, fs)
  {
  }

  /** Once a region holds bytes, loading never reads the file again, whatever it now holds. */
  lemma LoadedRegionIgnoresFile(current: seq<byte>, path: Path, fs: FileSystem, fs': FileSystem)
    requires current == [] ==> path in fs
    requires LoadedData(current, path, fs) != []
    ensures LoadedData(LoadedData(current, path, fs), path, fs') == LoadedData(current, path, fs)
  {
  }

  /** A region of the catalogue: its coordinates, and its bytes once loaded. */
  class Region {
    const x: int32
    const y: int32
    var data: seq<byte>

    /** `Region::new`: a region at (x, y) whose file has not been read. */
    constructor (x: int32, y: int32)
      ensures this.x == x && this.y == y && data == []
    {
      this.x := x;
      this.y := y;
      data := [];
    }

    /**
     * `Region::load`: read the whole file into `data`, unless `data` already
     * holds bytes. Opening or reading a file that is not in `fs` panics
     * through `unwrap`, so the caller must make sure it is there.
     */
    method Load(path: Path, fs: FileSystem)
      requires data == [] ==> path in fs
      modifies this
      ensures data == LoadedData(old(data), path, fs)
    {
      if |data| > 0 {
        return;
      }
      data := data + fs[path];
    }
  }

  /** Whether `region` is the one at (x, y). */
  predicate IsAt(region: Region, x: int32, y: int32) {
    region.x == x && region.y == y
  }

  /** Index of the first region at (x, y) from position `from` on, as `iter().find` searches. */
  function FindFrom(regions: seq<Region>, x: int32, y: int32, from: nat): (k: Option<nat>)
    requires from <= |regions|
    ensures k.Some? ==>
              && from <= k.value < |regions| && IsAt(regions[k.value], x, y)
              && forall j | from <= j < k.value :: !IsAt(regions[j], x, y)
    ensures k.None? ==> forall j | from <= j < |regions| :: !IsAt(regions[j], x, y)
    decreases |regions| - from
  {
    if from == |regions| then None
    else if IsAt(regions[from], x, y) then Some(from)
    else FindFrom(regions, x, y, from + 1)
  }

  /** `readdir` entries that are errors are skipped; the names of the others, in order. */
  function ReadableNames(entries: seq<DirEntry>): (names: seq<string>)
    ensures |names| <= |entries|
    ensures forall n :: n in names <==> Ok(n) in entries
  {
    if entries == [] then []
    else
      var rest := ReadableNames(entries[1..]);
      assert entries == [entries[0]] + entries[1..];
      match entries[0]
      case Ok(name) => [name] + rest
      case Err(_) => rest
  }

  /** A readable entry contributes its name, and an error contributes nothing. */
  lemma ReadableNamesOfOne(entry: DirEntry)
    ensures ReadableNames([entry]) == if entry.Ok? then [entry.value] else []
  {
    assert [entry][1..] == [];
  }

  /**
   * Filtering a listing split in two is filtering each part and
   * concatenating the results: names keep the order and the multiplicity
   * of the listing.
   */
  lemma {:induction false} ReadableNamesOfConcat(a: seq<DirEntry>, b: seq<DirEntry>)
    ensures ReadableNames(a + b) == ReadableNames(a) + ReadableNames(b)
    decreases |a|
  {
    if a == [] {
      assert a + b == b;
    } else {
      assert (a + b)[1..] == a[1..] + b;
      ReadableNamesOfConcat(a[1..], b);
    }
  }

  /** The outcome of `get_region_coords` on each name, in order. */
  function CoordsOfNames(names: seq<string>): (items: seq<Outcome<(int32, int32)>>)
    ensures |items| == |names|
    ensures forall i | 0 <= i < |names| :: items[i] == RegionName.RegionCoords(names[i])
  {
    seq(|names|, i requires 0 <= i < |names| => RegionName.RegionCoords(names[i]))
  }

  /** `.map(|(x, y)| Region::new(x, y)).collect()`: one new, unloaded region per coordinate pair, in order. */
  method NewRegions(coords: seq<(int32, int32)>) returns (regions: seq<Region>)
    ensures |regions| == |coords|
    ensures forall j | 0 <= j < |coords| ::
              && fresh(regions[j])
              && regions[j].x == coords[j].0 && regions[j].y == coords[j].1
              && regions[j].data == []
    ensures forall j, k | 0 <= j < k < |regions| :: regions[j] != regions[k]
  {
    regions := [];
    for i := 0 to |coords|
      invariant |regions| == i
      invariant forall j | 0 <= j < i ::
                  && fresh(regions[j])
                  && regions[j].x == coords[j].0 && regions[j].y == coords[j].1
                  && regions[j].data == []
      invariant forall j, k | 0 <= j < k < i :: regions[j] != regions[k]
    {
      var region := new Region(coords[i].0, coords[i].1);
      regions := regions + [region];
    }
  }

  /** A save world: its name, its directory, and its catalogue of regions. */
  class Save {
    const name: string
    const path: Path
    const regions: seq<Region>

    /** Every region of the catalogue is a distinct object (the list owns them). */
    ghost predicate Valid() {
      forall i, j | 0 <= i < j < |regions| :: regions[i] != regions[j]
    }

    constructor (name: string, path: Path, regions: seq<Region>)
      requires forall i, j | 0 <= i < j < |regions| :: regions[i] != regions[j]
      ensures this.name == name && this.path == path && this.regions == regions
      ensures Valid()
    {
      this.name := name;
      this.path := path;
      this.regions := regions;
    }

    /**
     * `Save::from_path`: a missing save directory is `PathNotFoundError`, a
     * `region` directory that cannot be listed is an I/O error; otherwise
     * every readable entry becomes an unloaded region, in listing order. A
     * name that is not a region file name, or a save path without a final
     * name, panics.
     */
    static method FromPath(path: Path, pathExists: bool, listing: Result<seq<DirEntry>, StdIoError>)
      returns (r: Outcome<Result<Save, MCLoadError>>)
      ensures !pathExists ==> r == Returns(Err(PathNotFoundError))
      ensures pathExists && listing.Err? ==> r == Returns(Err(IoError(listing.error)))
      ensures pathExists && listing.Ok? ==>
                var coords := Collect(CoordsOfNames(ReadableNames(listing.value)));
                && (coords.Panics? ==> r == Panics(coords.cause))
                && (coords.Returns? && (path == [] || path[|path| - 1] == "..") ==> r == Panics(NoFileName))
                && (coords.Returns? && path != [] && path[|path| - 1] != ".." ==>
                      && r.Returns? && r.value.Ok?
                      && var save := r.value.value;
                      && fresh(save) && save.Valid()
                      && save.name == path[|path| - 1] && save.path == path
                      && |save.regions| == |coords.value|
                      && forall i | 0 <= i < |save.regions| ::
                           && fresh(save.regions[i])
                           && save.regions[i].x == coords.value[i].0
                           && save.regions[i].y == coords.value[i].1
                           && save.regions[i].data == [])
    {
      if !pathExists {
        return Returns(Err(PathNotFoundError));
      }
      if listing.Err? {
        return Returns(Err(FromIoError(listing.error)));
      }
      var coords := Collect(CoordsOfNames(ReadableNames(listing.value)));
      if coords.Panics? {
        return Panics(coords.cause);
      }
      var regions := NewRegions(coords.value);
      if path == [] || path[|path| - 1] == ".." {
        return Panics(NoFileName);
      }
      var save := new Save(path[|path| - 1], path, regions);
      return Returns(Ok(save));
    }

    /**
     * `Display for Save`: the save's name, then the number of regions in
     * decimal, as in `world [12 regions]`.
     */
    function Display(): (s: string)
      ensures |s| > |name| + 2 + 9
      ensures s[..|name|] == name && s[|name| .. |name| + 2] == " ["
      ensures s[|s| - 9 ..] == " regions]"
      ensures s[|name| + 2 .. |s| - 9] == Decimal.NatToString(|regions|)
    {
      var count := Decimal.NatToString(|regions|);
      var s := name + " [" + count + " regions]";
      assert s[|name| + 2 .. |s| - 9] == count;
      s
    }

    /** `get_region`: the first region of the catalogue at (x, y), if any. */
    function GetRegion(x: int32, y: int32): (r: Option<Region>)
      ensures r.None? <==> forall k | 0 <= k < |regions| :: !IsAt(regions[k], x, y)
      ensures r.Some? ==> exists k | 0 <= k < |regions| ::
                && regions[k] == r.value && IsAt(r.value, x, y)
                && forall j | 0 <= j < k :: !IsAt(regions[j], x, y)
    {
      match FindFrom(regions, x, y, 0)
      case None => None
      case Some(k) => Some(regions[k])
    }

    /**
     * `get_region_path`: `<save>/region/r.<x>.<y>.mca`, whether or not that
     * file was discovered; its file name parses back to (x, y).
     */
    function GetRegionPath(x: int32, y: int32): (p: Path)
      ensures |p| == |path| + 2 && p[..|path|] == path && p[|path|] == "region"
      ensures p[|path| + 1] == RegionName.FileName(x, y)
    {
      path + ["region", RegionName.FileName(x, y)]
    }

    /** The file name of `get_region_path(x, y)` parses back to (x, y) under `get_region_coords`. */
    lemma RegionPathParsesBack(x: int32, y: int32)
      ensures RegionName.RegionCoords(GetRegionPath(x, y)[|path| + 1]) == Returns((x, y))
    {
      var name := GetRegionPath(x, y)[|path| + 1];
      assert name == RegionName.FileName(x, y);
    }

    /**
     * `load_region`: load the first region at (x, y) from its file. No other
     * region changes, and nothing changes when there is no such region.
     */
    method LoadRegion(x: int32, y: int32, fs: FileSystem)
      requires Valid()
      requires var k := FindFrom(regions, x, y, 0);
               k.Some? && regions[k.value].data == [] ==> GetRegionPath(x, y) in fs
      modifies regions
      ensures forall i | 0 <= i < |regions| ::
                regions[i].data ==
                  if FindFrom(regions, x, y, 0) == Some(i)
                  then LoadedData(old(regions[i].data), GetRegionPath(x, y), fs)
                  else old(regions[i].data)
    {
      var path := GetRegionPath(x, y);
      var found := FindFrom(regions, x, y, 0);
      if found.Some? {
        var k := found.value;
        regions[k].Load(path, fs);
        assert forall i | 0 <= i < |regions| && i != k :: regions[i] != regions[k];
      }
    }
  }
}
