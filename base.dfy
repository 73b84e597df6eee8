/**
 * Value types shared by the whole model: optional values, Rust-style results,
 * the outcome of a call that may panic, and the fixed-width integers the
 * region format uses.
 */
module Base {

  /** An unsigned byte, as stored in a region file. */
  type byte = b: int | 0 <= b < 0x100

  /** A signed 32-bit integer, the type of region coordinates. */
  type int32 = i: int | -0x8000_0000 <= i < 0x8000_0000

  /** A file-system path as its list of components; joining appends components. */
  type Path = seq<string>

  datatype Option<+T> = None | Some(value: T)

  datatype Result<+T, +E> = Ok(value: T) | Err(error: E)

  /** Why a call aborted the thread instead of returning. */
  datatype Panic =
    | SliceOutOfBounds   // a slice expression whose bounds are not 0 <= begin <= end <= len
    | InflateFailed      // `unwrap` on a failed zlib decompression
    | NoPatternMatch     // `unwrap` on a region file name the pattern does not match
    | ParseIntFailed     // `unwrap` on a captured number that does not fit an i32
    | NoFileName         // `unwrap` on the file name of a path that has none

  /**
   * What a call does: return a value, or panic. Every panicking path of the
   * source is an explicit `Panics` here, never a silent success.
   */
  datatype Outcome<+T> = Returns(value: T) | Panics(cause: Panic)

  function Min(a: int, b: int): (m: int)
    ensures m <= a && m <= b && (m == a || m == b)
  {
    if a <= b then a else b
  }

  /**
   * Running a sequence of steps that may panic, in order: every value when
   * none panics; otherwise the panic of the first step that does, after
   * which no later step runs.
   */
  function Collect<T>(items: seq<Outcome<T>>): (r: Outcome<seq<T>>)
    ensures r.Returns? <==> forall i | 0 <= i < |items| :: items[i].Returns?
    ensures r.Returns? ==>
              && |r.value| == |items|
              && forall i | 0 <= i < |items| :: items[i] == Returns(r.value[i])
    ensures r.Panics? ==> exists i | 0 <= i < |items| ::
              && items[i] == Panics(r.cause)
              && forall j | 0 <= j < i :: items[j].Returns?
  {
    if items == [] then Returns([])
    else
      var init := items[..|items| - 1];
      assert forall i | 0 <= i < |init| :: init[i] == items[i];
      match Collect(init)
      case Panics(c) => Panics(c)
      case Returns(vs) =>
        match items[|items| - 1]
        case Panics(c) => Panics(c)
        case Returns(v) => Returns(vs + [v])
  }

  /** Running one more step after a sequence of steps. */
  lemma CollectSnoc<T>(items: seq<Outcome<T>>, item: Outcome<T>)
    ensures Collect(items + [item]) ==
              match Collect(items)
              case Panics(c) => Panics(c)
              case Returns(vs) => if item.Panics? then Panics(item.cause) else Returns(vs + [item.value])
  {
    assert (items + [item])[..|items|] == items;
  }

  /** The first step that panics decides the panic of the whole sequence. */
  lemma CollectFirstPanic<T>(items: seq<Outcome<T>>, i: nat)
    requires i < |items| && items[i].Panics?
    requires forall j | 0 <= j < i :: items[j].Returns?
    ensures Collect(items) == Panics(items[i].cause)
  {
    var r := Collect(items);
    assert r.Panics?;
    var k :| 0 <= k < |items| && items[k] == Panics(r.cause) && forall j | 0 <= j < k :: items[j].Returns?;
    assert k == i;
  }
}
