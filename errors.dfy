/**
 * The crate's error type `MCLoadError`, its conversion from an I/O error and
 * its `Display` messages.
 */
module Errors {
  import opened Base
  import Decimal

  /** The kinds of `std::io::Error` the modelled code can produce or pass on. */
  datatype IoErrorKind = NotFound | UnexpectedEof | Other

  /**
   * A `std::io::Error`: its kind and the message its own `Display` prints,
   * which the standard library chooses and the model treats as given.
   */
  datatype StdIoError = StdIoError(kind: IoErrorKind, message: string)

  /** The error `read_exact` reports when fewer bytes remain than requested. */
  const EofError := StdIoError(UnexpectedEof, "failed to fill whole buffer")

  datatype MCLoadError =
    | IoError(cause: StdIoError)
    | PathNotFoundError
    | IncompatibleCompressionType(tag: byte)

  /** `From<std::io::Error>`: every I/O error becomes `IoError`, unchanged. */
  function FromIoError(e: StdIoError): (r: MCLoadError)
    ensures r.IoError? && r.cause == e
  {
    IoError(e)
  }

  /** The `Display` text of an error. */
  function Message(e: MCLoadError): (s: string)
    ensures e.PathNotFoundError? ==> s == "Path not found"
    ensures e.IoError? ==> s == "IO error: " + e.cause.message
    ensures e.IncompatibleCompressionType? ==>
              var prefix := "Incompatible compression type ";
              && |s| > |prefix|
              && s[..|prefix|] == prefix
              && s[|prefix|..] == Decimal.NatToString(e.tag)
              && Decimal.ParseI32(s[|prefix|..]) == Some(e.tag as int32)
  {
    match e
    case IoError(io) => "IO error: " + io.message
    case PathNotFoundError => "Path not found"
    case IncompatibleCompressionType(t) =>
      var prefix := "Incompatible compression type ";
      var s := prefix + Decimal.NatToString(t);
      assert s[|prefix|..] == Decimal.NatToString(t);
      Decimal.ParseOfIntToString(t);
      s
  }

  /** Two different compression tags never print the same message. */
  lemma MessageTellsTagsApart(t1: byte, t2: byte)
    requires t1 != t2
    ensures Message(IncompatibleCompressionType(t1)) != Message(IncompatibleCompressionType(t2))
  {
  }
}
