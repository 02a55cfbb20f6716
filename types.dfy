/** Shared vocabulary of the model: optional values (the source's nullable
    references), results (the source's exceptions), bytes and 64-bit hashes. */
module Types {

  /** A nullable value: `None` stands for the source's `null`. */
  datatype Option<+T> = None | Some(value: T)

  /** The exceptions the modelled code throws or lets through. */
  datatype Error =
    | ArgumentOutOfRange          // ArgumentOutOfRangeException from the game tables
    | KeyNotFound                 // KeyNotFoundException from indexing a Dictionary
    | FileNotFound                // a missing .bhd or .bdt companion file
    | DirectoryNotFound           // no Steam install directory for the game
    | ArgumentNull(param: string) // ArgumentNullException naming the parameter
    | InvalidOperation            // an RSA key that does not parse
    | OperationCanceled           // cancellation observed between RSA blocks
    | DivideByZero                // a header with no buckets
    | DataLength                  // DataLengthException from the RSA engine

  /** Either a value or the exception the source would throw instead. */
  datatype Result<+T> = Ok(value: T) | Err(error: Error)

  type Byte = bv8
  type Bytes = seq<Byte>

  const TWO_TO_THE_32: int := 0x1_0000_0000
  const TWO_TO_THE_64: int := 0x1_0000_0000_0000_0000

  /** The C# `ulong` used for file-name hashes. */
  type U64 = x: int | 0 <= x < TWO_TO_THE_64

  function Min(a: int, b: int): int
  {
    if a <= b then a else b
  }

  function Max(a: int, b: int): int
  {
    if a >= b then a else b
  }
}

/** The archive-format variant of the external BHD5 parser (`BHD5.Game`),
    in its declared order. */
module BHD5 {
  datatype Game = DarkSouls1 | DarkSouls2 | DarkSouls3 | EldenRing

  /** Position of a variant in the declaration of `BHD5.Game`. */
  function Rank(g: Game): nat
  {
    match g
    case DarkSouls1 => 0
    case DarkSouls2 => 1
    case DarkSouls3 => 2
    case EldenRing => 3
  }
}
