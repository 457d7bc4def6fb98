/** Values shared by the components: the optional and failing results the
    Python code expresses with `None` and exceptions, the detection record
    written to disk and sent to the client, and the file names derived from a
    track id. */
module Records {

  type Bytes = seq<bv8>

  datatype Option<T> = None | Some(value: T)

  /** The Python exceptions the modelled code can raise; a modelled operation
      stops where the source would raise and reports the exception instead. */
  datatype Fault =
    | FileExistsError     // os.mkdir of a directory that exists
    | FileNotFoundError   // open() for writing in a directory that does not exist
    | KeyError            // dict or bidict lookup of a missing key
    | IndexError          // list index past the end
    | AttributeError      // attribute missing on an object (or on None)
    | AssertionError      // a failed `assert`
    | ValueError          // an integer outside an enum's values

  datatype Outcome = Ok | Failed(fault: Fault)

  datatype Result<T> = Success(value: T) | Failure(fault: Fault)

  /** DetectionMetadata: one tracked subject within one session. `detection`
      is the tracker's id; times are milliseconds since the epoch. */
  datatype DetectionMetadata = DetectionMetadata(
    session: string,
    detection: int,
    created: int,
    updated: int,
    score: real,
    clazz: int,
    width: int,
    height: int)

  function Digit(d: int): char
    requires 0 <= d < 10
  {
    ['0', '1', '2', '3', '4', '5', '6', '7', '8', '9'][d]
  }

  /** Decimal digits of a natural number, most significant first. */
  function Digits(n: nat): (r: string)
    ensures |r| > 0
    decreases n
  {
    if n < 10 then [Digit(n)] else Digits(n / 10) + [Digit(n % 10)]
  }

  /** `str(n)` for a Python int. */
  function DecimalString(n: int): (r: string)
    ensures |r| > 0
  {
    if n < 0 then "-" + Digits(-n) else Digits(n)
  }

  /** `<track>.json` in a session's `metadata/` directory. */
  function MetadataFileName(track: int): string
  {
    DecimalString(track) + ".json"
  }

  /** `<track>.jpg` in a session's `images/` directory. */
  function ImageFileName(track: int): string
  {
    DecimalString(track) + ".jpg"
  }
}
