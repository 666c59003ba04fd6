/** Failure-compatible wrappers and the exceptions the reader can raise.

    Every exception of the original becomes one variant of `Error`; the
    Python exception class it corresponds to decides whether
    `NE.__init__`'s `except ValueError` swallows it (see `IsValueError`).
 */
module Errors {

  datatype Option<+T> = None | Some(value: T)

  datatype Error =
    /** struct.error: an unpack of a fixed-width field met the end of the stream. */
    | Truncated
    /** ValueError from the memory map: a seek beyond the end of the data. */
    | SeekOutOfRange(offset: nat)
    /** UnicodeDecodeError: a byte of 0x80 or above in text decoded as ASCII. */
    | NotAscii
    /** ValueError: a BITMAPFILEHEADER that does not start with 'BM'. */
    | NotBitmapFile
    /** ValueError: an icon directory whose signature word is not zero. */
    | BadIconDirectorySignature(signature: nat)
    /** ValueError: `find_resource_by_id` found no table for the type. */
    | NoSuchType
    /** ValueError: `find_resource_by_id` found the type but not the id. */
    | NoSuchId
    /** ValueError: exporting an icon that no group icon referenced. */
    | NotInGroup
    /** TypeError: a decoder class whose constructor takes fewer arguments than it is given. */
    | WrongArgumentCount
    /** AttributeError: a decoded resource with no `export` method. */
    | NoExportMethod
    /** AttributeError: a group member with no `data` attribute. */
    | NoData
    /** struct.error: a value packed into a field too narrow for it. */
    | ValueTooLarge
    /** ValueError: both a file path and a stream were given. */
    | AmbiguousSource
    /** AttributeError: neither a file path nor a stream was given. */
    | NoSource
    /** ValueError from the memory map: the file at the path is empty. */
    | EmptyFile
    /** TypeError: the file name of an executable read from a stream, which has no path. */
    | NoFilePath
    /** NotValidNewExecutableError (a ValueError). */
    | NotNewExecutable
    /** IsPortableExecutableError (a ValueError). */
    | IsPortableExecutable
    /** ValueError from the TargetOperatingSystem enum conversion. */
    | UnknownTargetOs(code: nat)

  /** True of the errors whose Python exception class derives from ValueError. */
  predicate IsValueError(e: Error) {
    !(e.Truncated? || e.WrongArgumentCount? || e.NoExportMethod? || e.NoData?
      || e.ValueTooLarge? || e.NoSource? || e.NoFilePath?)
  }

  datatype Result<+T> = Ok(value: T) | Err(error: Error) {

    predicate IsFailure() {
      Err?
    }

    function PropagateFailure<U>(): Result<U>
      requires Err?
    {
      Err(error)
    }

    function Extract(): T
      requires Ok?
    {
      value
    }
  }
}
