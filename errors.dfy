/** The outcomes the extension commands report: Go's `error` results, as values. */
module Errors {

  datatype Option<+T> = None | Some(value: T)

  /** Why ValidateExtensionName refuses a name (one constructor per message). */
  datatype NameError =
    | EmptyName      // "extension name cannot be empty"
    | PathSeparator  // "extension name cannot contain path separators"
    | ReservedName   // "invalid extension name"

  /** Every error the core can return; the comment gives the message it stands for. */
  datatype Error =
    | InvalidName(reason: NameError)
    | ArgCount(received: nat)   // cobra's arity check on positional arguments
    | NoHomeDir                 // "failed to get home directory"
    | CreateDirFailed           // "failed to create extensions directory"
    | SourceNotFound            // "source file not found"
    | SourceIsDirectory         // "source path is a directory, not a file"
    | ReadSourceFailed          // "failed to read source file"
    | WriteFailed               // "failed to write extension"
    | NotFound(name: string)    // "extension '<name>' not found"
    | RemoveFailed              // "failed to remove extension"
    | ReadDirFailed             // "failed to read extensions directory"
    | ExecFailed                // "failed to execute extension"

  /** A Go function returning only `error`: nil is Ok. */
  datatype Status = Ok | Err(error: Error)

  /** A Go function returning `(T, error)`. */
  datatype Result<+T> = Success(value: T) | Failure(error: Error)
}
