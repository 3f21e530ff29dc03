/** Shapes shared by every action of the speaker-identification helper:
    the value of a JSON string field and the error taxonomy of its responses. */
module Protocol {

  /** A string-valued field of a JSON object: the key is absent, holds
      `null`, or holds a string. Python's `d.get(k, default)` falls back to
      the default only when the key is absent. */
  datatype JsonStr = Missing | Null | Str(s: string)

  /** `d.get(k, default)` */
  function Get(field: JsonStr, default: JsonStr): JsonStr {
    if field.Missing? then default else field
  }

  /** The error types a response can carry (`error_type`). */
  datatype ErrorKind =
    | InputError
    | JsonError
    | ValidationError
    | FileNotFound
    | ProfileExists
    | ProfileNotFound
    | ModelError
    | EnrollmentError
    | DeleteError
    | UnknownAction
    | UnexpectedError

  /** The `error_type` string written into a failure response. */
  function ErrorType(k: ErrorKind): string {
    match k
    case InputError => "input_error"
    case JsonError => "json_error"
    case ValidationError => "validation_error"
    case FileNotFound => "file_not_found"
    case ProfileExists => "profile_exists"
    case ProfileNotFound => "profile_not_found"
    case ModelError => "model_error"
    case EnrollmentError => "enrollment_error"
    case DeleteError => "delete_error"
    case UnknownAction => "unknown_action"
    case UnexpectedError => "unexpected_error"
  }
}
