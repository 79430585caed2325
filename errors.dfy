/**
 * The application's error taxonomy: the `AppError` record with an HTTP-style
 * status, a message and a machine-readable code, the `ErrorCodes` table whose
 * every key names itself, and the `ErrorCode` union of the table's values.
 */
module Errors {
  import opened Wrappers

  datatype AppError = AppError(statusCode: int, message: string, code: string, name: string)

  /** `new AppError(statusCode, message, code)`. */
  function NewAppError(statusCode: int, message: string, code: string): (e: AppError)
    ensures e.statusCode == statusCode && e.message == message && e.code == code
    ensures e.name == "AppError"
  {
    AppError(statusCode, message, code, "AppError")
  }

  /** The `ErrorCodes` table as written: each key maps to a string. */
  const ErrorCodes: map<string, string> := map[
    "MESSAGE_NOT_FOUND" := "MESSAGE_NOT_FOUND",
    "MESSAGE_EXPIRED" := "MESSAGE_EXPIRED",
    "INVALID_VIEW_LIMIT" := "INVALID_VIEW_LIMIT",
    "INVALID_INPUT" := "INVALID_INPUT",
    "DATABASE_ERROR" := "DATABASE_ERROR",
    "ENCRYPTION_ERROR" := "ENCRYPTION_ERROR"]

  /** The six codes as an enumeration. */
  datatype ErrorCode =
    | MessageNotFound
    | MessageExpired
    | InvalidViewLimit
    | InvalidInput
    | DatabaseError
    | EncryptionError

  const AllCodes: seq<ErrorCode> :=
    [MessageNotFound, MessageExpired, InvalidViewLimit, InvalidInput, DatabaseError, EncryptionError]

  /** The string value a code stands for. */
  function CodeString(c: ErrorCode): string {
    match c
    case MessageNotFound => "MESSAGE_NOT_FOUND"
    case MessageExpired => "MESSAGE_EXPIRED"
    case InvalidViewLimit => "INVALID_VIEW_LIMIT"
    case InvalidInput => "INVALID_INPUT"
    case DatabaseError => "DATABASE_ERROR"
    case EncryptionError => "ENCRYPTION_ERROR"
  }

  /** The `ErrorCode` type: a string is an error code exactly when it is one of the table's values. */
  predicate IsErrorCode(s: string)
    ensures IsErrorCode(s) <==> s in ErrorCodes && ErrorCodes[s] == s
  {
    ErrorCodesSelfNamed();
    assert s in ErrorCodes.Values ==> s in ErrorCodes by {
      if s in ErrorCodes.Values {
        var k :| k in ErrorCodes && ErrorCodes[k] == s;
      }
    }
    s in ErrorCodes.Values
  }

  /** Reading a string back as a code. */
  function ParseCode(s: string): (r: Option<ErrorCode>)
    ensures r.Some? ==> CodeString(r.value) == s
  {
    if s == "MESSAGE_NOT_FOUND" then Some(MessageNotFound)
    else if s == "MESSAGE_EXPIRED" then Some(MessageExpired)
    else if s == "INVALID_VIEW_LIMIT" then Some(InvalidViewLimit)
    else if s == "INVALID_INPUT" then Some(InvalidInput)
    else if s == "DATABASE_ERROR" then Some(DatabaseError)
    else if s == "ENCRYPTION_ERROR" then Some(EncryptionError)
    else None
  }

  /** Every key of the table maps to a string equal to the key itself. */
  lemma ErrorCodesSelfNamed()
    ensures forall k :: k in ErrorCodes ==> ErrorCodes[k] == k
    ensures |ErrorCodes.Keys| == 6
  {
    assert ErrorCodes.Keys == {"MESSAGE_NOT_FOUND", "MESSAGE_EXPIRED", "INVALID_VIEW_LIMIT",
                               "INVALID_INPUT", "DATABASE_ERROR", "ENCRYPTION_ERROR"};
  }

  /** The enumeration and the table agree: each code's string is a key of the table naming itself. */
  lemma CodesAreTableEntries(c: ErrorCode)
    ensures CodeString(c) in ErrorCodes && ErrorCodes[CodeString(c)] == CodeString(c)
    ensures c in AllCodes
  {
  }

  /** Each code is recovered from its string, so the six strings are pairwise distinct. */
  lemma CodeRoundTrip(c: ErrorCode)
    ensures ParseCode(CodeString(c)) == Some(c)
  {
  }

  lemma CodesDistinct(a: ErrorCode, b: ErrorCode)
    ensures CodeString(a) == CodeString(b) <==> a == b
  {
    CodeRoundTrip(a);
    CodeRoundTrip(b);
  }

  /** `ErrorCode` is exactly the six values: membership in the union agrees with parsing. */
  lemma ErrorCodeUnion(s: string)
    ensures IsErrorCode(s) <==> ParseCode(s).Some?
  {
    ErrorCodesSelfNamed();
    if IsErrorCode(s) {
      var k :| k in ErrorCodes && ErrorCodes[k] == s;
      assert k == s;
    }
    if ParseCode(s).Some? {
      CodesAreTableEntries(ParseCode(s).value);
      assert ErrorCodes[s] == s;
    }
  }
}
