/** Vocabulary shared by the writer and the reader: the error codes, the
    container kinds, the nesting bound, and the C-string type. */
module JsonTypes {

  /** Depth of the fixed nesting stacks of both contexts
      (LIGHTWEIGHT_JSON_MAX_NESTING_SIZE). */
  const MaxNesting: nat := 10

  /** The error codes of lightweight_json_err_t; Success is ERR_NONE. */
  datatype Status =
    | Success
    | InvalidArgs
    | MaxNestingReached
    | InvalidState
    | NotFound
    | InvalidJson
    | InvalidDatatype

  /** lightweight_json_type_e. NoType stands for LIGHTWEIGHT_JSON_NONE and for
      every out-of-range value a caller may pass. */
  datatype JsonType = Object | Array | NoType

  /** The kinds a container can actually have. */
  type ContainerKind = t: JsonType | t != NoType witness Object

  datatype Option<T> = None | Some(value: T)

  datatype Result<T> = Ok(value: T) | Fail(status: Status)

  /** The error code a call returns along with a result. */
  function StatusOf<T>(r: Result<T>): Status {
    match r
    case Ok(_) => Success
    case Fail(e) => e
  }

  /** A NUL-terminated C string, seen without its terminator: it cannot hold
      a NUL byte. */
  type CString = s: seq<char> | '\0' !in s witness []

  /** What a C string function sees of a byte range: everything before the
      first NUL. */
  function CStr(s: seq<char>): (r: CString)
    ensures r <= s
    ensures |r| < |s| ==> s[|r|] == '\0'
  {
    if s == [] || s[0] == '\0' then [] else [s[0]] + CStr(s[1..])
  }

  lemma {:induction false} CStrOfCString(s: CString)
    ensures CStr(s) == s
  {
    if s != [] {
      assert s[0] in s;
      assert '\0' !in s[1..] by {
        forall i | 0 <= i < |s[1..]| ensures s[1..][i] != '\0' {
          assert s[1..][i] == s[i + 1];
          assert s[i + 1] in s;
        }
      }
      CStrOfCString(s[1..]);
    }
  }

  /** The whitespace bytes every scanner skips. */
  predicate IsBlank(c: char) {
    c == ' ' || c == '\r' || c == '\n' || c == '\t'
  }

  predicate IsDigit(c: char) {
    '0' <= c <= '9'
  }

  function OpenToken(k: ContainerKind): char {
    if k == Object then '{' else '['
  }

  function CloseToken(k: ContainerKind): char {
    if k == Object then '}' else ']'
  }
}
