/** The in-place reader as pure functions over the text: each byte scanner
    of the C code is a recursive function with the same flags, and each
    reader call is a function of the text and the nesting stack. The class
    in module Reader runs the scanners as loops proved equal to these. */
module ReaderSpec {
  import opened JsonTypes
  import opened Decimal

  /** One level of the reader's stack: the offset of its opening bracket
      (current_offset[]), its kind (object_type[]) and the cursor, an offset
      relative to the bracket (current_suboffset[]). */
  datatype RLevel = RLevel(start: nat, kind: JsonType, cursor: nat)

  /** The opening and closing quote of a string value. */
  datatype Span = Span(open: nat, close: nat)

  /** How the search for the next array element ended. */
  datatype Next = NextComma(pos: nat) | NextClosed | NextRanOff

  function KindOf(c: char): ContainerKind
    requires c == '{' || c == '['
  {
    if c == '{' then Object else Array
  }

  /** The first '{' or '[' at or after i. */
  function FirstOpener(t: seq<char>, i: nat): (r: Option<nat>)
    decreases |t| - i
    ensures r.Some? ==> i <= r.value < |t| && (t[r.value] == '{' || t[r.value] == '[')
    ensures r.Some? ==> forall j :: i <= j < r.value ==> t[j] != '{' && t[j] != '['
    ensures r.None? ==> forall j :: i <= j < |t| ==> t[j] != '{' && t[j] != '['
  {
    if i >= |t| then None
    else if t[i] == '{' || t[i] == '[' then Some(i)
    else FirstOpener(t, i + 1)
  }

  /** lightweight_json_reader_init: level 0 is the first bracket of the
      text, with cursor 0; a missing buffer or a text without a bracket is
      InvalidArgs. */
  function Init(buffer: Option<seq<char>>): (r: Result<RLevel>)
    ensures r.Fail? ==> r.status == InvalidArgs
    ensures r.Ok? <==> buffer.Some? && exists j :: 0 <= j < |buffer.value| && (buffer.value[j] == '{' || buffer.value[j] == '[')
    ensures r.Ok? ==> r.value.cursor == 0 && FirstOpener(buffer.value, 0) == Some(r.value.start)
    ensures r.Ok? ==> r.value.kind == KindOf(buffer.value[r.value.start])
  {
    match buffer
    case None => Fail(InvalidArgs)
    case Some(t) =>
      match FirstOpener(t, 0)
      case None => Fail(InvalidArgs)
      case Some(p) => Ok(RLevel(p, KindOf(t[p]), 0))
  }

  /** The candidate compared by find_key, as strcmp sees it after the copy
      into the 64-byte temporary: only candidates of at most 63 bytes are
      compared, up to their first NUL. */
  predicate Matches(cand: seq<char>, key: CString) {
    |cand| < 64 && CStr(cand) == key
  }

  /** What the key scanner knows of an open candidate: while a string that
      started at depth 0 in key mode is open, begin is the offset just past
      its opening quote. */
  predicate Candidate(t: seq<char>, i: nat, depth: nat, inStr: bool, isVal: bool, begin: nat) {
    inStr && depth == 0 && !isVal ==> 0 < begin <= i && begin <= |t| && t[begin - 1] == '"'
  }

  /** A key found at p: its opening quote, followed by the key's bytes. */
  predicate Found(t: seq<char>, p: nat, key: CString) {
    p + 1 + |key| <= |t| && t[p] == '"' && t[p + 1..p + 1 + |key|] == key
  }

  lemma MatchFound(t: seq<char>, begin: nat, i: nat, key: CString)
    requires 0 < begin <= i <= |t| && t[begin - 1] == '"' && Matches(t[begin..i], key)
    ensures Found(t, begin - 1, key)
  {
    assert t[begin..begin + |key|] == t[begin..i][..|key|];
  }

  /** The scanner of find_key from offset i: depth is the bracket depth
      relative to the container, isVal the value mode set by a colon at
      depth 0 and cleared by a comma at depth 0 outside a string, begin the
      cur_string_offset of the open candidate. The result is the offset of
      the opening quote of the matching key. */
  function KeyScan(t: seq<char>, key: CString, i: nat, depth: nat, inStr: bool, isVal: bool, begin: nat): (r: Option<nat>)
    requires Candidate(t, i, depth, inStr, isVal, begin)
    decreases |t| - i
    ensures r.Some? ==> (if inStr && depth == 0 && !isVal then begin - 1 else i) <= r.value
    ensures r.Some? ==> Found(t, r.value, key)
  {
    if i >= |t| then None
    else
      var c := t[i];
      if c == '"' then
        if depth == 0 && !isVal then
          if !inStr then KeyScan(t, key, i + 1, depth, true, isVal, i + 1)
          else if Matches(t[begin..i], key) then
            MatchFound(t, begin, i, key);
            Some(begin - 1)
          else KeyScan(t, key, i + 1, depth, false, isVal, begin)
        else KeyScan(t, key, i + 1, depth, !inStr, isVal, begin)
      else if c == ':' then KeyScan(t, key, i + 1, depth, inStr, if depth == 0 then true else isVal, begin)
      else if c == ',' then KeyScan(t, key, i + 1, depth, inStr, if !inStr && depth == 0 then false else isVal, begin)
      else if c == '[' || c == '{' then KeyScan(t, key, i + 1, if inStr then depth else depth + 1, inStr, isVal, begin)
      else if c == ']' || c == '}' then
        if inStr then KeyScan(t, key, i + 1, depth, inStr, isVal, begin)
        else if depth == 0 then None
        else KeyScan(t, key, i + 1, depth - 1, inStr, isVal, begin)
      else if c == '\\' then KeyScan(t, key, if inStr then i + 2 else i + 1, depth, inStr, isVal, begin)
      else KeyScan(t, key, i + 1, depth, inStr, isVal, begin)
  }

  /** find_key on the container whose bracket is at start: the offset of
      the opening quote of the first depth-0 key equal to key. Such an
      offset lies past the bracket, so it is never 0, which the C code uses
      for "not found". */
  function FindKey(t: seq<char>, start: nat, key: CString): (r: Option<nat>)
    ensures r.Some? ==> start < r.value && r.value + 1 + |key| <= |t|
    ensures r.Some? ==> t[r.value] == '"' && t[r.value + 1..r.value + 1 + |key|] == key
  {
    KeyScan(t, key, start + 1, 0, false, false, 0)
  }

  /** lightweight_json_reader_key_exists. */
  function KeyExists(t: seq<char>, l: RLevel, key: Option<CString>): (r: Status)
    ensures key.None? ==> r == InvalidArgs
    ensures key.Some? ==> (r == NotFound <==> FindKey(t, l.start, key.value).None?)
    ensures r == Success || r == NotFound || r == InvalidArgs
  {
    match key
    case None => InvalidArgs
    case Some(k) => if FindKey(t, l.start, k).None? then NotFound else Success
  }

  /** Where a value read starts: just past the cursor without a key, or
      strlen(key) + 3 bytes past the key's opening quote, which is right
      after "key": when nothing separates the colon from the quote. */
  function Locate(t: seq<char>, l: RLevel, key: Option<CString>): (r: Result<nat>)
    ensures key.None? ==> r == Ok(l.start + l.cursor + 1)
    ensures r.Fail? ==> r.status == NotFound && key.Some? && FindKey(t, l.start, key.value).None?
    ensures key.Some? && r.Ok? ==> FindKey(t, l.start, key.value) == Some(r.value - |key.value| - 3)
  {
    match key
    case None => Ok(l.start + l.cursor + 1)
    case Some(k) =>
      match FindKey(t, l.start, k)
      case None => Fail(NotFound)
      case Some(p) => Ok(p + |k| + 3)
  }

  /** The scanner of get_string from offset i: a backslash skips the next
      byte everywhere, outside a string only blanks and colons may come
      before the opening quote. */
  function StringScan(t: seq<char>, i: nat, inStr: bool, begin: nat): (r: Result<Span>)
    requires inStr ==> begin < i && begin < |t| && t[begin] == '"'
    decreases |t| - i
    ensures r.Ok? ==> r.value.open < r.value.close < |t| && t[r.value.open] == '"' && t[r.value.close] == '"'
    ensures r.Ok? ==> if inStr then r.value.open == begin else i <= r.value.open
    ensures r.Fail? ==> r.status == NotFound || r.status == InvalidDatatype
  {
    if i >= |t| then Fail(NotFound)
    else
      var c := t[i];
      if c == '"' then
        if !inStr then StringScan(t, i + 1, true, i) else Ok(Span(begin, i))
      else if c == '\\' then StringScan(t, i + 2, inStr, begin)
      else if !inStr && !IsBlank(c) && c != ':' then Fail(InvalidDatatype)
      else StringScan(t, i + 1, inStr, begin)
  }

  /** lightweight_json_reader_get_string: the bytes strictly between the
      quotes. The length of the caller's buffer is only checked for 0. */
  function GetString(t: seq<char>, l: RLevel, key: Option<CString>, bufferLen: nat): (r: Result<seq<char>>)
    ensures bufferLen == 0 ==> r == Fail(InvalidArgs)
    ensures r.Fail? ==> r.status in {InvalidArgs, NotFound, InvalidDatatype}
    ensures r.Ok? ==> Locate(t, l, key).Ok? && exists sp :: StringScan(t, Locate(t, l, key).value, false, 0) == Ok(sp) && r.value == t[sp.open + 1..sp.close]
  {
    if bufferLen == 0 then Fail(InvalidArgs)
    else
      match Locate(t, l, key)
      case Fail(e) => Fail(e)
      case Ok(pos) =>
        match StringScan(t, pos, false, 0)
        case Fail(e) => Fail(e)
        case Ok(sp) => Ok(t[sp.open + 1..sp.close])
  }

  /** The bytes that never stop the number scanner once a number started. */
  predicate NumberByte(c: char) {
    IsDigit(c) || c == '-' || c == '.' || c == ':' || IsBlank(c)
  }

  /** The scanner of get_numerical from offset i: begin is where the number
      started, dotted whether it holds a dot. A comma or a closing bracket
      ends the capture. */
  function NumberScan(t: seq<char>, i: nat, inNum: bool, begin: nat, dotted: bool): (r: Result<seq<char>>)
    requires inNum ==> begin < i <= |t| && (IsDigit(t[begin]) || t[begin] == '-')
    requires inNum ==> forall j :: begin <= j < i ==> NumberByte(t[j])
    decreases |t| - i
    ensures r.Ok? ==> IsCapture(r.value)
    ensures r.Fail? ==> r.status in {NotFound, InvalidJson, InvalidDatatype}
  {
    if i >= |t| then Fail(NotFound)
    else
      var c := t[i];
      if IsDigit(c) then NumberScan(t, i + 1, true, if inNum then begin else i, dotted)
      else if c == '-' then
        if inNum then Fail(InvalidJson) else NumberScan(t, i + 1, true, i, dotted)
      else if c == '.' then
        if inNum && !dotted then NumberScan(t, i + 1, inNum, begin, true) else Fail(InvalidJson)
      else if c == ',' || c == ']' || c == '}' then
        if !inNum then Fail(InvalidJson)
        else
          assert forall j :: 0 <= j < i - begin ==> t[begin..i][j] == t[begin + j] && NumberByte(t[begin..i][j]);
          Ok(t[begin..i])
      else if IsBlank(c) || c == ':' then NumberScan(t, i + 1, inNum, begin, dotted)
      else Fail(InvalidDatatype)
  }

  /** The text of a number as get_numerical captures it. */
  function GetNumber(t: seq<char>, l: RLevel, key: Option<CString>): (r: Result<seq<char>>)
    ensures r.Ok? ==> IsCapture(r.value)
    ensures r.Fail? ==> r.status in {NotFound, InvalidJson, InvalidDatatype}
    ensures Locate(t, l, key).Fail? ==> r == Fail(NotFound)
  {
    match Locate(t, l, key)
    case Fail(e) => Fail(e)
    case Ok(pos) => NumberScan(t, pos, false, 0, false)
  }

  /** lightweight_json_reader_get_uint64: the capture through strtoull. */
  function GetUInt64(t: seq<char>, l: RLevel, key: Option<CString>): (r: Result<UInt64>)
    ensures r.Fail? <==> GetNumber(t, l, key).Fail?
    ensures r.Ok? ==> r.value == StrToU64(GetNumber(t, l, key).value)
  {
    match GetNumber(t, l, key)
    case Fail(e) => Fail(e)
    case Ok(text) => Ok(StrToU64(text))
  }

  /** lightweight_json_reader_get_int64: the capture through strtoll. */
  function GetInt64(t: seq<char>, l: RLevel, key: Option<CString>): (r: Result<Int64>)
    ensures r.Fail? <==> GetNumber(t, l, key).Fail?
    ensures r.Ok? ==> r.value == StrToI64(GetNumber(t, l, key).value)
  {
    match GetNumber(t, l, key)
    case Fail(e) => Fail(e)
    case Ok(text) => Ok(StrToI64(text))
  }

  /** The scanner of enter from offset i: the first opening bracket outside
      a string; a comma or closing bracket outside a string first is
      NotFound, any other byte but a blank or a quote (even inside a
      string) is InvalidDatatype. */
  function EnterScan(t: seq<char>, i: nat, inStr: bool): (r: Result<nat>)
    decreases |t| - i
    ensures r.Ok? ==> i <= r.value < |t| && (t[r.value] == '{' || t[r.value] == '[')
    ensures r.Fail? ==> r.status == NotFound || r.status == InvalidDatatype
  {
    if i >= |t| then Fail(NotFound)
    else
      var c := t[i];
      if c == '"' then EnterScan(t, i + 1, !inStr)
      else if c == '\\' then EnterScan(t, i + 2, inStr)
      else if c == '}' || c == ']' || c == ',' then
        if !inStr then Fail(NotFound) else EnterScan(t, i + 1, inStr)
      else if c == '[' || c == '{' then
        if !inStr then Ok(i) else EnterScan(t, i + 1, inStr)
      else if !IsBlank(c) then Fail(InvalidDatatype)
      else EnterScan(t, i + 1, inStr)
  }

  /** lightweight_json_reader_enter exactly as the C code does it: the
      found container becomes a new innermost level with cursor 0, with no
      check against the size of the level arrays. */
  function EnterAsWritten(t: seq<char>, levels: seq<RLevel>, key: Option<CString>): (r: (Status, seq<RLevel>))
    requires |levels| > 0
    ensures r.0 != Success ==> r.0 in {NotFound, InvalidDatatype} && r.1 == levels
    ensures r.0 == Success ==> |r.1| == |levels| + 1 && r.1[..|levels|] == levels
    ensures r.0 == Success ==> r.1[|levels|].cursor == 0 && r.1[|levels|].start < |t|
    ensures r.0 == Success ==> (t[r.1[|levels|].start] == '{' || t[r.1[|levels|].start] == '[') &&
                               r.1[|levels|].kind == KindOf(t[r.1[|levels|].start])
  {
    match Locate(t, levels[|levels| - 1], key)
    case Fail(e) => (e, levels)
    case Ok(pos) =>
      match EnterScan(t, pos, false)
      case Fail(e) => (e, levels)
      case Ok(p) => (Success, levels + [RLevel(p, KindOf(t[p]), 0)])
  }

  /** enter with the bound the writer already has: when every slot of the
      level arrays is in use, a call that would push one more level is
      MaxNestingReached; every other call is the C enter. */
  function Enter(t: seq<char>, levels: seq<RLevel>, key: Option<CString>): (r: (Status, seq<RLevel>))
    requires |levels| > 0
    ensures |levels| == MaxNesting && EnterAsWritten(t, levels, key).0 == Success ==> r == (MaxNestingReached, levels)
    ensures |levels| < MaxNesting || EnterAsWritten(t, levels, key).0 != Success ==> r == EnterAsWritten(t, levels, key)
    ensures |levels| <= MaxNesting ==> |r.1| <= MaxNesting
  {
    var written := EnterAsWritten(t, levels, key);
    if |levels| == MaxNesting && written.0 == Success then (MaxNestingReached, levels) else written
  }

  /** lightweight_json_reader_leave: the innermost level is dropped, but
      level 0 never is. */
  function Leave(levels: seq<RLevel>): (r: seq<RLevel>)
    requires |levels| > 0
    ensures |levels| > 1 ==> r == levels[..|levels| - 1]
    ensures |levels| == 1 ==> r == levels
  {
    if |levels| > 1 then levels[..|levels| - 1] else levels
  }

  /** The scanner of array_next from offset i: the next comma outside
      strings at relative depth 0, or the bracket that closes the array. */
  function NextScan(t: seq<char>, i: nat, inStr: bool, depth: nat): (r: Next)
    decreases |t| - i
    ensures r.NextComma? ==> i <= r.pos < |t| && t[r.pos] == ','
  {
    if i >= |t| then NextRanOff
    else
      var c := t[i];
      if c == ',' then
        if !inStr && depth == 0 then NextComma(i) else NextScan(t, i + 1, inStr, depth)
      else if c == '"' then NextScan(t, i + 1, !inStr, depth)
      else if c == '\\' then NextScan(t, i + 2, inStr, depth)
      else if c == '{' || c == '[' then NextScan(t, i + 1, inStr, if inStr then depth else depth + 1)
      else if c == ']' || c == '}' then
        if inStr then NextScan(t, i + 1, inStr, depth)
        else if depth > 0 then NextScan(t, i + 1, inStr, depth - 1)
        else NextClosed
      else NextScan(t, i + 1, inStr, depth)
  }

  /** lightweight_json_reader_array_next: on an array level the cursor
      moves to the next element's comma; the closing bracket is NotFound,
      and running off the text is Success, both with the cursor kept. */
  function ArrayNext(t: seq<char>, levels: seq<RLevel>): (r: (Status, seq<RLevel>))
    requires |levels| > 0
    ensures levels[|levels| - 1].kind != Array ==> r == (InvalidState, levels)
    ensures r.0 != Success ==> r.1 == levels
    ensures |r.1| == |levels| && r.1[..|levels| - 1] == levels[..|levels| - 1]
    ensures var top, top' := levels[|levels| - 1], r.1[|levels| - 1];
            top'.start == top.start && top'.kind == top.kind &&
            (top'.cursor != top.cursor ==>
               top.cursor < top'.cursor && top.start + top'.cursor < |t| && t[top.start + top'.cursor] == ',')
  {
    var n := |levels|;
    var top := levels[n - 1];
    if top.kind != Array then (InvalidState, levels)
    else
      match NextScan(t, top.start + top.cursor + 1, false, 0)
      case NextComma(p) => (Success, levels[..n - 1] + [RLevel(top.start, top.kind, p - top.start)])
      case NextClosed => (NotFound, levels)
      case NextRanOff => (Success, levels)
  }

  /** The stack reached by entering n - 1 nested arrays from the first. */
  function Nested(n: nat): (r: seq<RLevel>)
    ensures |r| == n && forall j :: 0 <= j < n ==> r[j] == RLevel(j, Array, 0)
  {
    if n == 0 then [] else Nested(n - 1) + [RLevel(n - 1, Array, 0)]
  }

  /** In a text of opening brackets only, init sees the first one and
      every enter without a key finds the next one. */
  lemma {:induction false} EnterNested(t: seq<char>, n: nat)
    requires forall j :: 0 <= j < |t| ==> t[j] == '['
    requires 0 < n < |t|
    ensures Init(Some(t)) == Ok(Nested(1)[0])
    ensures EnterAsWritten(t, Nested(n), None) == (Success, Nested(n + 1))
  {
    assert FirstOpener(t, 0) == Some(0);
    assert Locate(t, Nested(n)[n - 1], None) == Ok(n);
    assert EnterScan(t, n, false) == Ok(n);
    assert Nested(n) + [RLevel(n, Array, 0)] == Nested(n + 1);
  }

  /** The unchecked enter of the C code: in eleven nested arrays, with all
      ten level slots in use, enter still succeeds and the new level lands
      at index 10, past the end of current_offset[], object_type[] and
      current_suboffset[]. */
  lemma EnterAsWrittenOverflows()
    ensures EnterAsWritten(seq(11, _ => '['), Nested(MaxNesting), None) == (Success, Nested(MaxNesting + 1))
    ensures |Nested(MaxNesting + 1)| > MaxNesting
  {
    EnterNested(seq(11, _ => '['), MaxNesting);
  }

  /** The bounded enter never needs more slots than the arrays have. It
      agrees with the C code whenever it succeeds and whenever the C code
      fails. */
  lemma EnterStaysInBounds(t: seq<char>, levels: seq<RLevel>, key: Option<CString>)
    requires 0 < |levels| <= MaxNesting
    ensures |Enter(t, levels, key).1| <= MaxNesting
    ensures Enter(t, levels, key).0 == Success ==> Enter(t, levels, key) == EnterAsWritten(t, levels, key)
    ensures EnterAsWritten(t, levels, key).0 != Success ==> Enter(t, levels, key) == EnterAsWritten(t, levels, key)
  {
  }
}
