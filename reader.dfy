/** The reader context (lightweight_json_reader_ctx_t) as a class over an
    immutable text, with the three per-level arrays of the C struct. Every
    scanner is a loop over the text proved to compute the matching function
    of ReaderSpec, and every call that moves the stack or a cursor is proved
    to do what ReaderSpec says to the ghost stack of levels. */
module Reader {
  import opened JsonTypes
  import opened Decimal
  import opened ReaderSpec

  class JsonReader {
    /** The buffer and its length. */
    const text: seq<char>
    /** current_offset[], object_type[] and current_suboffset[]. */
    const starts: array<nat>
    const kinds: array<JsonType>
    const cursors: array<nat>
    /** Index of the innermost entered container. */
    var nesting: nat

    /** The entered containers as ReaderSpec sees them, outermost first. */
    ghost var levels: seq<RLevel>

    ghost predicate Valid()
      reads this, starts, kinds, cursors
    {
      starts.Length == MaxNesting && kinds.Length == MaxNesting && cursors.Length == MaxNesting &&
      starts != cursors &&
      |levels| == nesting + 1 <= MaxNesting &&
      forall i :: 0 <= i < |levels| ==> levels[i] == RLevel(starts[i], kinds[i], cursors[i])
    }

    constructor Init(t: seq<char>, p: nat)
      requires p < |t| && (t[p] == '{' || t[p] == '[')
      ensures Valid() && text == t && nesting == 0 && levels == [RLevel(p, KindOf(t[p]), 0)]
      ensures fresh(starts) && fresh(kinds) && fresh(cursors)
    {
      text := t;
      starts := new nat[MaxNesting](j => if j == 0 then p else 0);
      kinds := new JsonType[MaxNesting](j => if j == 0 then KindOf(t[p]) else NoType);
      cursors := new nat[MaxNesting](_ => 0);
      nesting := 0;
      levels := [RLevel(p, KindOf(t[p]), 0)];
    }

    /** lightweight_json_reader_init: level 0 at the first bracket of the
        text; a missing buffer or one without a bracket is InvalidArgs. */
    static method Create(buffer: Option<seq<char>>) returns (status: Status, r: JsonReader?)
      ensures status == StatusOf(ReaderSpec.Init(buffer))
      ensures status != Success ==> r == null
      ensures status == Success ==>
                r != null && fresh(r) && r.Valid() && r.text == buffer.value &&
                r.nesting == 0 && r.levels == [ReaderSpec.Init(buffer).value]
    {
      if buffer.None? || |buffer.value| == 0 {
        return InvalidArgs, null;
      }
      var t := buffer.value;
      for i := 0 to |t|
        invariant FirstOpener(t, i) == FirstOpener(t, 0)
      {
        if t[i] == '{' || t[i] == '[' {
          r := new JsonReader.Init(t, i);
          return Success, r;
        }
      }
      return InvalidArgs, null;
    }

    /** find_key: the offset of the key's opening quote in the innermost
        container, 0 when there is none. */
    method FindKey(key: CString) returns (offset: nat)
      requires Valid()
      ensures offset == (match ReaderSpec.FindKey(text, levels[nesting].start, key) case Some(p) => p case None => 0)
    {
      var r := ScanKey(key, starts[nesting] + 1);
      offset := if r.Some? then r.value else 0;
    }

    /** The scan of find_key from offset from, at depth 0 in key mode. */
    method ScanKey(key: CString, from: nat) returns (r: Option<nat>)
      ensures r == KeyScan(text, key, from, 0, false, false, 0)
    {
      var i := from;
      var depth: nat, inStr, isVal, begin: nat := 0, false, false, 0;
      while i < |text|
        invariant Candidate(text, i, depth, inStr, isVal, begin)
        invariant KeyScan(text, key, i, depth, inStr, isVal, begin) == KeyScan(text, key, from, 0, false, false, 0)
        decreases |text| - i
      {
        var c := text[i];
        if c == '"' {
          if depth == 0 && !isVal {
            if !inStr {
              begin := i + 1;
            } else if Matches(text[begin..i], key) {
              return Some(begin - 1);
            }
          }
          inStr := !inStr;
        } else if c == ':' {
          if depth == 0 {
            isVal := true;
          }
        } else if c == ',' {
          if !inStr && depth == 0 {
            isVal := false;
          }
        } else if c == '[' || c == '{' {
          if !inStr {
            depth := depth + 1;
          }
        } else if c == ']' || c == '}' {
          if !inStr {
            if depth == 0 {
              return None;
            }
            depth := depth - 1;
          }
        } else if c == '\\' {
          if inStr {
            i := i + 1;
          }
        }
        i := i + 1;
      }
      return None;
    }

    /** lightweight_json_reader_key_exists: NotFound exactly when find_key
        returns 0. */
    method KeyExists(key: Option<CString>) returns (status: Status)
      requires Valid()
      ensures status == ReaderSpec.KeyExists(text, levels[nesting], key)
    {
      if key.None? {
        return InvalidArgs;
      }
      var offset := FindKey(key.value);
      if offset == 0 {
        return NotFound;
      }
      return Success;
    }

    /** The start offset every value read computes. */
    method Locate(key: Option<CString>) returns (r: Result<nat>)
      requires Valid()
      ensures r == ReaderSpec.Locate(text, levels[nesting], key)
    {
      if key.None? {
        return Ok(starts[nesting] + cursors[nesting] + 1);
      }
      var offset := FindKey(key.value);
      if offset == 0 {
        return Fail(NotFound);
      }
      return Ok(offset + |key.value| + 3);
    }

    /** lightweight_json_reader_get_string: the bytes between the quotes
        of the located string. */
    method GetString(key: Option<CString>, bufferLen: nat) returns (status: Status, value: seq<char>)
      requires Valid()
      ensures status == StatusOf(ReaderSpec.GetString(text, levels[nesting], key, bufferLen))
      ensures status == Success ==> value == ReaderSpec.GetString(text, levels[nesting], key, bufferLen).value
    {
      value := [];
      if bufferLen == 0 {
        return InvalidArgs, value;
      }
      var loc := Locate(key);
      if loc.Fail? {
        return loc.status, value;
      }
      var span := ScanString(loc.value);
      if span.Fail? {
        return span.status, value;
      }
      return Success, text[span.value.open + 1..span.value.close];
    }

    /** The scan of get_string from offset from: the quotes around the
        first string, skipping a byte after each backslash. */
    method ScanString(from: nat) returns (r: Result<Span>)
      ensures r == StringScan(text, from, false, 0)
    {
      var i := from;
      var inStr, begin: nat := false, 0;
      while i < |text|
        invariant inStr ==> begin < i && begin < |text| && text[begin] == '"'
        invariant StringScan(text, i, inStr, begin) == StringScan(text, from, false, 0)
        decreases |text| - i
      {
        var c := text[i];
        if c == '"' {
          if !inStr {
            inStr := true;
            begin := i;
          } else {
            return Ok(Span(begin, i));
          }
        } else if c == '\\' {
          i := i + 1;
        } else if !inStr && !IsBlank(c) && c != ':' {
          return Fail(InvalidDatatype);
        }
        i := i + 1;
      }
      return Fail(NotFound);
    }

    /** The scan of get_numerical: the captured text of the located number. */
    method GetNumber(key: Option<CString>) returns (status: Status, capture: seq<char>)
      requires Valid()
      ensures status == StatusOf(ReaderSpec.GetNumber(text, levels[nesting], key))
      ensures status == Success ==> capture == ReaderSpec.GetNumber(text, levels[nesting], key).value
    {
      capture := [];
      var loc := Locate(key);
      if loc.Fail? {
        return loc.status, capture;
      }
      var i := loc.value;
      var inNum, begin: nat, dotted := false, 0, false;
      while i < |text|
        invariant inNum ==> begin < i <= |text| && (IsDigit(text[begin]) || text[begin] == '-')
        invariant inNum ==> forall j :: begin <= j < i ==> NumberByte(text[j])
        invariant NumberScan(text, i, inNum, begin, dotted) == NumberScan(text, loc.value, false, 0, false)
        decreases |text| - i
      {
        var c := text[i];
        if IsDigit(c) {
          if !inNum {
            inNum := true;
            begin := i;
          }
        } else if c == '-' {
          if inNum {
            return InvalidJson, capture;
          }
          inNum := true;
          begin := i;
        } else if c == '.' {
          if !(inNum && !dotted) {
            return InvalidJson, capture;
          }
          dotted := true;
        } else if c == ',' || c == ']' || c == '}' {
          if !inNum {
            return InvalidJson, capture;
          }
          return Success, text[begin..i];
        } else if !IsBlank(c) && c != ':' {
          return InvalidDatatype, capture;
        }
        i := i + 1;
      }
      return NotFound, capture;
    }

    /** lightweight_json_reader_get_uint64. */
    method GetUInt64(key: Option<CString>) returns (status: Status, value: UInt64)
      requires Valid()
      ensures status == StatusOf(ReaderSpec.GetUInt64(text, levels[nesting], key))
      ensures status == Success ==> value == ReaderSpec.GetUInt64(text, levels[nesting], key).value
    {
      var capture;
      status, capture := GetNumber(key);
      value := if status == Success then StrToU64(capture) else 0;
    }

    /** lightweight_json_reader_get_int64. */
    method GetInt64(key: Option<CString>) returns (status: Status, value: Int64)
      requires Valid()
      ensures status == StatusOf(ReaderSpec.GetInt64(text, levels[nesting], key))
      ensures status == Success ==> value == ReaderSpec.GetInt64(text, levels[nesting], key).value
    {
      var capture;
      status, capture := GetNumber(key);
      value := if status == Success then StrToI64(capture) else 0;
    }

    /** The tail of enter: the bracket at p becomes the innermost level. */
    method Push(p: nat)
      requires Valid() && nesting + 1 < MaxNesting && p < |text| && (text[p] == '{' || text[p] == '[')
      modifies this`nesting, this`levels, starts, kinds, cursors
      ensures Valid() && levels == old(levels) + [RLevel(p, KindOf(text[p]), 0)]
    {
      nesting := nesting + 1;
      starts[nesting] := p;
      kinds[nesting] := KindOf(text[p]);
      cursors[nesting] := 0;
      levels := levels + [RLevel(p, KindOf(text[p]), 0)];
    }

    /** lightweight_json_reader_enter, refusing a level the arrays have no
        slot for. */
    method Enter(key: Option<CString>) returns (status: Status)
      requires Valid()
      modifies this`nesting, this`levels, starts, kinds, cursors
      ensures Valid()
      ensures (status, levels) == ReaderSpec.Enter(text, old(levels), key)
    {
      var loc := Locate(key);
      if loc.Fail? {
        return loc.status;
      }
      var i := loc.value;
      var inStr := false;
      while i < |text|
        invariant EnterScan(text, i, inStr) == EnterScan(text, loc.value, false)
        decreases |text| - i
      {
        var c := text[i];
        if c == '"' {
          inStr := !inStr;
        } else if c == '\\' {
          i := i + 1;
        } else if c == '}' || c == ']' || c == ',' {
          if !inStr {
            return NotFound;
          }
        } else if c == '[' || c == '{' {
          if !inStr {
            if nesting == MaxNesting - 1 {
              return MaxNestingReached;
            }
            Push(i);
            return Success;
          }
        } else if !IsBlank(c) {
          return InvalidDatatype;
        }
        i := i + 1;
      }
      return NotFound;
    }

    /** lightweight_json_reader_leave. */
    method Leave() returns (status: Status)
      requires Valid()
      modifies this`nesting, this`levels
      ensures Valid() && status == Success
      ensures levels == ReaderSpec.Leave(old(levels))
    {
      if nesting > 0 {
        nesting := nesting - 1;
        levels := levels[..|levels| - 1];
      }
      return Success;
    }

    /** lightweight_json_reader_array_next. */
    method ArrayNext() returns (status: Status)
      requires Valid()
      modifies cursors, this`levels
      ensures Valid()
      ensures (status, levels) == ReaderSpec.ArrayNext(text, old(levels))
    {
      if kinds[nesting] != Array {
        return InvalidState;
      }
      var from := starts[nesting] + cursors[nesting] + 1;
      var i := from;
      var inStr, depth: nat := false, 0;
      while i < |text|
        invariant from <= i
        invariant NextScan(text, i, inStr, depth) == NextScan(text, from, false, 0)
        decreases |text| - i
      {
        var c := text[i];
        if c == ',' {
          if !inStr && depth == 0 {
            cursors[nesting] := i - starts[nesting];
            levels := levels[..nesting] + [RLevel(starts[nesting], kinds[nesting], i - starts[nesting])];
            return Success;
          }
        } else if c == '"' {
          inStr := !inStr;
        } else if c == '\\' {
          i := i + 1;
        } else if c == '{' || c == '[' {
          if !inStr {
            depth := depth + 1;
          }
        } else if c == ']' || c == '}' {
          if !inStr && depth > 0 {
            depth := depth - 1;
          } else if !inStr {
            return NotFound;
          }
        }
        i := i + 1;
      }
      return Success;
    }
  }
}
