/** The streaming writer context (lightweight_json_writer_ctx_t) as a class
    over the caller's fixed-size buffer. Every byte goes into the buffer and
    the buffer is handed to the flush sink as soon as it is full; the sink
    is seen only through the ghost sequence of chunks it received. Every
    call is proved to emit exactly what WriterSpec says, so what the sink
    receives does not depend on the buffer's capacity. */
module Writer {
  import opened JsonTypes
  import opened Decimal
  import opened WriterSpec

  /** The bytes of all chunks, in the order the sink received them. */
  function Concat(chunks: seq<seq<char>>): (r: seq<char>)
    decreases |chunks|
  {
    if chunks == [] then [] else Concat(chunks[..|chunks| - 1]) + chunks[|chunks| - 1]
  }

  lemma ConcatSnoc(chunks: seq<seq<char>>, c: seq<char>)
    ensures Concat(chunks + [c]) == Concat(chunks) + c
  {
    assert (chunks + [c])[..|chunks|] == chunks;
  }

  class JsonWriter {
    /** The caller's buffer and the capacity it was announced with. */
    const buf: array<char>
    const capacity: nat
    /** Per-level sibling counts and kinds (objects_in_object[], object_type[]). */
    const counts: array<nat>
    const kinds: array<JsonType>
    /** Bytes in buf not yet handed to the sink. */
    var offset: nat
    /** Index of the innermost open container; -1 when none is open. */
    var nesting: int

    /** The chunks the flush sink received, one per call. */
    ghost var chunks: seq<seq<char>>
    /** Every byte written so far, flushed or not. */
    ghost var emitted: seq<char>
    /** The open containers as WriterSpec sees them. */
    ghost var stack: seq<Level>

    /** The invariant between appending a byte and checking the buffer:
        the buffer may be exactly full. */
    ghost predicate Staged()
      reads this, buf, counts, kinds
    {
      2 <= capacity <= buf.Length && offset <= capacity &&
      counts.Length == MaxNesting && kinds.Length == MaxNesting &&
      -1 <= nesting < MaxNesting && |stack| == nesting + 1 &&
      (forall i :: 0 <= i < |stack| ==> stack[i] == Level(kinds[i], counts[i])) &&
      Consistent(State(emitted, stack)) &&
      Concat(chunks) + buf[..offset] == emitted
    }

    /** The invariant between calls: sink output followed by the unflushed
        part of the buffer is everything emitted, and the buffer is never
        left full. */
    ghost predicate Valid()
      reads this, buf, counts, kinds
    {
      Staged() && offset < capacity
    }

    ghost function Abstract(): State
      reads this
    {
      State(emitted, stack)
    }

    constructor Init(buffer: array<char>, bufferSize: nat)
      requires 2 <= bufferSize <= buffer.Length
      ensures Valid() && fresh(counts) && fresh(kinds)
      ensures buf == buffer && capacity == bufferSize
      ensures Abstract() == Initial && chunks == [] && offset == 0 && nesting == -1
    {
      buf := buffer;
      capacity := bufferSize;
      counts := new nat[MaxNesting](_ => 0);
      kinds := new JsonType[MaxNesting](_ => Object);
      offset := 0;
      nesting := -1;
      chunks := [];
      emitted := [];
      stack := [];
    }

    /** lightweight_json_writer_init: a missing buffer, a capacity below 2
        or a missing flush sink is InvalidArgs; otherwise a fresh context at
        offset 0 with no container open. */
    static method Create(buffer: array?<char>, bufferSize: int, hasSink: bool)
      returns (status: Status, w: JsonWriter?)
      requires buffer != null ==> bufferSize <= buffer.Length
      ensures status == Success <==> buffer != null && bufferSize >= 2 && hasSink
      ensures status != Success ==> status == InvalidArgs && w == null
      ensures status == Success ==>
                w != null && fresh(w) && fresh(w.counts) && fresh(w.kinds) && w.Valid() &&
                w.buf == buffer && w.capacity == bufferSize &&
                w.Abstract() == Initial && w.chunks == [] && w.offset == 0 && w.nesting == -1
    {
      if buffer == null || bufferSize < 2 || !hasSink {
        return InvalidArgs, null;
      }
      w := new JsonWriter.Init(buffer, bufferSize);
      status := Success;
    }

    /** check_buffer: hands exactly offset bytes to the sink and rewinds
        when the buffer is full, or always when forced. */
    method CheckBuffer(force: bool)
      requires Staged()
      modifies this`offset, this`chunks
      ensures Valid()
      ensures old(offset) == capacity || force ==> chunks == old(chunks) + [old(buf[..offset])] && offset == 0
      ensures !(old(offset) == capacity || force) ==> chunks == old(chunks) && offset == old(offset)
    {
      if offset == capacity || force {
        ConcatSnoc(chunks, buf[..offset]);
        chunks := chunks + [buf[..offset]];
        offset := 0;
      }
    }

    /** ctx->buffer[ctx->offset++] = c; check_buffer(ctx, false); */
    method Put(c: char)
      requires Valid()
      modifies this`offset, this`chunks, this`emitted, buf
      ensures Valid()
      ensures emitted == old(emitted) + [c]
      ensures old(offset) + 1 == capacity ==> chunks == old(chunks) + [old(buf[..offset]) + [c]] && offset == 0
      ensures old(offset) + 1 < capacity ==> chunks == old(chunks) && offset == old(offset) + 1
    {
      Stage(c);
      CheckBuffer(false);
    }

    /** ctx->buffer[ctx->offset++] = c, before the buffer is checked. */
    method Stage(c: char)
      requires Valid()
      modifies this`offset, this`emitted, buf
      ensures Staged()
      ensures emitted == old(emitted) + [c] && offset == old(offset) + 1
      ensures buf[..offset] == old(buf[..offset]) + [c]
    {
      buf[offset] := c;
      assert buf[..offset + 1] == old(buf[..offset]) + [c];
      offset := offset + 1;
      emitted := emitted + [c];
    }

    /** add_str: the bytes of s, one at a time. */
    method PutAll(s: seq<char>)
      requires Valid()
      modifies this`offset, this`chunks, this`emitted, buf
      ensures Valid()
      ensures emitted == old(emitted) + s
      ensures old(chunks) <= chunks
    {
      for i := 0 to |s|
        invariant Valid()
        invariant emitted == old(emitted) + s[..i]
        invariant old(chunks) <= chunks
      {
        Put(s[i]);
        assert s[..i + 1] == s[..i] + [s[i]];
      }
    }

    /** add_comma: a comma when the innermost container already holds a
        value; none at the root. */
    method AddComma()
      requires Valid()
      modifies this`offset, this`chunks, this`emitted, buf
      ensures Valid()
      ensures emitted == old(emitted) + Comma(stack)
      ensures old(chunks) <= chunks
    {
      if nesting >= 0 && counts[nesting] > 0 {
        Put(',');
      }
    }

    /** add_key: "key": for a key, nothing without one. */
    method AddKey(key: Option<CString>)
      requires Valid()
      modifies this`offset, this`chunks, this`emitted, buf
      ensures Valid()
      ensures emitted == old(emitted) + KeyText(key)
      ensures old(chunks) <= chunks
    {
      if key.Some? {
        PutQuoted(key.value);
        Put(':');
      }
    }

    /** add_comma then add_key: what every value is preceded by. */
    method AddPrefix(key: Option<CString>)
      requires Valid()
      modifies this`offset, this`chunks, this`emitted, buf
      ensures Valid()
      ensures emitted == old(emitted) + Comma(stack) + KeyText(key)
      ensures old(chunks) <= chunks
    {
      AddComma();
      AddKey(key);
    }

    /** The tail of begin: the opening token, then a new innermost level
        of kind t holding no value yet. */
    method Push(t: ContainerKind)
      requires Valid() && nesting < MaxNesting - 1
      modifies this, buf, counts, kinds
      ensures Valid()
      ensures emitted == old(emitted) + [OpenToken(t)] && stack == old(stack) + [Level(t, 0)]
      ensures old(chunks) <= chunks
    {
      Stage(OpenToken(t));
      OpenLevel(t);
      CheckBuffer(false);
    }

    /** ctx->nesting++ with the new level's count and kind. */
    method OpenLevel(t: ContainerKind)
      requires Staged() && nesting < MaxNesting - 1
      modifies this`nesting, this`stack, counts, kinds
      ensures Staged() && stack == old(stack) + [Level(t, 0)]
    {
      nesting := nesting + 1;
      counts[nesting] := 0;
      kinds[nesting] := t;
      stack := stack + [Level(t, 0)];
    }

    /** lightweight_json_writer_begin. */
    method Begin(key: Option<CString>, t: JsonType) returns (status: Status)
      requires Valid()
      modifies this, buf, counts, kinds
      ensures Valid()
      ensures (status, Abstract()) == WriterSpec.Begin(old(Abstract()), key, t)
      ensures old(chunks) <= chunks
      ensures status != Success ==> chunks == old(chunks) && offset == old(offset)
    {
      if t == NoType {
        return InvalidArgs;
      }
      if nesting == MaxNesting - 1 {
        return MaxNestingReached;
      }
      AddPrefix(key);
      Push(t);
      status := Success;
    }

    /** The tail of end: the closing token, then the innermost level is
        dropped and, unless the root was closed, its parent counts one more
        value. */
    method Pop(k: ContainerKind)
      requires Valid() && nesting >= 0 && kinds[nesting] == k
      modifies this, buf, counts
      ensures Valid()
      ensures emitted == old(emitted) + [CloseToken(k)] && stack == Bump(old(stack[..|stack| - 1]))
      ensures old(chunks) <= chunks
    {
      Stage(CloseToken(k));
      CloseLevel();
      CheckBuffer(false);
    }

    /** ctx->nesting-- and, unless the root was closed, one more value in
        the parent. */
    method CloseLevel()
      requires Staged() && nesting >= 0
      modifies this`nesting, this`stack, counts
      ensures Staged() && stack == Bump(old(stack[..|stack| - 1]))
    {
      nesting := nesting - 1;
      if nesting >= 0 {
        counts[nesting] := counts[nesting] + 1;
      }
      stack := Bump(stack[..|stack| - 1]);
    }

    /** lightweight_json_writer_end. Under Valid() the innermost kind is
        always Object or Array, so the switch's default branch cannot be
        reached; closing with nothing open is InvalidState. */
    method End() returns (status: Status)
      requires Valid()
      modifies this, buf, counts
      ensures Valid()
      ensures (status, Abstract()) == WriterSpec.End(old(Abstract()))
      ensures old(chunks) <= chunks
      ensures status != Success ==> chunks == old(chunks) && offset == old(offset)
    {
      if nesting < 0 {
        return InvalidState;
      }
      var k: ContainerKind := kinds[nesting];
      Pop(k);
      status := Success;
    }

    /** objects_in_object[nesting]++ after a value. */
    method Count()
      requires Valid() && nesting >= 0
      modifies counts, this`stack
      ensures Valid()
      ensures stack == Bump(old(stack))
    {
      counts[nesting] := counts[nesting] + 1;
      stack := Bump(stack);
    }

    /** The shared body of the add_* calls once the value's text is known:
        comma, key, text, and one more value in the innermost container. */
    method AddText(key: Option<CString>, text: seq<char>) returns (status: Status)
      requires Valid()
      modifies this, buf, counts
      ensures Valid()
      ensures (status, Abstract()) == WriterSpec.AddText(old(Abstract()), key, text)
      ensures old(chunks) <= chunks
      ensures status != Success ==> chunks == old(chunks) && offset == old(offset)
    {
      if nesting < 0 {
        return InvalidState;
      }
      AddPrefix(key);
      PutAll(text);
      Count();
      status := Success;
    }

    /** The quote, the bytes of v, the quote. */
    method PutQuoted(v: CString)
      requires Valid()
      modifies this`offset, this`chunks, this`emitted, buf
      ensures Valid()
      ensures emitted == old(emitted) + Quoted(v)
      ensures old(chunks) <= chunks
    {
      Put('"');
      PutAll(v);
      Put('"');
    }

    /** lightweight_json_writer_add_string: the value between quotes,
        copied without escaping; a missing value is InvalidArgs. */
    method AddString(key: Option<CString>, value: Option<CString>) returns (status: Status)
      requires Valid()
      modifies this, buf, counts
      ensures Valid()
      ensures (status, Abstract()) == WriterSpec.AddString(old(Abstract()), key, value)
      ensures old(chunks) <= chunks
      ensures status != Success ==> chunks == old(chunks) && offset == old(offset)
    {
      if value.None? {
        return InvalidArgs;
      }
      if nesting < 0 {
        return InvalidState;
      }
      AddPrefix(key);
      PutQuoted(value.value);
      Count();
      status := Success;
    }

    /** lightweight_json_writer_add_int64: the value as PRId64 text. */
    method AddInt64(key: Option<CString>, value: Int64) returns (status: Status)
      requires Valid()
      modifies this, buf, counts
      ensures Valid()
      ensures (status, Abstract()) == Apply(old(Abstract()), Int64Op(key, value))
      ensures old(chunks) <= chunks
      ensures status != Success ==> chunks == old(chunks) && offset == old(offset)
    {
      status := AddText(key, IntText(value));
    }

    /** lightweight_json_writer_add_uint64: the value as PRIu64 text. */
    method AddUInt64(key: Option<CString>, value: UInt64) returns (status: Status)
      requires Valid()
      modifies this, buf, counts
      ensures Valid()
      ensures (status, Abstract()) == Apply(old(Abstract()), UInt64Op(key, value))
      ensures old(chunks) <= chunks
      ensures status != Success ==> chunks == old(chunks) && offset == old(offset)
    {
      status := AddText(key, NatText(value));
    }

    /** lightweight_json_writer_add_bool: true or false. */
    method AddBool(key: Option<CString>, value: bool) returns (status: Status)
      requires Valid()
      modifies this, buf, counts
      ensures Valid()
      ensures (status, Abstract()) == Apply(old(Abstract()), BoolOp(key, value))
      ensures old(chunks) <= chunks
      ensures status != Success ==> chunks == old(chunks) && offset == old(offset)
    {
      status := AddText(key, BoolText(value));
    }

    /** lightweight_json_writer_add_double, given the full "%.8lf"
        rendering of the value; only what fits the 64-byte temporary is
        written. */
    method AddDouble(key: Option<CString>, rendered: CString) returns (status: Status)
      requires Valid()
      modifies this, buf, counts
      ensures Valid()
      ensures (status, Abstract()) == Apply(old(Abstract()), DoubleOp(key, rendered))
      ensures old(chunks) <= chunks
      ensures status != Success ==> chunks == old(chunks) && offset == old(offset)
    {
      status := AddText(key, Fit(rendered));
    }

    /** lightweight_json_writer_flush: hands whatever is buffered to the
        sink, even nothing, and rewinds. */
    method Flush() returns (status: Status)
      requires Valid()
      modifies this`offset, this`chunks
      ensures Valid() && status == Success
      ensures chunks == old(chunks) + [old(buf[..offset])] && offset == 0
      ensures Concat(chunks) == emitted
    {
      CheckBuffer(true);
      status := Success;
    }

    /** One call of the API, chosen by op. */
    method Step(op: Op) returns (status: Status)
      requires Valid()
      modifies this, buf, counts, kinds
      ensures Valid()
      ensures (status, Abstract()) == Apply(old(Abstract()), op)
      ensures old(chunks) <= chunks
      ensures status != Success ==> chunks == old(chunks) && offset == old(offset)
    {
      match op
      case BeginOp(key, t) => status := Begin(key, t);
      case EndOp => status := End();
      case StringOp(key, value) => status := AddString(key, value);
      case Int64Op(key, i) => status := AddInt64(key, i);
      case UInt64Op(key, u) => status := AddUInt64(key, u);
      case BoolOp(key, b) => status := AddBool(key, b);
      case DoubleOp(key, rendered) => status := AddDouble(key, rendered);
      case FlushOp => status := Flush();
    }

    /** A sequence of calls, carrying on after errors as a caller that
        ignores them would; allOk reports whether every call succeeded. */
    method Drive(ops: seq<Op>) returns (allOk: bool)
      requires Valid()
      modifies this, buf, counts, kinds
      ensures Valid()
      ensures Run(allOk, Abstract()) == ApplyAll(old(Abstract()), ops)
      ensures old(chunks) <= chunks
    {
      allOk := true;
      for i := 0 to |ops|
        invariant Valid()
        invariant Run(allOk, Abstract()) == ApplyAll(old(Abstract()), ops[..i])
        invariant old(chunks) <= chunks
      {
        ghost var before := Abstract();
        var status := Step(ops[i]);
        allOk := allOk && status == Success;
        ApplyAllCons(before, ops[i], []);
        ApplyAllAppend(old(Abstract()), ops[..i], [ops[i]]);
        assert ops[..i + 1] == ops[..i] + [ops[i]];
      }
      assert ops[..|ops|] == ops;
    }
  }

  /** A whole session on a fresh writer over any buffer of at least two
      bytes: after the calls and a final flush the sink has received exactly
      the text WriterSpec assigns to the calls, whatever the capacity. */
  method Produce(ops: seq<Op>, buffer: array<char>, bufferSize: nat) returns (allOk: bool, w: JsonWriter)
    requires 2 <= bufferSize <= buffer.Length
    modifies buffer
    ensures allOk == ApplyAll(Initial, ops).allOk
    ensures Concat(w.chunks) == ApplyAll(Initial, ops).state.out
  {
    w := new JsonWriter.Init(buffer, bufferSize);
    allOk := w.Drive(ops);
    var _ := w.Flush();
  }
}