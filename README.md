# lightweight_json in Dafny

A model of the two state machines of lightweight_json, a constant-memory
JSON codec written in C (`src/lightweight_json.c`):

- the **streaming writer**: it writes JSON into a fixed-size caller buffer
  one byte at a time and hands the buffer to a flush callback whenever it
  fills. It keeps a stack of open containers with a sibling count per level
  to decide where commas go;
- the **in-place reader**: it scans an immutable text on demand. It looks
  up keys in the current container, extracts strings and integers, enters
  and leaves nested containers, and steps through array elements. Each
  level of its stack has a start offset, a kind and a cursor.

Files:

| file | module | contents |
|---|---|---|
| `json_types.dfy` | `JsonTypes` | error codes, container kinds, `MaxNesting` (10), `Option`/`Result`, C strings |
| `decimal.dfy` | `Decimal` | the integer text `snprintf` writes; `strtoull`/`strtoll` with base 0 on a captured number; the round trip between them |
| `writer_spec.dfy` | `WriterSpec` | the writer as a pure state machine over (output, stack); a document tree and the calls that write it |
| `writer.dfy` | `Writer` | class `JsonWriter` over an `array<char>` buffer; the flush sink is a ghost sequence of chunks |
| `reader_spec.dfy` | `ReaderSpec` | every byte scanner of the reader as a recursive function, and every reader call as a function of the text and the stack |
| `reader.dfy` | `Reader` | class `JsonReader` with the C arrays; each scanner is a loop proved equal to its function |
| `scan_errors.dfy` | `ScanErrors` | the status each reader scanner returns on any text, byte case by byte case |
| `round_trip.dfy` | `RoundTrip` | what the reader's scanners recover from text the writer wrote |

The writer class keeps `Valid()` between calls. Under it:

- the chunks handed to the sink, followed by `buf[..offset]`, are every
  byte emitted so far;
- `offset < capacity` holds;
- the level arrays mirror the spec stack.

Every writer call is proved to change the logical state exactly as the
matching `WriterSpec` function does. What the sink receives therefore does
not depend on the buffer's capacity (`Writer.Produce`). `WriterSpec.EmitDocument`
proves the calls for any document tree of at most ten levels emit exactly
its JSON text. Every reader call is proved to return what the matching
`ReaderSpec` function returns, and to move the stack and cursors as it says.

`RoundTrip` joins the two halves. It covers a document written by the writer
whose keys and strings need no escaping, and whose keys are shorter than 64 bytes:

- `find_key` on an object stops at the first member carrying the key, and
  finds nothing when no member carries it;
- `get_string`, `get_uint64` and `get_int64` at a written value return that value;
- `enter` at a written container pushes a level on its bracket;
- `array_next` walks an array element by element and is `NotFound` after the last.

Because `enter` lands on the nested container's own text, the same theorems hold at every depth.

Choices where the C code has no defined behaviour:

- Writer root level: the C code indexes `objects_in_object[-1]` and
  `object_type[-1]` while no container is open (`nesting == -1`). The model
  writes no comma before the root container. Closing the root increments
  no parent count. `end` with nothing open returns `InvalidState`.
- Writer `end` on a level whose kind is neither object nor array: under
  `Valid()` every open level has a real kind, so the switch's default
  branch is unreachable.
- Reader `init` clears `current_offset[]` but not `current_suboffset[]`.
  The model starts every cursor at 0.
- `find_key` copies each candidate key into `char temp[64]` before
  `strcmp`. The model compares a candidate only when it is at most 63 bytes
  long, and then up to its first NUL. Longer candidates never match (the C
  code overflows `temp`).
- `get_numerical` copies the capture into `char temp[64]` as well. The model
  converts the whole capture whatever its length.
- Numbers are converted as `strtoull`/`strtoll` with base 0 do it on the
  bytes a capture can hold:
  - an optional minus sign;
  - a leading `0` selects octal, and the longest prefix of valid digits is
    converted;
  - out-of-range values clamp to `ULLONG_MAX`, `LLONG_MIN` or `LLONG_MAX`;
  - `strtoull` negates modulo 2^64.
- `add_double` prints into `char temp[64]`. The model takes the full
  `"%.8lf"` text as a parameter and writes its first 63 bytes at most
  (`WriterSpec.Fit`).

## Model

| member | source | states |
|---|---|---|
| WriterSpec.Bump | src/lightweight_json.c:138-139 | one more value in the innermost container: same length, same kinds, only the last count grows by one |
| WriterSpec.Begin | src/lightweight_json.c:66-94 | begin succeeds iff the kind is object or array and fewer than ten levels are open; it pushes (kind, 0); an unknown kind is InvalidArgs, ten open levels are MaxNestingReached, and a failure changes nothing |
| WriterSpec.End | src/lightweight_json.c:97-117 | end succeeds iff a container is open; it pops it and bumps the parent; otherwise InvalidState with nothing changed |
| WriterSpec.AddText | src/lightweight_json.c:126-139 | every add fails with InvalidState and no change when no container is open; otherwise it bumps the innermost count |
| WriterSpec.AddString | src/lightweight_json.c:120-142 | a missing value is InvalidArgs and changes nothing |
| WriterSpec.Fit | src/lightweight_json.c:154-155 | the double's text keeps at most 63 bytes and is a prefix of the full rendering; short renderings are kept whole |
| WriterSpec.Apply | src/lightweight_json.c:66-228 | a failing call changes neither output nor stack, and output only grows |
| WriterSpec.ApplyKeepsConsistent | src/lightweight_json.c:72-74 | no call takes the stack past ten levels or opens a level without a kind |
| WriterSpec.ApplyAllAppend | src/lightweight_json.c:66-228 | running two call sequences one after the other is running their concatenation |
| WriterSpec.FailedCallIsSkipped | src/lightweight_json.c:69-74 | a call that fails leaves no trace in the output of the calls after it |
| WriterSpec.CloseAll | src/lightweight_json.c:97-117 | from any consistent state one end per open container all succeed and emit the closing tokens innermost first; in particular after MaxNestingReached |
| WriterSpec.CloseOne | src/lightweight_json.c:97-117 | one end on a non-empty consistent stack succeeds, keeps the stack consistent and shortens it by one |
| WriterSpec.EmitMember | src/lightweight_json.c:35-55 | writing one member emits the comma if one is due, the key, the value's text, and bumps the enclosing count |
| WriterSpec.EmitAtom | src/lightweight_json.c:120-218 | one string, integer or boolean add inside an open container emits the comma if one is due, the key and the value's text, and bumps the enclosing count |
| WriterSpec.EmitContainer | src/lightweight_json.c:66-117 | begin, the members, end emit the container's JSON text |
| WriterSpec.EmitMembers | src/lightweight_json.c:35-40 | the members of a fresh container are emitted separated by single commas and all counted |
| WriterSpec.EmitDocument | src/lightweight_json.c:66-117 | the calls for any document of at most ten levels all succeed on a fresh writer and emit exactly its JSON text with nothing left open |
| Writer.ConcatSnoc | src/lightweight_json.c:28-33 | handing one more chunk to the sink appends its bytes to what the sink received |
| Writer.JsonWriter.Create | src/lightweight_json.c:8-26 | init succeeds iff a buffer of capacity at least 2 and a sink are given, otherwise InvalidArgs; a fresh writer is at offset 0 with nothing open or flushed |
| Writer.JsonWriter.CheckBuffer | src/lightweight_json.c:28-33 | exactly offset bytes go to the sink and offset returns to 0 when the buffer is full or the flush is forced; otherwise nothing happens |
| Writer.JsonWriter.Put | src/lightweight_json.c:38-39 | one byte is emitted; the buffer is flushed exactly when that byte fills it |
| Writer.JsonWriter.Stage | src/lightweight_json.c:37 | the byte is stored at offset, offset moves on by one and the bytes already buffered stay as they were |
| Writer.JsonWriter.PutAll | src/lightweight_json.c:57-63 | the bytes of the value are emitted in order |
| Writer.JsonWriter.AddComma | src/lightweight_json.c:35-40 | a comma is emitted iff the innermost container already holds a value |
| Writer.JsonWriter.AddKey | src/lightweight_json.c:42-55 | a key is emitted as "key": and nothing is emitted without a key |
| Writer.JsonWriter.AddPrefix | src/lightweight_json.c:76-77 | what precedes every value: the comma if one is due, then the key if there is one |
| Writer.JsonWriter.Push | src/lightweight_json.c:79-93 | the opening token is emitted and the level (kind, 0) is pushed |
| Writer.JsonWriter.OpenLevel | src/lightweight_json.c:89-91 | the new innermost level has the given kind and holds no value |
| Writer.JsonWriter.Begin | src/lightweight_json.c:66-94 | begin changes the writer exactly as WriterSpec.Begin, and a failed begin flushes nothing |
| Writer.JsonWriter.Pop | src/lightweight_json.c:101-116 | the closing token is emitted, the level popped and the parent bumped |
| Writer.JsonWriter.CloseLevel | src/lightweight_json.c:112-113 | the innermost level is dropped and its parent counts one more value |
| Writer.JsonWriter.End | src/lightweight_json.c:97-117 | end changes the writer exactly as WriterSpec.End |
| Writer.JsonWriter.Count | src/lightweight_json.c:139 | the innermost count grows by one |
| Writer.JsonWriter.AddText | src/lightweight_json.c:164-180 | the shared body of the add calls changes the writer exactly as WriterSpec.AddText |
| Writer.JsonWriter.PutQuoted | src/lightweight_json.c:133-137 | the value is emitted between quotes without escaping |
| Writer.JsonWriter.AddString | src/lightweight_json.c:120-142 | add_string changes the writer exactly as WriterSpec.AddString |
| Writer.JsonWriter.AddInt64 | src/lightweight_json.c:164-180 | add_int64 emits the value's PRId64 text as WriterSpec says; a refused add flushes nothing |
| Writer.JsonWriter.AddUInt64 | src/lightweight_json.c:183-199 | add_uint64 emits the value's PRIu64 text as WriterSpec says; a refused add flushes nothing |
| Writer.JsonWriter.AddBool | src/lightweight_json.c:202-218 | add_bool emits true or false as WriterSpec says; a refused add flushes nothing |
| Writer.JsonWriter.AddDouble | src/lightweight_json.c:145-161 | add_double emits what fits of the rendering as WriterSpec says; a refused add flushes nothing |
| Writer.JsonWriter.Flush | src/lightweight_json.c:221-228 | flush always hands the buffered bytes to the sink, even none, after which the sink has received everything emitted |
| Writer.JsonWriter.Step | src/lightweight_json.c:66-228 | any one call changes the writer exactly as WriterSpec.Apply, and a failed call flushes nothing |
| Writer.JsonWriter.Drive | src/lightweight_json.c:66-228 | a sequence of calls changes the writer exactly as WriterSpec.ApplyAll |
| Writer.Produce | src/lightweight_json.c:28-33 | after any calls and a final flush, the sink has received exactly the WriterSpec output, for every capacity of at least 2 |
| Decimal.NatTextDigits | src/lightweight_json.c:193 | PRIu64 text is a non-empty digit string with no leading zero that reads back as the value |
| Decimal.UInt64RoundTrip | src/lightweight_json.c:486 | strtoull of the PRIu64 text of any uint64 is that value |
| Decimal.Int64RoundTrip | src/lightweight_json.c:489 | strtoll of the PRId64 text of any int64 is that value |
| ReaderSpec.FirstOpener | src/lightweight_json.c:242-255 | the first '{' or '[' of the text, or none when there is none |
| ReaderSpec.Init | src/lightweight_json.c:231-259 | init succeeds iff a buffer holding a bracket is given; level 0 is the first bracket, its kind and cursor 0; otherwise InvalidArgs |
| ReaderSpec.KeyScan | src/lightweight_json.c:263-334 | a key found by the scanner sits at an opening quote past the scan's start and is followed by the key's bytes |
| ReaderSpec.FindKey | src/lightweight_json.c:263-334 | a found key lies past the container's bracket, so it is never 0, and its quote is followed by the key |
| ReaderSpec.KeyExists | src/lightweight_json.c:337-349 | key_exists is NotFound exactly when find_key finds nothing; a missing key is InvalidArgs |
| ReaderSpec.Locate | src/lightweight_json.c:359-370 | a value read starts just past the cursor, or strlen(key) + 3 bytes past the found key's quote; a missing key is NotFound |
| ReaderSpec.StringScan | src/lightweight_json.c:375-406 | a string is found between two quotes after the start; the only failures are NotFound and InvalidDatatype |
| ReaderSpec.GetString | src/lightweight_json.c:352-406 | a zero-length buffer is InvalidArgs; a found string is exactly the bytes between its quotes |
| ReaderSpec.NumberScan | src/lightweight_json.c:434-507 | a captured number starts with a digit or minus and holds only digits, signs, dots, blanks and colons; failures are NotFound, InvalidJson or InvalidDatatype |
| ReaderSpec.GetNumber | src/lightweight_json.c:415-507 | the capture of the located number; a missing key is NotFound |
| ReaderSpec.GetUInt64 | src/lightweight_json.c:511-514 | the value is strtoull of the capture, and fails exactly when the capture fails |
| ReaderSpec.GetInt64 | src/lightweight_json.c:523-526 | the value is strtoll of the capture, and fails exactly when the capture fails |
| ReaderSpec.EnterScan | src/lightweight_json.c:550-586 | the container found is an opening bracket at or after the start; the only failures are NotFound and InvalidDatatype |
| ReaderSpec.EnterAsWritten | src/lightweight_json.c:529-587 | a successful enter pushes the found bracket's offset and kind with cursor 0 and keeps the other levels; a failed one changes nothing |
| ReaderSpec.Enter | src/lightweight_json.c:566-576 | with every level slot in use, an enter that would push a level is MaxNestingReached; every other enter is the C enter, its NotFound and InvalidDatatype included |
| ReaderSpec.EnterAsWrittenOverflows | src/lightweight_json.c:569-570 | in eleven nested arrays the C enter succeeds with ten levels already in use and needs an eleventh slot |
| ReaderSpec.EnterNested | src/lightweight_json.c:529-587 | in a run of opening brackets, init takes the first and each enter without a key the next |
| ReaderSpec.EnterStaysInBounds | src/lightweight_json.c:566-576 | the bounded enter never needs more than ten levels; it agrees with the C enter whenever it succeeds and whenever the C enter fails |
| ReaderSpec.Leave | src/lightweight_json.c:590-599 | leave pops the innermost level but never level 0 |
| ReaderSpec.NextScan | src/lightweight_json.c:615-648 | a found separator is a comma at or after the start |
| ReaderSpec.ArrayNext | src/lightweight_json.c:602-651 | on a non-array level InvalidState; a call that does not succeed leaves the stack unchanged; only the top cursor can change, and a moved cursor grows and points at a comma (the statuses per byte case are the ScanErrors.ArrayNext lemmas) |
| Reader.JsonReader.Create | src/lightweight_json.c:231-259 | init returns what ReaderSpec.Init returns and a reader whose level 0 is the one it computes |
| Reader.JsonReader.FindKey | src/lightweight_json.c:263-334 | the loop returns the offset ReaderSpec.FindKey finds, and 0 when it finds none |
| Reader.JsonReader.ScanKey | src/lightweight_json.c:268-333 | the scanning loop of find_key returns exactly what ReaderSpec.KeyScan returns from the same offset |
| Reader.JsonReader.KeyExists | src/lightweight_json.c:337-349 | key_exists returns what ReaderSpec.KeyExists says |
| Reader.JsonReader.Locate | src/lightweight_json.c:359-370 | the start offset of a value read is the one ReaderSpec.Locate computes |
| Reader.JsonReader.GetString | src/lightweight_json.c:352-406 | get_string returns the status and the bytes ReaderSpec.GetString says |
| Reader.JsonReader.ScanString | src/lightweight_json.c:372-406 | the scanning loop of get_string returns exactly the span ReaderSpec.StringScan finds, or its error |
| Reader.JsonReader.GetNumber | src/lightweight_json.c:415-507 | the number scan returns the status and capture ReaderSpec.GetNumber says |
| Reader.JsonReader.GetUInt64 | src/lightweight_json.c:511-514 | get_uint64 returns what ReaderSpec.GetUInt64 says |
| Reader.JsonReader.GetInt64 | src/lightweight_json.c:523-526 | get_int64 returns what ReaderSpec.GetInt64 says |
| Reader.JsonReader.Push | src/lightweight_json.c:566-575 | the found bracket becomes the innermost level with cursor 0 |
| Reader.JsonReader.Enter | src/lightweight_json.c:529-587 | enter changes the stack exactly as ReaderSpec.Enter |
| Reader.JsonReader.Leave | src/lightweight_json.c:590-599 | leave changes the stack exactly as ReaderSpec.Leave and succeeds |
| Reader.JsonReader.ArrayNext | src/lightweight_json.c:602-651 | array_next changes the cursor exactly as ReaderSpec.ArrayNext |
| ScanErrors.NumberRanOff | src/lightweight_json.c:438-507 | blanks, colons and digits up to the end of the text: get_numerical's scan is NotFound |
| ScanErrors.NumberMinusInside | src/lightweight_json.c:457-464 | a minus after the number started, as in 12-3, is InvalidJson |
| ScanErrors.NumberDotFirst | src/lightweight_json.c:465-471 | a dot before any digit is InvalidJson |
| ScanErrors.NumberSecondDot | src/lightweight_json.c:465-471 | a second dot in a number is InvalidJson |
| ScanErrors.NumberNoDigit | src/lightweight_json.c:472-477 | a comma or closing bracket before any digit is InvalidJson |
| ScanErrors.NumberOtherByte | src/lightweight_json.c:499-502 | any byte with no case of its own, before or after the digits, is InvalidDatatype |
| ScanErrors.EnterFindsBracket | src/lightweight_json.c:566-578 | after blanks, an opening bracket is the container enter finds |
| ScanErrors.EnterStopsAtSeparator | src/lightweight_json.c:559-565 | after blanks, a comma or closing bracket is NotFound |
| ScanErrors.EnterRejectsByte | src/lightweight_json.c:580-583 | after blanks, any other byte but a quote or a backslash is InvalidDatatype |
| ScanErrors.EnterRejectsInString | src/lightweight_json.c:580-583 | the default case ignores the string flag: a letter inside a string is InvalidDatatype too |
| ScanErrors.EnterRanOff | src/lightweight_json.c:587 | blanks up to the end of the text are NotFound |
| ScanErrors.StringFound | src/lightweight_json.c:379-391 | after blanks and colons, a quoted run without quote or backslash is the string found |
| ScanErrors.StringRejectsByte | src/lightweight_json.c:397-402 | after blanks and colons, any other byte but a quote or a backslash is InvalidDatatype |
| ScanErrors.StringRanOff | src/lightweight_json.c:406 | blanks and colons up to the end of the text are NotFound |
| ScanErrors.StringUnterminated | src/lightweight_json.c:375-406 | a string whose closing quote never comes is NotFound |
| ScanErrors.ArrayNextMoves | src/lightweight_json.c:618-623 | a comma before any other structural byte moves the cursor onto it |
| ScanErrors.ArrayNextAtClose | src/lightweight_json.c:637-644 | a closing bracket at depth 0 is NotFound and keeps the stack |
| ScanErrors.ArrayNextAtEnd | src/lightweight_json.c:651 | running off the text is Success and keeps the cursor where it was |
| RoundTrip.LookupFrom | src/lightweight_json.c:274-333 | the first member from j on whose key is the one looked for: it carries the key, no member between j and it does, and none is found only when no member from j on carries it |
| RoundTrip.KeyAtKey | src/lightweight_json.c:278-299 | at a written key, the find_key scanner stops there exactly when the key is the one looked for, and otherwise goes on after the colon in value mode |
| RoundTrip.KeySkipValue | src/lightweight_json.c:274-333 | the find_key scanner passes over a written value, nested containers included, without matching anything inside it |
| RoundTrip.KeyAtMember | src/lightweight_json.c:274-333 | at a written member, the find_key scanner stops at its key when it is the one looked for, and otherwise resumes after the member |
| RoundTrip.KeyFindFrom | src/lightweight_json.c:263-334 | from the j-th member of a written object on, find_key stops at the first member carrying the key, and finds nothing when none does |
| RoundTrip.ObjectFindKey | src/lightweight_json.c:263-335 | on a written object find_key stops at the opening quote of the first member carrying the key, and finds nothing when none does |
| RoundTrip.ObjectLookup | src/lightweight_json.c:337-370 | on a written object, key_exists is Success exactly when some member carries the key; the value read then is that of the first such member |
| RoundTrip.MemberValueAt | src/lightweight_json.c:368-369 | the value of a written member lies just past its key and is followed by a comma or a closing bracket |
| RoundTrip.ScanQuoted | src/lightweight_json.c:375-406 | the string scanner spans a written string from its opening to its closing quote |
| RoundTrip.ReadString | src/lightweight_json.c:352-406 | get_string where a written string lies returns exactly its bytes |
| RoundTrip.ReadDigits | src/lightweight_json.c:434-507 | the number scanner captures a written integer exactly, up to the byte that ends the value |
| RoundTrip.ReadUInt64 | src/lightweight_json.c:511-514 | get_uint64 where a written unsigned integer lies returns that integer |
| RoundTrip.ReadInt64 | src/lightweight_json.c:523-526 | get_int64 where a written signed integer lies returns that integer |
| RoundTrip.ReadContainer | src/lightweight_json.c:529-587 | enter where a written container lies pushes a level on its opening bracket, of its kind, with cursor 0 |
| RoundTrip.ReadDocument | src/lightweight_json.c:231-259 | init on a written document makes its outer bracket level 0 |
| RoundTrip.NextSkipValue | src/lightweight_json.c:615-648 | the array_next scanner passes over a written value, nested containers included, without stopping inside it |
| RoundTrip.ElementAtCursor | src/lightweight_json.c:615-648 | the j-th element of a written array starts just past the cursor, and the scan after it stops at the comma before the next element or at the closing bracket |
| RoundTrip.ArrayElement | src/lightweight_json.c:602-651 | a read without key on a written array sees the element at the cursor, and array_next moves the cursor before the next one, or is NotFound after the last |
| RoundTrip.ArrayEmpty | src/lightweight_json.c:602-651 | array_next on a written empty array is NotFound |

## Findings

| source | as written | input that shows it | evidently intended | confidence | as-written member | corrected member |
|---|---|---|---|---|---|---|
| src/lightweight_json.c:569-575 | `enter` increments `nesting` and writes `current_offset[]`, `object_type[]` and `current_suboffset[]` at it with no bound check | eleven nested arrays `[[[[[[[[[[[`: init and nine enters fill all ten slots; the tenth enter writes index 10 of the ten-element arrays | refuse with `MaxNestingReached` where a level would be pushed with all ten slots in use, as `writer_begin` does at `:72-74`; a call that fails anyway keeps its own status | high; not executed | ReaderSpec.EnterAsWrittenOverflows | ReaderSpec.EnterStaysInBounds |

`Reader.JsonReader.Enter` follows the corrected `ReaderSpec.Enter`. The bound is checked only when the scan finds a bracket, so with ten levels in use a comma after the cursor is still NotFound, as in the C code.

## Left out

- Floating point: the `"%.8lf"` rendering of `add_double` is a parameter, and `lightweight_json_reader_get_double` (`strtod`) is not modelled.
- `lightweight_json_reader_get_bool` is not modelled. It scans to the end of the buffer and returns an error even for a well-formed boolean.
- The flush callback and its `userdata`: the sink is seen only as the ghost sequence of chunks it received.
- NULL context and NULL output pointers: a Dafny object cannot be null where the C code checks for it. Missing buffers, keys and values are `Option`s.
- Reader.JsonReader.GetString: returns the bytes instead of copying them into the caller's buffer. The C code writes the string and its NUL whatever `buffer_len` says; only `buffer_len == 0` is checked, and the model checks that too.
- Writer.JsonWriter.Create: `init` copies the context by value into caller storage; the model allocates a fresh object.
- The declarations in `include/lightweight_json.h`, which describe an older API; only the nesting bound is taken from it.
- RoundTrip: the round-trip theorems cover only strings and keys with no `"` or `\`, and keys with no `:` that are shorter than 64 bytes. The writer escapes nothing, so other strings do not read back.
- RoundTrip: the round-trip theorems take objects whose members all carry a key and arrays whose elements carry none. The writer accepts either in both.
- RoundTrip: doubles and booleans are not read back. `get_double` and `get_bool` are not modelled.
- C integer widths: nesting levels and sibling counts (`objects_in_object[]`) are `int` and offsets are `size_t` in the C code, and the model uses unbounded naturals. It does not capture the signed overflow, which is undefined behaviour, after 2^31 - 1 siblings in one container, after which the comma rule no longer holds; nor does it capture offsets past `SIZE_MAX`.
- `src/testprog.c` and `src/lightweight_json_test.cpp`, a command-line caller and a test harness.
