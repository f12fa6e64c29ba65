/** The streaming writer as a pure state machine: what each call emits and
    how it moves the nesting stack, independently of the output buffer and
    of when the buffer is flushed. The class in module Writer is proved to
    follow these functions byte for byte. */
module WriterSpec {
  import opened JsonTypes
  import opened Decimal

  /** One open container: its kind (object_type[]) and the number of values
      it already holds (objects_in_object[]). */
  datatype Level = Level(kind: JsonType, count: nat)

  /** Everything emitted so far and the open containers, outermost first. */
  datatype State = State(out: seq<char>, stack: seq<Level>)

  /** The state right after a successful init: nothing emitted, nesting -1. */
  const Initial: State := State([], [])

  /** The stack fits the fixed arrays and every open level has a real kind. */
  predicate Consistent(s: State) {
    |s.stack| <= MaxNesting &&
    forall i :: 0 <= i < |s.stack| ==> s.stack[i].kind != NoType
  }

  /** The separator written before a value: a comma when the innermost open
      container already holds a value. The root has no container around it
      and gets none. */
  function Comma(stack: seq<Level>): seq<char> {
    if |stack| > 0 && stack[|stack| - 1].count > 0 then [','] else []
  }

  /** "key": for a key, nothing for a keyless value. */
  function KeyText(key: Option<CString>): seq<char> {
    match key
    case None => []
    case Some(k) => ['"'] + k + ['"', ':']
  }

  /** The stack after one more value was added to the innermost container. */
  function Bump(stack: seq<Level>): (r: seq<Level>)
    ensures |r| == |stack|
    ensures forall i :: 0 <= i < |r| ==> r[i].kind == stack[i].kind
    ensures |r| > 0 ==> r[..|r| - 1] == stack[..|stack| - 1] && r[|r| - 1].count == stack[|stack| - 1].count + 1
  {
    if stack == [] then []
    else stack[..|stack| - 1] + [Level(stack[|stack| - 1].kind, stack[|stack| - 1].count + 1)]
  }

  /** lightweight_json_writer_begin. */
  function Begin(s: State, key: Option<CString>, t: JsonType): (r: (Status, State))
    ensures r.0 == Success <==> t != NoType && |s.stack| != MaxNesting
    ensures r.0 == Success ==> r.1.stack == s.stack + [Level(t, 0)]
    ensures r.0 != Success ==> r.1 == s
    ensures t == NoType ==> r.0 == InvalidArgs
    ensures t != NoType && |s.stack| == MaxNesting ==> r == (MaxNestingReached, s)
  {
    if t == NoType then (InvalidArgs, s)
    else if |s.stack| == MaxNesting then (MaxNestingReached, s)
    else (Success, State(s.out + Comma(s.stack) + KeyText(key) + [OpenToken(t)], s.stack + [Level(t, 0)]))
  }

  /** lightweight_json_writer_end. Closing with nothing open is InvalidState;
      closing the root does not count it in any parent. */
  function End(s: State): (r: (Status, State))
    ensures r.0 == Success <==> |s.stack| > 0 && s.stack[|s.stack| - 1].kind != NoType
    ensures r.0 == Success ==> r.1.stack == Bump(s.stack[..|s.stack| - 1])
    ensures r.0 != Success ==> r.0 == InvalidState && r.1 == s
  {
    if |s.stack| == 0 then (InvalidState, s)
    else
      var top := s.stack[|s.stack| - 1];
      if top.kind == NoType then (InvalidState, s)
      else (Success, State(s.out + [CloseToken(top.kind)], Bump(s.stack[..|s.stack| - 1])))
  }

  /** The shared tail of every add_* call once its value text is known. */
  function AddText(s: State, key: Option<CString>, text: seq<char>): (r: (Status, State))
    ensures r.0 == Success <==> |s.stack| > 0
    ensures r.0 == Success ==> r.1.stack == Bump(s.stack)
    ensures r.0 != Success ==> r.0 == InvalidState && r.1 == s
  {
    if |s.stack| == 0 then (InvalidState, s)
    else (Success, State(s.out + Comma(s.stack) + KeyText(key) + text, Bump(s.stack)))
  }

  /** A string value, quoted and copied verbatim (no escaping). */
  function Quoted(v: CString): seq<char> {
    ['"'] + v + ['"']
  }

  function BoolText(b: bool): seq<char> {
    if b then "true" else "false"
  }

  /** lightweight_json_writer_add_string; a NULL value is InvalidArgs. */
  function AddString(s: State, key: Option<CString>, value: Option<CString>): (r: (Status, State))
    ensures value == None ==> r == (InvalidArgs, s)
  {
    match value
    case None => (InvalidArgs, s)
    case Some(v) => AddText(s, key, Quoted(v))
  }

  /** What survives of a rendering printed into the writer's 64-byte
      temporary: snprintf keeps at most 63 bytes before the terminator. */
  function Fit(text: CString): (r: CString)
    ensures |r| < 64 && r <= text
    ensures |text| < 64 ==> r == text
  {
    if |text| < 64 then text
    else
      assert forall i :: 0 <= i < 63 ==> text[..63][i] == text[i];
      text[..63]
  }

  /** One call of the writer's API; Double carries the full text that
      "%.8lf" formatting produces for the value. */
  datatype Op =
    | BeginOp(key: Option<CString>, t: JsonType)
    | EndOp
    | StringOp(key: Option<CString>, value: Option<CString>)
    | Int64Op(key: Option<CString>, i: Int64)
    | UInt64Op(key: Option<CString>, u: UInt64)
    | BoolOp(key: Option<CString>, b: bool)
    | DoubleOp(key: Option<CString>, rendered: CString)
    | FlushOp

  /** The effect of one call on the logical state. A failing call changes
      nothing, output only ever grows, and the stack stays consistent. */
  function Apply(s: State, op: Op): (r: (Status, State))
    ensures r.0 != Success ==> r.1 == s
    ensures s.out <= r.1.out
  {
    match op
    case BeginOp(key, t) => Begin(s, key, t)
    case EndOp => End(s)
    case StringOp(key, value) => AddString(s, key, value)
    case Int64Op(key, i) => AddText(s, key, IntText(i))
    case UInt64Op(key, u) => AddText(s, key, NatText(u))
    case BoolOp(key, b) => AddText(s, key, BoolText(b))
    case DoubleOp(key, rendered) => AddText(s, key, Fit(rendered))
    case FlushOp => (Success, s)
  }

  lemma ApplyKeepsConsistent(s: State, op: Op)
    requires Consistent(s)
    ensures Consistent(Apply(s, op).1)
  {
  }

  /** The outcome of a sequence of calls: whether each one succeeded, and
      the final state (a caller that ignores an error simply continues). */
  datatype Run = Run(allOk: bool, state: State)

  function ApplyAll(s: State, ops: seq<Op>): Run
    decreases |ops|
  {
    if ops == [] then Run(true, s)
    else
      var (status, s1) := Apply(s, ops[0]);
      var rest := ApplyAll(s1, ops[1..]);
      Run(status == Success && rest.allOk, rest.state)
  }

  lemma {:induction false} ApplyAllAppend(s: State, a: seq<Op>, b: seq<Op>)
    ensures ApplyAll(s, a + b).state == ApplyAll(ApplyAll(s, a).state, b).state
    ensures ApplyAll(s, a + b).allOk == (ApplyAll(s, a).allOk && ApplyAll(ApplyAll(s, a).state, b).allOk)
    decreases a
  {
    if a != [] {
      assert (a + b)[0] == a[0];
      assert (a + b)[1..] == a[1..] + b;
      ApplyAllAppend(Apply(s, a[0]).1, a[1..], b);
    } else {
      assert a + b == b;
    }
  }

  /** Two runs that both succeed, one after the other. */
  lemma RunThen(s: State, a: seq<Op>, b: seq<Op>, s1: State, s2: State)
    requires ApplyAll(s, a) == Run(true, s1) && ApplyAll(s1, b) == Run(true, s2)
    ensures ApplyAll(s, a + b) == Run(true, s2)
  {
    ApplyAllAppend(s, a, b);
  }

  lemma ApplyAllCons(s: State, op: Op, rest: seq<Op>)
    ensures ApplyAll(s, [op] + rest) ==
            Run(Apply(s, op).0 == Success && ApplyAll(Apply(s, op).1, rest).allOk, ApplyAll(Apply(s, op).1, rest).state)
  {
    assert ([op] + rest)[0] == op;
    assert ([op] + rest)[1..] == rest;
  }

  /** A call that fails leaves no trace: the remaining calls produce exactly
      what they would have produced without it. */
  lemma FailedCallIsSkipped(s: State, before: seq<Op>, op: Op, after: seq<Op>)
    requires Apply(ApplyAll(s, before).state, op).0 != Success
    ensures ApplyAll(s, before + [op] + after).state == ApplyAll(s, before + after).state
  {
    var mid := ApplyAll(s, before).state;
    ApplyAllAppend(s, before + [op], after);
    ApplyAllAppend(s, before, [op]);
    ApplyAllAppend(s, before, after);
    assert ApplyAll(mid, [op]).state == mid;
  }

  /** The closing tokens of the open containers, innermost first. */
  function Closers(stack: seq<Level>): seq<char>
    requires forall i :: 0 <= i < |stack| ==> stack[i].kind != NoType
  {
    if stack == [] then []
    else [CloseToken(stack[|stack| - 1].kind)] + Closers(stack[..|stack| - 1])
  }

  function Ends(n: nat): seq<Op> {
    if n == 0 then [] else [EndOp] + Ends(n - 1)
  }

  /** From any consistent state, one end per open container succeeds every
      time and emits the matching closers; in particular after a begin was
      refused with MaxNestingReached the open containers still close. */
  lemma {:induction false} CloseAll(s: State)
    requires Consistent(s)
    ensures ApplyAll(s, Ends(|s.stack|)) == Run(true, State(s.out + Closers(s.stack), []))
    decreases |s.stack|
  {
    var n := |s.stack|;
    if n > 0 {
      var s1 := CloseOne(s);
      CloseAll(s1);
      ApplyAllCons(s, EndOp, Ends(n - 1));
      assert Ends(n) == [EndOp] + Ends(n - 1);
    }
  }

  /** One step of CloseAll: the end succeeds and what is left to close
      shrinks by the closer just written. */
  lemma CloseOne(s: State) returns (s1: State)
    requires Consistent(s) && |s.stack| > 0
    ensures Apply(s, EndOp) == (Success, s1) && Consistent(s1) && |s1.stack| == |s.stack| - 1
    ensures s1.out + Closers(s1.stack) == s.out + Closers(s.stack)
  {
    var n := |s.stack|;
    var top, popped := s.stack[n - 1], s.stack[..n - 1];
    s1 := State(s.out + [CloseToken(top.kind)], Bump(popped));
    assert End(s) == (Success, s1);
    assert Closers(Bump(popped)) == Closers(popped);
  }

  /** A document as the caller builds it: scalars and containers whose
      members carry an optional key. */
  datatype Value =
    | Str(s: CString)
    | Int(i: Int64)
    | UInt(u: UInt64)
    | Bool(b: bool)
    | Container(kind: ContainerKind, members: seq<Member>)

  datatype Member = Member(key: Option<CString>, value: Value)

  /** Number of nesting levels a value occupies. */
  function Depth(v: Value): nat
    decreases v
  {
    match v
    case Container(_, ms) => 1 + MembersDepth(ms)
    case _ => 0
  }

  function MemberDepth(m: Member): nat
    decreases m
  {
    Depth(m.value)
  }

  function MembersDepth(ms: seq<Member>): nat
    decreases ms
  {
    if ms == [] then 0
    else
      var d1 := MembersDepth(ms[..|ms| - 1]);
      var d2 := MemberDepth(ms[|ms| - 1]);
      if d1 < d2 then d2 else d1
  }

  /** The JSON text of a value, as an independent definition. */
  function Serialize(v: Value): seq<char>
    decreases v
  {
    match v
    case Str(s) => Quoted(s)
    case Int(i) => IntText(i)
    case UInt(u) => NatText(u)
    case Bool(b) => BoolText(b)
    case Container(k, ms) => [OpenToken(k)] + MembersText(ms) + [CloseToken(k)]
  }

  function MemberText(m: Member): seq<char>
    decreases m
  {
    KeyText(m.key) + Serialize(m.value)
  }

  /** Members separated by commas. */
  function MembersText(ms: seq<Member>): seq<char>
    decreases ms
  {
    if ms == [] then []
    else MembersText(ms[..|ms| - 1]) + (if |ms| > 1 then [','] else []) + MemberText(ms[|ms| - 1])
  }

  /** The calls a caller makes to write one member. */
  function MemberOps(m: Member): seq<Op>
    decreases m
  {
    match m.value
    case Str(s) => [StringOp(m.key, Some(s))]
    case Int(i) => [Int64Op(m.key, i)]
    case UInt(u) => [UInt64Op(m.key, u)]
    case Bool(b) => [BoolOp(m.key, b)]
    case Container(k, ms) => [BeginOp(m.key, k)] + MembersOps(ms) + [EndOp]
  }

  function MembersOps(ms: seq<Member>): seq<Op>
    decreases ms
  {
    if ms == [] then [] else MembersOps(ms[..|ms| - 1]) + MemberOps(ms[|ms| - 1])
  }

  /** Writing one member inside an open container (or a container at the
      root) succeeds and emits the comma if one is due, then the member's
      text; the enclosing container then counts one more value. */
  lemma {:induction false} EmitMember(s: State, m: Member)
    requires Consistent(s)
    requires m.value.Container? || |s.stack| > 0
    requires |s.stack| + Depth(m.value) <= MaxNesting
    ensures ApplyAll(s, MemberOps(m)) == Run(true, State(s.out + Comma(s.stack) + MemberText(m), Bump(s.stack)))
    decreases m
  {
    match m.value
    case Container(k, ms) => EmitContainer(s, m.key, k, ms, m);
    case _ => EmitAtom(s, m);
  }

  /** The scalar cases of EmitMember: one operation writes the member. */
  lemma {:induction false} EmitAtom(s: State, m: Member)
    requires Consistent(s) && |s.stack| > 0 && !m.value.Container?
    ensures ApplyAll(s, MemberOps(m)) == Run(true, State(s.out + Comma(s.stack) + MemberText(m), Bump(s.stack)))
  {
    match m.value
    case Str(v) => ApplyAllCons(s, StringOp(m.key, Some(v)), []);
    case Int(i) => ApplyAllCons(s, Int64Op(m.key, i), []);
    case UInt(u) => ApplyAllCons(s, UInt64Op(m.key, u), []);
    case Bool(b) => ApplyAllCons(s, BoolOp(m.key, b), []);
  }

  /** The container case of EmitMember: begin, the members, end. */
  lemma {:induction false} EmitContainer(s: State, key: Option<CString>, k: ContainerKind, ms: seq<Member>, m: Member)
    requires m == Member(key, Container(k, ms))
    requires Consistent(s) && |s.stack| + 1 + MembersDepth(ms) <= MaxNesting
    ensures ApplyAll(s, MemberOps(m)) == Run(true, State(s.out + Comma(s.stack) + MemberText(m), Bump(s.stack)))
    decreases m, 0
  {
    var open := s.out + Comma(s.stack) + KeyText(key) + [OpenToken(k)];
    var s1 := State(open, s.stack + [Level(k, 0)]);
    OpenContainer(s, key, k, ms, m, s1);
    assert Consistent(s1);
    EmitMembers(s1, ms);
    CloseContainer(s, k, ms, open, s1);
    ContainerText(s.out + Comma(s.stack), key, k, ms, m);
  }

  lemma ContainerText(prefix: seq<char>, key: Option<CString>, k: ContainerKind, ms: seq<Member>, m: Member)
    requires m == Member(key, Container(k, ms))
    ensures prefix + KeyText(key) + [OpenToken(k)] + MembersText(ms) + [CloseToken(k)] == prefix + MemberText(m)
  {
    var body := MembersText(ms);
    assert Serialize(m.value) == [OpenToken(k)] + body + [CloseToken(k)];
  }

  lemma OpenContainer(s: State, key: Option<CString>, k: ContainerKind, ms: seq<Member>, m: Member, s1: State)
    requires m == Member(key, Container(k, ms))
    requires Consistent(s) && |s.stack| < MaxNesting
    requires s1 == State(s.out + Comma(s.stack) + KeyText(key) + [OpenToken(k)], s.stack + [Level(k, 0)])
    ensures ApplyAll(s, MemberOps(m)) == ApplyAll(s1, MembersOps(ms) + [EndOp])
  {
    var rest := MembersOps(ms) + [EndOp];
    assert MemberOps(m) == [BeginOp(key, k)] + rest by {
      assert [BeginOp(key, k)] + MembersOps(ms) + [EndOp] == [BeginOp(key, k)] + rest;
    }
    assert Apply(s, BeginOp(key, k)) == (Success, s1);
    ApplyAllCons(s, BeginOp(key, k), rest);
  }

  lemma CloseContainer(s: State, k: ContainerKind, ms: seq<Member>, open: seq<char>, s1: State)
    requires s1 == State(open, s.stack + [Level(k, 0)])
    requires ApplyAll(s1, MembersOps(ms)) ==
             Run(true, State(open + MembersText(ms), s1.stack[..|s1.stack| - 1] + [Level(k, |ms|)]))
    ensures ApplyAll(s1, MembersOps(ms) + [EndOp]) ==
            Run(true, State(open + MembersText(ms) + [CloseToken(k)], Bump(s.stack)))
  {
    assert s1.stack[..|s1.stack| - 1] == s.stack;
    var s2 := State(open + MembersText(ms), s.stack + [Level(k, |ms|)]);
    assert s2.stack[..|s2.stack| - 1] == s.stack;
    assert Apply(s2, EndOp) == (Success, State(open + MembersText(ms) + [CloseToken(k)], Bump(s.stack)));
    ApplyAllCons(s2, EndOp, []);
    ApplyAllAppend(s1, MembersOps(ms), [EndOp]);
  }

  /** Writing the members of a freshly opened container one after another
      emits them separated by commas and leaves the container counting them
      all. */
  lemma {:induction false} EmitMembers(s: State, ms: seq<Member>)
    requires Consistent(s) && |s.stack| > 0 && s.stack[|s.stack| - 1].count == 0
    requires |s.stack| + MembersDepth(ms) <= MaxNesting
    ensures ApplyAll(s, MembersOps(ms)) ==
            Run(true, State(s.out + MembersText(ms),
                            s.stack[..|s.stack| - 1] + [Level(s.stack[|s.stack| - 1].kind, |ms|)]))
    decreases ms
  {
    var n := |s.stack|;
    var kind := s.stack[n - 1].kind;
    if |ms| == 0 {
      assert s.stack[..n - 1] + [Level(kind, 0)] == s.stack;
    } else {
      var init, last := ms[..|ms| - 1], ms[|ms| - 1];
      MembersSplit(ms);
      var s1 := State(s.out + MembersText(init), s.stack[..n - 1] + [Level(kind, |init|)]);
      EmitMembers(s, init);
      Recount(s, s1.out, |init|);
      EmitMember(s1, last);
      MembersStep(s, ms, s1);
      RunThen(s, MembersOps(init), MemberOps(last), s1, State(s.out + MembersText(ms), Bump(s1.stack)));
    }
  }

  /** Setting the count of the innermost container keeps a state consistent. */
  lemma Recount(s: State, out: seq<char>, c: nat)
    requires Consistent(s) && |s.stack| > 0
    ensures Consistent(State(out, s.stack[..|s.stack| - 1] + [Level(s.stack[|s.stack| - 1].kind, c)]))
  {
    var n := |s.stack|;
    var stack' := s.stack[..n - 1] + [Level(s.stack[n - 1].kind, c)];
    assert forall i :: 0 <= i < n ==> stack'[i].kind == s.stack[i].kind;
  }

  /** The bookkeeping of one step of EmitMembers. */
  lemma MembersStep(s: State, ms: seq<Member>, s1: State)
    requires |s.stack| > 0 && ms != []
    requires s1 == State(s.out + MembersText(ms[..|ms| - 1]),
                         s.stack[..|s.stack| - 1] + [Level(s.stack[|s.stack| - 1].kind, |ms| - 1)])
    ensures s1.out + Comma(s1.stack) + MemberText(ms[|ms| - 1]) == s.out + MembersText(ms)
    ensures Bump(s1.stack) == s.stack[..|s.stack| - 1] + [Level(s.stack[|s.stack| - 1].kind, |ms|)]
  {
    var n := |s.stack|;
    BumpAppend(s.stack[..n - 1], s.stack[n - 1].kind, |ms| - 1);
    MembersTextStep(s.out, ms, s1.stack);
  }

  /** The calls and the depth of a member list split at its last member. */
  lemma MembersSplit(ms: seq<Member>)
    requires |ms| > 0
    ensures MembersOps(ms) == MembersOps(ms[..|ms| - 1]) + MemberOps(ms[|ms| - 1])
    ensures MembersDepth(ms[..|ms| - 1]) <= MembersDepth(ms) && Depth(ms[|ms| - 1].value) <= MembersDepth(ms)
  {
  }

  lemma MembersTextStep(out: seq<char>, ms: seq<Member>, stack: seq<Level>)
    requires ms != [] && |stack| > 0 && stack[|stack| - 1].count == |ms| - 1
    ensures out + MembersText(ms[..|ms| - 1]) + Comma(stack) + MemberText(ms[|ms| - 1]) == out + MembersText(ms)
  {
    var a, b, c := MembersText(ms[..|ms| - 1]), (if |ms| > 1 then [','] else []), MemberText(ms[|ms| - 1]);
    assert Comma(stack) == b;
    assert MembersText(ms) == a + b + c;
    Assoc(out, a, b, c);
  }

  lemma BumpAppend(p: seq<Level>, kind: JsonType, c: nat)
    ensures Bump(p + [Level(kind, c)]) == p + [Level(kind, c + 1)]
  {
    assert (p + [Level(kind, c)])[..|p|] == p;
  }

  lemma Assoc<T>(w: seq<T>, a: seq<T>, b: seq<T>, c: seq<T>)
    ensures w + a + b + c == w + (a + b + c)
  {
  }

  /** The whole-document property: the calls for a container of at most
      MaxNesting levels, starting from a fresh writer, all succeed, emit
      exactly its JSON text and leave no container open. */
  lemma EmitDocument(v: Value)
    requires v.Container? && Depth(v) <= MaxNesting
    ensures ApplyAll(Initial, MemberOps(Member(None, v))) == Run(true, State(Serialize(v), []))
  {
    EmitMember(Initial, Member(None, v));
  }
}
