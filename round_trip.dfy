/** What the reader recovers from the writer's output. A document written
    by the writer, whose keys and strings need no escaping, is read back by
    the reader's scanners: find_key finds the first member with a key,
    get_string and the integer getters return the written values, enter
    lands on a nested container, and array_next walks an array element by
    element. Because enter lands on the nested container's own text, the
    same theorems apply at every depth. */
module RoundTrip {
  import opened JsonTypes
  import opened Decimal
  import opened WriterSpec
  import opened ReaderSpec

  /** A key the scanners read back unchanged: no quote, backslash or colon,
      and short enough for find_key's 64-byte temporary. */
  predicate PlainKey(k: CString) {
    |k| < 64 && forall j :: 0 <= j < |k| ==> k[j] != '"' && k[j] != '\\' && k[j] != ':'
  }

  /** A string value that needs no escaping. */
  predicate PlainString(s: CString) {
    forall j :: 0 <= j < |s| ==> s[j] != '"' && s[j] != '\\'
  }

  predicate PlainValue(v: Value)
    decreases v
  {
    match v
    case Str(s) => PlainString(s)
    case Container(_, ms) => PlainMembers(ms)
    case _ => true
  }

  predicate PlainMember(m: Member)
    decreases m
  {
    (m.key.Some? ==> PlainKey(m.key.value)) && PlainValue(m.value)
  }

  /** Selects the member whose plainness a proof looks up. */
  predicate PlainMark(j: int) {
    true
  }

  predicate PlainMembers(ms: seq<Member>)
    decreases ms
  {
    forall j {:trigger PlainMark(j)} :: 0 <= j < |ms| && PlainMark(j) ==> PlainMember(ms[j])
  }

  lemma PlainAt(ms: seq<Member>, j: nat)
    requires PlainMembers(ms) && j < |ms|
    ensures PlainMember(ms[j])
  {
    assert PlainMark(j);
  }

  /** The text s sits at offset i of t. */
  predicate At(t: seq<char>, i: nat, s: seq<char>) {
    i + |s| <= |t| && t[i..i + |s|] == s
  }

  lemma {:induction false} AtSplit(t: seq<char>, i: nat, a: seq<char>, b: seq<char>)
    requires At(t, i, a + b)
    ensures At(t, i, a) && At(t, i + |a|, b)
  {
    assert t[i..i + |a|] == (a + b)[..|a|];
    assert t[i + |a|..i + |a| + |b|] == (a + b)[|a|..];
  }

  /** Three consecutive parts of a text at offset i. */
  lemma {:induction false} Layout(t: seq<char>, i: nat, a: seq<char>, b: seq<char>, c: seq<char>)
    requires At(t, i, a + b + c)
    ensures At(t, i, a) && At(t, i + |a|, b) && At(t, i + |a| + |b|, c)
    ensures |c| > 0 ==> t[i + |a| + |b|] == c[0]
  {
    AtSplit(t, i, a + b, c);
    AtSplit(t, i, a, b);
  }

  /** A bracketed text: its opening byte, its body and its closing byte. */
  lemma {:induction false} Bracketed(t: seq<char>, i: nat, open: char, body: seq<char>, close: char)
    requires At(t, i, [open] + body + [close])
    ensures t[i] == open && At(t, i + 1, body + [close]) && At(t, i + 1, body) && t[i + 1 + |body|] == close
  {
    assert [open] + body + [close] == [open] + (body + [close]);
    AtSplit(t, i, [open], body + [close]);
    AtSplit(t, i + 1, body, [close]);
  }

  /** Texts joined by commas, built from the back like the writer's
      members text. */
  function Join(xs: seq<seq<char>>): seq<char>
  {
    if |xs| == 0 then [] else Join(xs[..|xs| - 1]) + (if |xs| > 1 then [','] else []) + xs[|xs| - 1]
  }

  /** Selects the member whose text a proof looks up: the facts of
      TextsOf are used only where a proof asks for them. */
  predicate Mark(j: int) {
    true
  }

  /** xs holds the text of each member. */
  predicate TextsOf(xs: seq<seq<char>>, ms: seq<Member>) {
    |xs| == |ms| && forall j {:trigger Mark(j)} :: 0 <= j < |ms| && Mark(j) ==> xs[j] == MemberText(ms[j])
  }

  lemma TextAt(xs: seq<seq<char>>, ms: seq<Member>, j: nat)
    requires TextsOf(xs, ms) && j < |ms|
    ensures xs[j] == MemberText(ms[j])
  {
    assert Mark(j);
  }

  /** The members text is the members' texts joined by commas. */
  lemma {:induction false} MembersJoin(ms: seq<Member>) returns (xs: seq<seq<char>>)
    ensures TextsOf(xs, ms) && MembersText(ms) == Join(xs)
    decreases |ms|
  {
    if |ms| == 0 {
      xs := [];
    } else {
      var n := |ms| - 1;
      var ys := MembersJoin(ms[..n]);
      xs := ys + [MemberText(ms[n])];
      TextsSnoc(ys, ms, n);
      assert xs[..n] == ys;
    }
  }

  lemma TextsSnoc(ys: seq<seq<char>>, ms: seq<Member>, n: nat)
    requires n + 1 == |ms| && TextsOf(ys, ms[..n])
    ensures TextsOf(ys + [MemberText(ms[n])], ms)
  {
    var xs := ys + [MemberText(ms[n])];
    forall j | 0 <= j < |ms| && Mark(j)
      ensures xs[j] == MemberText(ms[j])
    {
      if j < n {
        TextAt(ys, ms[..n], j);
      }
    }
  }

  /** A container's text: its brackets around its members' texts. */
  lemma {:induction false} ContainerJoin(v: Value) returns (xs: seq<seq<char>>)
    requires v.Container?
    ensures TextsOf(xs, v.members)
    ensures Serialize(v) == [OpenToken(v.kind)] + Join(xs) + [CloseToken(v.kind)]
  {
    xs := MembersJoin(v.members);
  }

  /** Offset of the j-th text within the joined text. */
  function Offset(xs: seq<seq<char>>, j: nat): nat
    requires j <= |xs|
  {
    |Join(xs[..j])| + (if j > 0 then 1 else 0)
  }

  lemma {:induction false} JoinStep(xs: seq<seq<char>>, k: nat)
    requires k < |xs|
    ensures Join(xs[..k + 1]) == Join(xs[..k]) + (if k > 0 then [','] else []) + xs[k]
  {
    assert xs[..k + 1][..k] == xs[..k];
  }

  /** Where the join of a prefix is, so is the join of a shorter one. */
  lemma {:induction false} JoinPrefixAt(t: seq<char>, base: nat, xs: seq<seq<char>>, k: nat, m: nat)
    requires k <= m <= |xs| && At(t, base, Join(xs[..m]))
    ensures At(t, base, Join(xs[..k]))
    decreases m - k
  {
    if k < m {
      JoinStep(xs, m - 1);
      Layout(t, base, Join(xs[..m - 1]), if m - 1 > 0 then [','] else [], xs[m - 1]);
      JoinPrefixAt(t, base, xs, k, m - 1);
    }
  }

  /** A text other than the last is followed by a comma. */
  lemma {:induction false} JoinInner(t: seq<char>, base: nat, xs: seq<seq<char>>, j: nat)
    requires j + 1 < |xs| && At(t, base, Join(xs))
    ensures At(t, base + Offset(xs, j), xs[j])
    ensures base + Offset(xs, j) + |xs[j]| < |t| && t[base + Offset(xs, j) + |xs[j]|] == ','
    ensures Offset(xs, j + 1) == Offset(xs, j) + |xs[j]| + 1
  {
    assert xs[..|xs|] == xs;
    JoinPrefixAt(t, base, xs, j + 2, |xs|);
    JoinStep(xs, j + 1);
    Layout(t, base, Join(xs[..j + 1]), [','], xs[j + 1]);
    JoinStep(xs, j);
    AtSplit(t, base, Join(xs[..j]) + (if j > 0 then [','] else []), xs[j]);
  }

  /** The last text is followed by the closing byte. */
  lemma {:induction false} JoinLast(t: seq<char>, base: nat, xs: seq<seq<char>>, close: char)
    requires |xs| > 0 && At(t, base, Join(xs) + [close])
    ensures At(t, base + Offset(xs, |xs| - 1), xs[|xs| - 1])
    ensures Offset(xs, |xs| - 1) + |xs[|xs| - 1]| == |Join(xs)|
    ensures base + |Join(xs)| < |t| && t[base + |Join(xs)|] == close
  {
    var j := |xs| - 1;
    assert xs[..j + 1] == xs;
    JoinStep(xs, j);
    Layout(t, base, Join(xs[..j]) + (if j > 0 then [','] else []), xs[j], [close]);
  }

  /** Where the j-th text of a joined list lies, and what follows it:
      a comma, or the closing bracket after the last one. */
  lemma {:induction false} JoinAt(t: seq<char>, base: nat, xs: seq<seq<char>>, close: char, j: nat)
      returns (p: nat, e: nat)
    requires j < |xs| && At(t, base, Join(xs) + [close])
    ensures p == base + Offset(xs, j) && e == p + |xs[j]| && At(t, p, xs[j])
    ensures j + 1 < |xs| ==> e < |t| && t[e] == ',' && base + Offset(xs, j + 1) == e + 1
    ensures j + 1 == |xs| ==> e == base + |Join(xs)| && e < |t| && t[e] == close
  {
    p := base + Offset(xs, j);
    e := p + |xs[j]|;
    if j + 1 < |xs| {
      AtSplit(t, base, Join(xs), [close]);
      JoinInner(t, base, xs, j);
    } else {
      JoinLast(t, base, xs, close);
    }
  }

  /** Where the j-th member of a joined member list lies, and what follows
      it: a comma, or the closing bracket after the last one. */
  lemma {:induction false} MemberAt(t: seq<char>, base: nat, ms: seq<Member>, xs: seq<seq<char>>, close: char, j: nat)
      returns (p: nat, e: nat)
    requires j < |ms| && TextsOf(xs, ms) && At(t, base, Join(xs) + [close])
    ensures p == base + Offset(xs, j) && e == p + |xs[j]| && xs[j] == MemberText(ms[j]) && At(t, p, xs[j])
    ensures j + 1 < |ms| ==> e < |t| && t[e] == ',' && base + Offset(xs, j + 1) == e + 1
    ensures j + 1 == |ms| ==> e == base + |Join(xs)| && e < |t| && t[e] == close
  {
    p, e := JoinAt(t, base, xs, close, j);
    TextAt(xs, ms, j);
  }

  /** The bytes of a written key: quote, key, quote, colon. */
  lemma {:induction false} KeyLayout(t: seq<char>, i: nat, k: CString)
    requires At(t, i, KeyText(Some(k)))
    ensures |KeyText(Some(k))| == |k| + 3 && i + |k| + 3 <= |t|
    ensures t[i] == '"' && At(t, i + 1, k) && t[i + 1 + |k|] == '"' && t[i + 2 + |k|] == ':'
  {
    assert KeyText(Some(k)) == ['"'] + k + ['"', ':'];
    Layout(t, i, ['"'], k, ['"', ':']);
    assert t[i] == t[i..i + 1][0];
    assert t[i + 2 + |k|] == t[i + 1 + |k|..i + 3 + |k|][1];
  }

  // ---------------------------------------------------------------------
  // The key scanner passes over values

  /** A byte that leaves every flag of the key scanner as it is. */
  predicate KeyNeutral(c: char, depth: nat, inStr: bool, isVal: bool) {
    if inStr then c != '"' && c != '\\' && (c == ':' ==> depth > 0 || isVal)
    else c != '"' && c != ':' && c != ',' && c != '[' && c != ']' && c != '{' && c != '}' && c != '\\'
  }

  lemma {:induction false} KeyRun(t: seq<char>, key: CString, i: nat, s: seq<char>, depth: nat, inStr: bool, isVal: bool, begin: nat)
    requires At(t, i, s) && Candidate(t, i, depth, inStr, isVal, begin)
    requires forall j :: 0 <= j < |s| ==> KeyNeutral(s[j], depth, inStr, isVal)
    ensures Candidate(t, i + |s|, depth, inStr, isVal, begin)
    ensures KeyScan(t, key, i, depth, inStr, isVal, begin) == KeyScan(t, key, i + |s|, depth, inStr, isVal, begin)
    decreases |s|
  {
    if |s| > 0 {
      assert t[i] == s[0];
      assert At(t, i + 1, s[1..]) by {
        assert t[i + 1..i + 1 + |s[1..]|] == t[i..i + |s|][1..];
      }
      assert forall j :: 0 <= j < |s[1..]| ==> s[1..][j] == s[j + 1];
      KeyRun(t, key, i + 1, s[1..], depth, inStr, isVal, begin);
    }
  }

  /** The text of an integer holds only digits and a minus sign. */
  lemma {:induction false} IntTextChars(x: int)
    ensures |IntText(x)| > 0 && (IsDigit(IntText(x)[0]) || IntText(x)[0] == '-')
    ensures forall j :: 1 <= j < |IntText(x)| ==> IsDigit(IntText(x)[j])
  {
    if x < 0 {
      NatTextDigits(-x);
      assert forall j :: 1 <= j < |IntText(x)| ==> IntText(x)[j] == NatText(-x)[j - 1];
    } else {
      NatTextDigits(x);
    }
  }

  /** Numbers and booleans: values written without quotes or brackets. */
  predicate Atomic(v: Value) {
    v.Int? || v.UInt? || v.Bool?
  }

  /** The bytes of a number or a boolean: digits, a minus sign, letters. */
  predicate AtomChar(c: char) {
    IsDigit(c) || c == '-' || 'a' <= c <= 'z'
  }

  lemma {:induction false} AtomText(v: Value)
    requires Atomic(v)
    ensures forall j :: 0 <= j < |Serialize(v)| ==> AtomChar(Serialize(v)[j])
  {
    match v
    case Int(x) => IntTextChars(x);
    case UInt(u) => NatTextDigits(u);
    case Bool(b) =>
  }

  lemma {:induction false} KeySkipAtom(t: seq<char>, key: CString, i: nat, v: Value, depth: nat, isVal: bool, begin: nat)
    requires Atomic(v) && At(t, i, Serialize(v)) && (depth > 0 || isVal)
    ensures KeyScan(t, key, i, depth, false, isVal, begin) == KeyScan(t, key, i + |Serialize(v)|, depth, false, isVal, begin)
  {
    AtomText(v);
    KeyRun(t, key, i, Serialize(v), depth, false, isVal, begin);
  }

  /** One byte of the key scanner: a quote at depth > 0 or in value mode
      only toggles the string flag. */
  lemma {:induction false} KeyQuote(t: seq<char>, key: CString, i: nat, depth: nat, inStr: bool, isVal: bool, begin: nat)
    requires i < |t| && t[i] == '"' && (depth > 0 || isVal)
    ensures KeyScan(t, key, i, depth, inStr, isVal, begin) == KeyScan(t, key, i + 1, depth, !inStr, isVal, begin)
  {
  }

  lemma {:induction false} KeyOpen(t: seq<char>, key: CString, i: nat, depth: nat, isVal: bool, begin: nat)
    requires i < |t| && (t[i] == '[' || t[i] == '{')
    ensures KeyScan(t, key, i, depth, false, isVal, begin) == KeyScan(t, key, i + 1, depth + 1, false, isVal, begin)
  {
  }

  lemma {:induction false} KeyClose(t: seq<char>, key: CString, i: nat, depth: nat, isVal: bool, begin: nat)
    requires i < |t| && (t[i] == ']' || t[i] == '}') && depth > 0
    ensures KeyScan(t, key, i, depth, false, isVal, begin) == KeyScan(t, key, i + 1, depth - 1, false, isVal, begin)
  {
  }

  /** A comma or a colon below the top level changes nothing. */
  lemma {:induction false} KeyInner(t: seq<char>, key: CString, i: nat, depth: nat, isVal: bool, begin: nat)
    requires i < |t| && (t[i] == ',' || t[i] == ':') && depth > 0
    ensures KeyScan(t, key, i, depth, false, isVal, begin) == KeyScan(t, key, i + 1, depth, false, isVal, begin)
  {
  }

  /** Outside a string at depth > 0, or in value mode, the key scanner
      passes over a whole value. */
  lemma {:induction false} KeySkipValue(t: seq<char>, key: CString, i: nat, v: Value, depth: nat, isVal: bool, begin: nat)
    requires PlainValue(v) && At(t, i, Serialize(v)) && (depth > 0 || isVal)
    ensures KeyScan(t, key, i, depth, false, isVal, begin) == KeyScan(t, key, i + |Serialize(v)|, depth, false, isVal, begin)
    decreases v, 1
  {
    match v
    case Str(s) => KeySkipString(t, key, i, s, depth, isVal, begin);
    case Int(_) => KeySkipAtom(t, key, i, v, depth, isVal, begin);
    case UInt(_) => KeySkipAtom(t, key, i, v, depth, isVal, begin);
    case Bool(_) => KeySkipAtom(t, key, i, v, depth, isVal, begin);
    case Container(k, ms) => KeySkipContainer(t, key, i, v, depth, isVal, begin);
  }

  lemma {:induction false} KeySkipString(t: seq<char>, key: CString, i: nat, s: CString, depth: nat, isVal: bool, begin: nat)
    requires PlainString(s) && At(t, i, Quoted(s)) && (depth > 0 || isVal)
    ensures KeyScan(t, key, i, depth, false, isVal, begin) == KeyScan(t, key, i + |Quoted(s)|, depth, false, isVal, begin)
  {
    Bracketed(t, i, '"', s, '"');
    KeyQuote(t, key, i, depth, false, isVal, begin);
    KeyRun(t, key, i + 1, s, depth, true, isVal, begin);
    KeyQuote(t, key, i + 1 + |s|, depth, true, isVal, begin);
  }

  lemma {:induction false} KeySkipContainer(t: seq<char>, key: CString, i: nat, v: Value, depth: nat, isVal: bool, begin: nat)
    requires v.Container? && PlainValue(v) && At(t, i, Serialize(v))
    ensures KeyScan(t, key, i, depth, false, isVal, begin) == KeyScan(t, key, i + |Serialize(v)|, depth, false, isVal, begin)
    decreases v, 0
  {
    var xs := ContainerJoin(v);
    KeySkipBracketed(t, key, i, v, xs, depth, isVal, begin);
  }

  lemma {:induction false} KeySkipBracketed(t: seq<char>, key: CString, i: nat, v: Value, xs: seq<seq<char>>, depth: nat, isVal: bool, begin: nat)
    requires v.Container? && PlainMembers(v.members) && TextsOf(xs, v.members)
    requires At(t, i, [OpenToken(v.kind)] + Join(xs) + [CloseToken(v.kind)])
    ensures KeyScan(t, key, i, depth, false, isVal, begin) == KeyScan(t, key, i + |Join(xs)| + 2, depth, false, isVal, begin)
    decreases v, -1
  {
    var body := Join(xs);
    Bracketed(t, i, OpenToken(v.kind), body, CloseToken(v.kind));
    KeyOpen(t, key, i, depth, isVal, begin);
    KeySkipMembers(t, key, i + 1, v.members, xs, CloseToken(v.kind), depth + 1, isVal, begin);
    KeyClose(t, key, i + 1 + |body|, depth + 1, isVal, begin);
  }

  lemma {:induction false} KeySkipMember(t: seq<char>, key: CString, i: nat, m: Member, depth: nat, isVal: bool, begin: nat)
    requires PlainMember(m) && At(t, i, MemberText(m)) && depth > 0
    ensures KeyScan(t, key, i, depth, false, isVal, begin) == KeyScan(t, key, i + |MemberText(m)|, depth, false, isVal, begin)
    decreases m
  {
    var kt := KeyText(m.key);
    AtSplit(t, i, kt, Serialize(m.value));
    if m.key.Some? {
      KeySkipKey(t, key, i, m.key.value, depth, isVal, begin);
    }
    KeySkipValue(t, key, i + |kt|, m.value, depth, isVal, begin);
  }

  /** Below the top level a member's key is only a string and a colon. */
  lemma {:induction false} KeySkipKey(t: seq<char>, key: CString, i: nat, k: CString, depth: nat, isVal: bool, begin: nat)
    requires PlainKey(k) && At(t, i, KeyText(Some(k))) && depth > 0
    ensures KeyScan(t, key, i, depth, false, isVal, begin) == KeyScan(t, key, i + |KeyText(Some(k))|, depth, false, isVal, begin)
  {
    KeyLayout(t, i, k);
    KeyQuote(t, key, i, depth, false, isVal, begin);
    KeyRun(t, key, i + 1, k, depth, true, isVal, begin);
    KeyQuote(t, key, i + 1 + |k|, depth, true, isVal, begin);
    KeyInner(t, key, i + 2 + |k|, depth, isVal, begin);
  }

  lemma {:induction false} KeySkipMembers(t: seq<char>, key: CString, i: nat, ms: seq<Member>, xs: seq<seq<char>>, close: char, depth: nat, isVal: bool, begin: nat)
    requires PlainMembers(ms) && TextsOf(xs, ms) && At(t, i, Join(xs) + [close]) && depth > 0
    ensures KeyScan(t, key, i, depth, false, isVal, begin) == KeyScan(t, key, i + |Join(xs)|, depth, false, isVal, begin)
    decreases ms, |ms| + 1
  {
    if |ms| > 0 {
      assert Offset(xs, 0) == 0;
      KeySkipFrom(t, key, i, ms, xs, close, 0, depth, isVal, begin);
    }
  }

  /** From the j-th member on, the key scanner passes over the rest. */
  lemma {:induction false} KeySkipFrom(t: seq<char>, key: CString, base: nat, ms: seq<Member>, xs: seq<seq<char>>, close: char, j: nat, depth: nat, isVal: bool, begin: nat)
    requires j < |ms| && PlainMembers(ms) && TextsOf(xs, ms) && At(t, base, Join(xs) + [close]) && depth > 0
    ensures KeyScan(t, key, base + Offset(xs, j), depth, false, isVal, begin) == KeyScan(t, key, base + |Join(xs)|, depth, false, isVal, begin)
    decreases ms, |ms| - j
  {
    var e := KeySkipOne(t, key, base, ms, xs, close, j, depth, isVal, begin);
    if j + 1 < |ms| {
      KeyInner(t, key, e, depth, isVal, begin);
      KeySkipFrom(t, key, base, ms, xs, close, j + 1, depth, isVal, begin);
      assert base + Offset(xs, j + 1) == e + 1;
    }
  }

  /** The key scanner passes over the j-th member, to the comma after it or
      to the end of the members. */
  lemma {:induction false} KeySkipOne(t: seq<char>, key: CString, base: nat, ms: seq<Member>, xs: seq<seq<char>>, close: char, j: nat, depth: nat, isVal: bool, begin: nat)
      returns (e: nat)
    requires j < |ms| && PlainMembers(ms) && TextsOf(xs, ms) && At(t, base, Join(xs) + [close]) && depth > 0
    ensures e == base + Offset(xs, j) + |xs[j]|
    ensures KeyScan(t, key, base + Offset(xs, j), depth, false, isVal, begin) == KeyScan(t, key, e, depth, false, isVal, begin)
    ensures j + 1 < |ms| ==> e < |t| && t[e] == ',' && base + Offset(xs, j + 1) == e + 1
    ensures j + 1 == |ms| ==> e == base + |Join(xs)|
    decreases ms, 0
  {
    var p;
    p, e := MemberAt(t, base, ms, xs, close, j);
    PlainAt(ms, j);
    KeySkipMember(t, key, p, ms[j], depth, isVal, begin);
  }

  // ---------------------------------------------------------------------
  // find_key on an object the writer wrote

  /** Selects the member whose key a proof looks up. */
  predicate KeyedMark(j: int) {
    true
  }

  /** Object members all carry a key. */
  predicate Keyed(ms: seq<Member>) {
    forall j {:trigger KeyedMark(j)} :: 0 <= j < |ms| && KeyedMark(j) ==> ms[j].key.Some?
  }

  lemma KeyedAt(ms: seq<Member>, j: nat)
    requires Keyed(ms) && j < |ms|
    ensures ms[j].key.Some?
  {
    assert KeyedMark(j);
  }

  /** Index of the first member from j on whose key is k. */
  function LookupFrom(ms: seq<Member>, k: CString, j: nat): (r: Option<nat>)
    decreases |ms| - j
    ensures r.Some? ==> j <= r.value < |ms| && ms[r.value].key == Some(k)
    ensures r.Some? ==> forall q :: j <= q < r.value ==> ms[q].key != Some(k)
    ensures r.None? ==> forall q :: j <= q < |ms| ==> ms[q].key != Some(k)
  {
    if j >= |ms| then None
    else if ms[j].key == Some(k) then Some(j)
    else LookupFrom(ms, k, j + 1)
  }

  /** At depth 0 in key mode, an opening quote starts a candidate. */
  lemma KeyTopOpen(t: seq<char>, key: CString, i: nat, begin: nat)
    requires i < |t| && t[i] == '"'
    ensures Candidate(t, i + 1, 0, true, false, i + 1)
    ensures KeyScan(t, key, i, 0, false, false, begin) == KeyScan(t, key, i + 1, 0, true, false, i + 1)
  {
  }

  /** At depth 0 in key mode, a closing quote compares the candidate. */
  lemma KeyTopClose(t: seq<char>, key: CString, i: nat, begin: nat)
    requires i < |t| && t[i] == '"' && Candidate(t, i, 0, true, false, begin) && 0 < begin <= i
    ensures KeyScan(t, key, i, 0, true, false, begin)
         == if Matches(t[begin..i], key) then Some(begin - 1) else KeyScan(t, key, i + 1, 0, false, false, begin)
  {
  }

  /** At depth 0 a colon switches to value mode, a comma back to key mode,
      and a closing bracket ends the search. */
  lemma KeyTopColon(t: seq<char>, key: CString, i: nat, begin: nat)
    requires i < |t| && t[i] == ':'
    ensures KeyScan(t, key, i, 0, false, false, begin) == KeyScan(t, key, i + 1, 0, false, true, begin)
  {
  }

  lemma KeyTopComma(t: seq<char>, key: CString, i: nat, begin: nat)
    requires i < |t| && t[i] == ','
    ensures KeyScan(t, key, i, 0, false, true, begin) == KeyScan(t, key, i + 1, 0, false, false, begin)
  {
  }

  lemma KeyTopEnd(t: seq<char>, key: CString, i: nat, isVal: bool, begin: nat)
    requires i < |t| && (t[i] == ']' || t[i] == '}')
    ensures KeyScan(t, key, i, 0, false, isVal, begin) == None
  {
  }

  /** A key the writer may write is compared exactly by find_key. */
  lemma PlainKeyMatches(k: CString, key: CString)
    requires PlainKey(k)
    ensures Matches(k, key) <==> k == key
  {
    CStrOfCString(k);
  }

  /** The opening quote and the bytes of a written key at depth 0. */
  lemma {:induction false} KeyAtKeyBody(t: seq<char>, key: CString, p: nat, k: CString, begin: nat)
    requires PlainKey(k) && p < |t| && t[p] == '"' && At(t, p + 1, k)
    ensures Candidate(t, p + 1 + |k|, 0, true, false, p + 1)
    ensures KeyScan(t, key, p, 0, false, false, begin) == KeyScan(t, key, p + 1 + |k|, 0, true, false, p + 1)
  {
    KeyTopOpen(t, key, p, begin);
    KeyRun(t, key, p + 1, k, 0, true, false, p + 1);
  }

  /** A written key read at depth 0: either it is the key looked for, or
      the scanner goes on in value mode just past its colon. */
  lemma {:induction false} KeyAtKey(t: seq<char>, key: CString, p: nat, k: CString, begin: nat)
    requires PlainKey(k) && At(t, p, KeyText(Some(k)))
    ensures KeyScan(t, key, p, 0, false, false, begin)
         == if k == key then Some(p) else KeyScan(t, key, p + |k| + 3, 0, false, true, p + 1)
  {
    KeyLayout(t, p, k);
    var q := p + 1 + |k|;
    KeyAtKeyBody(t, key, p, k, begin);
    KeyTopClose(t, key, q, p + 1);
    assert t[p + 1..q] == k;
    PlainKeyMatches(k, key);
    if k != key {
      KeyTopColon(t, key, q + 1, p + 1);
    }
  }

  /** A written member read at depth 0 in key mode. */
  lemma {:induction false} KeyAtMember(t: seq<char>, key: CString, p: nat, m: Member, begin: nat)
    requires m.key.Some? && PlainMember(m) && At(t, p, MemberText(m))
    ensures m.key == Some(key) ==> KeyScan(t, key, p, 0, false, false, begin) == Some(p)
    ensures m.key != Some(key) ==>
      KeyScan(t, key, p, 0, false, false, begin) == KeyScan(t, key, p + |MemberText(m)|, 0, false, true, p + 1)
  {
    var k := m.key.value;
    AtSplit(t, p, KeyText(m.key), Serialize(m.value));
    KeyAtKey(t, key, p, k, begin);
    if k != key {
      KeySkipValue(t, key, p + |k| + 3, m.value, 0, true, p + 1);
    }
  }

  /** The j-th member of an object read at depth 0 in key mode. */
  lemma {:induction false} KeyFindOne(t: seq<char>, key: CString, base: nat, ms: seq<Member>, xs: seq<seq<char>>, close: char, j: nat, begin: nat)
      returns (e: nat)
    requires j < |ms| && ms[j].key.Some? && PlainMembers(ms) && TextsOf(xs, ms) && At(t, base, Join(xs) + [close])
    ensures e == base + Offset(xs, j) + |xs[j]|
    ensures ms[j].key == Some(key) ==> KeyScan(t, key, base + Offset(xs, j), 0, false, false, begin) == Some(base + Offset(xs, j))
    ensures ms[j].key != Some(key) ==>
      KeyScan(t, key, base + Offset(xs, j), 0, false, false, begin) == KeyScan(t, key, e, 0, false, true, base + Offset(xs, j) + 1)
    ensures j + 1 < |ms| ==> e < |t| && t[e] == ',' && base + Offset(xs, j + 1) == e + 1
    ensures j + 1 == |ms| ==> e < |t| && t[e] == close
  {
    var p;
    p, e := MemberAt(t, base, ms, xs, close, j);
    PlainAt(ms, j);
    KeyAtMember(t, key, p, ms[j], begin);
  }

  /** Past the j-th member of an object, when it does not carry the key:
      the scan resumes in key mode at the next member, or ends at the
      closing bracket. */
  lemma {:induction false} KeyFindPast(t: seq<char>, key: CString, base: nat, ms: seq<Member>, xs: seq<seq<char>>, close: char, j: nat, begin: nat)
    requires j < |ms| && ms[j].key.Some? && ms[j].key != Some(key)
    requires PlainMembers(ms) && TextsOf(xs, ms) && At(t, base, Join(xs) + [close])
    requires close == ']' || close == '}'
    ensures j + 1 < |ms| ==>
      KeyScan(t, key, base + Offset(xs, j), 0, false, false, begin)
      == KeyScan(t, key, base + Offset(xs, j + 1), 0, false, false, base + Offset(xs, j) + 1)
    ensures j + 1 == |ms| ==> KeyScan(t, key, base + Offset(xs, j), 0, false, false, begin) == None
  {
    var e := KeyFindOne(t, key, base, ms, xs, close, j, begin);
    var b := base + Offset(xs, j) + 1;
    if j + 1 < |ms| {
      KeyTopComma(t, key, e, b);
    } else {
      KeyTopEnd(t, key, e, true, b);
    }
  }

  /** From the j-th member of an object on, find_key's scanner stops at the
      first member whose key is the one looked for. */
  lemma {:induction false} KeyFindFrom(t: seq<char>, key: CString, base: nat, ms: seq<Member>, xs: seq<seq<char>>, close: char, j: nat, begin: nat)
    requires j < |ms| && PlainMembers(ms) && Keyed(ms) && TextsOf(xs, ms) && At(t, base, Join(xs) + [close])
    requires close == ']' || close == '}'
    ensures KeyScan(t, key, base + Offset(xs, j), 0, false, false, begin)
         == if LookupFrom(ms, key, j).Some? then Some(base + Offset(xs, LookupFrom(ms, key, j).value)) else None
    decreases |ms| - j
  {
    KeyedAt(ms, j);
    if ms[j].key == Some(key) {
      assert LookupFrom(ms, key, j) == Some(j);
      var e := KeyFindOne(t, key, base, ms, xs, close, j, begin);
    } else {
      assert LookupFrom(ms, key, j) == LookupFrom(ms, key, j + 1);
      KeyFindPast(t, key, base, ms, xs, close, j, begin);
      if j + 1 < |ms| {
        KeyFindFrom(t, key, base, ms, xs, close, j + 1, base + Offset(xs, j) + 1);
      }
    }
  }

  // ---------------------------------------------------------------------
  // The scanner of array_next passes over values

  /** A byte that leaves both flags of the array_next scanner as they are. */
  predicate NextNeutral(c: char, inStr: bool) {
    if inStr then c != '"' && c != '\\'
    else c != '"' && c != ',' && c != '[' && c != ']' && c != '{' && c != '}' && c != '\\'
  }

  lemma {:induction false} NextRun(t: seq<char>, i: nat, s: seq<char>, inStr: bool, depth: nat)
    requires At(t, i, s)
    requires forall j :: 0 <= j < |s| ==> NextNeutral(s[j], inStr)
    ensures NextScan(t, i, inStr, depth) == NextScan(t, i + |s|, inStr, depth)
    decreases |s|
  {
    if |s| > 0 {
      assert t[i] == s[0];
      assert At(t, i + 1, s[1..]) by {
        assert t[i + 1..i + 1 + |s[1..]|] == t[i..i + |s|][1..];
      }
      assert forall j :: 0 <= j < |s[1..]| ==> s[1..][j] == s[j + 1];
      NextRun(t, i + 1, s[1..], inStr, depth);
    }
  }

  /** One byte of the array_next scanner: a quote toggles the string flag,
      a bracket outside a string moves the depth, a comma below the top
      level changes nothing. */
  lemma {:induction false} NextQuote(t: seq<char>, i: nat, inStr: bool, depth: nat)
    requires i < |t| && t[i] == '"'
    ensures NextScan(t, i, inStr, depth) == NextScan(t, i + 1, !inStr, depth)
  {
  }

  lemma {:induction false} NextOpen(t: seq<char>, i: nat, depth: nat)
    requires i < |t| && (t[i] == '[' || t[i] == '{')
    ensures NextScan(t, i, false, depth) == NextScan(t, i + 1, false, depth + 1)
  {
  }

  lemma {:induction false} NextClose(t: seq<char>, i: nat, depth: nat)
    requires i < |t| && (t[i] == ']' || t[i] == '}')
    ensures depth > 0 ==> NextScan(t, i, false, depth) == NextScan(t, i + 1, false, depth - 1)
    ensures depth == 0 ==> NextScan(t, i, false, depth) == NextClosed
  {
  }

  lemma {:induction false} NextAtComma(t: seq<char>, i: nat, depth: nat)
    requires i < |t| && t[i] == ','
    ensures depth > 0 ==> NextScan(t, i, false, depth) == NextScan(t, i + 1, false, depth)
    ensures depth == 0 ==> NextScan(t, i, false, depth) == NextComma(i)
  {
  }

  /** Outside a string, at any depth, the array_next scanner passes over a
      whole value. */
  lemma {:induction false} NextSkipValue(t: seq<char>, i: nat, v: Value, depth: nat)
    requires PlainValue(v) && At(t, i, Serialize(v))
    ensures NextScan(t, i, false, depth) == NextScan(t, i + |Serialize(v)|, false, depth)
    decreases v, 1
  {
    match v
    case Str(s) => NextSkipString(t, i, s, depth);
    case Int(_) => AtomText(v); NextRun(t, i, Serialize(v), false, depth);
    case UInt(_) => AtomText(v); NextRun(t, i, Serialize(v), false, depth);
    case Bool(_) => AtomText(v); NextRun(t, i, Serialize(v), false, depth);
    case Container(k, ms) => NextSkipContainer(t, i, v, depth);
  }

  lemma {:induction false} NextSkipString(t: seq<char>, i: nat, s: CString, depth: nat)
    requires PlainString(s) && At(t, i, Quoted(s))
    ensures NextScan(t, i, false, depth) == NextScan(t, i + |Quoted(s)|, false, depth)
  {
    Bracketed(t, i, '"', s, '"');
    NextQuote(t, i, false, depth);
    NextRun(t, i + 1, s, true, depth);
    NextQuote(t, i + 1 + |s|, true, depth);
  }

  lemma {:induction false} NextSkipContainer(t: seq<char>, i: nat, v: Value, depth: nat)
    requires v.Container? && PlainValue(v) && At(t, i, Serialize(v))
    ensures NextScan(t, i, false, depth) == NextScan(t, i + |Serialize(v)|, false, depth)
    decreases v, 0
  {
    var xs := ContainerJoin(v);
    NextSkipBracketed(t, i, v, xs, depth);
  }

  lemma {:induction false} NextSkipBracketed(t: seq<char>, i: nat, v: Value, xs: seq<seq<char>>, depth: nat)
    requires v.Container? && PlainMembers(v.members) && TextsOf(xs, v.members)
    requires At(t, i, [OpenToken(v.kind)] + Join(xs) + [CloseToken(v.kind)])
    ensures NextScan(t, i, false, depth) == NextScan(t, i + |Join(xs)| + 2, false, depth)
    decreases v, -1
  {
    var body := Join(xs);
    Bracketed(t, i, OpenToken(v.kind), body, CloseToken(v.kind));
    NextOpen(t, i, depth);
    NextSkipMembers(t, i + 1, v.members, xs, CloseToken(v.kind), depth + 1);
    NextClose(t, i + 1 + |body|, depth + 1);
  }

  lemma {:induction false} NextSkipMember(t: seq<char>, i: nat, m: Member, depth: nat)
    requires PlainMember(m) && At(t, i, MemberText(m))
    ensures NextScan(t, i, false, depth) == NextScan(t, i + |MemberText(m)|, false, depth)
    decreases m
  {
    var kt := KeyText(m.key);
    AtSplit(t, i, kt, Serialize(m.value));
    if m.key.Some? {
      NextSkipKey(t, i, m.key.value, depth);
    }
    NextSkipValue(t, i + |kt|, m.value, depth);
  }

  lemma {:induction false} NextSkipKey(t: seq<char>, i: nat, k: CString, depth: nat)
    requires PlainKey(k) && At(t, i, KeyText(Some(k)))
    ensures NextScan(t, i, false, depth) == NextScan(t, i + |KeyText(Some(k))|, false, depth)
  {
    KeyLayout(t, i, k);
    NextQuote(t, i, false, depth);
    NextRun(t, i + 1, k, true, depth);
    NextQuote(t, i + 1 + |k|, true, depth);
    assert NextScan(t, i + 2 + |k|, false, depth) == NextScan(t, i + 3 + |k|, false, depth);
  }

  lemma {:induction false} NextSkipMembers(t: seq<char>, i: nat, ms: seq<Member>, xs: seq<seq<char>>, close: char, depth: nat)
    requires PlainMembers(ms) && TextsOf(xs, ms) && At(t, i, Join(xs) + [close]) && depth > 0
    ensures NextScan(t, i, false, depth) == NextScan(t, i + |Join(xs)|, false, depth)
    decreases ms, |ms| + 1
  {
    if |ms| > 0 {
      assert Offset(xs, 0) == 0;
      NextSkipFrom(t, i, ms, xs, close, 0, depth);
    }
  }

  /** From the j-th member on, below the top level, the array_next scanner
      passes over the rest. */
  lemma {:induction false} NextSkipFrom(t: seq<char>, base: nat, ms: seq<Member>, xs: seq<seq<char>>, close: char, j: nat, depth: nat)
    requires j < |ms| && PlainMembers(ms) && TextsOf(xs, ms) && At(t, base, Join(xs) + [close]) && depth > 0
    ensures NextScan(t, base + Offset(xs, j), false, depth) == NextScan(t, base + |Join(xs)|, false, depth)
    decreases ms, |ms| - j
  {
    var e := NextSkipOne(t, base, ms, xs, close, j, depth);
    if j + 1 < |ms| {
      NextAtComma(t, e, depth);
      NextSkipFrom(t, base, ms, xs, close, j + 1, depth);
      assert base + Offset(xs, j + 1) == e + 1;
    }
  }

  /** The array_next scanner passes over the j-th member, to the comma
      after it or to the closing bracket. */
  lemma {:induction false} NextSkipOne(t: seq<char>, base: nat, ms: seq<Member>, xs: seq<seq<char>>, close: char, j: nat, depth: nat)
      returns (e: nat)
    requires j < |ms| && PlainMembers(ms) && TextsOf(xs, ms) && At(t, base, Join(xs) + [close])
    ensures e == base + Offset(xs, j) + |xs[j]|
    ensures NextScan(t, base + Offset(xs, j), false, depth) == NextScan(t, e, false, depth)
    ensures j + 1 < |ms| ==> e < |t| && t[e] == ',' && base + Offset(xs, j + 1) == e + 1
    ensures j + 1 == |ms| ==> e == base + |Join(xs)|
    decreases ms, 0
  {
    var p;
    p, e := MemberAt(t, base, ms, xs, close, j);
    PlainAt(ms, j);
    NextSkipMember(t, p, ms[j], depth);
  }

  // ---------------------------------------------------------------------
  // Reading written values back

  /** The bytes that end a value inside a container. */
  predicate Ends(c: char) {
    c == ',' || c == ']' || c == '}'
  }

  /** The text of v at pos, followed by a byte that ends a value. */
  predicate ValueAt(t: seq<char>, pos: nat, v: Value) {
    At(t, pos, Serialize(v)) && pos + |Serialize(v)| < |t| && Ends(t[pos + |Serialize(v)|])
  }

  /** The value of the j-th member of a written container lies just past
      its key. */
  lemma {:induction false} MemberValueAt(t: seq<char>, base: nat, ms: seq<Member>, xs: seq<seq<char>>, close: char, j: nat)
    requires j < |ms| && TextsOf(xs, ms) && At(t, base, Join(xs) + [close]) && Ends(close)
    ensures ValueAt(t, base + Offset(xs, j) + |KeyText(ms[j].key)|, ms[j].value)
  {
    var p, e := MemberAt(t, base, ms, xs, close, j);
    AtSplit(t, p, KeyText(ms[j].key), Serialize(ms[j].value));
  }

  lemma {:induction false} StringRun(t: seq<char>, i: nat, s: seq<char>, begin: nat)
    requires At(t, i, s) && begin < i && begin < |t| && t[begin] == '"'
    requires forall j :: 0 <= j < |s| ==> s[j] != '"' && s[j] != '\\'
    ensures StringScan(t, i, true, begin) == StringScan(t, i + |s|, true, begin)
    decreases |s|
  {
    if |s| > 0 {
      assert t[i] == s[0];
      assert At(t, i + 1, s[1..]) by {
        assert t[i + 1..i + 1 + |s[1..]|] == t[i..i + |s|][1..];
      }
      assert forall j :: 0 <= j < |s[1..]| ==> s[1..][j] == s[j + 1];
      StringRun(t, i + 1, s[1..], begin);
    }
  }

  /** The string scanner spans a written string from quote to quote. */
  lemma {:induction false} ScanQuoted(t: seq<char>, pos: nat, s: CString)
    requires At(t, pos, Quoted(s)) && PlainString(s)
    ensures StringScan(t, pos, false, 0) == Ok(Span(pos, pos + 1 + |s|))
    ensures t[pos + 1..pos + 1 + |s|] == s
  {
    Bracketed(t, pos, '"', s, '"');
    StringRun(t, pos + 1, s, pos);
  }

  /** get_string where a written string lies returns its bytes. */
  lemma {:induction false} ReadString(t: seq<char>, l: RLevel, key: Option<CString>, bufferLen: nat, s: CString)
    requires Locate(t, l, key).Ok? && ValueAt(t, Locate(t, l, key).value, Str(s)) && PlainString(s) && bufferLen > 0
    ensures GetString(t, l, key, bufferLen).Ok? && GetString(t, l, key, bufferLen).value == s
  {
    ScanQuoted(t, Locate(t, l, key).value, s);
  }

  lemma {:induction false} DigitRun(t: seq<char>, i: nat, s: seq<char>, begin: nat)
    requires At(t, i, s) && AllDigits(s) && begin < i && (IsDigit(t[begin]) || t[begin] == '-')
    requires forall j :: begin <= j < i ==> NumberByte(t[j])
    ensures forall j :: begin <= j < i + |s| ==> NumberByte(t[j])
    ensures NumberScan(t, i, true, begin, false) == NumberScan(t, i + |s|, true, begin, false)
    decreases |s|
  {
    if |s| > 0 {
      assert t[i] == s[0];
      assert At(t, i + 1, s[1..]) by {
        assert t[i + 1..i + 1 + |s[1..]|] == t[i..i + |s|][1..];
      }
      assert AllDigits(s[1..]) by {
        assert forall j :: 0 <= j < |s[1..]| ==> s[1..][j] == s[j + 1];
      }
      DigitRun(t, i + 1, s[1..], begin);
    }
  }

  /** The number scanner captures a written number exactly: a sign or a
      digit, digits, then the byte that ends the value. */
  lemma {:induction false} ReadDigits(t: seq<char>, pos: nat, s: seq<char>)
    requires At(t, pos, s) && |s| > 0 && (IsDigit(s[0]) || s[0] == '-') && AllDigits(s[1..])
    requires pos + |s| < |t| && Ends(t[pos + |s|])
    ensures NumberScan(t, pos, false, 0, false) == Ok(s)
  {
    assert t[pos] == s[0];
    assert At(t, pos + 1, s[1..]) by {
      assert t[pos + 1..pos + 1 + |s[1..]|] == t[pos..pos + |s|][1..];
    }
    assert NumberScan(t, pos, false, 0, false) == NumberScan(t, pos + 1, true, pos, false);
    DigitRun(t, pos + 1, s[1..], pos);
  }

  /** get_uint64 where a written unsigned number lies returns it. */
  lemma {:induction false} ReadUInt64(t: seq<char>, l: RLevel, key: Option<CString>, u: UInt64)
    requires Locate(t, l, key).Ok? && ValueAt(t, Locate(t, l, key).value, UInt(u))
    ensures GetUInt64(t, l, key) == Ok(u)
  {
    var s := NatText(u);
    NatTextDigits(u);
    assert AllDigits(s[1..]) by {
      assert forall j :: 0 <= j < |s[1..]| ==> s[1..][j] == s[j + 1];
    }
    ReadDigits(t, Locate(t, l, key).value, s);
    UInt64RoundTrip(u);
  }

  /** get_int64 where a written signed number lies returns it. */
  lemma {:induction false} ReadInt64(t: seq<char>, l: RLevel, key: Option<CString>, x: Int64)
    requires Locate(t, l, key).Ok? && ValueAt(t, Locate(t, l, key).value, Int(x))
    ensures GetInt64(t, l, key) == Ok(x)
  {
    var s := IntText(x);
    IntTextChars(x);
    assert AllDigits(s[1..]) by {
      assert forall j :: 0 <= j < |s[1..]| ==> s[1..][j] == s[j + 1];
    }
    ReadDigits(t, Locate(t, l, key).value, s);
    Int64RoundTrip(x);
  }

  /** enter where a written container lies pushes a level on its bracket,
      of its kind, with cursor 0. */
  lemma {:induction false} ReadContainer(t: seq<char>, levels: seq<RLevel>, key: Option<CString>, v: Value)
    requires |levels| > 0 && v.Container?
    requires Locate(t, levels[|levels| - 1], key).Ok? && ValueAt(t, Locate(t, levels[|levels| - 1], key).value, v)
    ensures EnterAsWritten(t, levels, key) == (Success, levels + [RLevel(Locate(t, levels[|levels| - 1], key).value, v.kind, 0)])
  {
    var pos := Locate(t, levels[|levels| - 1], key).value;
    Bracketed(t, pos, OpenToken(v.kind), MembersText(v.members), CloseToken(v.kind));
    assert EnterScan(t, pos, false) == Ok(pos);
    assert KindOf(t[pos]) == v.kind;
  }

  /** find_key on a written object stops at the opening quote of the first
      member carrying the key, and finds nothing when no member does. */
  lemma {:induction false} ObjectFindKey(t: seq<char>, l: RLevel, ms: seq<Member>, key: CString) returns (xs: seq<seq<char>>)
    requires Keyed(ms) && PlainMembers(ms) && At(t, l.start, Serialize(Container(Object, ms)))
    ensures TextsOf(xs, ms) && At(t, l.start + 1, Join(xs) + ['}'])
    ensures FindKey(t, l.start, key)
         == if LookupFrom(ms, key, 0).Some? then Some(l.start + 1 + Offset(xs, LookupFrom(ms, key, 0).value)) else None
  {
    xs := ContainerJoin(Container(Object, ms));
    Bracketed(t, l.start, '{', Join(xs), '}');
    if |ms| == 0 {
      KeyTopEnd(t, key, l.start + 1, false, 0);
    } else {
      assert Offset(xs, 0) == 0;
      KeyFindFrom(t, key, l.start + 1, ms, xs, '}', 0, 0);
    }
  }

  /** find_key, key_exists and the value position on a written object: the
      key is found exactly when some member carries it, and the value read
      is that of the first such member. */
  lemma {:induction false} ObjectLookup(t: seq<char>, l: RLevel, ms: seq<Member>, key: CString)
    requires Keyed(ms) && PlainMembers(ms) && At(t, l.start, Serialize(Container(Object, ms)))
    ensures KeyExists(t, l, Some(key)) == if LookupFrom(ms, key, 0).Some? then Success else NotFound
    ensures Locate(t, l, Some(key)).Ok? <==> LookupFrom(ms, key, 0).Some?
    ensures LookupFrom(ms, key, 0).Some? ==>
      ValueAt(t, Locate(t, l, Some(key)).value, ms[LookupFrom(ms, key, 0).value].value)
  {
    var xs := ObjectFindKey(t, l, ms, key);
    if LookupFrom(ms, key, 0).Some? {
      var q := LookupFrom(ms, key, 0).value;
      MemberValueAt(t, l.start + 1, ms, xs, '}', q);
      assert |KeyText(ms[q].key)| == |key| + 3;
    }
  }

  // ---------------------------------------------------------------------
  // Walking a written array

  /** Selects the array element whose missing key a proof looks up. */
  predicate UnkeyedMark(j: int) {
    true
  }

  /** Array elements carry no key. */
  predicate Unkeyed(ms: seq<Member>) {
    forall j {:trigger UnkeyedMark(j)} :: 0 <= j < |ms| && UnkeyedMark(j) ==> ms[j].key.None?
  }

  lemma UnkeyedAt(ms: seq<Member>, j: nat)
    requires Unkeyed(ms) && j < |ms|
    ensures ms[j].key.None?
  {
    assert UnkeyedMark(j);
  }

  /** The cursor array_next leaves before the j-th element, relative to
      the bracket: 0 before the first, then each element and the comma
      after it move it on. */
  function Cursor(ms: seq<Member>, j: nat): nat
    requires j <= |ms|
  {
    if j == 0 then 0 else Cursor(ms, j - 1) + |MemberText(ms[j - 1])| + 1
  }

  lemma {:induction false} CursorOffset(ms: seq<Member>, xs: seq<seq<char>>, j: nat)
    requires j <= |ms| && TextsOf(xs, ms)
    ensures Cursor(ms, j) == Offset(xs, j)
  {
    if j > 0 {
      CursorOffset(ms, xs, j - 1);
      JoinStep(xs, j - 1);
      TextAt(xs, ms, j - 1);
    }
  }

  lemma {:induction false} CursorsAt(ms: seq<Member>, xs: seq<seq<char>>, j: nat)
    requires j < |ms| && TextsOf(xs, ms)
    ensures Cursor(ms, j) == Offset(xs, j)
    ensures j + 1 < |ms| ==> Cursor(ms, j + 1) == Offset(xs, j + 1)
  {
    CursorOffset(ms, xs, j);
    if j + 1 < |ms| {
      CursorOffset(ms, xs, j + 1);
    }
  }

  /** The j-th element of joined array elements: its value, and where the
      array_next scanner stops after it. */
  lemma {:induction false} ElementAt(t: seq<char>, base: nat, ms: seq<Member>, xs: seq<seq<char>>, j: nat)
    requires j < |ms| && Unkeyed(ms) && PlainMembers(ms) && TextsOf(xs, ms) && At(t, base, Join(xs) + [']'])
    ensures ValueAt(t, base + Offset(xs, j), ms[j].value)
    ensures j + 1 < |ms| ==> NextScan(t, base + Offset(xs, j), false, 0) == NextComma(base + Offset(xs, j + 1) - 1)
    ensures j + 1 == |ms| ==> NextScan(t, base + Offset(xs, j), false, 0) == NextClosed
  {
    UnkeyedAt(ms, j);
    MemberValueAt(t, base, ms, xs, ']', j);
    var p, e := MemberAt(t, base, ms, xs, ']', j);
    var e' := NextSkipOne(t, base, ms, xs, ']', j, 0);
    if j + 1 < |ms| {
      NextAtComma(t, e, 0);
    } else {
      NextClose(t, e, 0);
    }
  }

  /** Where the j-th element of a written array lies, counted from the
      cursor that stands before it: the value starts at p and the scan
      stops at the comma at n, or at the closing bracket. */
  lemma {:induction false} ElementAtCursor(t: seq<char>, start: nat, ms: seq<Member>, j: nat, p: nat, n: nat)
    requires j < |ms| && Unkeyed(ms) && PlainMembers(ms) && At(t, start, Serialize(Container(Array, ms)))
    requires p == start + Cursor(ms, j) + 1
    requires j + 1 < |ms| ==> n == start + Cursor(ms, j + 1)
    ensures ValueAt(t, p, ms[j].value)
    ensures j + 1 < |ms| ==> NextScan(t, p, false, 0) == NextComma(n)
    ensures j + 1 == |ms| ==> NextScan(t, p, false, 0) == NextClosed
  {
    var xs := ContainerJoin(Container(Array, ms));
    CursorsAt(ms, xs, j);
    ElementInJoin(t, start, ms, xs, j, p, n);
  }

  lemma {:induction false} ElementInJoin(t: seq<char>, start: nat, ms: seq<Member>, xs: seq<seq<char>>, j: nat, p: nat, n: nat)
    requires j < |ms| && Unkeyed(ms) && PlainMembers(ms) && TextsOf(xs, ms) && At(t, start, ['['] + Join(xs) + [']'])
    requires p == start + 1 + Offset(xs, j)
    requires j + 1 < |ms| ==> n == start + Offset(xs, j + 1)
    ensures ValueAt(t, p, ms[j].value)
    ensures j + 1 < |ms| ==> NextScan(t, p, false, 0) == NextComma(n)
    ensures j + 1 == |ms| ==> NextScan(t, p, false, 0) == NextClosed
  {
    Bracketed(t, start, '[', Join(xs), ']');
    ElementAt(t, start + 1, ms, xs, j);
  }

  /** On a level over a written array whose cursor stands before the j-th
      element, a read without key sees that element, and array_next moves
      the cursor before the next one, or is NotFound after the last. */
  lemma {:induction false} ArrayElement(t: seq<char>, levels: seq<RLevel>, ms: seq<Member>, j: nat)
    requires |levels| > 0 && Unkeyed(ms) && PlainMembers(ms) && j < |ms|
    requires levels[|levels| - 1].kind == Array && levels[|levels| - 1].cursor == Cursor(ms, j)
    requires At(t, levels[|levels| - 1].start, Serialize(Container(Array, ms)))
    ensures ValueAt(t, Locate(t, levels[|levels| - 1], None).value, ms[j].value)
    ensures j + 1 < |ms| ==>
      ArrayNext(t, levels) == (Success, levels[..|levels| - 1] + [RLevel(levels[|levels| - 1].start, Array, Cursor(ms, j + 1))])
    ensures j + 1 == |ms| ==> ArrayNext(t, levels) == (NotFound, levels)
  {
    var top := levels[|levels| - 1];
    var p := top.start + top.cursor + 1;
    if j + 1 < |ms| {
      var n := top.start + Cursor(ms, j + 1);
      ElementAtCursor(t, top.start, ms, j, p, n);
      StepAtCursor(t, levels, ms[j].value, true, Cursor(ms, j + 1), p, n);
    } else {
      ElementAtCursor(t, top.start, ms, j, p, top.start);
      StepAtCursor(t, levels, ms[j].value, false, 0, p, top.start);
    }
  }

  /** array_next and the read without key on a level whose cursor stands
      before a value followed by a comma (more is true) or by the closing
      bracket. */
  lemma {:induction false} StepAtCursor(t: seq<char>, levels: seq<RLevel>, v: Value, more: bool, next: nat, p: nat, n: nat)
    requires |levels| > 0 && levels[|levels| - 1].kind == Array
    requires p == levels[|levels| - 1].start + levels[|levels| - 1].cursor + 1
    requires n == levels[|levels| - 1].start + next
    requires ValueAt(t, p, v)
    requires more ==> NextScan(t, p, false, 0) == NextComma(n)
    requires !more ==> NextScan(t, p, false, 0) == NextClosed
    ensures ValueAt(t, Locate(t, levels[|levels| - 1], None).value, v)
    ensures more ==> ArrayNext(t, levels) == (Success, levels[..|levels| - 1] + [RLevel(levels[|levels| - 1].start, Array, next)])
    ensures !more ==> ArrayNext(t, levels) == (NotFound, levels)
  {
  }

  /** array_next on a written empty array is NotFound. */
  lemma {:induction false} ArrayEmpty(t: seq<char>, levels: seq<RLevel>)
    requires |levels| > 0 && levels[|levels| - 1].kind == Array && levels[|levels| - 1].cursor == 0
    requires At(t, levels[|levels| - 1].start, Serialize(Container(Array, [])))
    ensures ArrayNext(t, levels) == (NotFound, levels)
  {
    var top := levels[|levels| - 1];
    Bracketed(t, top.start, '[', [], ']');
    NextClose(t, top.start + 1, 0);
  }

  /** init on a written document: level 0 is its outer bracket. */
  lemma {:induction false} ReadDocument(v: Value)
    requires v.Container?
    ensures Init(Some(Serialize(v))) == Ok(RLevel(0, v.kind, 0))
  {
    var t := Serialize(v);
    assert t[0] == OpenToken(v.kind);
    assert FirstOpener(t, 0) == Some(0);
  }
}
