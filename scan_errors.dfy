/** What the reader's scanners return on any text, not only on text the
    writer wrote: for each scanner, the byte that decides its outcome after
    a run of bytes it passes over, and the status it then reports. */
module ScanErrors {
  import opened JsonTypes
  import opened ReaderSpec

  /** Bytes get_numerical and get_string pass over before a value. */
  predicate Quiet(t: seq<char>, i: nat, k: nat)
    requires i <= k <= |t|
  {
    forall j :: i <= j < k ==> IsBlank(t[j]) || t[j] == ':'
  }

  /** Bytes enter passes over before a container. */
  predicate Blanks(t: seq<char>, i: nat, k: nat)
    requires i <= k <= |t|
  {
    forall j :: i <= j < k ==> IsBlank(t[j])
  }

  predicate Digits(t: seq<char>, i: nat, k: nat)
    requires i <= k <= |t|
  {
    forall j :: i <= j < k ==> IsDigit(t[j])
  }

  /** A byte none of whose cases in a scanner's switch applies. */
  predicate Structural(c: char) {
    c == '"' || c == '\\' || c == ',' || c == '[' || c == ']' || c == '{' || c == '}'
  }

  // ---------------------------------------------------------------------
  // get_numerical

  lemma {:induction false} NumberQuiet(t: seq<char>, i: nat, k: nat, dotted: bool)
    requires i <= k <= |t| && Quiet(t, i, k)
    ensures NumberScan(t, i, false, 0, dotted) == NumberScan(t, k, false, 0, dotted)
    decreases k - i
  {
    if i < k {
      NumberQuiet(t, i + 1, k, dotted);
    }
  }

  lemma {:induction false} NumberDigits(t: seq<char>, i: nat, k: nat, begin: nat, dotted: bool)
    requires begin < i <= k <= |t| && (IsDigit(t[begin]) || t[begin] == '-')
    requires forall j :: begin <= j < i ==> NumberByte(t[j])
    requires Digits(t, i, k)
    ensures forall j :: begin <= j < k ==> NumberByte(t[j])
    ensures NumberScan(t, i, true, begin, dotted) == NumberScan(t, k, true, begin, dotted)
    decreases k - i
  {
    if i < k {
      NumberDigits(t, i + 1, k, begin, dotted);
    }
  }

  /** Blanks, colons and digits up to the end of the text: NotFound. */
  lemma {:induction false} NumberRanOff(t: seq<char>, i: nat, s: nat)
    requires i <= s <= |t| && Quiet(t, i, s) && Digits(t, s, |t|)
    ensures NumberScan(t, i, false, 0, false) == Fail(NotFound)
  {
    NumberQuiet(t, i, s, false);
    if s < |t| {
      NumberDigits(t, s + 1, |t|, s, false);
    }
  }

  /** A minus after the number started, as in 12-3: InvalidJson. */
  lemma {:induction false} NumberMinusInside(t: seq<char>, i: nat, s: nat, k: nat)
    requires i <= s < k < |t| && Quiet(t, i, s)
    requires (IsDigit(t[s]) || t[s] == '-') && Digits(t, s + 1, k) && t[k] == '-'
    ensures NumberScan(t, i, false, 0, false) == Fail(InvalidJson)
  {
    NumberQuiet(t, i, s, false);
    NumberDigits(t, s + 1, k, s, false);
  }

  /** A dot before any digit: InvalidJson. */
  lemma {:induction false} NumberDotFirst(t: seq<char>, i: nat, k: nat)
    requires i <= k < |t| && Quiet(t, i, k) && t[k] == '.'
    ensures NumberScan(t, i, false, 0, false) == Fail(InvalidJson)
  {
    NumberQuiet(t, i, k, false);
  }

  /** A second dot in a number: InvalidJson. */
  lemma {:induction false} NumberSecondDot(t: seq<char>, i: nat, s: nat, d: nat, k: nat)
    requires i <= s < d < k < |t| && Quiet(t, i, s)
    requires IsDigit(t[s]) && Digits(t, s + 1, d) && t[d] == '.' && Digits(t, d + 1, k) && t[k] == '.'
    ensures NumberScan(t, i, false, 0, false) == Fail(InvalidJson)
  {
    NumberQuiet(t, i, s, false);
    NumberDigits(t, s + 1, d, s, false);
    NumberDigits(t, d + 1, k, s, true);
  }

  /** A comma or closing bracket before any digit: InvalidJson. */
  lemma {:induction false} NumberNoDigit(t: seq<char>, i: nat, k: nat)
    requires i <= k < |t| && Quiet(t, i, k) && (t[k] == ',' || t[k] == ']' || t[k] == '}')
    ensures NumberScan(t, i, false, 0, false) == Fail(InvalidJson)
  {
    NumberQuiet(t, i, k, false);
  }

  /** Any byte the number scanner has no case for, before or after the
      digits: InvalidDatatype. */
  lemma {:induction false} NumberOtherByte(t: seq<char>, i: nat, s: nat, k: nat)
    requires i <= s <= k < |t| && Quiet(t, i, s) && Digits(t, s, k)
    requires !IsDigit(t[k]) && !IsBlank(t[k]) && t[k] !in {'-', '.', ':', ',', ']', '}'}
    ensures NumberScan(t, i, false, 0, false) == Fail(InvalidDatatype)
  {
    NumberQuiet(t, i, s, false);
    if s < k {
      NumberDigits(t, s + 1, k, s, false);
    }
  }

  // ---------------------------------------------------------------------
  // enter

  lemma {:induction false} EnterBlanks(t: seq<char>, i: nat, k: nat)
    requires i <= k <= |t| && Blanks(t, i, k)
    ensures EnterScan(t, i, false) == EnterScan(t, k, false)
    decreases k - i
  {
    if i < k {
      EnterBlanks(t, i + 1, k);
    }
  }

  /** After blanks, an opening bracket is the container found. */
  lemma {:induction false} EnterFindsBracket(t: seq<char>, i: nat, k: nat)
    requires i <= k < |t| && Blanks(t, i, k) && (t[k] == '[' || t[k] == '{')
    ensures EnterScan(t, i, false) == Ok(k)
  {
    EnterBlanks(t, i, k);
  }

  /** After blanks, a comma or closing bracket: NotFound. */
  lemma {:induction false} EnterStopsAtSeparator(t: seq<char>, i: nat, k: nat)
    requires i <= k < |t| && Blanks(t, i, k) && (t[k] == ',' || t[k] == ']' || t[k] == '}')
    ensures EnterScan(t, i, false) == Fail(NotFound)
  {
    EnterBlanks(t, i, k);
  }

  /** After blanks, any other byte but a quote or a backslash:
      InvalidDatatype. */
  lemma {:induction false} EnterRejectsByte(t: seq<char>, i: nat, k: nat)
    requires i <= k < |t| && Blanks(t, i, k) && !IsBlank(t[k]) && !Structural(t[k])
    ensures EnterScan(t, i, false) == Fail(InvalidDatatype)
  {
    EnterBlanks(t, i, k);
  }

  /** The default case of enter does not look at the string flag: a
      letter inside a string is InvalidDatatype as well. */
  lemma {:induction false} EnterRejectsInString(t: seq<char>, i: nat, k: nat)
    requires i < k < |t| && t[i] == '"' && Blanks(t, i + 1, k) && !IsBlank(t[k]) && !Structural(t[k])
    ensures EnterScan(t, i, false) == Fail(InvalidDatatype)
  {
    assert EnterScan(t, i, false) == EnterScan(t, i + 1, true);
    InStringBlanks(t, i + 1, k);
  }

  lemma {:induction false} InStringBlanks(t: seq<char>, i: nat, k: nat)
    requires i <= k <= |t| && Blanks(t, i, k)
    ensures EnterScan(t, i, true) == EnterScan(t, k, true)
    decreases k - i
  {
    if i < k {
      InStringBlanks(t, i + 1, k);
    }
  }

  /** Blanks up to the end of the text: NotFound. */
  lemma {:induction false} EnterRanOff(t: seq<char>, i: nat)
    requires i <= |t| && Blanks(t, i, |t|)
    ensures EnterScan(t, i, false) == Fail(NotFound)
  {
    EnterBlanks(t, i, |t|);
  }

  // ---------------------------------------------------------------------
  // get_string

  lemma {:induction false} StringQuiet(t: seq<char>, i: nat, k: nat)
    requires i <= k <= |t| && Quiet(t, i, k)
    ensures StringScan(t, i, false, 0) == StringScan(t, k, false, 0)
    decreases k - i
  {
    if i < k {
      StringQuiet(t, i + 1, k);
    }
  }

  lemma {:induction false} StringInside(t: seq<char>, i: nat, k: nat, begin: nat)
    requires begin < i <= k <= |t| && t[begin] == '"'
    requires forall j :: i <= j < k ==> t[j] != '"' && t[j] != '\\'
    ensures StringScan(t, i, true, begin) == StringScan(t, k, true, begin)
    decreases k - i
  {
    if i < k {
      StringInside(t, i + 1, k, begin);
    }
  }

  /** After blanks and colons, a quoted run without quote or backslash is
      the string found. */
  lemma {:induction false} StringFound(t: seq<char>, i: nat, k: nat, e: nat)
    requires i <= k < e < |t| && Quiet(t, i, k) && t[k] == '"' && t[e] == '"'
    requires forall j :: k < j < e ==> t[j] != '"' && t[j] != '\\'
    ensures StringScan(t, i, false, 0) == Ok(Span(k, e))
  {
    StringQuiet(t, i, k);
    StringInside(t, k + 1, e, k);
  }

  /** After blanks and colons, any byte but a quote or a backslash:
      InvalidDatatype. */
  lemma {:induction false} StringRejectsByte(t: seq<char>, i: nat, k: nat)
    requires i <= k < |t| && Quiet(t, i, k) && t[k] != '"' && t[k] != '\\' && !IsBlank(t[k]) && t[k] != ':'
    ensures StringScan(t, i, false, 0) == Fail(InvalidDatatype)
  {
    StringQuiet(t, i, k);
  }

  /** Blanks and colons up to the end of the text: NotFound. */
  lemma {:induction false} StringRanOff(t: seq<char>, i: nat)
    requires i <= |t| && Quiet(t, i, |t|)
    ensures StringScan(t, i, false, 0) == Fail(NotFound)
  {
    StringQuiet(t, i, |t|);
  }

  /** A string whose closing quote never comes: NotFound. */
  lemma {:induction false} StringUnterminated(t: seq<char>, i: nat, k: nat)
    requires i <= k < |t| && Quiet(t, i, k) && t[k] == '"'
    requires forall j :: k < j < |t| ==> t[j] != '"' && t[j] != '\\'
    ensures StringScan(t, i, false, 0) == Fail(NotFound)
  {
    StringQuiet(t, i, k);
    StringInside(t, k + 1, |t|, k);
  }

  // ---------------------------------------------------------------------
  // array_next

  lemma {:induction false} NextInert(t: seq<char>, i: nat, k: nat)
    requires i <= k <= |t| && forall j :: i <= j < k ==> !Structural(t[j])
    ensures NextScan(t, i, false, 0) == NextScan(t, k, false, 0)
    decreases k - i
  {
    if i < k {
      NextInert(t, i + 1, k);
    }
  }

  /** The offset array_next scans from on the innermost level. */
  function ScanFrom(levels: seq<RLevel>): nat
    requires |levels| > 0
  {
    levels[|levels| - 1].start + levels[|levels| - 1].cursor + 1
  }

  /** A comma before any other structural byte: the cursor moves to it. */
  lemma {:induction false} ArrayNextMoves(t: seq<char>, levels: seq<RLevel>, k: nat)
    requires |levels| > 0 && levels[|levels| - 1].kind == Array
    requires ScanFrom(levels) <= k < |t| && t[k] == ','
    requires forall j :: ScanFrom(levels) <= j < k ==> !Structural(t[j])
    ensures ArrayNext(t, levels) == (Success, levels[..|levels| - 1] + [RLevel(levels[|levels| - 1].start, Array, k - levels[|levels| - 1].start)])
  {
    NextInert(t, ScanFrom(levels), k);
  }

  /** A closing bracket before any other structural byte: NotFound, with
      the stack kept. */
  lemma {:induction false} ArrayNextAtClose(t: seq<char>, levels: seq<RLevel>, k: nat)
    requires |levels| > 0 && levels[|levels| - 1].kind == Array
    requires ScanFrom(levels) <= k < |t| && (t[k] == ']' || t[k] == '}')
    requires forall j :: ScanFrom(levels) <= j < k ==> !Structural(t[j])
    ensures ArrayNext(t, levels) == (NotFound, levels)
  {
    NextInert(t, ScanFrom(levels), k);
  }

  /** No structural byte up to the end of the text: Success, with the
      cursor kept. */
  lemma {:induction false} ArrayNextAtEnd(t: seq<char>, levels: seq<RLevel>)
    requires |levels| > 0 && levels[|levels| - 1].kind == Array
    requires forall j :: ScanFrom(levels) <= j < |t| ==> !Structural(t[j])
    ensures ArrayNext(t, levels) == (Success, levels)
  {
    if ScanFrom(levels) <= |t| {
      NextInert(t, ScanFrom(levels), |t|);
    }
  }
}
