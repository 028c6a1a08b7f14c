/** The text the backup runner renders when a book fails to process: the
    truncated author and narrator fields, the details block shown in the skip
    dialog, the aggregated error message written to a skip file, and the
    trimming applied to its log lines. */
module Diagnostics {
  import opened Wrappers
  import opened DataLayer

  /** .NET's char.IsWhiteSpace: U+0009 to U+000D, the space separators,
      U+0085, U+00A0 and the line and paragraph separators. */
  predicate IsWhiteSpace(c: char) {
    || c == ' '
    || '\t' <= c <= '\r'
    || c == '\U{85}'
    || c == '\U{A0}'
    || c == '\U{1680}'
    || '\U{2000}' <= c <= '\U{200A}'
    || c == '\U{2028}'
    || c == '\U{2029}'
    || c == '\U{202F}'
    || c == '\U{205F}'
    || c == '\U{3000}'
  }

  /** string.IsNullOrWhiteSpace; None stands for a null reference. */
  predicate IsNullOrWhiteSpace(s: Option<string>) {
    s.None? || forall i :: 0 <= i < |s.value| ==> IsWhiteSpace(s.value[i])
  }

  const MaxFieldLength := 50
  const KeptLength := 47
  const EmptyField := "[empty]"
  const Ellipsis := "..."

  /** The local `trunc` of ProcessOneAsync: a missing or blank field becomes
      "[empty]", a field longer than 50 keeps its first 47 characters and
      ends in "...", anything else is shown as it is. */
  function Trunc(s: Option<string>): (r: string)
    ensures |r| <= MaxFieldLength
    ensures IsNullOrWhiteSpace(s) ==> r == EmptyField
    ensures !IsNullOrWhiteSpace(s) ==> (r == s.value <==> |s.value| <= MaxFieldLength)
    ensures !IsNullOrWhiteSpace(s) && |s.value| > MaxFieldLength ==>
      && |r| == MaxFieldLength
      && r[..KeptLength] == s.value[..KeptLength]
      && r[KeptLength..] == Ellipsis
  {
    if IsNullOrWhiteSpace(s) then EmptyField
    else if |s.value| > MaxFieldLength then s.value[..KeptLength] + Ellipsis
    else s.value
  }

  /** Truncating an already truncated field changes nothing. */
  lemma TruncIdempotent(s: Option<string>)
    ensures Trunc(Some(Trunc(s))) == Trunc(s)
  {
    var r := Trunc(s);
    if IsNullOrWhiteSpace(s) {
      assert !IsWhiteSpace(r[0]);
    } else if |s.value| > MaxFieldLength {
      assert r[KeptLength] == '.';
    }
  }

  const DetailsPlaceholder := "[Error retrieving details]"

  /** The details block shown in the skip dialog. Its line breaks are those
      of a verbatim literal in the source file, which uses "\n". However long
      the names, the block grows only with the title and the id. */
  function Details(book: Book): (r: string)
    ensures |r| <= |book.title| + |book.audibleProductId| + 36 + 2 * MaxFieldLength
  {
    JoinNewlines(
      "  Title: " + book.title,
      "  ID: " + book.audibleProductId,
      "  Author: " + Trunc(book.authorNames),
      "  Narr: " + Trunc(book.narratorNames))
  }

  function JoinNewlines(l1: string, l2: string, l3: string, l4: string): string {
    l1 + "\n" + l2 + "\n" + l3 + "\n" + l4
  }

  predicate NoNewline(s: string) {
    forall i :: 0 <= i < |s| ==> s[i] != '\n'
  }

  /** The lines of a text, split at "\n"; used only to state what the
      details block shows. */
  function NewlineSplit(s: string): (r: seq<string>)
    ensures r != []
    decreases |s|
  {
    if s == [] then [s]
    else if s[0] == '\n' then [""] + NewlineSplit(s[1..])
    else
      var rest := NewlineSplit(s[1..]);
      [[s[0]] + rest[0]] + rest[1..]
  }

  lemma {:induction false} NewlineSplitSingle(a: string)
    requires NoNewline(a)
    ensures NewlineSplit(a) == [a]
    decreases |a|
  {
    if a != [] {
      NewlineSplitSingle(a[1..]);
      assert [a[0]] + a[1..] == a;
    }
  }

  lemma {:induction false} NewlineSplitHead(a: string, t: string)
    requires NoNewline(a)
    ensures NewlineSplit(a + "\n" + t) == [a] + NewlineSplit(t)
    decreases |a|
  {
    var s := a + "\n" + t;
    if a == [] {
      assert s[1..] == t;
    } else {
      assert s[0] == a[0];
      assert s[1..] == a[1..] + "\n" + t;
      NewlineSplitHead(a[1..], t);
      assert [a[0]] + a[1..] == a;
    }
  }

  lemma TruncNoNewline(s: Option<string>)
    requires s.Some? ==> NoNewline(s.value)
    ensures NoNewline(Trunc(s))
  {
    var r := Trunc(s);
    if !IsNullOrWhiteSpace(s) && |s.value| > MaxFieldLength {
      assert r == s.value[..KeptLength] + Ellipsis;
    }
  }

  lemma NoNewlineConcat(a: string, b: string)
    requires NoNewline(a) && NoNewline(b)
    ensures NoNewline(a + b)
  {
    assert forall i :: |a| <= i < |a + b| ==> (a + b)[i] == b[i - |a|];
  }

  lemma FourLines(l1: string, l2: string, l3: string, l4: string)
    requires NoNewline(l1) && NoNewline(l2) && NoNewline(l3) && NoNewline(l4)
    ensures NewlineSplit(JoinNewlines(l1, l2, l3, l4)) == [l1, l2, l3, l4]
  {
    assert JoinNewlines(l1, l2, l3, l4) == l1 + "\n" + (l2 + "\n" + (l3 + "\n" + l4));
    NewlineSplitSingle(l4);
    NewlineSplitHead(l3, l4);
    NewlineSplitHead(l2, l3 + "\n" + l4);
    NewlineSplitHead(l1, l2 + "\n" + (l3 + "\n" + l4));
  }

  /** The details block has four lines: the title, the id, and the
      truncated author and narrator names, when no field holds a line break. */
  lemma DetailsLines(book: Book)
    requires NoNewline(book.title) && NoNewline(book.audibleProductId)
    requires book.authorNames.Some? ==> NoNewline(book.authorNames.value)
    requires book.narratorNames.Some? ==> NoNewline(book.narratorNames.value)
    ensures NewlineSplit(Details(book)) ==
      ["  Title: " + book.title, "  ID: " + book.audibleProductId,
       "  Author: " + Trunc(book.authorNames), "  Narr: " + Trunc(book.narratorNames)]
  {
    TruncNoNewline(book.authorNames);
    TruncNoNewline(book.narratorNames);
    NoNewlineConcat("  Title: ", book.title);
    NoNewlineConcat("  ID: ", book.audibleProductId);
    NoNewlineConcat("  Author: ", Trunc(book.authorNames));
    NoNewlineConcat("  Narr: ", Trunc(book.narratorNames));
    var l1, l2 := "  Title: " + book.title, "  ID: " + book.audibleProductId;
    var l3, l4 := "  Author: " + Trunc(book.authorNames), "  Narr: " + Trunc(book.narratorNames);
    FourLines(l1, l2, l3, l4);
  }

  const LineBreak := "\r\n"

  /** `errors.Aggregate((a, b) => $"{a}\r\n{b}")`, a left fold. LINQ throws
      on an empty list; here that is None. */
  function Aggregate(errors: seq<string>): (r: Option<string>)
    ensures r.None? <==> errors == []
  {
    if errors == [] then None else Some(FoldLines(errors[0], errors[1..]))
  }

  function FoldLines(acc: string, rest: seq<string>): string
    decreases |rest|
  {
    if rest == [] then acc else FoldLines(acc + LineBreak + rest[0], rest[1..])
  }

  /** Reference definition: the errors in order, a line break between
      neighbours. */
  function JoinLines(errors: seq<string>): string
    requires errors != []
    decreases |errors|
  {
    if |errors| == 1 then errors[0] else errors[0] + LineBreak + JoinLines(errors[1..])
  }

  lemma {:induction false} FoldLinesIsJoin(acc: string, rest: seq<string>)
    ensures FoldLines(acc, rest) == JoinLines([acc] + rest)
    decreases |rest|
  {
    if rest != [] {
      var next := acc + LineBreak + rest[0];
      FoldLinesIsJoin(next, rest[1..]);
      assert ([acc] + rest)[1..] == rest;
      if rest[1..] == [] {
        assert rest == [rest[0]];
      } else {
        assert ([next] + rest[1..])[1..] == rest[1..];
        assert ([rest[0]] + rest[1..]) == rest;
      }
    }
  }

  /** The aggregate of a non-empty list is the errors joined in order. */
  lemma AggregateJoinsInOrder(errors: seq<string>)
    requires errors != []
    ensures Aggregate(errors) == Some(JoinLines(errors))
  {
    FoldLinesIsJoin(errors[0], errors[1..]);
    assert [errors[0]] + errors[1..] == errors;
  }

  /** `s.Split("\r\n")`: the pieces between line breaks, used only to state
      what the aggregate message keeps. */
  function SplitLines(s: string): (r: seq<string>)
    ensures r != []
    decreases |s|
  {
    if |s| < 2 then [s]
    else if s[..2] == LineBreak then [""] + SplitLines(s[2..])
    else
      var rest := SplitLines(s[1..]);
      [[s[0]] + rest[0]] + rest[1..]
  }

  predicate NoCarriageReturn(s: string) {
    forall i :: 0 <= i < |s| ==> s[i] != '\r'
  }

  lemma {:induction false} SplitLinesSingle(a: string)
    requires NoCarriageReturn(a)
    ensures SplitLines(a) == [a]
    decreases |a|
  {
    if |a| >= 2 {
      assert a[..2] != LineBreak by { assert a[0] != '\r'; }
      SplitLinesSingle(a[1..]);
      assert [a[0]] + a[1..] == a;
    }
  }

  lemma {:induction false} SplitLinesHead(a: string, t: string)
    requires NoCarriageReturn(a)
    ensures SplitLines(a + LineBreak + t) == [a] + SplitLines(t)
    decreases |a|
  {
    var s := a + LineBreak + t;
    if a == [] {
      assert s[..2] == LineBreak;
      assert s[2..] == t;
    } else {
      assert s[..2] != LineBreak by { assert s[0] == a[0]; }
      assert s[1..] == a[1..] + LineBreak + t;
      SplitLinesHead(a[1..], t);
      assert [a[0]] + a[1..] == a;
    }
  }

  /** Round trip: when no error holds a carriage return, splitting the
      joined message at its line breaks gives back the errors. */
  lemma {:induction false} SplitJoinLines(errors: seq<string>)
    requires errors != []
    requires forall i :: 0 <= i < |errors| ==> NoCarriageReturn(errors[i])
    ensures SplitLines(JoinLines(errors)) == errors
    decreases |errors|
  {
    if |errors| == 1 {
      SplitLinesSingle(errors[0]);
    } else {
      SplitJoinLines(errors[1..]);
      SplitLinesHead(errors[0], JoinLines(errors[1..]));
      assert [errors[0]] + errors[1..] == errors;
    }
  }

  /** A fault raised by a collaborator: its message and stack trace. */
  datatype Fault = Fault(message: string, stackTrace: string)

  const FaultSeparator := "\r\n|\r\n"

  /** The skip-file message for a fault. */
  function FaultText(f: Fault): string {
    f.message + FaultSeparator + f.stackTrace
  }

  /** The text before the first "\r\n|\r\n" and the text after it, or None
      when there is no separator; used only to state what a fault's message
      keeps. */
  function SplitFault(s: string): Option<(string, string)>
    decreases |s|
  {
    if |s| < |FaultSeparator| then None
    else if s[..|FaultSeparator|] == FaultSeparator then Some(([], s[|FaultSeparator|..]))
    else
      var rest := SplitFault(s[1..]);
      if rest.None? then None else Some(([s[0]] + rest.value.0, rest.value.1))
  }

  lemma {:induction false} SplitFaultHead(message: string, trace: string)
    requires NoCarriageReturn(message)
    ensures SplitFault(message + FaultSeparator + trace) == Some((message, trace))
    decreases |message|
  {
    var s := message + FaultSeparator + trace;
    if message == [] {
      assert s[..|FaultSeparator|] == FaultSeparator;
      assert s[|FaultSeparator|..] == trace;
    } else {
      assert s[..|FaultSeparator|] != FaultSeparator by { assert s[0] == message[0]; }
      assert s[1..] == message[1..] + FaultSeparator + trace;
      SplitFaultHead(message[1..], trace);
      assert [message[0]] + message[1..] == message;
    }
  }

  /** Round trip: when the fault's message holds no carriage return, the
      text before the first separator is the message and everything after it
      is the stack trace, whatever the trace holds. */
  lemma FaultTextRoundTrip(f: Fault)
    requires NoCarriageReturn(f.message)
    ensures SplitFault(FaultText(f)) == Some((f.message, f.stackTrace))
  {
    SplitFaultHead(f.message, f.stackTrace);
  }

  /** string.TrimEnd(): drops trailing white space. */
  function TrimEnd(s: string): (r: string)
    ensures |r| <= |s| && r == s[..|r|]
    ensures r == [] || !IsWhiteSpace(r[|r| - 1])
    ensures forall i :: |r| <= i < |s| ==> IsWhiteSpace(s[i])
    decreases |s|
  {
    if s != [] && IsWhiteSpace(s[|s| - 1]) then
      var r := TrimEnd(s[..|s| - 1]);
      assert r == s[..|r|];
      r
    else s
  }

  /** string.TrimStart(): drops leading white space. */
  function TrimStart(s: string): (r: string)
    ensures |r| <= |s| && r == s[|s| - |r|..]
    ensures r == [] || !IsWhiteSpace(r[0])
    ensures forall i :: 0 <= i < |s| - |r| ==> IsWhiteSpace(s[i])
    decreases |s|
  {
    if s != [] && IsWhiteSpace(s[0]) then
      var r := TrimStart(s[1..]);
      assert r == s[|s| - |r|..];
      assert forall i :: 1 <= i < |s| - |r| ==> s[i] == s[1..][i - 1];
      r
    else s
  }

  function Trim(s: string): string {
    TrimStart(TrimEnd(s))
  }

  /** Trimming text wrapped in one white-space character on each side gives
      back the text, when it neither starts nor ends in white space. */
  lemma TrimBetween(c: char, mid: string)
    requires IsWhiteSpace(c)
    requires mid != [] && !IsWhiteSpace(mid[0]) && !IsWhiteSpace(mid[|mid| - 1])
    ensures Trim([c] + mid + [c]) == mid
  {
    var raw := [c] + mid + [c];
    var te := TrimEnd(raw);
    assert raw[|mid|] == mid[|mid| - 1];
    assert |te| == |mid| + 1;
    assert te == [c] + mid;
    var r := TrimStart(te);
    assert te[1] == mid[0];
    assert |te| - |r| == 1;
    assert r == te[1..];
  }
}
