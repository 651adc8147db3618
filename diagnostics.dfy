/**
  The checker's error table and message builder (the `CustomError` class):
  every issue has a fixed code and a default message, and a diagnostic is
  rendered as `<path>: Line <n>: <code> <message>`.
*/
module Diagnostics {
  import opened Wrappers
  import opened PyStr

  /** The issue names of the error table, in code order. */
  datatype Issue =
    | Length | Indentation | Semicolon | Spaces | Todo | Lines
    | ConstructionSpace | Casing | FunctionName | Arg | Var | Default

  /** The number K of the code `ErrorK`. */
  function Number(issue: Issue): nat {
    match issue
    case Length => 1
    case Indentation => 2
    case Semicolon => 3
    case Spaces => 4
    case Todo => 5
    case Lines => 6
    case ConstructionSpace => 7
    case Casing => 8
    case FunctionName => 9
    case Arg => 10
    case Var => 11
    case Default => 12
  }

  function Code(issue: Issue): string {
    match issue
    case Length => "Error1"
    case Indentation => "Error2"
    case Semicolon => "Error3"
    case Spaces => "Error4"
    case Todo => "Error5"
    case Lines => "Error6"
    case ConstructionSpace => "Error7"
    case Casing => "Error8"
    case FunctionName => "Error9"
    case Arg => "Error10"
    case Var => "Error11"
    case Default => "Error12"
  }

  /** The default texts, byte for byte; the three caller-worded issues have none. */
  function DefaultMessage(issue: Issue): string {
    match issue
    case Length => "Line too long"
    case Indentation => "Indentation should be a multiple of four"
    case Semicolon => "Redundant semicolon after a statement "
    case Spaces => "Inline comments should have atleast two spaces before inline comments"
    case Todo => "Todo found"
    case Lines => "Found more than two consecutive blank lines before a code line"
    case ConstructionSpace => ""
    case Casing => ""
    case FunctionName => ""
    case Arg => "Argument names must be written in snake_case"
    case Var => "Variables must be written in snake_case"
    case Default => "A default argument value must not be mutable"
  }

  /** The fields of one `CustomError`: its issue, its line and the caller's message. */
  datatype Diagnostic = Diagnostic(issue: Issue, line: nat, other: Option<string>)

  /** A caller message replaces the default only when it is truthy (non-empty). */
  function ChosenMessage(issue: Issue, other: Option<string>): string {
    if other.Some? && other.value != [] then other.value else DefaultMessage(issue)
  }

  /** The `message` of a `CustomError`, `<path>: Line <n>: <code> <msg>`,
      put together around its two colons; the file path is a parameter. */
  function Format(path: string, line: nat, issue: Issue, other: Option<string>): (r: string)
    ensures StartsWith(r, path + ": Line " + NatToString(line) + ":")
    ensures EndsWith(r, " " + Code(issue) + " " + ChosenMessage(issue, other))
  {
    FormatLayout(path, line, issue, other);
    path + ":" + FormatTail(line, issue, other)
  }

  lemma FormatLayout(path: string, line: nat, issue: Issue, other: Option<string>)
    ensures var r := path + ":" + FormatTail(line, issue, other);
      StartsWith(r, path + ": Line " + NatToString(line) + ":") &&
      EndsWith(r, CodeAndMessage(issue, other))
  {
    LineHead(path, NatToString(line));
    FieldsLayout(path, " Line " + NatToString(line), CodeAndMessage(issue, other));
  }

  lemma LineHead(path: string, n: string)
    ensures path + ": Line " + n + ":" == path + ":" + (" Line " + n) + ":"
  {
  }

  /** `a:b:c` starts with `a:b:` and ends with `c`. */
  lemma FieldsLayout(a: string, b: string, c: string)
    ensures StartsWith(a + ":" + (b + ":" + c), a + ":" + b + ":")
    ensures EndsWith(a + ":" + (b + ":" + c), c)
  {
    assert a + ":" + (b + ":" + c) == (a + ":" + b + ":") + c;
    EndsWithAppend(a + ":" + b + ":", c);
  }

  /** ` Line <n>: <code> <msg>`, what follows the path's colon. */
  function FormatTail(line: nat, issue: Issue, other: Option<string>): string {
    " Line " + NatToString(line) + ":" + CodeAndMessage(issue, other)
  }

  /** ` <code> <msg>`, what follows the line number's colon. */
  function CodeAndMessage(issue: Issue, other: Option<string>): string {
    " " + Code(issue) + " " + ChosenMessage(issue, other)
  }

  function Message(path: string, d: Diagnostic): string {
    Format(path, d.line, d.issue, d.other)
  }

  /** The messages of a sequence of diagnostics, in order. */
  function Messages(path: string, ds: seq<Diagnostic>): (r: seq<string>)
    ensures |r| == |ds|
  {
    seq(|ds|, i requires 0 <= i < |ds| => Message(path, ds[i]))
  }

  lemma MessagesAppend(path: string, a: seq<Diagnostic>, b: seq<Diagnostic>)
    ensures Messages(path, a + b) == Messages(path, a) + Messages(path, b)
  {
  }

  lemma MessagesSingle(path: string, d: Diagnostic)
    ensures Messages(path, [d]) == [Message(path, d)]
  {
  }

  lemma NoMessages(path: string, errors: seq<string>)
    ensures errors + Messages(path, []) == errors
  {
    assert Messages(path, []) == [];
  }

  lemma AppendAssoc<T>(a: seq<T>, b: seq<T>, c: seq<T>)
    ensures a + b + c == a + (b + c)
  {
  }

  lemma EndsWithAppend(a: string, b: string)
    ensures EndsWith(a + b, b)
  {
    assert (a + b)[|a|..] == b;
  }

  /** Messages appended after those of `done` are those of the longer list. */
  lemma ExtendMessages(path: string, start: seq<string>, done: seq<Diagnostic>, step: seq<Diagnostic>,
                       errors: seq<string>)
    requires errors == start + Messages(path, done)
    ensures errors + Messages(path, step) == start + Messages(path, done + step)
  {
    MessagesAppend(path, done, step);
    AppendAssoc(start, Messages(path, done), Messages(path, step));
  }

  /** Every code is `Error` followed by the decimal form of its number, and
      the numbers 1 to 12 are used once each. */
  lemma CodeIsErrorNumber(issue: Issue)
    ensures 1 <= Number(issue) <= 12
    ensures Code(issue) == "Error" + NatToString(Number(issue))
    ensures forall other: Issue :: Number(other) == Number(issue) ==> other == issue
  {
    var n := Number(issue);
    if n < 10 {
      assert NatToString(n) == [DigitChar(n)];
    } else {
      assert NatToString(n) == NatToString(1) + [DigitChar(n % 10)];
    }
  }

  /** A code is one word: it starts with a letter, ends with a digit and
      holds neither a space nor a colon. */
  lemma CodeShape(issue: Issue)
    ensures var c := Code(issue);
      c != [] && c[0] == 'E' && IsDigit(c[|c| - 1]) &&
      forall i :: 0 <= i < |c| ==> c[i] != ' ' && c[i] != ':' && !IsSpace(c[i])
  {
    CodeIsErrorNumber(issue);
    var d := NatToString(Number(issue));
    var c := Code(issue);
    assert c == "Error" + d;
    forall i | 0 <= i < |c|
      ensures c[i] != ' ' && c[i] != ':' && !IsSpace(c[i])
    {
      if i >= 5 {
        assert c[i] == d[i - 5];
      }
    }
  }

  /** Message choice: a non-empty caller text is what the rendered line ends
      with; otherwise the line ends with the issue's default text and renders
      exactly as it does without a caller text. */
  lemma FormatMessageChoice(path: string, line: nat, issue: Issue, other: Option<string>)
    ensures other.Some? && other.value != [] ==>
      EndsWith(Format(path, line, issue, other), " " + other.value)
    ensures other.None? || other.value == [] ==>
      EndsWith(Format(path, line, issue, other), " " + DefaultMessage(issue)) &&
      Format(path, line, issue, other) == Format(path, line, issue, None)
  {
    var m := ChosenMessage(issue, other);
    AppendAssoc(" " + Code(issue), " ", m);
    EndsWithTail(Format(path, line, issue, other), " " + Code(issue), " " + m);
  }

  /** A text ending with `a + b` ends with `b`. */
  lemma EndsWithTail(s: string, a: string, b: string)
    requires EndsWith(s, a + b)
    ensures EndsWith(s, b)
  {
    assert s[|s| - |b|..] == (a + b)[|a|..];
  }
}
