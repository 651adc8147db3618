/**
  `helpers.py`: the comment splitter every comment rule uses, and the two
  parsers that read a rendered diagnostic back.
*/
module Helpers {
  import opened Wrappers
  import opened PyStr
  import opened Diagnostics

  /** `split_line`: the text before the first `#` and the text between the
      first and the second `#` (to the end when there is no second one);
      `None` for the comment when the line has no `#`. */
  function SplitLine(line: string): (r: (string, Option<string>))
    ensures r.1.None? <==> '#' !in line
    ensures StartsWith(line, r.0) && '#' !in r.0
    ensures r.1.Some? ==> '#' !in r.1.value
  {
    var parts := Split(line, '#');
    SplitPiecesFree(line, '#');
    SplitHasSecond(line, '#');
    SplitHead(line, '#');
    if |parts| > 1 then (parts[0], Some(parts[1])) else (line, None)
  }

  lemma SplitLineNoHash(line: string)
    ensures '#' !in line <==> SplitLine(line) == (line, None)
  {
    SplitHasSecond(line, '#');
  }

  /** With a `#` at index `i` (its first), the code segment is `line[..i]`
      and the comment runs from `i + 1` up to the next `#` or the end. */
  lemma {:induction false} SplitLineSegments(line: string, i: nat)
    requires i < |line| && line[i] == '#' && '#' !in line[..i]
    ensures var (code, comment) := SplitLine(line);
      var tail := line[i + 1..];
      code == line[..i] && '#' !in code &&
      comment == Some(tail[..FirstIndex(tail, '#')])
  {
    var tail := line[i + 1..];
    assert line == line[..i] + ['#'] + tail;
    SplitAtFirst(line[..i], '#', tail);
    SplitHead(tail, '#');
  }

  /** With exactly one `#`, code, marker and comment put the line back together. */
  lemma SplitLineReassembly(line: string, i: nat)
    requires i < |line| && line[i] == '#' && '#' !in line[..i] && '#' !in line[i + 1..]
    ensures SplitLine(line).1.Some?
    ensures SplitLine(line).0 + "#" + SplitLine(line).1.value == line
  {
    var tail := line[i + 1..];
    SplitLineSegments(line, i);
    assert FirstIndex(tail, '#') == |tail|;
    assert tail[..|tail|] == tail;
    assert line == line[..i] + "#" + tail;
  }

  /** `get_line`: the integer after `Line` in the second `:`-separated field;
      `None` for `None`, an exception for text of another shape. */
  function GetLine(errMsg: Option<string>): (r: Result<Option<int>, PyError>)
    ensures r == Success(None) <==> errMsg.None?
  {
    if errMsg.None? then Success(None)
    else
      var parts := Split(errMsg.value, ':');
      if |parts| < 2 then Failure(IndexError)
      else
        var words := Split(Strip(parts[1]), ' ');
        if |words| < 2 then Failure(IndexError)
        else match ParseInt(words[1])
          case Some(n) => Success(Some(n))
          case None => Failure(ValueError)
  }

  /** `get_code`: the first word of the third `:`-separated field. */
  function GetCode(errMsg: Option<string>): (r: Result<Option<string>, PyError>)
    ensures r == Success(None) <==> errMsg.None?
  {
    if errMsg.None? then Success(None)
    else
      var parts := Split(errMsg.value, ':');
      if |parts| < 3 then Failure(IndexError)
      else Success(Some(Split(Strip(parts[2]), ' ')[0]))
  }

  /** Removing trailing whitespace never reaches past a last non-space character. */
  lemma {:induction false} RStripAfterWord(a: string, b: string)
    requires a != [] && !IsSpace(a[|a| - 1])
    ensures RStrip(a + b) == a + RStrip(b)
  {
    if b != [] && IsSpace(b[|b| - 1]) {
      assert (a + b)[..|a + b| - 1] == a + b[..|b| - 1];
      RStripAfterWord(a, b[..|b| - 1]);
    }
  }

  /** `split(':')` of text laid out as a rendered message whose path holds no colon. */
  lemma {:induction false} LayoutFields(path: string, d: string, rest: string)
    requires ':' !in path && AllDigits(d)
    ensures Split(path + ":" + (" Line " + d + ":" + rest), ':') == [path, " Line " + d] + Split(rest, ':')
  {
    LineFieldNoColon(d);
    TwoFields(path, " Line " + d, rest);
  }

  /** Two colon-free fields, each followed by a colon, are the first two
      pieces of `split(':')`. */
  lemma TwoFields(a: string, b: string, rest: string)
    requires ':' !in a && ':' !in b
    ensures Split(a + ":" + (b + ":" + rest), ':') == [a, b] + Split(rest, ':')
  {
    SplitAtFirst(a, ':', b + [':'] + rest);
    SplitAtFirst(b, ':', rest);
  }

  /** The line field `" Line <digits>"` holds no colon. */
  lemma LineFieldNoColon(d: string)
    requires AllDigits(d)
    ensures ':' !in " Line " + d
  {
    var field := " Line " + d;
    forall i | 0 <= i < |field| ensures field[i] != ':' {
      if i >= 6 {
        assert field[i] == d[i - 6];
      }
    }
  }

  /** The fields of a rendered message, as `split(':')` sees them when the
      path holds no colon. */
  lemma FormatFields(path: string, line: nat, issue: Issue, other: Option<string>)
    requires ':' !in path
    ensures Split(Format(path, line, issue, other), ':') ==
      [path, " Line " + NatToString(line)] + Split(CodeAndMessage(issue, other), ':')
  {
    LayoutFields(path, NatToString(line), CodeAndMessage(issue, other));
  }

  /** The second field of a rendered message, stripped. */
  lemma LineFieldStrip(d: string)
    requires d != [] && AllDigits(d)
    ensures Strip(" Line " + d) == "Line " + d
  {
    assert " Line " + d == " " + ("Line " + d);
    assert !IsSpace(d[|d| - 1]);
    LStripOneSpace("Line " + d);
    StripUnchanged("Line " + d);
  }

  /** Round trip: `get_line` reads back the line number the builder wrote. */
  lemma GetLineRoundTrip(path: string, line: nat, issue: Issue, other: Option<string>)
    requires ':' !in path
    ensures GetLine(Some(Format(path, line, issue, other))) == Success(Some(line))
  {
    FormatFields(path, line, issue, other);
    LineFieldNumber(line);
  }

  /** The stripped second field splits into `Line` and the number's digits,
      which parse back to the number. */
  lemma LineFieldNumber(line: nat)
    ensures var d := NatToString(line);
      Split(Strip(" Line " + d), ' ') == ["Line", d] && ParseInt(d) == Some(line)
  {
    var d := NatToString(line);
    LineFieldStrip(d);
    DigitsSplit(d);
    ParseIntNatToString(line);
  }

  /** `"Line <digits>"` splits on spaces into the word and the digits. */
  lemma DigitsSplit(d: string)
    requires AllDigits(d)
    ensures Split("Line " + d, ' ') == ["Line", d]
  {
    assert "Line " + d == "Line" + [' '] + d;
    assert ' ' !in "Line";
    SplitAtFirst("Line", ' ', d);
    assert ' ' !in d by {
      forall i | 0 <= i < |d| ensures d[i] != ' ' {
        assert IsDigit(d[i]);
      }
    }
    SplitNoSeparator(d, ' ');
  }

  lemma LStripOneSpace(x: string)
    requires x != [] && !IsSpace(x[0])
    ensures LStrip(" " + x) == x
  {
    assert (" " + x)[1..] == x;
    assert LeadingSpaces(x) == 0;
    assert LeadingSpaces(" " + x) == 1;
  }

  /** Text that neither starts nor ends with whitespace is left as it is by `strip`. */
  lemma StripUnchanged(x: string)
    requires x != [] && !IsSpace(x[0]) && !IsSpace(x[|x| - 1])
    ensures LStrip(x) == x && RStrip(x) == x && Strip(x) == x
  {
    assert LeadingSpaces(x) == 0;
    assert TrailingStart(x) == |x|;
    assert x[0..] == x && x[..|x|] == x;
  }

  /** A one-word `c` followed by a space-led tail is the first word after stripping. */
  lemma {:induction false} FirstWordAfterStrip(c: string, head: string)
    requires c != [] && !IsSpace(c[0]) && !IsSpace(c[|c| - 1]) && ' ' !in c
    ensures Split(Strip(" " + c + " " + head), ' ')[0] == c
  {
    AppendAssoc(" ", c, " " + head);
    AppendAssoc(" " + c, " ", head);
    LStripOneSpace(c + (" " + head));
    RStripAfterWord(c, " " + head);
    var t := RStrip(" " + head);
    assert t == [] || t[0] == ' ';
    SplitWordThenSpace(c, t);
  }

  /** A space-free word followed by nothing or by a space is the first piece. */
  lemma SplitWordThenSpace(c: string, t: string)
    requires ' ' !in c && (t == [] || t[0] == ' ')
    ensures Split(c + t, ' ')[0] == c
  {
    if t == [] {
      assert c + t == c;
      SplitNoSeparator(c, ' ');
    } else {
      assert c + t == c + [' '] + t[1..];
      SplitAtFirst(c, ' ', t[1..]);
    }
  }

  /** The first word of the first `:`-field of `" " + c + " " + msg`, for a
      one-word `c`, is `c`. */
  lemma {:induction false} LeadingWord(c: string, msg: string)
    requires c != [] && !IsSpace(c[0]) && !IsSpace(c[|c| - 1])
    requires ' ' !in c && ':' !in c
    ensures Split(Strip(Split(" " + c + " " + msg, ':')[0]), ' ')[0] == c
  {
    assert ':' !in " " + c + " " by {
      forall i | 0 <= i < |c| + 2 ensures (" " + c + " ")[i] != ':' {
        if 1 <= i <= |c| {
          assert (" " + c + " ")[i] == c[i - 1];
        }
      }
    }
    SplitPrefix(" " + c + " ", ':', msg);
    var head := Split(msg, ':')[0];
    assert Split(" " + c + " " + msg, ':')[0] == " " + c + " " + head;
    FirstWordAfterStrip(c, head);
  }

  /** Round trip: `get_code` reads back the code the builder wrote, whatever
      the message says. */
  lemma GetCodeRoundTrip(path: string, line: nat, issue: Issue, other: Option<string>)
    requires ':' !in path
    ensures GetCode(Some(Format(path, line, issue, other))) == Success(Some(Code(issue)))
  {
    FormatFields(path, line, issue, other);
    CodeShape(issue);
    LeadingWord(Code(issue), ChosenMessage(issue, other));
  }

  lemma {:induction false} SecondFieldOneWord(drive: string, rest: string, tail: string, msg: string)
    requires ':' !in drive
    requires rest != [] && forall i :: 0 <= i < |rest| ==> rest[i] != ':' && !IsSpace(rest[i])
    requires msg == drive + [':'] + (rest + [':'] + tail)
    ensures GetLine(Some(msg)) == Failure(IndexError)
  {
    SplitAtFirst(drive, ':', rest + [':'] + tail);
    assert ':' !in rest;
    SplitAtFirst(rest, ':', tail);
    assert Split(drive + [':'] + (rest + [':'] + tail), ':')[1] == rest;
    StripUnchanged(rest);
    assert ' ' !in rest;
    SplitNoSeparator(rest, ' ');
  }

  /** The round trips need a colon-free path: in `C:/a.py` the line number is
      looked for in the field `/a.py`, which has a single word, and `get_line`
      raises. */
  lemma GetLineColonInPath(drive: string, rest: string, line: nat, issue: Issue, other: Option<string>)
    requires ':' !in drive
    requires rest != [] && forall i :: 0 <= i < |rest| ==> rest[i] != ':' && !IsSpace(rest[i])
    ensures GetLine(Some(Format(drive + ":" + rest, line, issue, other))) == Failure(IndexError)
  {
    var tail := FormatTail(line, issue, other);
    ColonRegroup(drive, rest, tail);
    SecondFieldOneWord(drive, rest, tail, Format(drive + ":" + rest, line, issue, other));
  }

  lemma ColonRegroup(drive: string, rest: string, tail: string)
    ensures drive + ":" + rest + ":" + tail == drive + [':'] + (rest + [':'] + tail)
  {
    AppendAssoc(drive + ":", rest, ":" + tail);
    AppendAssoc(drive + ":" + rest, ":", tail);
    AppendAssoc(rest, ":", tail);
    AppendAssoc(drive, ":", rest + ":" + tail);
  }
}
