/**
  The eight rules applied to one physical line (line terminator included).
  The five message rules yield the diagnostic they would raise, or `None`;
  the three name rules yield the keyword or the name they object to.
  Regular-expression matches are written out as prefix tests.
*/
module LineRules {
  import opened Wrappers
  import opened PyStr
  import opened Diagnostics
  import opened Helpers

  const MAX_LINE_LENGTH := 79

  /** Each message rule reports, at most, its own issue at the line it is
      given, with the default text. */
  function LengthCheck(line: string, idx: nat): (r: Option<Diagnostic>)
    ensures r == None || r == Some(Diagnostic(Length, idx, None))
    ensures r.Some? ==> |line| > 0
  {
    if |line| > MAX_LINE_LENGTH then Some(Diagnostic(Length, idx, None)) else None
  }

  /** Only an indented line can be reported. */
  function IndentationCheck(line: string, idx: nat): (r: Option<Diagnostic>)
    ensures r == None || r == Some(Diagnostic(Indentation, idx, None))
    ensures r.Some? ==> line != [] && IsSpace(line[0])
  {
    if line != "\n" && (|line| - |LStrip(line)|) % 4 != 0 then
      IndentedLine(line);
      Some(Diagnostic(Indentation, idx, None))
    else None
  }

  lemma IndentedLine(line: string)
    requires |LStrip(line)| < |line|
    ensures IsSpace(line[0])
  {
    assert AllSpace(line[..|line| - |LStrip(line)|]);
    assert line[..|line| - |LStrip(line)|][0] == line[0];
  }

  /** Only a line with a `;` before any `#` can be reported. */
  function SemiColonCheck(statement: string, idx: nat): (r: Option<Diagnostic>)
    ensures r == None || r == Some(Diagnostic(Semicolon, idx, None))
    ensures r.Some? ==> exists i :: 0 <= i < |statement| && statement[i] == ';' && '#' !in statement[..i]
  {
    var (code, _) := SplitLine(statement);
    if EndsWith(Strip(code), ";") then
      SemicolonInCode(statement, code);
      Some(Diagnostic(Semicolon, idx, None))
    else None
  }

  lemma SemicolonInCode(statement: string, code: string)
    requires StartsWith(statement, code) && '#' !in code && EndsWith(Strip(code), ";")
    ensures exists i :: 0 <= i < |statement| && statement[i] == ';' && '#' !in statement[..i]
  {
    var l := LStrip(code);
    var t := Strip(code);
    var i := |code| - |l| + |t| - 1;
    assert t[|t| - 1] == l[|t| - 1] == code[i];
    assert statement[..i] == code[..i];
  }

  /** Only a line with a `#` after its first character can be reported. */
  function SpaceCheck(statement: string, idx: nat): (r: Option<Diagnostic>)
    ensures r == None || r == Some(Diagnostic(Spaces, idx, None))
    ensures r.Some? ==> '#' in statement && statement[0] != '#'
  {
    var (code, comment) := SplitLine(statement);
    if comment.Some? && |code| > 0 && !EndsWith(code, "  ") then
      Some(Diagnostic(Spaces, idx, None))
    else None
  }

  /** Only a line with a `#` can be reported. */
  function TodoCheck(statement: string, idx: nat): (r: Option<Diagnostic>)
    ensures r == None || r == Some(Diagnostic(Todo, idx, None))
    ensures r.Some? ==> '#' in statement
  {
    var (_, comment) := SplitLine(statement);
    if comment.Some? && Contains(Lower(comment.value), "todo") then
      Some(Diagnostic(Todo, idx, None))
    else None
  }

  /** `kw` at the start of `s`, then at least two whitespace characters:
      what `(class|def)(\s{2,})` matches with `re.match`. */
  predicate KeywordThenSpaces(s: string, kw: string) {
    StartsWith(s, kw) && |s| >= |kw| + 2 && IsSpace(s[|kw|]) && IsSpace(s[|kw| + 1])
  }

  /** `check_construction`: the match is tried on the stripped line, the
      keyword is decided on the line as given. */
  function CheckConstruction(statement: string): (r: Option<string>)
    ensures r == None || r == Some("class") || r == Some("def")
    ensures r.Some? ==> |Strip(statement)| >= 6
  {
    var t := Strip(statement);
    if KeywordThenSpaces(t, "class") || KeywordThenSpaces(t, "def") then
      Some(if StartsWith(statement, "class") then "class" else "def")
    else None
  }

  /** `check_casing`: `statement.split(' ')[1]` raises `IndexError` when the
      line has no space. */
  function CheckCasing(statement: string): (r: Result<Option<string>, PyError>)
    ensures r.Failure? ==> r.error == IndexError && StartsWith(statement, "class") && ' ' !in statement
    ensures r.Success? && r.value.Some? ==>
      var name := r.value.value;
      StartsWith(statement, "class") && ' ' !in name && ':' !in name && (name == [] || !IsUpper(name[0]))
  {
    if !StartsWith(statement, "class") then Success(None)
    else
      var tokens := Split(statement, ' ');
      SplitHasSecond(statement, ' ');
      if |tokens| < 2 then Failure(IndexError)
      else
        var className := Strip(tokens[1]);
        if |className| > 0 && IsUpper(className[0]) then Success(None)
        else
          CutAtColonWord(statement, className);
          Success(Some(Split(className, ':')[0]))
  }

  /** The name cut from the second word keeps its first character and holds
      neither a space nor a colon. */
  lemma CutAtColonWord(statement: string, className: string)
    requires |Split(statement, ' ')| >= 2 && className == Strip(Split(statement, ' ')[1])
    ensures var name := Split(className, ':')[0];
      ' ' !in name && ':' !in name && (name != [] ==> name[0] == className[0])
  {
    SplitHasSecond(statement, ' ');
    SplitPiecesFree(statement, ' ');
    StripNoChar(Split(statement, ' ')[1], ' ');
    SplitPiecesFree(className, ':');
    SplitHead(className, ':');
  }

  /** `check_function_name`, called on the left-stripped line. */
  function CheckFunctionName(statement: string): (r: Result<Option<string>, PyError>)
    ensures r.Failure? ==> r.error == IndexError && StartsWith(statement, "def") && ' ' !in statement
    ensures r.Success? && r.value.Some? ==>
      StartsWith(statement, "def") && ' ' !in r.value.value
  {
    if !StartsWith(statement, "def") then Success(None)
    else
      var tokens := Split(statement, ' ');
      SplitHasSecond(statement, ' ');
      if |tokens| < 2 then Failure(IndexError)
      else
        var functionName := Strip(tokens[1]);
        SplitPiecesFree(statement, ' ');
        StripNoChar(tokens[1], ' ');
        if !IsLower(functionName) && '_' !in functionName then Success(Some(functionName))
        else Success(None)
  }

  // ---------------------------------------------------------------------
  // Properties of the rules

  /** The length rule fires exactly on lines of more than 79 characters,
      the terminator counted. */
  lemma LengthCheckIff(line: string, idx: nat)
    ensures LengthCheck(line, idx) == if |line| >= 80 then Some(Diagnostic(Length, idx, None)) else None
  {
  }

  /** `k` is the width of the leading whitespace of `line`. */
  predicate IndentWidth(line: string, k: nat) {
    k <= |line| && AllSpace(line[..k]) && (k == |line| || !IsSpace(line[k]))
  }

  lemma {:induction false} LStripWidth(line: string, k: nat)
    requires IndentWidth(line, k)
    ensures LStrip(line) == line[k..]
  {
    if k > 0 {
      assert line[..k][0] == line[0];
      assert line[1..][..k - 1] == line[..k][1..];
      LStripWidth(line[1..], k - 1);
    }
  }

  /** The indentation rule ignores the blank line `"\n"` and otherwise fires
      exactly when the leading whitespace is not a multiple of four wide. */
  lemma IndentationCheckIff(line: string, idx: nat, k: nat)
    requires IndentWidth(line, k)
    ensures IndentationCheck(line, idx).Some? <==> line != "\n" && k % 4 != 0
    ensures IndentationCheck(line, idx).Some? ==> IndentationCheck(line, idx).value == Diagnostic(Indentation, idx, None)
  {
    LStripWidth(line, k);
  }

  /** Left-stripping stops at the first non-space character. */
  lemma {:induction false} LStripStopsAt(s: string, j: nat)
    requires j < |s| && !IsSpace(s[j])
    ensures |s| - |LStrip(s)| <= j
  {
    if s != [] && IsSpace(s[0]) {
      LStripStopsAt(s[1..], j - 1);
    }
  }

  /** Right-stripping keeps exactly the prefix up to the last non-space character. */
  lemma {:induction false} RStripWidth(s: string, b: nat)
    requires b <= |s| && AllSpace(s[b..]) && (b == 0 || !IsSpace(s[b - 1]))
    ensures RStrip(s) == s[..b]
  {
    if b < |s| {
      assert s[b..][|s| - 1 - b] == s[|s| - 1];
      assert s[..|s| - 1][b..] == s[b..][..|s| - 1 - b];
      assert s[..|s| - 1][..b] == s[..b];
      RStripWidth(s[..|s| - 1], b);
    } else {
      assert s[..b] == s;
    }
  }

  lemma {:induction false} StripEndsWithLast(s: string, c: char)
    requires EndsWith(Strip(s), [c])
    ensures exists j :: 0 <= j < |s| && s[j] == c && AllSpace(s[j + 1..])
  {
    var l := LStrip(s);
    var a := |s| - |l|;
    var t := RStrip(l);
    var j := a + |t| - 1;
    assert t[|t| - 1] == c;
    assert s[j] == l[|t| - 1] == c;
    assert s[j + 1..] == l[|t|..];
  }

  lemma {:induction false} LastEndsStrip(s: string, c: char, j: nat)
    requires !IsSpace(c)
    requires j < |s| && s[j] == c && AllSpace(s[j + 1..])
    ensures EndsWith(Strip(s), [c])
  {
    var l := LStrip(s);
    var a := |s| - |l|;
    LStripStopsAt(s, j);
    assert l[j - a] == c;
    assert l[j - a + 1..] == s[j + 1..];
    RStripWidth(l, j - a + 1);
    var t := RStrip(l);
    assert t[|t| - 1..] == [c];
  }

  /** After stripping, `s` ends with the non-space `c` exactly when `c` is the
      last non-whitespace character of `s`. */
  lemma StripEndsWith(s: string, c: char)
    requires !IsSpace(c)
    ensures EndsWith(Strip(s), [c]) <==> exists j :: 0 <= j < |s| && s[j] == c && AllSpace(s[j + 1..])
  {
    if EndsWith(Strip(s), [c]) {
      StripEndsWithLast(s, c);
    }
    if j :| 0 <= j < |s| && s[j] == c && AllSpace(s[j + 1..]) {
      LastEndsStrip(s, c, j);
    }
  }

  /** The semicolon rule fires exactly when the last non-whitespace character
      before the first `#` is a `;`. */
  lemma SemiColonCheckIff(line: string, idx: nat)
    ensures var code := SplitLine(line).0;
      SemiColonCheck(line, idx).Some? <==>
      exists j :: 0 <= j < |code| && code[j] == ';' && AllSpace(code[j + 1..])
  {
    StripEndsWith(SplitLine(line).0, ';');
  }

  lemma EndsWithTwoSpaces(code: string)
    ensures EndsWith(code, "  ") <==> |code| >= 2 && code[|code| - 2] == ' ' && code[|code| - 1] == ' '
  {
    if |code| >= 2 {
      assert code[|code| - 2..] == [code[|code| - 2], code[|code| - 1]];
    }
  }

  /** The spacing rule fires exactly when the line has a `#` that is not its
      first character and fewer than two spaces stand right before the first one. */
  lemma SpaceCheckIff(line: string, idx: nat)
    ensures var i := FirstIndex(line, '#');
      SpaceCheck(line, idx).Some? <==>
      i < |line| && 0 < i && !(i >= 2 && line[i - 2] == ' ' && line[i - 1] == ' ')
  {
    var i := FirstIndex(line, '#');
    if i < |line| {
      SplitLineSegments(line, i);
      EndsWithTwoSpaces(line[..i]);
    } else {
      SplitLineNoHash(line);
    }
  }

  /** `todo` occurs, in any mix of cases, at index `i` of `s`. */
  predicate TodoAt(s: string, i: int) {
    0 <= i && i + 4 <= |s| &&
    LowerChar(s[i]) == 't' && LowerChar(s[i + 1]) == 'o' &&
    LowerChar(s[i + 2]) == 'd' && LowerChar(s[i + 3]) == 'o'
  }

  lemma TodoAtLower(s: string, i: int)
    ensures TodoAt(s, i) <==> 0 <= i <= |Lower(s)| && StartsWith(Lower(s)[i..], "todo")
  {
    if 0 <= i && i + 4 <= |s| {
      assert Lower(s)[i..][..4] == [LowerChar(s[i]), LowerChar(s[i + 1]), LowerChar(s[i + 2]), LowerChar(s[i + 3])];
    }
  }

  lemma ContainsTodo(s: string)
    ensures Contains(Lower(s), "todo") <==> exists k :: TodoAt(s, k)
  {
    forall k ensures TodoAt(s, k) <==> 0 <= k <= |Lower(s)| && StartsWith(Lower(s)[k..], "todo") {
      TodoAtLower(s, k);
    }
  }

  /** The TODO rule fires exactly when the line has a `#` and the text between
      the first and the second `#` holds `todo` in any mix of cases. */
  lemma TodoCheckIff(line: string, idx: nat)
    ensures TodoCheck(line, idx).Some? <==> '#' in line && exists k :: TodoAt(SecondField(line, '#'), k)
  {
    var i := FirstIndex(line, '#');
    if i < |line| {
      SplitLineSegments(line, i);
      var comment := SecondField(line, '#');
      assert SplitLine(line).1 == Some(comment);
      ContainsTodo(comment);
    } else {
      assert line[..i] == line;
      SplitLineNoHash(line);
    }
  }

  /** A keyword with two whitespace characters after it, on the left-stripped
      line, with something other than whitespace still to come. */
  predicate SpacedKeyword(l: string, kw: string) {
    KeywordThenSpaces(l, kw) && !AllSpace(l[|kw| + 2..])
  }

  lemma {:induction false} StripKeyword(l: string, kw: string)
    ensures KeywordThenSpaces(RStrip(l), kw) <==> SpacedKeyword(l, kw)
  {
    var t := RStrip(l);
    forall q | |t| <= q < |l| ensures IsSpace(l[q]) {
      assert l[|t|..][q - |t|] == l[q];
    }
    if KeywordThenSpaces(t, kw) {
      var p := |t| - 1;
      assert t[|kw|] == l[|kw|] && t[|kw| + 1] == l[|kw| + 1];
      assert p >= |kw| + 2;
      assert l[|kw| + 2..][p - |kw| - 2] == l[p] == t[p];
      assert t[..|kw|] == l[..|kw|];
    }
    if SpacedKeyword(l, kw) {
      var w :| 0 <= w < |l| - |kw| - 2 && !IsSpace(l[|kw| + 2..][w]);
      assert l[|kw| + 2 + w] == l[|kw| + 2..][w];
      assert |t| > |kw| + 2 + w;
      assert t[..|kw|] == l[..|kw|];
      assert t[|kw|] == l[|kw|] && t[|kw| + 1] == l[|kw| + 1];
    }
  }

  /** The construction rule fires exactly when the left-stripped line starts
      with `class` or `def`, then two whitespace characters, with more than
      whitespace after them; it names `class` only when the line as given
      starts with `class`, so an indented class reports `def`. */
  lemma CheckConstructionIff(line: string)
    ensures var l := LStrip(line);
      CheckConstruction(line).Some? <==> SpacedKeyword(l, "class") || SpacedKeyword(l, "def")
    ensures CheckConstruction(line).Some? ==>
      (CheckConstruction(line).value == "class" <==> StartsWith(line, "class")) &&
      (CheckConstruction(line).value == "class" || CheckConstruction(line).value == "def")
  {
    StripKeyword(LStrip(line), "class");
    StripKeyword(LStrip(line), "def");
  }

  /** The class rule: nothing on lines not starting with `class`; an
      `IndexError` when such a line has no space; otherwise the second
      space-separated word, stripped, is reported (cut at its first `:`)
      unless it starts with a capital letter. */
  lemma CheckCasingIff(line: string)
    ensures !StartsWith(line, "class") ==> CheckCasing(line) == Success(None)
    ensures StartsWith(line, "class") && ' ' !in line ==> CheckCasing(line) == Failure(IndexError)
    ensures StartsWith(line, "class") && ' ' in line ==>
      var name := Strip(SecondField(line, ' '));
      CheckCasing(line) ==
        if name != [] && IsUpper(name[0]) then Success(None)
        else Success(Some(name[..FirstIndex(name, ':')]))
  {
    SplitHasSecond(line, ' ');
    if ' ' in line {
      SplitSecond(line, ' ');
      SplitHead(Strip(SecondField(line, ' ')), ':');
    }
  }

  /** The function rule: nothing on lines not starting with `def`; an
      `IndexError` when such a line has no space; otherwise the whole second
      space-separated word, stripped, is reported when it is not `islower`
      and holds no underscore. */
  lemma CheckFunctionNameIff(line: string)
    ensures !StartsWith(line, "def") ==> CheckFunctionName(line) == Success(None)
    ensures StartsWith(line, "def") && ' ' !in line ==> CheckFunctionName(line) == Failure(IndexError)
    ensures StartsWith(line, "def") && ' ' in line ==>
      var name := Strip(SecondField(line, ' '));
      CheckFunctionName(line) ==
        if !IsLower(name) && '_' !in name then Success(Some(name)) else Success(None)
  {
    SplitHasSecond(line, ' ');
    if ' ' in line {
      SplitSecond(line, ' ');
    }
  }

  // ---------------------------------------------------------------------
  // Worked cases, among them the quirks of the prefix matches

  /** A line whose second word, once stripped, ends with the terminator only. */
  lemma StripWordLine(tail: string, word: string)
    requires tail == word + "\n" && word != [] && !IsSpace(word[0]) && !IsSpace(word[|word| - 1])
    ensures Strip(tail) == word
  {
    assert LStrip(tail) == tail;
    assert tail[..|tail| - 1] == word;
    assert RStrip(tail) == word;
  }

  /** The second field of `kw + " " + word + "\n"` for space-free `kw`, `word`. */
  lemma SecondWord(line: string, kw: string, word: string)
    requires line == kw + " " + word + "\n" && ' ' !in kw && ' ' !in word
    ensures SecondField(line, ' ') == word + "\n"
  {
    assert line[..|kw|] == kw && line[|kw|] == ' ';
    FirstIndexAt(line, ' ', |kw|);
    var tail := line[|kw| + 1..];
    assert tail == word + "\n";
    assert ' ' !in tail;
    FirstIndexAt(tail, ' ', |tail|);
    assert tail[..|tail|] == tail;
  }

  /** A line `<kw> <word>` (terminator included) starts with the keyword,
      holds a space, and its stripped second field is the word. */
  lemma KeywordLine(line: string, kw: string, word: string)
    requires line == kw + " " + word + "\n" && ' ' !in kw && ' ' !in word
    requires word != [] && !IsSpace(word[0]) && !IsSpace(word[|word| - 1])
    ensures StartsWith(line, kw) && ' ' in line
    ensures Strip(SecondField(line, ' ')) == word
  {
    assert line[..|kw|] == kw && line[|kw|] == ' ';
    SecondWord(line, kw, word);
    StripWordLine(SecondField(line, ' '), word);
  }

  lemma CutAtColon(name: string)
    requires name == "foo:"
    ensures name[..FirstIndex(name, ':')] == "foo"
  {
    FirstIndexAt(name, ':', 3);
  }

  /** `class foo:` reports the name `foo`, cut at the colon. */
  lemma CheckCasingLowerName(line: string)
    requires line == "class foo:\n"
    ensures CheckCasing(line) == Success(Some("foo"))
  {
    assert line == "class" + " " + "foo:" + "\n";
    KeywordLine(line, "class", "foo:");
    CutAtColon(Strip(SecondField(line, ' ')));
    CheckCasingIff(line);
  }

  /** `class_a=1` starts with `class` but has no space: the rule raises. */
  lemma CheckCasingNoSpace(line: string)
    requires line == "class_a=1\n"
    ensures CheckCasing(line) == Failure(IndexError)
  {
    assert line[..5] == "class";
    assert ' ' !in line;
    CheckCasingIff(line);
  }

  lemma FooBarNotSnake(name: string)
    requires name == "FooBar():"
    ensures !IsLower(name) && '_' !in name
  {
    assert IsUpper(name[0]);
  }

  /** `def FooBar():` reports the whole word, parentheses and colon included. */
  lemma CheckFunctionNameWholeWord(line: string)
    requires line == "def FooBar():\n"
    ensures CheckFunctionName(line) == Success(Some("FooBar():"))
  {
    assert line == "def" + " " + "FooBar():" + "\n";
    KeywordLine(line, "def", "FooBar():");
    FooBarNotSnake(Strip(SecondField(line, ' ')));
    CheckFunctionNameIff(line);
  }

  lemma IndentOfFour(line: string)
    requires line == "    class  Foo:\n"
    ensures LStrip(line) == "class  Foo:\n"
  {
    assert line[..4] == "    ";
    assert IndentWidth(line, 4);
    LStripWidth(line, 4);
  }

  lemma ClassTwoSpaces(l: string)
    requires l == "class  Foo:\n"
    ensures SpacedKeyword(l, "class")
  {
    assert l[..5] == "class";
    assert l[7..][0] == 'F';
  }

  /** An indented `class` with two spaces after it is reported as `def`,
      because the keyword is looked for on the unstripped line. */
  lemma CheckConstructionIndentedClass(line: string)
    requires line == "    class  Foo:\n"
    ensures CheckConstruction(line) == Some("def")
  {
    IndentOfFour(line);
    ClassTwoSpaces(LStrip(line));
    assert line[0] != 'c';
    CheckConstructionIff(line);
  }
}
