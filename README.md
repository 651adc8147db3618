# green-tree style checker: the rule engine in Dafny

green-tree is a small Python style checker. This project models its rule
engine and proves properties of it:

- the `CustomError` table and message builder;
- the eight per-line rules;
- the `file_checks` loop, which applies the rules line by line and counts
  runs of blank lines;
- `ArgumentVisitor`, which checks argument names, local assignments and
  default values on every function definition of the parsed syntax tree;
- the helpers `split_line`, `get_line` and `get_code`.

The modules follow the source:

| module | file | models |
|---|---|---|
| `Wrappers` | `wrappers.dfy` | `Option` and `Result` (a value or the exception raised) |
| `PyStr` | `pystr.dfy` | the `str` operations the checker calls (`strip`, `lstrip`, `lower`, `islower`, `split`, `endswith`, `in`), `str(n)` and `int(s)`, over ASCII, with `rstrip` and a prefix test `startswith` as building blocks (the prefix test stands in for `re.match`) |
| `Diagnostics` | `diagnostics.dfy` | the `CustomError` table (codes `Error1` to `Error12` and their default texts, byte for byte) and the message `<path>: Line <n>: <code> <message>` |
| `Helpers` | `helpers.dfy` | `split_line`, `get_line`, `get_code` |
| `LineRules` | `line_rules.dfy` | `length_check`, `indentation_check`, `semi_colon_check`, `space_check`, `todo_check`, `check_construction`, `check_casing`, `check_function_name` |
| `FileScan` | `file_scan.dfy` | the specification of `file_checks`: the verdict of the rules on each line, then a scan over the verdicts that carries the blank-line counter |
| `FileChecker` | `file_checks.dfy` | `file_checks` as a method with the source's loop, proved equal to the scan; properties of the scan over a whole file |
| `SyntaxTree` | `syntax_tree.dfy` | the parsed tree as a datatype, the `ArgumentVisitor` class with its `errors` list, and `ast_checks` |

Modelling choices:

- The global `file_path` that the message builder reads becomes a `path`
  parameter.
- A rule that would return a message returns the `Diagnostic` (issue, line,
  caller text) instead. `Diagnostics.Message` renders it. The loops keep the
  source's lists of rendered strings and `None`s.
- `split(' ')[1]` raises `IndexError` on a line without a space. This raise
  is modelled as `Failure(IndexError)`. It stops `file_checks`, because the
  exception propagates.
- `re.match` with the patterns `class`, `def` and `(class|def)(\s{2,})`
  becomes a prefix test, or a prefix followed by two whitespace characters.
- Python's truthiness tests (`if other_message`, `if class_case`, ...)
  become explicit checks for a present, non-empty string.
- `ast.parse` is not modelled. The tree is an input:
  - `FunctionDef(lineno, args, defaults, body)`, `ClassDef`, `Assign`,
    compound statements with their nested statements, and `Other`;
  - expressions only by their kind (`Constant`, `Name`, `List`, `Dict`,
    `Call`, other).

In these places the code does something other than what the rules' own
messages and docstrings suggest. The model follows the code:

- The function-name rule reports the whole second word of the line. For
  `def FooBar():` it reports `FooBar():`, not `FooBar`
  (`LineRules.CheckFunctionNameWholeWord`).
- The construction rule tests for the keyword on the stripped line but picks
  `class` or `def` on the line as given. An indented `class  Foo:` is
  therefore reported as `def` (`LineRules.CheckConstructionIndentedClass`).
- The class and function rules are prefix tests, so `classify = 1` and
  `default = 1` trigger them. `class_a=1` has no space, so it raises
  `IndexError` (`LineRules.CheckCasingNoSpace`).
- A lower-case one-word local variable such as `total` is reported, because
  the rule only looks for an underscore (`SyntaxTree.VisitExample`).
- The round trips of `get_line` and `get_code` need a path without a `:`.
  With a path of the form `drive:rest`, where `rest` is non-empty and holds
  neither a colon nor whitespace (`C:/a.py`), `get_line` raises
  (`Helpers.GetLineColonInPath`).

## Model

| member | source | states |
|---|---|---|
| Diagnostics.Format | analyzer.py:19 | the message starts with `<path>: Line <str(n)>:` and ends with ` <code> <text>`, where the text is the caller's when non-empty and the issue's default otherwise |
| Diagnostics.CodeIsErrorNumber | analyzer.py:5-16 | every issue's code is `Error` followed by the decimal form of its number 1..12, and no two issues share a number |
| Diagnostics.CodeShape | analyzer.py:5-16 | every code is one word: starts with `E`, ends with a digit, and holds no space, whitespace or colon |
| Diagnostics.FormatMessageChoice | analyzer.py:19 | a non-empty caller text ends the message. Otherwise (absent or empty) the message ends with the issue's default text and is the same as with no caller text |
| PyStr.Strip | analyzer.py:64 | `strip` gives the middle of its input: what remains after removing an all-whitespace prefix and an all-whitespace suffix, and what it gives neither starts nor ends with whitespace |
| PyStr.Lower | analyzer.py:103 | `lower` keeps the length, turns each upper-case letter into the same letter in lower case, and changes no other character |
| PyStr.IsLower | analyzer.py:97 | a text that `islower` accepts is non-empty and left unchanged by `lower` |
| PyStr.Split | helpers.py:5 | `split(sep)` always gives at least one piece; `SplitPiecesFree` and `SplitJoin` pin down the pieces |
| PyStr.ParseInt | helpers.py:43 | `int` succeeds only on text whose stripped form ends with a digit, and gives a negative value only when that form starts with `-` |
| PyStr.LStrip | analyzer.py:58 | `lstrip` removes exactly the longest all-whitespace prefix: what is left is a suffix that does not start with whitespace |
| PyStr.RStrip | analyzer.py:64 | `rstrip` removes exactly the longest all-whitespace suffix |
| PyStr.SplitPiecesFree | helpers.py:5 | no piece of `s.split(sep)` contains `sep` |
| PyStr.SplitJoin | helpers.py:5 | joining the pieces of `s.split(sep)` with `sep` gives `s` back |
| PyStr.SplitHasSecond | analyzer.py:89 | `split(sep)` has a second piece exactly when `sep` occurs, so `[1]` raises exactly when it does not |
| PyStr.SplitSecond | analyzer.py:96 | the second piece of a split is the text between the first and second separator |
| PyStr.NatToString | analyzer.py:19 | `str(n)` is a non-empty run of decimal digits whose value is `n`, with no leading zero unless `n` is 0 |
| PyStr.NatToStringCanonical | analyzer.py:19 | any non-empty digit string without a superfluous leading zero is `str` of its value, so `str(n)` is the one canonical decimal form of `n` |
| PyStr.ParseIntNatToString | helpers.py:43 | `int(str(n)) == n` |
| Helpers.SplitLine | helpers.py:4-11 | the comment segment is absent exactly when the line has no `#`; the code segment is a prefix of the line without `#`, and the comment holds no `#` |
| Helpers.SplitLineNoHash | helpers.py:4-11 | a line has no `#` exactly when `split_line` returns `(line, None)` |
| Helpers.SplitLineSegments | helpers.py:5-8 | with its first `#` at `i`, the code segment is `line[..i]` (no `#` in it), and the comment is the text after it up to the next `#` or the end |
| Helpers.SplitLineReassembly | helpers.py:5-8 | with exactly one `#`, code + `#` + comment is the line |
| Helpers.GetLine | helpers.py:40-43 | `get_line` gives `None` exactly for a `None` message |
| Helpers.GetCode | helpers.py:46-49 | `get_code` gives `None` exactly for a `None` message |
| Helpers.FormatFields | analyzer.py:19 | a message whose path has no colon splits on `:` into the path, ` Line <n>`, then the fields of ` <code> <message>` |
| Helpers.GetLineRoundTrip | helpers.py:40-43 | for a colon-free path, `get_line` of a built message is its line number |
| Helpers.GetCodeRoundTrip | helpers.py:46-49 | for a colon-free path, `get_code` of a built message is its issue's code, whatever the caller text holds |
| Helpers.GetLineColonInPath | helpers.py:40-43 | for a path `drive:rest` whose `drive` has no colon and whose `rest` is non-empty and holds neither a colon nor whitespace (such as `C:/a.py`), `get_line` of a built message raises `IndexError` |
| LineRules.LengthCheck | analyzer.py:52-54 | reports at most Error1 at the given line with its default text, and only on a non-empty line; `LengthCheckIff` says when |
| LineRules.IndentationCheck | analyzer.py:57-59 | reports at most Error2 at the given line with its default text, and only on a line that starts with whitespace |
| LineRules.SemiColonCheck | analyzer.py:62-65 | reports at most Error3 at the given line with its default text, and only when a `;` stands before any `#` |
| LineRules.SpaceCheck | analyzer.py:68-71 | reports at most Error4 at the given line with its default text, and only on a line with a `#` that does not start with `#` |
| LineRules.TodoCheck | analyzer.py:101-104 | reports at most Error5 at the given line with its default text, and only on a line with a `#` |
| LineRules.CheckConstruction | analyzer.py:74-83 | gives nothing, `class` or `def`; it gives a keyword only when the stripped line has at least six characters (keyword, two whitespace characters, more) |
| LineRules.CheckCasing | analyzer.py:86-91 | raises only `IndexError`, only on a `class` line without a space; a reported name comes from a `class` line, holds neither a space nor a colon, and does not start with `A`-`Z` |
| LineRules.CheckFunctionName | analyzer.py:94-98 | raises only `IndexError`, only on a `def` line without a space; a reported name comes from a `def` line and is one space-free word |
| LineRules.LengthCheckIff | analyzer.py:52-54 | Error1 exactly on lines over 79 characters, terminator included |
| LineRules.IndentationCheckIff | analyzer.py:57-59 | never on `"\n"`; otherwise Error2 exactly when the leading whitespace width is not a multiple of 4 |
| LineRules.SemiColonCheckIff | analyzer.py:62-65 | Error3 exactly when the last non-whitespace character of the code segment is `;` |
| LineRules.SpaceCheckIff | analyzer.py:68-71 | Error4 exactly when the line has a `#`, something stands before the first one, and that is not two spaces |
| LineRules.TodoCheckIff | analyzer.py:101-104 | Error5 exactly when there is a `#` and `todo`, in any case, occurs between the first and second `#` |
| LineRules.CheckConstructionIff | analyzer.py:74-83 | fires exactly when the left-stripped line has `class` or `def`, two whitespace characters, then more than whitespace. The result is `class` exactly when the unstripped line starts with `class`, otherwise `def` |
| LineRules.CheckConstructionIndentedClass | analyzer.py:78-82 | `    class  Foo:` yields `def` |
| LineRules.CheckCasingIff | analyzer.py:86-91 | nothing unless the line starts with `class`; `IndexError` when it has no space; otherwise the stripped second word, cut at its first `:`, unless it starts with `A`-`Z` |
| LineRules.CheckCasingLowerName | analyzer.py:86-91 | `class foo:` yields `foo` |
| LineRules.CheckCasingNoSpace | analyzer.py:88-89 | `class_a=1` raises `IndexError` |
| LineRules.CheckFunctionNameIff | analyzer.py:94-98 | nothing unless the line starts with `def`; `IndexError` when it has no space; otherwise the whole stripped second word when it is not `islower` and has no `_` |
| LineRules.CheckFunctionNameWholeWord | analyzer.py:94-98 | `def FooBar():` yields `FooBar():` |
| FileScan.Judge | analyzer.py:117-137 | the verdict on one line: a raise is always `IndexError`, a blank verdict only for `"\n"`, and a checked line has five rule slots and three name slots |
| FileScan.Judges | analyzer.py:117 | one verdict per line, numbered from 1 as `enumerate(file, start=1)` does, and every raise among them is `IndexError` |
| FileScan.Scan | analyzer.py:117-138 | the loop over the verdicts fails only with an exception one of them raised, and succeeds only when none raised |
| FileScan.FileDiagnostics | analyzer.py:114-138 | over a whole file the scan raises only `IndexError`, and an empty file has no diagnostics |
| FileChecker.RaisesIff | analyzer.py:118-119 | a line makes the loop raise exactly when it starts with `class` and has no space, or its left-stripped form starts with `def` and has no space |
| FileChecker.JudgeIff | analyzer.py:117-122 | the verdict on a line raises `IndexError` exactly when a name rule raises. Otherwise it is blank exactly for `"\n"`, and each of its slots holds the issue of that slot's number at that line |
| FileChecker.LineShape | analyzer.py:123-136 | a checked line's diagnostics are all at that line, in rule-number order, and include Error6 exactly when more than two blank lines came just before |
| FileChecker.CheckedLine | analyzer.py:123-136 | the loop body on a non-blank line: its non-`None` entries are the messages of the five rules, Error6 and the three name rules, in that order |
| FileChecker.CasingRaisedStep | analyzer.py:118 | when the class rule raises on a line, the whole scan ends with that exception |
| FileChecker.FunctionRaisedStep | analyzer.py:119 | when the function rule raises on a line, the whole scan ends with that exception |
| FileChecker.BlankLineStep | analyzer.py:120-122 | a blank line adds nothing and the rest of the scan continues with the counter one higher |
| FileChecker.CheckedLineStep | analyzer.py:123-136 | any other line adds its diagnostics, and the rest of the scan continues with the counter at 0 |
| FileChecker.FileChecks | analyzer.py:114-138 | `file_checks` returns the messages of the scan's diagnostics, or raises the exception the scan raises |
| FileChecker.ScanFails | analyzer.py:117-119 | the scan raises exactly when some line's verdict raised, and with that exception |
| FileChecker.ScanOrdered | analyzer.py:117-138 | a successful scan lists its diagnostics by line, and by rule order within a line, each on a checked line |
| FileChecker.ScanBlankRuns | analyzer.py:121-129 | Error6 is at line `n` exactly when `n` is checked and the counter on reaching it exceeds 2 |
| FileChecker.ThreeBlanks | analyzer.py:117-129 | from the start of a file, the counter exceeds 2 exactly when the last three lines were blank |
| FileChecker.FirstBlankRuns | analyzer.py:121-129 | from line 1, Error6 is at exactly the checked lines preceded by three blank lines |
| FileChecker.FileFails | analyzer.py:114-138 | `file_checks` raises exactly when some line raises, and the exception is `IndexError` |
| FileChecker.FileShape | analyzer.py:114-138 | on success: diagnostics in line and rule order, only on non-blank lines numbered 1..(number of lines), and Error6 on exactly the non-blank lines after three `"\n"` lines |
| SyntaxTree.OwnDiagnostics | analyzer.py:30-45 | a definition's own checks are Error10, Error11 or Error12 with the default text, none on a line before the definition's |
| SyntaxTree.NodeDiagnostics | analyzer.py:30-46 | everything the visitor reports on a node and the statements inside it is Error10, Error11 or Error12 with the default text; `OuterBeforeNested` and `NestedOccurs` give the order |
| SyntaxTree.VarDiagnostics | analyzer.py:36-42 | every assignment report is Error11 with the default text, at a line from `lineno + 1` to `lineno` plus the number of body statements |
| SyntaxTree.ArgDiagnosticsCount | analyzer.py:32-35 | one Error10 at the definition's line per argument that is neither `islower` nor holds `_`, and nothing else |
| SyntaxTree.VarDiagnosticsIff | analyzer.py:36-42 | Error11 at `lineno + k` exactly when body statement k (counting from 1) assigns to a first-target name without `_`, in body order |
| SyntaxTree.DefaultDiagnosticsCount | analyzer.py:43-45 | one Error12 at the definition's line per default that is not a constant, and nothing else |
| SyntaxTree.NestedOccurs | analyzer.py:46 | the own checks of every definition nested anywhere in a node appear together, in order, among the diagnostics of its body |
| SyntaxTree.OuterBeforeNested | analyzer.py:30-46 | a definition's own diagnostics come first, and each nested definition's follow, kept together |
| SyntaxTree.VisitExample | analyzer.py:30-46 | `def f(myArg, x=[])` on line 1 whose body is `total = 1` followed by one other statement (such as `return total`) gives Error10 and Error12 at line 1 and Error11 at line 2, in order: argument, assignment, default |
| SyntaxTree.ArgumentVisitor.constructor | analyzer.py:27-28 | a new visitor has no errors |
| SyntaxTree.ArgumentVisitor.Visit | analyzer.py:26-46 | visiting a node appends the messages of its diagnostics in pre-order; definitions get their own checks first |
| SyntaxTree.ArgumentVisitor.VisitFunctionDef | analyzer.py:30-46 | appends the argument, then assignment, then default messages of the definition, then those of its nested statements |
| SyntaxTree.ArgumentVisitor.CheckArgs | analyzer.py:32-35 | the argument loop appends one Error10 message per badly named argument |
| SyntaxTree.ArgumentVisitor.CheckAssignments | analyzer.py:36-42 | the body loop, with `item_line` counting statements from 1, appends the Error11 messages of the body |
| SyntaxTree.ArgumentVisitor.CheckDefaults | analyzer.py:43-45 | the defaults loop appends one Error12 message per non-constant default |
| SyntaxTree.ArgumentVisitor.GenericVisit | analyzer.py:46 | visits the nested statements in order, appending their messages |
| SyntaxTree.ArgumentVisitor.GetNodeErrors | analyzer.py:48-49 | returns the collected messages |
| SyntaxTree.AstChecks | analyzer.py:107-111 | the messages of the whole tree's diagnostics, in pre-order |

## Left out

- `list_files` and `extract_folder` (helpers.py:18-37) only list directories. They are file-system I/O.
- `is_py` (helpers.py:14-15) only wraps `os.path`.
- The `__main__` driver (analyzer.py:141-155) is left out:
  - it reads `sys.argv`, opens and reads files, concatenates the line-level and tree-level messages, and prints them;
  - `file_path` is a parameter of the model instead.
- `ast.parse` (analyzer.py:108) and the `SyntaxError` it raises are the parser itself. The tree is an input.
- `NodeVisitor`'s dynamic dispatch is written out as `Visit`:
  - definitions go to `VisitFunctionDef`, everything else to `GenericVisit`;
  - `generic_visit` walks only the statements nested in a node. Expressions cannot hold definitions in the modelled tree;
  - `AsyncFunctionDef` and the other statement kinds become `Compound` or `Other`; `Lambda` and the other expression kinds become `OtherExpr`. Keyword-only arguments and their defaults are not in the tree, since the visitor does not look at them.
- SyntaxTree.ArgumentVisitor.VisitFunctionDef: its three loops are written as the methods `CheckArgs`, `CheckAssignments` and `CheckDefaults`. Each keeps the source's loop.
- Strings are sequences of characters with ASCII semantics:
  - `isspace`, `islower` and `lower` know only ASCII letters and whitespace;
  - the Unicode cases of these methods are not modelled.
- Exceptions are modelled as `Failure(IndexError)` and `Failure(ValueError)` results. Python's exception objects and tracebacks are not modelled.
- PyStr.ParseInt: Python's `int()` is modelled only for ASCII input:
  - whitespace, an optional sign, then decimal digits with single underscores between them;
  - Python also accepts non-ASCII digits. The model treats them as malformed, so `get_line` raises `ValueError` on them.
