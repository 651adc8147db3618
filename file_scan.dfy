/**
  The specification `file_checks` is proved against: the verdict of the
  rules on each line, and the scan that turns the verdicts into the file's
  diagnostics while counting consecutive blank lines.
*/
module FileScan {
  import opened Wrappers
  import opened PyStr
  import opened Diagnostics
  import opened LineRules

  /** `if o:` on an optional string. */
  predicate Truthy(o: Option<string>) {
    o.Some? && o.value != []
  }

  /** The list of a present value, the empty list for `None`. */
  function AsList<T>(o: Option<T>): seq<T> {
    if o.Some? then [o.value] else []
  }

  /** `[x for x in xs if x is not None]`. */
  function Somes<T>(xs: seq<Option<T>>): (r: seq<T>)
    ensures |r| <= |xs|
  {
    if xs == [] then [] else AsList(xs[0]) + Somes(xs[1..])
  }

  /** The filter keeps exactly the present values. */
  lemma {:induction false} SomesMembers<T>(xs: seq<Option<T>>, v: T)
    ensures v in Somes(xs) <==> Some(v) in xs
  {
    if xs != [] {
      SomesMembers(xs[1..], v);
      assert xs == [xs[0]] + xs[1..];
    }
  }

  lemma {:induction false} SomesAppend<T>(a: seq<Option<T>>, b: seq<Option<T>>)
    ensures Somes(a + b) == Somes(a) + Somes(b)
  {
    if a != [] {
      assert (a + b)[1..] == a[1..] + b;
      SomesAppend(a[1..], b);
    } else {
      assert a + b == b;
    }
  }

  /** The message of an optional diagnostic. */
  function Render(path: string, o: Option<Diagnostic>): Option<string> {
    if o.Some? then Some(Message(path, o.value)) else None
  }

  function RenderAll(path: string, os: seq<Option<Diagnostic>>): (r: seq<Option<string>>)
    ensures |r| == |os|
  {
    seq(|os|, i requires 0 <= i < |os| => Render(path, os[i]))
  }

  /** Rendering commutes with dropping the `None`s. */
  lemma {:induction false} SomesRenderAll(path: string, os: seq<Option<Diagnostic>>)
    ensures Somes(RenderAll(path, os)) == Messages(path, Somes(os))
  {
    if os != [] {
      assert RenderAll(path, os)[1..] == RenderAll(path, os[1..]);
      SomesRenderAll(path, os[1..]);
      MessagesAppend(path, AsList(os[0]), Somes(os[1..]));
    }
  }

  function ConstructionError(idx: nat, construction: string): Diagnostic {
    Diagnostic(ConstructionSpace, idx, Some("Too many spaces after '" + construction + "'"))
  }

  function CasingError(idx: nat, className: string): Diagnostic {
    Diagnostic(Casing, idx, Some("Class name '" + className + "' should be written in CamelCase"))
  }

  function FunctionNameError(idx: nat, functionName: string): Diagnostic {
    Diagnostic(FunctionName, idx, Some("Function name '" + functionName + "' should be written in snake_case"))
  }

  /** The five message rules, in the order they are appended. */
  function RuleChecks(line: string, idx: nat): seq<Option<Diagnostic>> {
    [LengthCheck(line, idx), IndentationCheck(line, idx), SemiColonCheck(line, idx),
     SpaceCheck(line, idx), TodoCheck(line, idx)]
  }

  /** The three name rules, turned into diagnostics when their result is truthy. */
  function NameChecks(idx: nat, construction: Option<string>, classCase: Option<string>,
                      functionName: Option<string>): seq<Option<Diagnostic>>
  {
    [if Truthy(construction) then Some(ConstructionError(idx, construction.value)) else None,
     if Truthy(classCase) then Some(CasingError(idx, classCase.value)) else None,
     if Truthy(functionName) then Some(FunctionNameError(idx, functionName.value)) else None]
  }

  /** The function rule as the loop applies it, to the left-stripped line. */
  function FunctionNameCheck(line: string): Result<Option<string>, PyError> {
    CheckFunctionName(LStrip(line))
  }

  /** What the rules make of one line: the exception a name rule raised, a
      blank line, or the message rules' and the name rules' results. */
  datatype Verdict =
    | Raised(error: PyError)
    | Blank
    | Checked(rules: seq<Option<Diagnostic>>, names: seq<Option<Diagnostic>>)

  /** The rules applied to line number `idx`. The three name rules run before
      the blank-line test, so a raising rule wins over it. */
  function Judge(line: string, idx: nat): (r: Verdict)
    ensures r.Raised? ==> r.error == IndexError
    ensures r.Blank? ==> line == "\n"
    ensures r.Checked? ==> |r.rules| == 5 && |r.names| == 3
  {
    var construction := CheckConstruction(line);
    var classCase := CheckCasing(line);
    var functionName := FunctionNameCheck(line);
    if classCase.Failure? then Raised(classCase.error)
    else if functionName.Failure? then Raised(functionName.error)
    else if line == "\n" then Blank
    else Checked(RuleChecks(line, idx), NameChecks(idx, construction, classCase.value, functionName.value))
  }

  /** `f` applied to each element and its number, counting from 1 as
      `enumerate(xs, start=1)` does. */
  function Numbered<A, B>(xs: seq<A>, f: (A, nat) -> B): (r: seq<B>)
    ensures |r| == |xs|
  {
    seq(|xs|, k requires 0 <= k < |xs| => f(xs[k], k + 1))
  }

  lemma NumberedAt<A, B>(xs: seq<A>, f: (A, nat) -> B, k: nat)
    requires k < |xs|
    ensures Numbered(xs, f)[k] == f(xs[k], k + 1)
  {
  }

  /** The verdicts on the lines of a file, numbered from 1. */
  function Judges(lines: seq<string>): (r: seq<Verdict>)
    ensures |r| == |lines|
    ensures forall k :: 0 <= k < |r| && r[k].Raised? ==> r[k].error == IndexError
  {
    JudgesOnlyIndexError(lines);
    Numbered(lines, Judge)
  }

  lemma JudgesOnlyIndexError(lines: seq<string>)
    ensures forall k :: 0 <= k < |lines| && Numbered(lines, Judge)[k].Raised? ==>
      Numbered(lines, Judge)[k].error == IndexError
  {
    forall k | 0 <= k < |lines| && Numbered(lines, Judge)[k].Raised?
      ensures Numbered(lines, Judge)[k].error == IndexError
    {
      NumberedAt(lines, Judge, k);
    }
  }

  /** A checked line's slots: the five rules, the blank-run check, the three
      name rules. */
  function LineChecks(rules: seq<Option<Diagnostic>>, idx: nat, emptyLines: nat,
                      names: seq<Option<Diagnostic>>): seq<Option<Diagnostic>>
  {
    rules + [if emptyLines > 2 then Some(Diagnostic(Lines, idx, None)) else None] + names
  }

  /** One iteration of the loop, with `emptyLines` blank lines just seen: the
      line's diagnostics and the new counter, or the exception. */
  function Step(v: Verdict, idx: nat, emptyLines: nat): Result<(seq<Diagnostic>, nat), PyError> {
    match v
    case Raised(e) => Failure(e)
    case Blank => Success(([], emptyLines + 1))
    case Checked(rules, names) => Success((Somes(LineChecks(rules, idx, emptyLines, names)), 0))
  }

  /** `ds` put in front of a result. */
  function Then(ds: seq<Diagnostic>, r: Result<seq<Diagnostic>, PyError>): Result<seq<Diagnostic>, PyError> {
    if r.Failure? then r else Success(ds + r.value)
  }

  lemma ThenNil(r: Result<seq<Diagnostic>, PyError>)
    ensures Then([], r) == r
  {
    if r.Success? {
      assert [] + r.value == r.value;
    }
  }

  lemma ThenThen(a: seq<Diagnostic>, b: seq<Diagnostic>, r: Result<seq<Diagnostic>, PyError>)
    ensures Then(a, Then(b, r)) == Then(a + b, r)
  {
    if r.Success? {
      assert a + (b + r.value) == a + b + r.value;
    }
  }

  /** The loop over the verdicts from line number `idx` on. */
  function Scan(vs: seq<Verdict>, idx: nat, emptyLines: nat): (r: Result<seq<Diagnostic>, PyError>)
    ensures r.Failure? ==> Raised(r.error) in vs
    ensures r.Success? ==> forall k :: 0 <= k < |vs| ==> !vs[k].Raised?
    decreases |vs|
  {
    if vs == [] then Success([])
    else match Step(vs[0], idx, emptyLines)
      case Failure(e) => Failure(e)
      case Success((ds, next)) => Then(ds, Scan(vs[1..], idx + 1, next))
  }

  /** One unfolding of `Scan` at position `i`. */
  lemma ScanAt(vs: seq<Verdict>, i: nat, emptyLines: nat)
    requires i < |vs|
    ensures Scan(vs[i..], i + 1, emptyLines) ==
      match Step(vs[i], i + 1, emptyLines)
      case Failure(e) => Failure(e)
      case Success((ds, next)) => Then(ds, Scan(vs[i + 1..], i + 2, next))
  {
    assert vs[i..][0] == vs[i] && vs[i..][1..] == vs[i + 1..];
  }

  /** The diagnostics of a whole file, lines numbered from 1. */
  function FileDiagnostics(lines: seq<string>): (r: Result<seq<Diagnostic>, PyError>)
    ensures r.Failure? ==> r.error == IndexError
    ensures |lines| == 0 ==> r == Success([])
  {
    Scan(Judges(lines), 1, 0)
  }

  function RenderResult(path: string, r: Result<seq<Diagnostic>, PyError>): Result<seq<string>, PyError> {
    if r.Failure? then Failure(r.error) else Success(Messages(path, r.value))
  }
}
