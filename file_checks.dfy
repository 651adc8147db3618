/**
  `file_checks`: one pass over the physical lines of a file with a counter
  of consecutive blank lines. Each non-blank line gets, in this order, the
  five message rules, the blank-run diagnostic and the three name rules; a
  blank line (exactly `"\n"`) gets nothing and extends the run. The rules'
  `None` results are dropped at the end.
*/
module FileChecker {
  import opened Wrappers
  import opened PyStr
  import opened Diagnostics
  import opened LineRules
  import opened FileScan

  lemma AppendOne(path: string, checks: seq<Option<string>>, added: seq<Diagnostic>, d: Diagnostic)
    requires Somes(checks) == Messages(path, added)
    ensures Somes(checks + [Some(Message(path, d))]) == Messages(path, added + [d])
  {
    SomesAppend(checks, [Some(Message(path, d))]);
    assert Somes([Some(Message(path, d))]) == [Message(path, d)] by {
      assert [Some(Message(path, d))][1..] == [];
    }
    MessagesAppend(path, added, [d]);
  }

  /** `s`, with the value of `o` appended when there is one. */
  function Push(s: seq<Diagnostic>, o: Option<Diagnostic>): seq<Diagnostic> {
    if o.Some? then s + [o.value] else s
  }

  lemma AppendAsList(s: seq<Diagnostic>, o: Option<Diagnostic>)
    ensures s + AsList(o) == Push(s, o)
  {
    if o.None? {
      assert s + [] == s;
    }
  }

  lemma SomesCons<T>(xs: seq<Option<T>>)
    requires xs != []
    ensures Somes(xs) == AsList(xs[0]) + Somes(xs[1..])
  {
  }

  lemma SomesOfSlots<T>(slots: seq<Option<T>>)
    requires |slots| == 9
    ensures Somes(slots) == Somes(slots[..5]) + AsList(slots[5]) + AsList(slots[6]) + AsList(slots[7]) + AsList(slots[8])
  {
    assert slots == slots[..5] + slots[5..];
    SomesAppend(slots[..5], slots[5..]);
    var t := slots[5..];
    SomesCons(t);
    SomesCons(t[1..]);
    SomesCons(t[1..][1..]);
    SomesCons(t[1..][1..][1..]);
    assert t[1..][1..][1..][1..] == [];
  }

  /** A checked line's diagnostics, in the order the loop appends them. */
  lemma LineChecksPresent(rules: seq<Option<Diagnostic>>, idx: nat, emptyLines: nat, names: seq<Option<Diagnostic>>)
    requires |rules| == 5 && |names| == 3
    ensures Somes(LineChecks(rules, idx, emptyLines, names)) ==
      Push(Push(Push(Push(Somes(rules), if emptyLines > 2 then Some(Diagnostic(Lines, idx, None)) else None),
                     names[0]), names[1]), names[2])
  {
    var slots := LineChecks(rules, idx, emptyLines, names);
    SomesOfSlots(slots);
    assert slots[..5] == rules;
    assert slots[5] == (if emptyLines > 2 then Some(Diagnostic(Lines, idx, None)) else None);
    assert slots[6..] == names;
    var s0 := Somes(rules);
    AppendAsList(s0, slots[5]);
    AppendAsList(Push(s0, slots[5]), slots[6]);
    AppendAsList(Push(Push(s0, slots[5]), slots[6]), slots[7]);
    AppendAsList(Push(Push(Push(s0, slots[5]), slots[6]), slots[7]), slots[8]);
  }

  /** The loop body on a line that is not blank and raised nothing: the five
      message rules, the blank-run check and the three name rules, rendered,
      with `None` where a rule found nothing. */
  method CheckedLine(path: string, lineItem: string, idx: nat, emptyLines: nat, constructionNameError: Option<string>,
                     classCase: Option<string>, functionName: Option<string>) returns (checks: seq<Option<string>>)
    ensures Somes(checks) ==
      Messages(path, Somes(LineChecks(RuleChecks(lineItem, idx), idx, emptyLines,
                                      NameChecks(idx, constructionNameError, classCase, functionName))))
  {
    ghost var names := NameChecks(idx, constructionNameError, classCase, functionName);
    ghost var blank := if emptyLines > 2 then Some(Diagnostic(Lines, idx, None)) else None;
    var ruleChecks := [LengthCheck(lineItem, idx), IndentationCheck(lineItem, idx), SemiColonCheck(lineItem, idx),
                       SpaceCheck(lineItem, idx), TodoCheck(lineItem, idx)];
    assert ruleChecks == RuleChecks(lineItem, idx);
    checks := RenderAll(path, ruleChecks);
    SomesRenderAll(path, ruleChecks);
    ghost var added := Somes(ruleChecks);
    if emptyLines > 2 {
      var d := Diagnostic(Lines, idx, None);
      AppendOne(path, checks, added, d);
      checks := checks + [Some(Message(path, d))];
    }
    added := Push(added, blank);
    if constructionNameError.Some? && constructionNameError.value != [] {
      var d := ConstructionError(idx, constructionNameError.value);
      AppendOne(path, checks, added, d);
      checks := checks + [Some(Message(path, d))];
    }
    added := Push(added, names[0]);
    if classCase.Some? && classCase.value != [] {
      var d := CasingError(idx, classCase.value);
      AppendOne(path, checks, added, d);
      checks := checks + [Some(Message(path, d))];
    }
    added := Push(added, names[1]);
    if functionName.Some? && functionName.value != [] {
      var d := FunctionNameError(idx, functionName.value);
      AppendOne(path, checks, added, d);
      checks := checks + [Some(Message(path, d))];
    }
    added := Push(added, names[2]);
    LineChecksPresent(ruleChecks, idx, emptyLines, names);
  }

  /** `file_checks`: the messages of the file's line-level diagnostics, in
      scan order, or the `IndexError` a name rule raised. */
  method FileChecks(path: string, file: seq<string>) returns (r: Result<seq<string>, PyError>)
    ensures r == RenderResult(path, FileDiagnostics(file))
  {
    var emptyLines: nat := 0;
    var checks: seq<Option<string>> := [];
    ghost var done: seq<Diagnostic> := [];
    ghost var vs := Judges(file);
    ghost var whole := FileDiagnostics(file);
    var idx := 1;
    assert vs[0..] == vs;
    ThenNil(Scan(vs, 1, 0));
    while idx <= |file|
      invariant 1 <= idx <= |file| + 1
      invariant Somes(checks) == Messages(path, done)
      invariant whole == Then(done, Scan(vs[idx - 1..], idx, emptyLines))
    {
      var lineItem := file[idx - 1];
      var constructionNameError := CheckConstruction(lineItem);
      var classCase := CheckCasing(lineItem);
      if classCase.Failure? {
        CasingRaisedStep(file, idx, emptyLines, done, whole);
        return Failure(classCase.error);
      }
      var functionName := FunctionNameCheck(lineItem);
      if functionName.Failure? {
        FunctionRaisedStep(file, idx, emptyLines, done, whole);
        return Failure(functionName.error);
      }
      if lineItem == "\n" {
        BlankLineStep(file, idx, emptyLines, done, whole);
        emptyLines := emptyLines + 1;
        idx := idx + 1;
        continue;
      }
      ghost var added := Somes(LineChecks(RuleChecks(lineItem, idx), idx, emptyLines,
                                          NameChecks(idx, constructionNameError, classCase.value, functionName.value)));
      CheckedLineStep(file, idx, emptyLines, done, whole);
      var lineChecks := CheckedLine(path, lineItem, idx, emptyLines, constructionNameError, classCase.value, functionName.value);
      SomesAppend(checks, lineChecks);
      MessagesAppend(path, done, added);
      checks := checks + lineChecks;
      emptyLines := 0;
      done := done + added;
      idx := idx + 1;
    }
    assert vs[idx - 1..] == [];
    assert done + [] == done;
    r := Success(Somes(checks));
  }

  /** The loop stops at a line whose class rule raised. */
  lemma CasingRaisedStep(file: seq<string>, idx: nat, emptyLines: nat, done: seq<Diagnostic>,
                         whole: Result<seq<Diagnostic>, PyError>)
    requires 1 <= idx <= |file| && CheckCasing(file[idx - 1]).Failure?
    requires whole == Then(done, Scan(Judges(file)[idx - 1..], idx, emptyLines))
    ensures whole == Failure(CheckCasing(file[idx - 1]).error)
  {
    var vs := Judges(file);
    JudgesAt(file, idx - 1);
    JudgeCasingRaised(file[idx - 1], idx, CheckCasing(file[idx - 1]));
    RaisedStep(vs, idx, emptyLines, done, whole);
  }

  /** The loop stops at a line whose function rule raised. */
  lemma FunctionRaisedStep(file: seq<string>, idx: nat, emptyLines: nat, done: seq<Diagnostic>,
                           whole: Result<seq<Diagnostic>, PyError>)
    requires 1 <= idx <= |file| && CheckCasing(file[idx - 1]).Success?
    requires FunctionNameCheck(file[idx - 1]).Failure?
    requires whole == Then(done, Scan(Judges(file)[idx - 1..], idx, emptyLines))
    ensures whole == Failure(FunctionNameCheck(file[idx - 1]).error)
  {
    var vs := Judges(file);
    JudgesAt(file, idx - 1);
    JudgeFunctionRaised(file[idx - 1], idx, CheckCasing(file[idx - 1]), FunctionNameCheck(file[idx - 1]));
    RaisedStep(vs, idx, emptyLines, done, whole);
  }

  /** A blank line that raised nothing extends the run. */
  lemma BlankLineStep(file: seq<string>, idx: nat, emptyLines: nat, done: seq<Diagnostic>,
                      whole: Result<seq<Diagnostic>, PyError>)
    requires 1 <= idx <= |file| && CheckCasing(file[idx - 1]).Success?
    requires FunctionNameCheck(file[idx - 1]).Success? && file[idx - 1] == "\n"
    requires whole == Then(done, Scan(Judges(file)[idx - 1..], idx, emptyLines))
    ensures whole == Then(done, Scan(Judges(file)[idx..], idx + 1, emptyLines + 1))
  {
    var vs := Judges(file);
    JudgesAt(file, idx - 1);
    JudgeBlankLine(file[idx - 1], idx, CheckCasing(file[idx - 1]), FunctionNameCheck(file[idx - 1]));
    BlankStep(vs, idx, emptyLines, done, whole);
  }

  /** Any other line adds its rules' diagnostics and ends the run. */
  lemma CheckedLineStep(file: seq<string>, idx: nat, emptyLines: nat, done: seq<Diagnostic>,
                        whole: Result<seq<Diagnostic>, PyError>)
    requires 1 <= idx <= |file| && CheckCasing(file[idx - 1]).Success?
    requires FunctionNameCheck(file[idx - 1]).Success? && file[idx - 1] != "\n"
    requires whole == Then(done, Scan(Judges(file)[idx - 1..], idx, emptyLines))
    ensures var line := file[idx - 1];
      var names := NameChecks(idx, CheckConstruction(line), CheckCasing(line).value, FunctionNameCheck(line).value);
      whole == Then(done + Somes(LineChecks(RuleChecks(line, idx), idx, emptyLines, names)),
                    Scan(Judges(file)[idx..], idx + 1, 0))
  {
    var vs := Judges(file);
    var line := file[idx - 1];
    JudgesAt(file, idx - 1);
    JudgeCheckedLine(line, idx, CheckConstruction(line), CheckCasing(line), FunctionNameCheck(line));
    CheckedStep(vs, idx, emptyLines, done, RuleChecks(line, idx),
                NameChecks(idx, CheckConstruction(line), CheckCasing(line).value, FunctionNameCheck(line).value), whole);
  }

  /** The loop stops at line `idx` when a name rule raised there. */
  lemma RaisedStep(vs: seq<Verdict>, idx: nat, emptyLines: nat, done: seq<Diagnostic>,
                   whole: Result<seq<Diagnostic>, PyError>)
    requires 1 <= idx <= |vs| && vs[idx - 1].Raised?
    requires whole == Then(done, Scan(vs[idx - 1..], idx, emptyLines))
    ensures whole == Failure(vs[idx - 1].error)
  {
    ScanAt(vs, idx - 1, emptyLines);
  }

  /** A blank line adds nothing and extends the run. */
  lemma BlankStep(vs: seq<Verdict>, idx: nat, emptyLines: nat, done: seq<Diagnostic>,
                  whole: Result<seq<Diagnostic>, PyError>)
    requires 1 <= idx <= |vs| && vs[idx - 1] == Blank
    requires whole == Then(done, Scan(vs[idx - 1..], idx, emptyLines))
    ensures whole == Then(done, Scan(vs[idx..], idx + 1, emptyLines + 1))
  {
    ScanAt(vs, idx - 1, emptyLines);
    ThenThen(done, [], Scan(vs[idx..], idx + 1, emptyLines + 1));
    assert done + [] == done;
  }

  /** A checked line adds its diagnostics and ends the run. */
  lemma CheckedStep(vs: seq<Verdict>, idx: nat, emptyLines: nat, done: seq<Diagnostic>,
                    rules: seq<Option<Diagnostic>>, names: seq<Option<Diagnostic>>,
                    whole: Result<seq<Diagnostic>, PyError>)
    requires 1 <= idx <= |vs| && vs[idx - 1] == Checked(rules, names)
    requires whole == Then(done, Scan(vs[idx - 1..], idx, emptyLines))
    ensures whole == Then(done + Somes(LineChecks(rules, idx, emptyLines, names)), Scan(vs[idx..], idx + 1, 0))
  {
    ScanAt(vs, idx - 1, emptyLines);
    ThenThen(done, Somes(LineChecks(rules, idx, emptyLines, names)), Scan(vs[idx..], idx + 1, 0));
  }

  /** The verdict on a line whose class rule raised. */
  lemma JudgeCasingRaised(line: string, idx: nat, classCase: Result<Option<string>, PyError>)
    requires classCase == CheckCasing(line) && classCase.Failure?
    ensures Judge(line, idx) == Raised(classCase.error)
  {
  }

  /** The verdict on a line whose function rule raised. */
  lemma JudgeFunctionRaised(line: string, idx: nat, classCase: Result<Option<string>, PyError>,
                            functionName: Result<Option<string>, PyError>)
    requires classCase == CheckCasing(line) && classCase.Success?
    requires functionName == FunctionNameCheck(line) && functionName.Failure?
    ensures Judge(line, idx) == Raised(functionName.error)
  {
  }

  /** The verdict on a line that is `"\n"` and raised nothing. */
  lemma JudgeBlankLine(line: string, idx: nat, classCase: Result<Option<string>, PyError>,
                       functionName: Result<Option<string>, PyError>)
    requires classCase == CheckCasing(line) && classCase.Success?
    requires functionName == FunctionNameCheck(line) && functionName.Success?
    requires line == "\n"
    ensures Judge(line, idx) == Blank
  {
  }

  /** The verdict on any other line: its rules' results. */
  lemma JudgeCheckedLine(line: string, idx: nat, construction: Option<string>,
                         classCase: Result<Option<string>, PyError>, functionName: Result<Option<string>, PyError>)
    requires construction == CheckConstruction(line)
    requires classCase == CheckCasing(line) && classCase.Success?
    requires functionName == FunctionNameCheck(line) && functionName.Success?
    requires line != "\n"
    ensures Judge(line, idx) == Checked(RuleChecks(line, idx), NameChecks(idx, construction, classCase.value, functionName.value))
  {
  }

  /** The verdict on line number `n` of a file. */
  lemma JudgesAt(lines: seq<string>, k: nat)
    requires k < |lines|
    ensures Judges(lines)[k] == Judge(lines[k], k + 1)
  {
    NumberedAt(lines, Judge, k);
  }

  // ---------------------------------------------------------------------
  // Properties of one line

  /** Slot `p` holds nothing, or the issue numbered `first + p` reported at line `idx`. */
  predicate SlotsFrom(slots: seq<Option<Diagnostic>>, idx: nat, first: nat) {
    forall p :: 0 <= p < |slots| && slots[p].Some? ==>
      slots[p].value.line == idx && Number(slots[p].value.issue) == first + p
  }

  /** A verdict on line `idx` whose slots hold the issues the loop would put there. */
  predicate WellNumbered(v: Verdict, idx: nat) {
    v.Checked? ==> |v.rules| == 5 && SlotsFrom(v.rules, idx, 1) && |v.names| == 3 && SlotsFrom(v.names, idx, 7)
  }

  lemma FiveShaped(a: Option<Diagnostic>, b: Option<Diagnostic>, c: Option<Diagnostic>, d: Option<Diagnostic>,
                   e: Option<Diagnostic>, idx: nat)
    requires a == None || a == Some(Diagnostic(Length, idx, None))
    requires b == None || b == Some(Diagnostic(Indentation, idx, None))
    requires c == None || c == Some(Diagnostic(Semicolon, idx, None))
    requires d == None || d == Some(Diagnostic(Spaces, idx, None))
    requires e == None || e == Some(Diagnostic(Todo, idx, None))
    ensures SlotsFrom([a, b, c, d, e], idx, 1)
  {
  }

  /** Each message rule reports its own issue at the line it is given. */
  lemma RuleChecksNumbered(line: string, idx: nat)
    ensures SlotsFrom(RuleChecks(line, idx), idx, 1)
  {
    assert LengthCheck(line, idx) == None || LengthCheck(line, idx) == Some(Diagnostic(Length, idx, None));
    assert IndentationCheck(line, idx) == None || IndentationCheck(line, idx) == Some(Diagnostic(Indentation, idx, None));
    assert SemiColonCheck(line, idx) == None || SemiColonCheck(line, idx) == Some(Diagnostic(Semicolon, idx, None));
    assert SpaceCheck(line, idx) == None || SpaceCheck(line, idx) == Some(Diagnostic(Spaces, idx, None));
    assert TodoCheck(line, idx) == None || TodoCheck(line, idx) == Some(Diagnostic(Todo, idx, None));
    FiveShaped(LengthCheck(line, idx), IndentationCheck(line, idx), SemiColonCheck(line, idx),
               SpaceCheck(line, idx), TodoCheck(line, idx), idx);
  }

  /** A raising line: the class rule on a `class` line without a space, or the
      function rule on a `def` line without a space. */
  predicate Raises(line: string) {
    CheckCasing(line).Failure? || FunctionNameCheck(line).Failure?
  }

  lemma RaisesIff(line: string)
    ensures Raises(line) <==>
      (StartsWith(line, "class") && ' ' !in line) || (StartsWith(LStrip(line), "def") && ' ' !in LStrip(line))
  {
    CheckCasingIff(line);
    CheckFunctionNameIff(LStrip(line));
  }

  /** The verdict on a line: it raises `IndexError` exactly when a name rule
      does; otherwise it is blank exactly when the line is `"\n"`; its slots
      hold the issues numbered in emission order, at that line. */
  lemma JudgeIff(line: string, idx: nat)
    ensures Judge(line, idx).Raised? <==> Raises(line)
    ensures Judge(line, idx).Raised? ==> Judge(line, idx).error == IndexError
    ensures Judge(line, idx).Blank? <==> line == "\n"
    ensures WellNumbered(Judge(line, idx), idx)
  {
    JudgeRaised(line, idx);
    JudgeBlank(line, idx);
    JudgeNumbered(line, idx);
  }

  lemma JudgeRaised(line: string, idx: nat)
    ensures Judge(line, idx).Raised? <==> Raises(line)
    ensures Judge(line, idx).Raised? ==> Judge(line, idx).error == IndexError
  {
  }

  lemma JudgeBlank(line: string, idx: nat)
    ensures Judge(line, idx).Blank? <==> line == "\n"
  {
    if line == "\n" {
      NewlineJudged(idx);
    }
  }

  /** No name rule raises on the blank line. */
  lemma NewlineJudged(idx: nat)
    ensures Judge("\n", idx) == Blank
  {
    NewlineNoNames();
  }

  lemma NewlineNoNames()
    ensures CheckCasing("\n") == Success(None) && FunctionNameCheck("\n") == Success(None)
  {
    assert !StartsWith("\n", "class");
    assert LStrip("\n") == [];
  }

  lemma JudgeNumbered(line: string, idx: nat)
    ensures WellNumbered(Judge(line, idx), idx)
  {
    var v := Judge(line, idx);
    if v.Checked? {
      RuleChecksNumbered(line, idx);
      NameChecksNumbered(idx, CheckConstruction(line), CheckCasing(line).value, FunctionNameCheck(line).value);
      assert v.rules == RuleChecks(line, idx);
      assert v.names == NameChecks(idx, CheckConstruction(line), CheckCasing(line).value, FunctionNameCheck(line).value);
    }
  }

  /** The name rules report issues 7, 8 and 9, at the line they are given. */
  lemma NameChecksNumbered(idx: nat, construction: Option<string>, classCase: Option<string>,
                           functionName: Option<string>)
    ensures SlotsFrom(NameChecks(idx, construction, classCase, functionName), idx, 7)
  {
  }

  /** Dropping the `None`s keeps whatever order the present values had. */
  lemma {:induction false} SomesOrdered(xs: seq<Option<Diagnostic>>)
    requires forall i, j :: 0 <= i < j < |xs| && xs[i].Some? && xs[j].Some? ==> Precedes(xs[i].value, xs[j].value)
    ensures InScanOrder(Somes(xs))
  {
    if xs != [] {
      SomesOrdered(xs[1..]);
      var rest := Somes(xs[1..]);
      if xs[0].Some? {
        forall k | 0 <= k < |rest|
          ensures Precedes(xs[0].value, rest[k])
        {
          SomesMembers(xs[1..], rest[k]);
          var j :| 0 <= j < |xs[1..]| && xs[1..][j] == Some(rest[k]);
          assert xs[j + 1] == Some(rest[k]);
        }
      }
    }
  }

  /** `a` is reported before `b`: an earlier line, or the same line and a
      rule that runs earlier (the rules run in the order of their numbers). */
  predicate Precedes(a: Diagnostic, b: Diagnostic) {
    a.line < b.line || (a.line == b.line && Number(a.issue) < Number(b.issue))
  }

  predicate InScanOrder(ds: seq<Diagnostic>) {
    forall i, j :: 0 <= i < j < |ds| ==> Precedes(ds[i], ds[j])
  }

  /** A checked line's diagnostics are reported on that line, in rule order,
      and the blank-run diagnostic is among them exactly when more than two
      blank lines came just before. */
  lemma {:induction false} LineShape(v: Verdict, idx: nat, emptyLines: nat)
    requires v.Checked? && WellNumbered(v, idx)
    ensures var ds := Somes(LineChecks(v.rules, idx, emptyLines, v.names));
      InScanOrder(ds) && (forall d :: d in ds ==> d.line == idx) &&
      (Diagnostic(Lines, idx, None) in ds <==> emptyLines > 2)
  {
    var slots := LineChecks(v.rules, idx, emptyLines, v.names);
    assert SlotsFrom(slots, idx, 1) by {
      forall p | 0 <= p < 9 && slots[p].Some?
        ensures slots[p].value.line == idx && Number(slots[p].value.issue) == 1 + p
      {
        if p < 5 {
          assert slots[p] == v.rules[p];
        } else if p > 5 {
          assert slots[p] == v.names[p - 6];
        }
      }
    }
    SomesOrdered(slots);
    forall d: Diagnostic | d in Somes(slots) ensures d.line == idx {
      SomesMembers(slots, d);
    }
    SomesMembers(slots, Diagnostic(Lines, idx, None));
    assert emptyLines > 2 ==> slots[5] == Some(Diagnostic(Lines, idx, None));
  }

  /** What one iteration yields when it does not raise: nothing for a blank
      line, which extends the run; for a checked line its diagnostics, and
      the run starts again from 0. */
  lemma StepFacts(v: Verdict, idx: nat, emptyLines: nat)
    requires WellNumbered(v, idx) && Step(v, idx, emptyLines).Success?
    ensures var (ds, next) := Step(v, idx, emptyLines).value;
      next == (if v.Blank? then emptyLines + 1 else 0) && InScanOrder(ds) &&
      (forall d :: d in ds ==> d.line == idx && v.Checked?) &&
      (Diagnostic(Lines, idx, None) in ds <==> v.Checked? && emptyLines > 2)
  {
    if v.Checked? {
      LineShape(v, idx, emptyLines);
    }
  }

  // ---------------------------------------------------------------------
  // Properties of the scan

  /** Every verdict in `vs` is numbered for its own line. */
  predicate AllNumbered(vs: seq<Verdict>, idx: nat) {
    forall k :: 0 <= k < |vs| ==> WellNumbered(vs[k], idx + k)
  }

  lemma AllNumberedTail(vs: seq<Verdict>, idx: nat)
    requires vs != [] && AllNumbered(vs, idx)
    ensures WellNumbered(vs[0], idx) && AllNumbered(vs[1..], idx + 1)
  {
    assert WellNumbered(vs[0], idx + 0);
    forall k | 0 <= k < |vs[1..]| ensures WellNumbered(vs[1..][k], idx + 1 + k) {
      assert vs[1..][k] == vs[k + 1];
    }
  }

  /** The scan stops exactly when some line raised, with that line's exception. */
  lemma {:induction false} ScanFails(vs: seq<Verdict>, idx: nat, emptyLines: nat)
    ensures Scan(vs, idx, emptyLines).Failure? <==> exists k :: 0 <= k < |vs| && vs[k].Raised?
    ensures Scan(vs, idx, emptyLines).Failure? ==>
      exists k :: 0 <= k < |vs| && vs[k] == Raised(Scan(vs, idx, emptyLines).error)
    decreases |vs|
  {
    if vs != [] {
      var step := Step(vs[0], idx, emptyLines);
      if step.Success? {
        ScanFails(vs[1..], idx + 1, step.value.1);
        if exists k :: 0 <= k < |vs| && vs[k].Raised? {
          var k :| 0 <= k < |vs| && vs[k].Raised?;
          assert vs[1..][k - 1] == vs[k];
        }
        if Scan(vs, idx, emptyLines).Failure? {
          var k :| 0 <= k < |vs[1..]| && vs[1..][k] == Raised(Scan(vs, idx, emptyLines).error);
          assert vs[k + 1] == vs[1..][k];
        }
      }
    }
  }

  /** Two lists in scan order, the first wholly before the second. */
  lemma OrderedAppend(a: seq<Diagnostic>, b: seq<Diagnostic>)
    requires InScanOrder(a) && InScanOrder(b)
    requires forall x, y :: x in a && y in b ==> Precedes(x, y)
    ensures InScanOrder(a + b)
  {
    forall i, j | 0 <= i < j < |a + b| ensures Precedes((a + b)[i], (a + b)[j]) {
      if j < |a| {
      } else if i >= |a| {
        assert (a + b)[i] == b[i - |a|] && (a + b)[j] == b[j - |a|];
      } else {
        assert (a + b)[i] in a && (a + b)[j] in b;
      }
    }
  }

  /** A successful scan lists its diagnostics in scan order, each on a
      checked line of the scanned range. */
  lemma {:induction false} ScanOrdered(vs: seq<Verdict>, idx: nat, emptyLines: nat)
    requires AllNumbered(vs, idx) && Scan(vs, idx, emptyLines).Success?
    ensures var ds := Scan(vs, idx, emptyLines).value;
      InScanOrder(ds) &&
      forall d :: d in ds ==> idx <= d.line < idx + |vs| && vs[d.line - idx].Checked?
    decreases |vs|
  {
    if vs != [] {
      AllNumberedTail(vs, idx);
      StepFacts(vs[0], idx, emptyLines);
      var (ds0, next) := Step(vs[0], idx, emptyLines).value;
      ScanOrdered(vs[1..], idx + 1, next);
      var rest := Scan(vs[1..], idx + 1, next).value;
      assert Scan(vs, idx, emptyLines).value == ds0 + rest;
      OrderedAppend(ds0, rest);
      forall d | d in rest ensures vs[d.line - idx].Checked? {
        assert vs[1..][d.line - (idx + 1)] == vs[d.line - idx];
      }
    }
  }

  /** The blank-run counter the loop carries after the verdicts `vs`,
      having started from `emptyLines`. */
  function BlankCount(vs: seq<Verdict>, emptyLines: nat): nat
    decreases |vs|
  {
    if vs == [] then emptyLines else BlankCount(vs[1..], if vs[0].Blank? then emptyLines + 1 else 0)
  }

  /** The counter on reaching position `k`, expressed from the second verdict on. */
  lemma BlankCountShift(vs: seq<Verdict>, k: nat, emptyLines: nat)
    requires 0 < k <= |vs|
    ensures BlankCount(vs[..k], emptyLines) == BlankCount(vs[1..][..k - 1], if vs[0].Blank? then emptyLines + 1 else 0)
  {
    assert vs[..k][1..] == vs[1..][..k - 1];
  }

  /** The blank-run diagnostic is reported exactly on the checked lines
      whose counter, on reaching them, exceeds 2. */
  lemma {:induction false} ScanBlankRuns(vs: seq<Verdict>, idx: nat, emptyLines: nat, n: nat)
    requires AllNumbered(vs, idx) && Scan(vs, idx, emptyLines).Success?
    ensures Diagnostic(Lines, n, None) in Scan(vs, idx, emptyLines).value <==>
      idx <= n < idx + |vs| && vs[n - idx].Checked? && BlankCount(vs[..n - idx], emptyLines) > 2
    decreases |vs|
  {
    if vs != [] {
      AllNumberedTail(vs, idx);
      StepFacts(vs[0], idx, emptyLines);
      var (ds0, next) := Step(vs[0], idx, emptyLines).value;
      ScanOrdered(vs[1..], idx + 1, next);
      ScanBlankRuns(vs[1..], idx + 1, next, n);
      assert Scan(vs, idx, emptyLines).value == ds0 + Scan(vs[1..], idx + 1, next).value;
      if idx < n < idx + |vs| {
        BlankCountShift(vs, n - idx, emptyLines);
        assert vs[1..][n - (idx + 1)] == vs[n - idx];
      }
      assert vs[..0] == [];
    }
  }

  lemma {:induction false} BlankCountSnoc(vs: seq<Verdict>, v: Verdict, emptyLines: nat)
    ensures BlankCount(vs + [v], emptyLines) == if v.Blank? then BlankCount(vs, emptyLines) + 1 else 0
    decreases |vs|
  {
    if vs != [] {
      assert (vs + [v])[1..] == vs[1..] + [v];
      BlankCountSnoc(vs[1..], v, if vs[0].Blank? then emptyLines + 1 else 0);
    }
  }

  lemma {:induction false} BlankCountBound(vs: seq<Verdict>, emptyLines: nat)
    ensures BlankCount(vs, emptyLines) <= emptyLines + |vs|
    decreases |vs|
  {
    if vs != [] {
      BlankCountBound(vs[1..], if vs[0].Blank? then emptyLines + 1 else 0);
    }
  }

  /** Counting from the start of the file, the counter exceeds 2 exactly
      when the last three verdicts were blank lines. */
  lemma ThreeBlanks(vs: seq<Verdict>)
    ensures BlankCount(vs, 0) > 2 <==> |vs| >= 3 && vs[|vs| - 1].Blank? && vs[|vs| - 2].Blank? && vs[|vs| - 3].Blank?
  {
    if |vs| < 3 {
      BlankCountBound(vs, 0);
    } else {
      var n := |vs|;
      assert vs == vs[..n - 1] + [vs[n - 1]];
      assert vs[..n - 1] == vs[..n - 2] + [vs[n - 2]];
      assert vs[..n - 2] == vs[..n - 3] + [vs[n - 3]];
      BlankCountSnoc(vs[..n - 1], vs[n - 1], 0);
      BlankCountSnoc(vs[..n - 2], vs[n - 2], 0);
      BlankCountSnoc(vs[..n - 3], vs[n - 3], 0);
    }
  }

  // ---------------------------------------------------------------------
  // Properties of a whole file

  /** The verdict on a line is `Blank` exactly when the line is `"\n"`. */
  lemma JudgesBlank(lines: seq<string>)
    ensures forall k :: 0 <= k < |lines| ==> (Judges(lines)[k].Blank? <==> lines[k] == "\n")
  {
    forall k | 0 <= k < |lines| ensures Judges(lines)[k].Blank? <==> lines[k] == "\n" {
      JudgesAt(lines, k);
      JudgeBlank(lines[k], k + 1);
    }
  }

  lemma JudgesNumberedAt(lines: seq<string>, k: nat)
    requires k < |lines|
    ensures WellNumbered(Judges(lines)[k], k + 1)
  {
    JudgesAt(lines, k);
    JudgeNumbered(lines[k], k + 1);
  }

  lemma JudgesNumbered(lines: seq<string>)
    ensures AllNumbered(Judges(lines), 1)
  {
    forall k | 0 <= k < |lines| ensures WellNumbered(Judges(lines)[k], 1 + k) {
      JudgesNumberedAt(lines, k);
    }
  }

  /** The verdict on a line raises exactly when a name rule raises on it,
      and then raises `IndexError`. */
  lemma JudgesRaised(lines: seq<string>)
    ensures forall k :: 0 <= k < |lines| ==>
      (Judges(lines)[k].Raised? <==> Raises(lines[k])) &&
      (Judges(lines)[k].Raised? ==> Judges(lines)[k].error == IndexError)
  {
    forall k | 0 <= k < |lines|
      ensures Judges(lines)[k].Raised? <==> Raises(lines[k])
      ensures Judges(lines)[k].Raised? ==> Judges(lines)[k].error == IndexError
    {
      JudgeRaised(lines[k], k + 1);
    }
  }

  /** `file_checks` raises exactly when some line raises, and then raises
      `IndexError`. */
  lemma FileFails(lines: seq<string>)
    ensures FileDiagnostics(lines).Failure? <==> exists i :: 0 <= i < |lines| && Raises(lines[i])
    ensures FileDiagnostics(lines).Failure? ==> FileDiagnostics(lines).error == IndexError
  {
    var vs := Judges(lines);
    ScanFails(vs, 1, 0);
    JudgesRaised(lines);
  }

  /** Over a whole file: diagnostics come in scan order, only on non-blank
      lines numbered 1 to the number of lines, and the blank-run diagnostic
      sits exactly on the non-blank lines preceded by three blank lines. */
  lemma FileShape(lines: seq<string>)
    requires FileDiagnostics(lines).Success?
    ensures var ds := FileDiagnostics(lines).value;
      InScanOrder(ds) &&
      (forall d :: d in ds ==> 1 <= d.line <= |lines| && lines[d.line - 1] != "\n") &&
      (forall n: nat :: Diagnostic(Lines, n, None) in ds <==>
        4 <= n <= |lines| && lines[n - 1] != "\n" &&
        lines[n - 2] == "\n" && lines[n - 3] == "\n" && lines[n - 4] == "\n")
  {
    var vs := Judges(lines);
    assert FileDiagnostics(lines) == Scan(vs, 1, 0);
    JudgesNumbered(lines);
    ScanFails(vs, 1, 0);
    JudgesBlank(lines);
    assert forall i :: 0 <= i < |lines| ==> (vs[i].Checked? <==> lines[i] != "\n");
    ScanOrdered(vs, 1, 0);
    forall n: nat
      ensures Diagnostic(Lines, n, None) in Scan(vs, 1, 0).value <==>
        4 <= n <= |lines| && lines[n - 1] != "\n" &&
        lines[n - 2] == "\n" && lines[n - 3] == "\n" && lines[n - 4] == "\n"
    {
      FirstBlankRuns(vs, n);
    }
  }

  /** Scanning from line 1, the blank-run diagnostic is reported on exactly
      the checked lines preceded by three blank lines. */
  lemma FirstBlankRuns(vs: seq<Verdict>, n: nat)
    requires AllNumbered(vs, 1) && Scan(vs, 1, 0).Success?
    ensures Diagnostic(Lines, n, None) in Scan(vs, 1, 0).value <==>
      4 <= n <= |vs| && vs[n - 1].Checked? && vs[n - 2].Blank? && vs[n - 3].Blank? && vs[n - 4].Blank?
  {
    ScanBlankRuns(vs, 1, 0, n);
    if 1 <= n <= |vs| {
      BlanksBefore(vs, n);
    }
  }

  /** The counter on reaching line `n` exceeds 2 exactly when the three lines
      before it were blank. */
  lemma BlanksBefore(vs: seq<Verdict>, n: nat)
    requires 1 <= n <= |vs|
    ensures BlankCount(vs[..n - 1], 0) > 2 <==> 4 <= n && vs[n - 2].Blank? && vs[n - 3].Blank? && vs[n - 4].Blank?
  {
    var pre := vs[..n - 1];
    ThreeBlanks(pre);
    if |pre| >= 3 {
      assert pre[|pre| - 1] == vs[n - 2] && pre[|pre| - 2] == vs[n - 3] && pre[|pre| - 3] == vs[n - 4];
    }
  }
}
