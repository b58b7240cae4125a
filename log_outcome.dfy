/** Classifying the solver's console transcript into a solve result:
    `CPLEXSHELL.process_logfile`. */
module LogOutcome {
  import opened Text

  datatype Option<T> = None | Some(value: T)

  /** The coarse outcome bucket. */
  datatype SolverStatus = Ok | Warning | Error | Aborted | Unknown

  /** The reason the solve ended. */
  datatype TerminationCondition =
    | Optimal | Infeasible | Unbounded | InfeasibleOrUnbounded | NoSolution
    | MaxTimeLimit | MaxIterations | Other | Unknown

  /** The fields of `results.solver` that the log scan fills in. */
  datatype SolveResult = SolveResult(
    status: SolverStatus,
    condition: TerminationCondition,
    message: string,
    returnCode: Option<nat>)

  /** A line holding `trigger` ends the solve with `condition` and `status`. */
  datatype Rule = Rule(trigger: string, condition: TerminationCondition, status: SolverStatus)

  /** The outcome phrases, most specific first. Only the two phrasings the
      solver's transcripts are known to use are listed; the table is meant to
      grow by appending rows. */
  const Rules: seq<Rule> := [
    Rule("no integer solution.", TerminationCondition.NoSolution, SolverStatus.Error),
    Rule("Integer infeasible.", TerminationCondition.Infeasible, SolverStatus.Error)
  ]

  /** A table is well formed when no trigger is empty, no row claims the
      `unknown` outcome, which is kept for a transcript no row recognises, and
      no row is shadowed: a later row's trigger never holds an earlier row's,
      so more specific phrases come first and each row can fire. */
  predicate WellFormed(rules: seq<Rule>) {
    (forall k :: 0 <= k < |rules| ==>
      rules[k].trigger != []
      && rules[k].condition != TerminationCondition.Unknown
      && rules[k].status != SolverStatus.Unknown)
    && (forall i, j :: 0 <= i < j < |rules| ==> !Contains(rules[j].trigger, rules[i].trigger))
  }

  /** Outcomes that are failures are reported with status `error`; an
      optimal solution with status `ok`. */
  predicate Consistent(status: SolverStatus, condition: TerminationCondition) {
    (condition == TerminationCondition.NoSolution ==> status == SolverStatus.Error)
    && (condition == TerminationCondition.Infeasible ==> status == SolverStatus.Error)
    && (condition == TerminationCondition.Optimal ==> status == SolverStatus.Ok)
  }

  lemma RulesWellFormedAndConsistent()
    ensures WellFormed(Rules)
    ensures forall k :: 0 <= k < |Rules| ==> Consistent(Rules[k].status, Rules[k].condition)
  {
    forall i, j | 0 <= i < j < |Rules| ensures !Contains(Rules[j].trigger, Rules[i].trigger) {
      SecondRowUnshadowed();
    }
  }

  /** The infeasible phrase does not hold the no-solution phrase: it has no `o`. */
  lemma SecondRowUnshadowed()
    ensures !Contains(Rules[1].trigger, Rules[0].trigger)
  {
    var t0, t1 := Rules[0].trigger, Rules[1].trigger;
    assert t0[1] == 'o';
    assert 'o' !in t1;
    MissingCharNotContained(t1, t0, 'o');
  }

  /** The first row, from `from` on, whose trigger occurs in the line. */
  function MatchRule(rules: seq<Rule>, line: string, from: nat): (r: Option<nat>)
    requires from <= |rules|
    ensures r.Some? ==>
      from <= r.value < |rules| && Contains(line, rules[r.value].trigger)
      && forall q :: from <= q < r.value ==> !Contains(line, rules[q].trigger)
    ensures r.None? ==> forall q :: from <= q < |rules| ==> !Contains(line, rules[q].trigger)
    decreases |rules| - from
  {
    if from == |rules| then None
    else if Contains(line, rules[from].trigger) then Some(from)
    else MatchRule(rules, line, from + 1)
  }

  /** What one line says about the outcome, if anything. */
  datatype Outcome = Outcome(status: SolverStatus, condition: TerminationCondition, message: string)

  /** What one line says: nothing exactly when it holds no trigger phrase,
      otherwise a row's consistent, known outcome with the trimmed line. */
  function LineOutcome(line: string): (r: Option<Outcome>)
    ensures r.None? <==> forall k :: 0 <= k < |Rules| ==> !Contains(line, Rules[k].trigger)
    ensures r.Some? ==>
      Consistent(r.value.status, r.value.condition) && r.value.message == RStrip(line)
      && r.value.condition != TerminationCondition.Unknown && r.value.status != SolverStatus.Unknown
  {
    match MatchRule(Rules, line, 0)
    case None => None
    case Some(k) => Some(Outcome(Rules[k].status, Rules[k].condition, RStrip(line)))
  }

  /** The outcome stated by the first line that states one, scanning in order. */
  function FirstOutcome(lines: seq<string>): (r: Option<Outcome>)
    ensures r.Some? ==>
      Consistent(r.value.status, r.value.condition)
      && r.value.condition != TerminationCondition.Unknown && r.value.status != SolverStatus.Unknown
  {
    if lines == [] then None
    else
      var before := FirstOutcome(lines[..|lines| - 1]);
      if before.Some? then before else LineOutcome(lines[|lines| - 1])
  }

  /** The first line that states an outcome decides it. */
  lemma {:induction false} FirstOutcomeAt(lines: seq<string>, n: nat)
    requires n < |lines| && LineOutcome(lines[n]).Some?
    requires forall m :: 0 <= m < n ==> LineOutcome(lines[m]).None?
    ensures FirstOutcome(lines) == LineOutcome(lines[n])
  {
    var init := lines[..|lines| - 1];
    if n < |lines| - 1 {
      FirstOutcomeAt(init, n);
    } else {
      FirstOutcomeNone(init);
    }
  }

  /** No outcome is found exactly when no line states one. */
  lemma {:induction false} FirstOutcomeNone(lines: seq<string>)
    ensures FirstOutcome(lines).None? <==> forall n :: 0 <= n < |lines| ==> LineOutcome(lines[n]).None?
  {
    if lines != [] {
      var init := lines[..|lines| - 1];
      FirstOutcomeNone(init);
      assert forall n :: 0 <= n < |init| ==> init[n] == lines[n];
    }
  }

  /** The tag that opens the solver's numbered error messages. */
  const ErrorTag: string := "CPLEX Error"

  /** `CPLEX Error`, a non-empty run of blanks, the digits `line[j..k]` and a
      colon, starting at position `i` of the line: the text the regular
      expression `CPLEX Error\s+(\d+):` matches there. */
  predicate ErrorCodeSpan(line: string, i: int, j: int, k: int) {
    OccursAt(line, ErrorTag, i)
    && i + |ErrorTag| < j < k < |line|
    && (forall p :: i + |ErrorTag| <= p < j ==> IsBlank(line[p]))
    && (forall p :: j <= p < k ==> IsDigit(line[p]))
    && line[k] == ':'
  }

  /** The error code whose message starts at position `i`, if one does. */
  function CodeAt(line: string, i: nat): (r: Option<nat>)
    ensures r.Some? ==> OccursAt(line, ErrorTag, i) && i + |ErrorTag| + 3 <= |line|
  {
    if !OccursAt(line, ErrorTag, i) then None
    else
      var j := SkipBlanks(line, i + |ErrorTag|);
      var k := SkipDigits(line, j);
      if i + |ErrorTag| < j < k < |line| && line[k] == ':' then Some(ParseDigits(line[j..k]))
      else None
  }

  /** CodeAt finds a code exactly where the regular expression matches, and
      the code is the value of the digits the match captures. */
  lemma CodeAtMatchesPattern(line: string, i: nat)
    ensures CodeAt(line, i).Some? <==> exists j, k :: ErrorCodeSpan(line, i, j, k)
    ensures forall j, k :: ErrorCodeSpan(line, i, j, k) ==> CodeAt(line, i) == Some(ParseDigits(line[j..k]))
  {
    if OccursAt(line, ErrorTag, i) {
      var j := SkipBlanks(line, i + |ErrorTag|);
      var k := SkipDigits(line, j);
      if i + |ErrorTag| < j < k < |line| && line[k] == ':' {
        assert ErrorCodeSpan(line, i, j, k);
      }
      SpanIsMaximal(line, i);
    }
  }

  /** A match can only end where the runs of blanks and digits end, so there
      is at most one match starting at a given position. */
  lemma SpanIsMaximal(line: string, i: nat)
    requires OccursAt(line, ErrorTag, i)
    ensures forall j, k :: ErrorCodeSpan(line, i, j, k) ==>
      j == SkipBlanks(line, i + |ErrorTag|) && k == SkipDigits(line, j)
  {
    forall j, k | ErrorCodeSpan(line, i, j, k)
      ensures j == SkipBlanks(line, i + |ErrorTag|) && k == SkipDigits(line, j)
    {
      assert !IsBlank(line[j]);
    }
  }

  /** The first error code in the line at or after position `i`: where the
      regular expression's leftmost match is. */
  function CodeFrom(line: string, i: nat): (r: Option<nat>)
    ensures r.Some? ==> i < |line| && Contains(line[i..], ErrorTag)
    decreases |line| - i
  {
    if i >= |line| then None
    else if CodeAt(line, i).Some? then CodeAt(line, i)
    else
      assert line[i..][1..] == line[i + 1..];
      CodeFrom(line, i + 1)
  }

  /** The first error code in a line. */
  function LineCode(line: string): (r: Option<nat>)
    ensures r.Some? ==> Contains(line, ErrorTag)
  {
    assert line[0..] == line;
    CodeFrom(line, 0)
  }

  /** The leftmost match decides the code. */
  lemma {:induction false} CodeFromAt(line: string, i: nat, p: nat)
    requires i <= p < |line| && CodeAt(line, p).Some?
    requires forall q :: i <= q < p ==> CodeAt(line, q).None?
    ensures CodeFrom(line, i) == CodeAt(line, p)
    decreases p - i
  {
    if i < p {
      CodeFromAt(line, i + 1, p);
    }
  }

  /** No code is found exactly when there is no match. */
  lemma {:induction false} CodeFromNone(line: string, i: nat)
    ensures CodeFrom(line, i).None? <==> forall p :: i <= p < |line| ==> CodeAt(line, p).None?
    decreases |line| - i
  {
    if i < |line| {
      CodeFromNone(line, i + 1);
    }
  }

  /** The error code reported by the first line that reports one. */
  function FirstCode(lines: seq<string>): Option<nat> {
    if lines == [] then None
    else
      var before := FirstCode(lines[..|lines| - 1]);
      if before.Some? then before else LineCode(lines[|lines| - 1])
  }

  /** The first line that reports a code decides it. */
  lemma {:induction false} FirstCodeAt(lines: seq<string>, n: nat)
    requires n < |lines| && LineCode(lines[n]).Some?
    requires forall m :: 0 <= m < n ==> LineCode(lines[m]).None?
    ensures FirstCode(lines) == LineCode(lines[n])
  {
    var init := lines[..|lines| - 1];
    if n < |lines| - 1 {
      FirstCodeAt(init, n);
    } else {
      FirstCodeNone(init);
    }
  }

  /** Once an outcome is found, later lines never change it. */
  lemma {:induction false} FirstOutcomeStable(lines: seq<string>, more: seq<string>)
    requires FirstOutcome(lines).Some?
    ensures FirstOutcome(lines + more) == FirstOutcome(lines)
    decreases |more|
  {
    if more == [] {
      assert lines + more == lines;
    } else {
      var init := more[..|more| - 1];
      FirstOutcomeStable(lines, init);
      assert (lines + more)[..|lines + more| - 1] == lines + init;
    }
  }

  /** Once a return code is found, later lines never change it. */
  lemma {:induction false} FirstCodeStable(lines: seq<string>, more: seq<string>)
    requires FirstCode(lines).Some?
    ensures FirstCode(lines + more) == FirstCode(lines)
    decreases |more|
  {
    if more == [] {
      assert lines + more == lines;
    } else {
      var init := more[..|more| - 1];
      FirstCodeStable(lines, init);
      assert (lines + more)[..|lines + more| - 1] == lines + init;
    }
  }

  /** No code is found exactly when no line reports one. */
  lemma {:induction false} FirstCodeNone(lines: seq<string>)
    ensures FirstCode(lines).None? <==> forall n :: 0 <= n < |lines| ==> LineCode(lines[n]).None?
  {
    if lines != [] {
      var init := lines[..|lines| - 1];
      FirstCodeNone(init);
      assert forall n :: 0 <= n < |init| ==> init[n] == lines[n];
    }
  }

  /** The result of scanning a whole transcript: the outcome of the first line
      that states one (`unknown`/`unknown` with an empty message when none
      does), and the first error code anywhere in it. */
  function ParseLog(text: string): (r: SolveResult)
    ensures Consistent(r.status, r.condition)
    ensures '\n' !in r.message && RStrip(r.message) == r.message
  {
    var lines := SplitLines(text);
    match FirstOutcome(lines)
    case None =>
      SolveResult(SolverStatus.Unknown, TerminationCondition.Unknown, "", FirstCode(lines))
    case Some(o) =>
      OutcomeIsConsistentTrimmedLine(lines);
      SolveResult(o.status, o.condition, o.message, FirstCode(lines))
  }

  /** Every outcome found is the (status, condition) of a row of the table,
      hence consistent, and carries a right-trimmed, newline-free line. */
  lemma {:induction false} OutcomeIsConsistentTrimmedLine(lines: seq<string>)
    requires forall n :: 0 <= n < |lines| ==> '\n' !in lines[n]
    requires FirstOutcome(lines).Some?
    ensures var o := FirstOutcome(lines).value;
      exists k :: 0 <= k < |Rules| && o.status == Rules[k].status && o.condition == Rules[k].condition
    ensures var o := FirstOutcome(lines).value;
      Consistent(o.status, o.condition) && '\n' !in o.message && RStrip(o.message) == o.message
  {
    FirstOutcomeIsALineOutcome(lines);
    var init := lines[..|lines| - 1];
    if FirstOutcome(init).Some? {
      assert forall n :: 0 <= n < |init| ==> init[n] == lines[n];
      OutcomeIsConsistentTrimmedLine(init);
    } else {
      var line := lines[|lines| - 1];
      var m := RStrip(line);
      RulesWellFormedAndConsistent();
      assert '\n' !in m by {
        forall i | 0 <= i < |m| ensures m[i] != '\n' {
          assert m[i] == line[i];
        }
      }
    }
  }

  /** One more line extends both folds by that line alone. */
  lemma FoldStep(lines: seq<string>, i: nat)
    requires i < |lines|
    ensures FirstOutcome(lines[..i + 1]) ==
      if FirstOutcome(lines[..i]).Some? then FirstOutcome(lines[..i]) else LineOutcome(lines[i])
    ensures FirstCode(lines[..i + 1]) ==
      if FirstCode(lines[..i]).Some? then FirstCode(lines[..i]) else LineCode(lines[i])
  {
    assert lines[..i + 1][..i] == lines[..i];
  }

  /** `process_logfile`: one pass over the transcript's lines that fills in the
      result record; the outcome fields are set by the first line that states
      an outcome and the return code by the first line that reports one. */
  method ProcessLogfile(text: string) returns (results: SolveResult)
    ensures results == ParseLog(text)
  {
    var lines := SplitLines(text);
    results := SolveResult(SolverStatus.Unknown, TerminationCondition.Unknown, "", None);
    var classified := false;
    var i := 0;
    while i < |lines|
      invariant 0 <= i <= |lines|
      invariant classified == FirstOutcome(lines[..i]).Some?
      invariant FirstOutcome(lines[..i]).None? ==>
        results.status == SolverStatus.Unknown && results.condition == TerminationCondition.Unknown
        && results.message == ""
      invariant FirstOutcome(lines[..i]).Some? ==>
        var o := FirstOutcome(lines[..i]).value;
        results.status == o.status && results.condition == o.condition && results.message == o.message
      invariant results.returnCode == FirstCode(lines[..i])
    {
      var line := lines[i];
      FoldStep(lines, i);
      if !classified {
        var k := MatchRule(Rules, line, 0);
        if k.Some? {
          var rule := Rules[k.value];
          results := results.(status := rule.status, condition := rule.condition, message := RStrip(line));
          classified := true;
        }
      }
      if results.returnCode.None? {
        results := results.(returnCode := LineCode(line));
      }
      i := i + 1;
    }
    assert lines[..i] == lines;
  }

  /** No line holds any row's trigger phrase. */
  predicate NoTrigger(lines: seq<string>) {
    forall n, k :: 0 <= n < |lines| && 0 <= k < |Rules| ==> !Contains(lines[n], Rules[k].trigger)
  }

  /** A transcript is classified `unknown` exactly when no line holds any
      trigger phrase; status and condition are `unknown` together. */
  lemma UnknownIffNothingRecognised(text: string)
    ensures var r := ParseLog(text);
      (r.condition == TerminationCondition.Unknown <==> r.status == SolverStatus.Unknown)
      && (r.condition == TerminationCondition.Unknown <==> NoTrigger(SplitLines(text)))
  {
    var lines := SplitLines(text);
    FirstOutcomeNone(lines);
    RulesWellFormedAndConsistent();
    if FirstOutcome(lines).None? {
      forall n, k | 0 <= n < |lines| && 0 <= k < |Rules|
        ensures !Contains(lines[n], Rules[k].trigger)
      {
        assert LineOutcome(lines[n]).None?;
      }
      assert ParseLog(text).condition == TerminationCondition.Unknown;
      assert ParseLog(text).status == SolverStatus.Unknown;
    } else {
      var n :| 0 <= n < |lines| && LineOutcome(lines[n]).Some?;
      var k := MatchRule(Rules, lines[n], 0).value;
      assert Contains(lines[n], Rules[k].trigger);
      FirstOutcomeIsALineOutcome(lines);
      var k' :| 0 <= k' < |Rules| && FirstOutcome(lines).value.condition == Rules[k'].condition
        && FirstOutcome(lines).value.status == Rules[k'].status;
      assert ParseLog(text).condition == Rules[k'].condition;
      assert ParseLog(text).status == Rules[k'].status;
      assert ParseLog(text).condition != TerminationCondition.Unknown;
      assert ParseLog(text).status != SolverStatus.Unknown;
    }
  }

  /** Whatever outcome is found is one some line states, so it is a row's. */
  lemma {:induction false} FirstOutcomeIsALineOutcome(lines: seq<string>)
    requires FirstOutcome(lines).Some?
    ensures exists k :: (0 <= k < |Rules|
      && FirstOutcome(lines).value.status == Rules[k].status
      && FirstOutcome(lines).value.condition == Rules[k].condition)
  {
    var init := lines[..|lines| - 1];
    if FirstOutcome(init).Some? {
      FirstOutcomeIsALineOutcome(init);
    } else {
      var k := MatchRule(Rules, lines[|lines| - 1], 0).value;
      assert FirstOutcome(lines).value.status == Rules[k].status;
    }
  }

  /** The first line holding a trigger phrase decides the outcome: its first
      matching row gives status and condition, the line itself the message. */
  lemma FirstRecognisedLineDecides(text: string, n: nat)
    requires n < |SplitLines(text)|
    requires MatchRule(Rules, SplitLines(text)[n], 0).Some?
    requires forall m :: 0 <= m < n ==> MatchRule(Rules, SplitLines(text)[m], 0).None?
    ensures var line := SplitLines(text)[n];
      var rule := Rules[MatchRule(Rules, line, 0).value];
      var r := ParseLog(text);
      r.status == rule.status && r.condition == rule.condition && r.message == RStrip(line)
  {
    var lines := SplitLines(text);
    assert forall m :: 0 <= m < n ==> LineOutcome(lines[m]).None?;
    FirstOutcomeAt(lines, n);
  }

  /** The return code is that of the leftmost `CPLEX Error <digits>:` in the
      first line that holds one. */
  lemma ReturnCodeIsFirstMatch(text: string, n: nat, p: nat)
    requires n < |SplitLines(text)| && p < |SplitLines(text)[n]|
    requires CodeAt(SplitLines(text)[n], p).Some?
    requires forall m, q :: 0 <= m < n && 0 <= q < |SplitLines(text)[m]| ==> CodeAt(SplitLines(text)[m], q).None?
    requires forall q :: 0 <= q < p ==> CodeAt(SplitLines(text)[n], q).None?
    ensures ParseLog(text).returnCode == CodeAt(SplitLines(text)[n], p)
  {
    var lines := SplitLines(text);
    forall m | 0 <= m < n ensures LineCode(lines[m]).None? {
      CodeFromNone(lines[m], 0);
    }
    CodeFromAt(lines[n], 0, p);
    FirstCodeAt(lines, n);
  }

  /** A transcript has no return code exactly when nothing in it matches. */
  lemma NoReturnCodeIffNoMatch(text: string)
    ensures ParseLog(text).returnCode.None? <==>
      forall n, p :: 0 <= n < |SplitLines(text)| && 0 <= p < |SplitLines(text)[n]| ==>
        CodeAt(SplitLines(text)[n], p).None?
  {
    assert ParseLog(text).returnCode == FirstCode(SplitLines(text));
    NoCodeIffNoMatch(SplitLines(text));
  }

  lemma NoCodeIffNoMatch(lines: seq<string>)
    ensures FirstCode(lines).None? <==>
      forall n, p :: 0 <= n < |lines| && 0 <= p < |lines[n]| ==> CodeAt(lines[n], p).None?
  {
    FirstCodeNone(lines);
    if FirstCode(lines).None? {
      forall n, p | 0 <= n < |lines| && 0 <= p < |lines[n]| ensures CodeAt(lines[n], p).None? {
        CodeFromNone(lines[n], 0);
      }
    } else {
      var n :| 0 <= n < |lines| && LineCode(lines[n]).Some?;
      CodeFromNone(lines[n], 0);
    }
  }

  /** A line that holds no trigger phrase (an error-code line, a timing line)
      can be dropped without changing the outcome. */
  lemma {:induction false} SilentLineIgnored(a: seq<string>, line: string, b: seq<string>)
    requires LineOutcome(line).None?
    ensures FirstOutcome(a + [line] + b) == FirstOutcome(a + b)
    decreases |b|
  {
    if b == [] {
      assert (a + [line])[..|a|] == a;
      assert (a + [line])[|a|] == line;
      assert a + [line] + b == a + [line];
      assert a + b == a;
    } else {
      DropLast(a, line, b);
      SilentLineIgnored(a, line, b[..|b| - 1]);
    }
  }

  /** A line that reports no error code can be dropped without changing the
      return code. */
  lemma {:induction false} CodelessLineIgnored(a: seq<string>, line: string, b: seq<string>)
    requires LineCode(line).None?
    ensures FirstCode(a + [line] + b) == FirstCode(a + b)
    decreases |b|
  {
    if b == [] {
      assert (a + [line])[..|a|] == a;
      assert (a + [line])[|a|] == line;
      assert a + [line] + b == a + [line];
      assert a + b == a;
    } else {
      DropLast(a, line, b);
      CodelessLineIgnored(a, line, b[..|b| - 1]);
    }
  }

  lemma DropLast(a: seq<string>, line: string, b: seq<string>)
    requires b != []
    ensures (a + [line] + b)[..|a + [line] + b| - 1] == a + [line] + b[..|b| - 1]
    ensures (a + b)[..|a + b| - 1] == a + b[..|b| - 1]
    ensures (a + [line] + b)[|a + [line] + b| - 1] == b[|b| - 1]
    ensures (a + b)[|a + b| - 1] == b[|b| - 1]
  {
  }

  /** `width` spaces. */
  function Blanks(width: nat): (s: string)
    ensures |s| == width && forall i :: 0 <= i < width ==> s[i] == ' '
  {
    seq(width, _ => ' ')
  }

  /** The error code does not depend on how many blanks separate it from the
      tag: `CPLEX Error 1217:` and `CPLEX Error  1217:` read alike. */
  lemma CodeIgnoresBlankWidth(before: string, width: nat, digits: string, after: string)
    requires width >= 1 && digits != []
    requires forall i :: 0 <= i < |digits| ==> IsDigit(digits[i])
    ensures CodeAt(before + ErrorTag + Blanks(width) + digits + ":" + after, |before|)
      == Some(ParseDigits(digits))
  {
    var line := before + ErrorTag + Blanks(width) + digits + ":" + after;
    var j := |before| + |ErrorTag| + width;
    MessageSpan(before, width, digits, after);
    CodeAtMatchesPattern(line, |before|);
    assert ErrorCodeSpan(line, |before|, j, j + |digits|);
  }

  /** A one-line transcript `CPLEX Error`, any positive number of blanks, the
      numeral of `n` and a colon has return code `n`: `CPLEX Error 1217:` and
      `CPLEX Error  1217:` both report 1217. */
  lemma ErrorLineReturnCode(width: nat, n: nat)
    requires width >= 1
    ensures ParseLog(ErrorTag + Blanks(width) + Decimal(n) + ":").returnCode == Some(n)
  {
    var digits := Decimal(n);
    var line := ErrorTag + Blanks(width) + digits + ":";
    assert '\n' !in line by {
      forall i | 0 <= i < |line| ensures line[i] != '\n' {
        if i >= |ErrorTag| + width && i < |line| - 1 {
          assert line[i] == digits[i - |ErrorTag| - width];
        }
      }
    }
    NoNewlineIsOneLine(line);
    CodeIgnoresBlankWidth("", width, digits, "");
    assert "" + ErrorTag + Blanks(width) + digits + ":" + "" == line;
    ParseDecimal(n);
    ReturnCodeIsFirstMatch(line, 0, 0);
  }

  /** Where the parts of an error message sit in the line. */
  lemma MessageSpan(before: string, width: nat, digits: string, after: string)
    requires width >= 1 && digits != []
    requires forall i :: 0 <= i < |digits| ==> IsDigit(digits[i])
    ensures var line := before + ErrorTag + Blanks(width) + digits + ":" + after;
      var j := |before| + |ErrorTag| + width;
      ErrorCodeSpan(line, |before|, j, j + |digits|) && line[j..j + |digits|] == digits
  {
    var line := before + ErrorTag + Blanks(width) + digits + ":" + after;
    var i := |before|;
    var j := i + |ErrorTag| + width;
    var k := j + |digits|;
    var a := before + ErrorTag;
    var b := a + Blanks(width);
    var c := b + digits;
    assert line == c + ":" + after;
    assert line[..|c|] == c;
    assert c[..|b|] == b;
    assert b[..|a|] == a;
    assert line[i..i + |ErrorTag|] == ErrorTag by {
      assert a[i..] == ErrorTag;
      assert line[i..i + |ErrorTag|] == a[i..];
    }
    assert forall p :: i + |ErrorTag| <= p < j ==> IsBlank(line[p]) by {
      forall p | i + |ErrorTag| <= p < j ensures IsBlank(line[p]) {
        assert line[p] == b[p] == Blanks(width)[p - |a|];
      }
    }
    assert line[j..k] == digits by {
      assert c[j..] == digits;
      assert line[j..k] == c[j..];
    }
    assert forall p :: j <= p < k ==> IsDigit(line[p]) by {
      forall p | j <= p < k ensures IsDigit(line[p]) {
        assert line[p] == digits[p - j];
      }
    }
    assert line[k] == ':';
  }

  /** A line that differs from the tag at some character has no message
      starting at that position. */
  lemma TagMismatch(line: string, p: nat, d: nat)
    requires d < |ErrorTag| && p + d < |line| && line[p + d] != ErrorTag[d]
    ensures CodeAt(line, p).None?
  {
  }

  /** A line without the tag's letter `X` reports no code. */
  lemma NoTagLetterNoCode(line: string)
    requires 'X' !in line
    ensures LineCode(line).None?
  {
    forall p | 0 <= p < |line| ensures CodeAt(line, p).None? {
      if p + 4 < |line| {
        TagMismatch(line, p, 4);
      }
    }
    CodeFromNone(line, 0);
  }
}
