/** The transcripts of the unit tests for `process_logfile`, and what the scan
    makes of them. Long lines are written as short pieces joined with `+`;
    the text is the same. */
module LogTranscripts {
  import opened Text
  import opened LogOutcome

  const NoSolutionLine: string := "MIP - Time limit" + " exceeded, " + "no integer solution."
  const InfeasibleLine: string := "MIP - " + "Integer infeasible."
  const BoundLine: string := "Current MIP " + "best bound =  " + "0.0000000000e+00" + " (gap is " + "infinite)"
  const TimeLine: string := "Solution time = " + "   0.00 sec.  " + "Iterations = 0 " + " Nodes = 0"
  const TicksLine: string := "Deterministic " + "time = 0.00 " + "ticks  (0.20 " + "ticks/sec)"
  const Prompt: string := "CPLEX> "
  const ErrorLine: string := Prompt + ErrorMessage

  /** The lines of the test transcripts: the triple-quoted text opens with a
      newline, hence the empty first line. */
  function Transcript(outcomeLine: string): seq<string> {
    ["", outcomeLine, BoundLine, TimeLine, TicksLine, "", ErrorLine, "No file written.", "CPLEX>"]
  }

  /** The whole transcript: its lines separated by newlines, as the
      triple-quoted literal writes them. */
  function TranscriptText(outcomeLine: string): string {
    JoinLines(Transcript(outcomeLine))
  }

  lemma TranscriptSplits(outcomeLine: string)
    requires '\n' !in outcomeLine
    ensures SplitLines(TranscriptText(outcomeLine)) == Transcript(outcomeLine)
  {
    var ls := Transcript(outcomeLine);
    BoundLineLacks();
    TimeLineLacks();
    TicksLineLacks();
    ErrorLineLacks();
    assert '\n' !in "No file written." && '\n' !in "CPLEX>";
    SplitJoin(ls);
  }

  lemma ErrorLineCode()
    ensures LineCode(ErrorLine) == Some(1217)
  {
    ErrorLineMessageCode();
    ErrorLinePromptHasNoCode();
    CodeFromAt(ErrorLine, 0, |Prompt|);
  }

  /** The message after the prompt carries code 1217. */
  lemma ErrorLineMessageCode()
    ensures |Prompt| < |ErrorLine| && CodeAt(ErrorLine, |Prompt|) == Some(1217)
  {
    ErrorLineShape();
    CodeIgnoresBlankWidth(Prompt, 2, "1217", " No solution exists.");
    Parse1217();
  }

  lemma ErrorLinePromptHasNoCode()
    ensures forall q :: 0 <= q < |Prompt| ==> CodeAt(ErrorLine, q).None?
  {
    PromptHasNoCode(ErrorMessage);
  }

  const ErrorMessage: string := "CPLEX Error" + "  1217" + ": No solution" + " exists."

  lemma ErrorLineShape()
    ensures ErrorLine == Prompt + ErrorTag + Blanks(2) + "1217" + ":" + " No solution exists."
  {
    assert Blanks(2) == "  ";
  }

  lemma Parse1217()
    ensures ParseDigits("1217") == 1217
  {
    assert "1217"[..3] == "121" && "121"[..2] == "12" && "12"[..1] == "1" && "1"[..0] == "";
  }

  /** The `CPLEX> ` prompt in front of a message is not itself a match. */
  lemma PromptHasNoCode(rest: string)
    ensures forall q :: 0 <= q < |Prompt| ==> CodeAt(Prompt + rest, q).None?
  {
    var line := Prompt + rest;
    forall q | 0 <= q < |Prompt| ensures CodeAt(line, q).None? {
      if q == 0 {
        TagMismatch(line, 0, 5);
      } else {
        TagMismatch(line, q, 0);
      }
    }
  }

  // Which characters the long lines lack, one line at a time.

  lemma BoundLineLacks()
    ensures '\n' !in BoundLine && 'X' !in BoundLine && 'l' !in BoundLine
  {
    BoundLineLacksChar('\n');
    BoundLineLacksChar('X');
    BoundLineLacksChar('l');
  }

  lemma BoundLineLacksChar(c: char)
    requires c == '\n' || c == 'X' || c == 'l'
    ensures c !in BoundLine
  {
  }

  lemma TimeLineLacks()
    ensures '\n' !in TimeLine && 'X' !in TimeLine && 'g' !in TimeLine
  {
  }

  lemma TicksLineLacks()
    ensures '\n' !in TicksLine && 'X' !in TicksLine && 'g' !in TicksLine
  {
  }

  lemma ErrorLineLacks()
    ensures '\n' !in ErrorLine && 'g' !in ErrorLine
  {
  }

  /** A line lacking a letter that both trigger phrases use states no outcome. */
  lemma SilentWithout(line: string, c: char)
    requires c in Rules[0].trigger && c in Rules[1].trigger && c !in line
    ensures LineOutcome(line).None?
  {
    MissingCharNotContained(line, Rules[0].trigger, c);
    MissingCharNotContained(line, Rules[1].trigger, c);
  }

  lemma TriggersShareLetters()
    ensures 'l' in Rules[0].trigger && 'l' in Rules[1].trigger
    ensures 'g' in Rules[0].trigger && 'g' in Rules[1].trigger
  {
    assert Rules[0].trigger[7] == 'g' && Rules[0].trigger[13] == 'l';
    assert Rules[1].trigger[4] == 'g' && Rules[1].trigger[16] == 'l';
  }

  lemma BoundLineSilent()
    ensures LineOutcome(BoundLine).None?
  {
    TriggersShareLetters();
    BoundLineLacks();
    SilentWithout(BoundLine, 'l');
  }

  lemma TimeLineSilent()
    ensures LineOutcome(TimeLine).None?
  {
    TriggersShareLetters();
    TimeLineLacks();
    SilentWithout(TimeLine, 'g');
  }

  lemma TicksLineSilent()
    ensures LineOutcome(TicksLine).None?
  {
    TriggersShareLetters();
    TicksLineLacks();
    SilentWithout(TicksLine, 'g');
  }

  lemma ErrorLineSilent()
    ensures LineOutcome(ErrorLine).None?
  {
    TriggersShareLetters();
    ErrorLineLacks();
    SilentWithout(ErrorLine, 'g');
  }

  /** The two closing lines, `No file written.` and the bare prompt, state no
      outcome: neither has a `g`. */
  lemma ClosingLinesSilent()
    ensures LineOutcome("No file written.").None? && LineOutcome("CPLEX>").None?
  {
    var closing, prompt := "No file written.", "CPLEX>";
    assert 'g' !in closing && 'g' !in prompt;
    TriggersShareLetters();
    SilentWithout(closing, 'g');
    SilentWithout(prompt, 'g');
  }

  /** No line of the test transcripts other than the outcome line holds a
      trigger phrase. */
  lemma OtherLinesSilent()
    ensures LineOutcome("").None?
    ensures LineOutcome(BoundLine).None? && LineOutcome(TimeLine).None? && LineOutcome(TicksLine).None?
    ensures LineOutcome(ErrorLine).None?
    ensures LineOutcome("No file written.").None? && LineOutcome("CPLEX>").None?
  {
    ClosingLinesSilent();
    BoundLineSilent();
    TimeLineSilent();
    TicksLineSilent();
    ErrorLineSilent();
  }

  /** No line before the error line reports a code. */
  lemma LinesBeforeErrorHaveNoCode(outcomeLine: string)
    requires 'X' !in outcomeLine
    ensures forall m :: 0 <= m < 6 ==> LineCode(Transcript(outcomeLine)[m]).None?
  {
    BoundLineLacks();
    TimeLineLacks();
    TicksLineLacks();
    NoTagLetterNoCode("");
    NoTagLetterNoCode(outcomeLine);
    NoTagLetterNoCode(BoundLine);
    NoTagLetterNoCode(TimeLine);
    NoTagLetterNoCode(TicksLine);
  }

  /** Both test transcripts report return code 1217. */
  lemma TranscriptReturnCode(outcomeLine: string)
    requires 'X' !in outcomeLine && '\n' !in outcomeLine
    ensures ParseLog(TranscriptText(outcomeLine)).returnCode == Some(1217)
  {
    TranscriptSplits(outcomeLine);
    LinesBeforeErrorHaveNoCode(outcomeLine);
    ErrorLineCode();
    FirstCodeAt(Transcript(outcomeLine), 6);
  }

  lemma NoSolutionLineText()
    ensures NoSolutionLine == "MIP - Time limit exceeded, no integer solution."
  {
  }

  lemma NoSolutionLineLacks()
    ensures '\n' !in NoSolutionLine && 'X' !in NoSolutionLine
  {
  }

  lemma NoSolutionLineTrimmed()
    ensures RStrip(NoSolutionLine) == NoSolutionLine
  {
    assert NoSolutionLine[|NoSolutionLine| - 1] == '.';
  }

  lemma NoSolutionLineMatches()
    ensures MatchRule(Rules, NoSolutionLine, 0) == Some(0)
  {
    assert NoSolutionLine == ("MIP - Time limit" + " exceeded, ") + Rules[0].trigger + "";
    ContainsInfix("MIP - Time limit" + " exceeded, ", Rules[0].trigger, "");
  }

  lemma NoSolutionLineOutcome()
    ensures '\n' !in NoSolutionLine && 'X' !in NoSolutionLine
    ensures LineOutcome(NoSolutionLine) == Some(Outcome(
      SolverStatus.Error, TerminationCondition.NoSolution, "MIP - Time limit exceeded, no integer solution."))
  {
    NoSolutionLineText();
    NoSolutionLineLacks();
    NoSolutionLineTrimmed();
    NoSolutionLineMatches();
  }

  lemma InfeasibleLineText()
    ensures InfeasibleLine == "MIP - Integer infeasible."
  {
  }

  lemma InfeasibleLineLacks()
    ensures '\n' !in InfeasibleLine && 'X' !in InfeasibleLine && 'o' !in InfeasibleLine
  {
  }

  lemma InfeasibleLineTrimmed()
    ensures RStrip(InfeasibleLine) == InfeasibleLine
  {
    assert InfeasibleLine[|InfeasibleLine| - 1] == '.';
  }

  /** The no-solution row, tried first, does not fire on the infeasible line;
      the infeasible row does. */
  lemma InfeasibleLineMatches()
    ensures !Contains(InfeasibleLine, Rules[0].trigger)
    ensures MatchRule(Rules, InfeasibleLine, 0) == Some(1)
  {
    InfeasibleLineLacks();
    MissingCharNotContained(InfeasibleLine, Rules[0].trigger, 'o');
    InfeasibleLineHoldsTrigger();
  }

  lemma InfeasibleLineHoldsTrigger()
    ensures Contains(InfeasibleLine, Rules[1].trigger)
  {
    assert InfeasibleLine == "MIP - " + Rules[1].trigger + "";
    ContainsInfix("MIP - ", Rules[1].trigger, "");
  }

  lemma InfeasibleLineOutcome()
    ensures '\n' !in InfeasibleLine && 'X' !in InfeasibleLine
    ensures LineOutcome(InfeasibleLine) == Some(Outcome(
      SolverStatus.Error, TerminationCondition.Infeasible, "MIP - Integer infeasible."))
  {
    InfeasibleLineText();
    InfeasibleLineLacks();
    InfeasibleLineTrimmed();
    InfeasibleLineMatches();
  }

  /** A test transcript is classified by its outcome line and reports code 1217. */
  lemma TranscriptResult(outcomeLine: string, o: Outcome)
    requires '\n' !in outcomeLine && 'X' !in outcomeLine
    requires LineOutcome(outcomeLine) == Some(o)
    ensures ParseLog(TranscriptText(outcomeLine)) == SolveResult(o.status, o.condition, o.message, Some(1217))
  {
    TranscriptSplits(outcomeLine);
    TranscriptReturnCode(outcomeLine);
    OtherLinesSilent();
    FirstOutcomeAt(Transcript(outcomeLine), 1);
  }

  /** `test_log_file_shows_no_solution`: status error, condition noSolution,
      the outcome line as message, return code 1217. */
  lemma NoSolutionTranscript()
    ensures ParseLog(TranscriptText(NoSolutionLine)) == SolveResult(
      SolverStatus.Error, TerminationCondition.NoSolution,
      "MIP - Time limit exceeded, no integer solution.", Some(1217))
  {
    NoSolutionLineOutcome();
    TranscriptResult(NoSolutionLine, Outcome(
      SolverStatus.Error, TerminationCondition.NoSolution, "MIP - Time limit exceeded, no integer solution."));
  }

  /** `test_log_file_shows_infeasible`: status error, condition infeasible,
      the outcome line as message, return code 1217. */
  lemma InfeasibleTranscript()
    ensures ParseLog(TranscriptText(InfeasibleLine)) == SolveResult(
      SolverStatus.Error, TerminationCondition.Infeasible, "MIP - Integer infeasible.", Some(1217))
  {
    InfeasibleLineOutcome();
    TranscriptResult(InfeasibleLine, Outcome(
      SolverStatus.Error, TerminationCondition.Infeasible, "MIP - Integer infeasible."));
  }

  /** The error-code line does not take part in the classification: the
      transcript without it has the same outcome. */
  lemma ErrorLineLeavesOutcome(outcomeLine: string)
    ensures var ls := Transcript(outcomeLine);
      FirstOutcome(ls) == FirstOutcome(ls[..6] + ls[7..])
  {
    var ls := Transcript(outcomeLine);
    ErrorLineSilent();
    assert ls == ls[..6] + [ErrorLine] + ls[7..];
    SilentLineIgnored(ls[..6], ErrorLine, ls[7..]);
  }

  /** A transcript whose lines state no outcome and report no code is
      `unknown`/`unknown` with an empty message and no return code. */
  lemma SilentTranscriptUnknown(ls: seq<string>)
    requires |ls| >= 1
    requires forall n :: 0 <= n < |ls| ==> '\n' !in ls[n] && LineOutcome(ls[n]).None? && LineCode(ls[n]).None?
    ensures ParseLog(JoinLines(ls)) == SolveResult(SolverStatus.Unknown, TerminationCondition.Unknown, "", None)
  {
    SplitJoin(ls);
    FirstOutcomeNone(ls);
    FirstCodeNone(ls);
  }

  /** An empty transcript is `unknown`/`unknown` with no return code. */
  lemma EmptyTranscriptUnknown()
    ensures ParseLog("") == SolveResult(SolverStatus.Unknown, TerminationCondition.Unknown, "", None)
  {
    NoTagLetterNoCode("");
    assert LineOutcome("").None?;
    SilentTranscriptUnknown([""]);
  }

  /** A transcript of the timing lines alone is `unknown`/`unknown` with no
      return code. */
  lemma TimingTranscriptUnknown()
    ensures ParseLog(JoinLines([BoundLine, TimeLine, TicksLine])) ==
      SolveResult(SolverStatus.Unknown, TerminationCondition.Unknown, "", None)
  {
    BoundLineLacks();
    TimeLineLacks();
    TicksLineLacks();
    BoundLineSilent();
    TimeLineSilent();
    TicksLineSilent();
    NoTagLetterNoCode(BoundLine);
    NoTagLetterNoCode(TimeLine);
    NoTagLetterNoCode(TicksLine);
    SilentTranscriptUnknown([BoundLine, TimeLine, TicksLine]);
  }
}
