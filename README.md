# CPLEX shell helpers: file-name validation and log classification

This project models two small helpers of Pyomo's CPLEX shell interface as
they are pinned by the unit tests in
`pyomo/solvers/tests/checks/test_cplex.py`.

- `_validate_file_name(solver, fname, purpose)` checks a path before it is
  put on the solver's command line. A path holding the path separator the
  host does not use is refused at every solver version. A path holding a
  space is refused on releases before the quoting threshold and wrapped in
  double quotes from the threshold on. Any other path is returned unchanged.
  Modules `SolverVersion` (release triples and their tuple order) and
  `FileName` (the validator, its error messages and the test cases).
- `CPLEXSHELL.process_logfile` reads the solver's console transcript and
  fills in the solve result: status, termination condition, termination
  message and return code. An ordered table of trigger phrases maps the
  first line holding one to a (condition, status) pair, with that line,
  right-trimmed, as the message. If no line holds one, the outcome is
  `unknown`/`unknown`. Separately, the first `CPLEX Error <blanks><digits>:`
  in the transcript gives the return code. Module `Text` has the string
  helpers (line splitting, right-trimming, substring search, decimal digits).
  Module `LogOutcome` has the classifier: the function `ParseLog` states the
  result, and the method `ProcessLogfile` is the line-by-line scan that
  updates a result record, proved equal to it. Module `LogTranscripts` holds
  the two test transcripts and what the scan makes of them.

The implementation module `pyomo/solvers/plugins/solvers/CPLEX.py` is not
part of this model. The tests fix the behaviour on the inputs they use;
the choices the model makes beyond them are listed under "Left out".

## Model

| member | source | states |
|---|---|---|
| SolverVersion.BeforeIsStrictTotalOrder | pyomo/solvers/tests/checks/test_cplex.py:20-26 | `Before`, the order on (major, minor, patch) tuples, is irreflexive, asymmetric, transitive and total |
| SolverVersion.AtLeast | pyomo/solvers/tests/checks/test_cplex.py:20-26 | A release is at least another exactly when it is the same release or a later one |
| SolverVersion.AtLeastMonotone | pyomo/solvers/tests/checks/test_cplex.py:20-26 | A version at or above a threshold stays at or above it when raised |
| SolverVersion.ThresholdBetweenTestedReleases | pyomo/solvers/tests/checks/test_cplex.py:20-26 | The quoting threshold `QuotingSince` lies above release 12.6.0 and at or below release 12.8.0 |
| FileName.Foreign | pyomo/solvers/tests/checks/test_cplex.py:52 | The refused separator is the one of `/` and `\` that is not the host's |
| FileName.Quoted | pyomo/solvers/tests/checks/test_cplex.py:43 | A quoted path is the path with exactly one double quote added at each end, the interior unchanged |
| FileName.ValidateFileName | pyomo/solvers/tests/checks/test_cplex.py:29-59 | A path is refused iff it holds the foreign separator, or it holds a space and the release is below the threshold. The foreign separator gives the unallowed-character error, otherwise the space error. An accepted path comes back unchanged without a space and quoted with one |
| FileName.AcceptedIsUsable | pyomo/solvers/tests/checks/test_cplex.py:29-59 | Every accepted name holds no foreign separator. A space in it only occurs on a quoting-capable release, in a name whose first and last characters are double quotes and whose interior is the caller's exact path |
| FileName.AcceptedStaysAccepted | pyomo/solvers/tests/checks/test_cplex.py:33-49 | A path accepted on one release is accepted with the same name on every later release |
| FileName.ForeignSeparatorIgnoresVersion | pyomo/solvers/tests/checks/test_cplex.py:56-59 | A path with the foreign separator is refused with the same error at every version |
| FileName.SpaceQuotingThreshold | pyomo/solvers/tests/checks/test_cplex.py:38-44 | A path with a space and no foreign separator is refused below the threshold and quoted from it on |
| FileName.PlainFileUnchanged | pyomo/solvers/tests/checks/test_cplex.py:33-36 | `foo.lp` is returned unchanged at 12.6.0 and 12.8.0 |
| FileName.SpacedFileRefusedOnOldRelease | pyomo/solvers/tests/checks/test_cplex.py:38-42 | `foo bar.lp` at 12.6.0 is refused with "Space detected in CPLEX xxx file" |
| FileName.SpacedFileQuotedOnNewRelease | pyomo/solvers/tests/checks/test_cplex.py:43-44 | `foo bar.lp` at 12.8.0 is returned as `"foo bar.lp"` |
| FileName.NativeSeparatorAccepted | pyomo/solvers/tests/checks/test_cplex.py:46-49 | `foo`, the host's separator, `bar.lp` is returned unchanged at both releases |
| FileName.ForeignSeparatorRejected | pyomo/solvers/tests/checks/test_cplex.py:51-59 | `foo`, the foreign separator, `bar.lp` is refused at both releases with "Unallowed character (<c>) found in CPLEX xxx file" |
| Text.SplitLines | pyomo/solvers/tests/checks/test_cplex.py:75-83 | Splitting a transcript gives at least one line, and no line holds a newline |
| Text.JoinLines | pyomo/solvers/tests/checks/test_cplex.py:75-83 | Joining lines with newlines starts with the first line; with SplitLines it forms the round trips below |
| Text.JoinSplit | pyomo/solvers/tests/checks/test_cplex.py:75-83 | Joining the split lines with newlines gives back the transcript |
| Text.SplitJoin | pyomo/solvers/tests/checks/test_cplex.py:75-83 | Splitting newline-free lines joined with newlines gives back the lines |
| Text.RStrip | pyomo/solvers/tests/checks/test_cplex.py:92-95 | The right-trimmed line is a prefix of the line, ends in a non-whitespace character (or is empty), and only whitespace was removed |
| Text.RStripIdempotent | pyomo/solvers/tests/checks/test_cplex.py:92-95 | Trimming twice is trimming once |
| Text.Contains | pyomo/solvers/tests/checks/test_cplex.py:74-119 | The substring search used for the trigger phrases: a phrase found is no longer than the text, and the empty phrase is always found |
| Text.ContainsIffOccurs | pyomo/solvers/tests/checks/test_cplex.py:74-119 | The substring search finds a phrase iff it occurs at some position |
| Text.SkipBlanks | pyomo/solvers/tests/checks/test_cplex.py:81 | The run of blanks after a position ends at the first non-blank |
| Text.SkipDigits | pyomo/solvers/tests/checks/test_cplex.py:81 | The run of digits after a position ends at the first non-digit |
| Text.ParseDigits | pyomo/solvers/tests/checks/test_cplex.py:96 | A run of k decimal digits reads as a number below 10^k |
| Text.ParseDecimal | pyomo/solvers/tests/checks/test_cplex.py:96 | Reading the decimal digits of a number gives back the number |
| LogOutcome.RulesWellFormedAndConsistent | pyomo/solvers/tests/checks/test_cplex.py:88-115 | In the trigger table `Rules`, every phrase is non-empty, no row claims `unknown`, no later phrase holds an earlier one (so no row is shadowed), and both failure outcomes carry status `error` |
| LogOutcome.SecondRowUnshadowed | pyomo/solvers/tests/checks/test_cplex.py:98-118 | The infeasible phrase does not hold the no-solution phrase, so the second row is not shadowed by the first |
| LogOutcome.MatchRule | pyomo/solvers/tests/checks/test_cplex.py:74-119 | The row found is the first one whose trigger phrase the line holds; none is found iff the line holds no trigger phrase |
| LogOutcome.LineOutcome | pyomo/solvers/tests/checks/test_cplex.py:76-100 | A line states no outcome exactly when it holds no trigger phrase; otherwise a consistent, known (status, condition) with the right-trimmed line as message |
| LogOutcome.FirstOutcome | pyomo/solvers/tests/checks/test_cplex.py:87-95 | The outcome scan: whatever it finds is consistent and known (never `unknown`); FirstOutcomeAt, FirstOutcomeNone and FirstOutcomeStable pin its value |
| LogOutcome.FirstOutcomeAt | pyomo/solvers/tests/checks/test_cplex.py:87-95 | The first line that states an outcome decides it |
| LogOutcome.FirstOutcomeNone | pyomo/solvers/tests/checks/test_cplex.py:87-95 | No outcome is found iff no line states one |
| LogOutcome.FirstOutcomeStable | pyomo/solvers/tests/checks/test_cplex.py:87-95 | Once an outcome is found, later lines never change it: the first recognised line wins |
| LogOutcome.CodeAt | pyomo/solvers/tests/checks/test_cplex.py:81 | The search for `CPLEX Error<blanks><digits>:` at one position: a code is read only where the tag occurs and the whole pattern fits in the line; CodeAtMatchesPattern characterises it |
| LogOutcome.CodeAtMatchesPattern | pyomo/solvers/tests/checks/test_cplex.py:81-96 | A code is read at a position iff `CPLEX Error`, one or more blanks, one or more digits and a colon start there, and the code is the value of those digits |
| LogOutcome.SpanIsMaximal | pyomo/solvers/tests/checks/test_cplex.py:81 | At most one error message starts at a given position: its blanks and digits are the longest runs |
| LogOutcome.CodeFrom | pyomo/solvers/tests/checks/test_cplex.py:81 | The leftmost-match search from a position: a code is found only if the rest of the line holds the tag |
| LogOutcome.LineCode | pyomo/solvers/tests/checks/test_cplex.py:81 | A line reports a code only if it holds the tag `CPLEX Error` |
| LogOutcome.CodeFromAt | pyomo/solvers/tests/checks/test_cplex.py:81 | The leftmost error message in a line gives its code |
| LogOutcome.CodeFromNone | pyomo/solvers/tests/checks/test_cplex.py:81 | A line gives no code iff no error message starts anywhere in it |
| LogOutcome.FirstCodeAt | pyomo/solvers/tests/checks/test_cplex.py:96-119 | `FirstCode`, the return-code scan: the first line that reports a code decides it |
| LogOutcome.FirstCodeNone | pyomo/solvers/tests/checks/test_cplex.py:96-119 | `FirstCode` finds no return code iff no line reports one |
| LogOutcome.FirstCodeStable | pyomo/solvers/tests/checks/test_cplex.py:96-119 | Once a return code is found, later lines never change it: the first reported code wins |
| LogOutcome.ParseLog | pyomo/solvers/tests/checks/test_cplex.py:87-96 | The result's status and condition are consistent (failures are errors), and its message is a single right-trimmed line |
| LogOutcome.OutcomeIsConsistentTrimmedLine | pyomo/solvers/tests/checks/test_cplex.py:92-95 | Every outcome found is the (status, condition) of some row of the table, hence consistent, and carries a right-trimmed, newline-free line as message |
| LogOutcome.FoldStep | pyomo/solvers/tests/checks/test_cplex.py:87 | The step lemma of `ProcessLogfile`'s loop: one more line changes the outcome and the code only if none was found before, and then to what that line says |
| LogOutcome.ProcessLogfile | pyomo/solvers/tests/checks/test_cplex.py:87-96 | The line-by-line scan that fills in the result record ends with exactly the result `ParseLog` states |
| LogOutcome.UnknownIffNothingRecognised | pyomo/solvers/tests/checks/test_cplex.py:88-91 | Status and condition are `unknown` together, and exactly when no line holds any trigger phrase |
| LogOutcome.FirstOutcomeIsALineOutcome | pyomo/solvers/tests/checks/test_cplex.py:88-91 | Every outcome found is the (status, condition) of some row of the table |
| LogOutcome.FirstRecognisedLineDecides | pyomo/solvers/tests/checks/test_cplex.py:87-95 | The first line holding a trigger phrase gives status and condition from its first matching row and, right-trimmed, the message |
| LogOutcome.ReturnCodeIsFirstMatch | pyomo/solvers/tests/checks/test_cplex.py:96 | The return code is the code of the leftmost error message in the first line that holds one |
| LogOutcome.NoReturnCodeIffNoMatch | pyomo/solvers/tests/checks/test_cplex.py:96 | There is no return code iff no error message occurs anywhere in the transcript |
| LogOutcome.NoCodeIffNoMatch | pyomo/solvers/tests/checks/test_cplex.py:96 | The same, for a sequence of lines |
| LogOutcome.SilentLineIgnored | pyomo/solvers/tests/checks/test_cplex.py:77-82 | Removing a line that states no outcome leaves the outcome unchanged |
| LogOutcome.CodelessLineIgnored | pyomo/solvers/tests/checks/test_cplex.py:76-79 | Removing a line that reports no code leaves the return code unchanged |
| LogOutcome.CodeIgnoresBlankWidth | pyomo/solvers/tests/checks/test_cplex.py:81 | `CPLEX Error`, any positive number of spaces, digits and a colon gives the value of the digits, whatever precedes or follows |
| LogOutcome.ErrorLineReturnCode | pyomo/solvers/tests/checks/test_cplex.py:81-96 | A one-line transcript `CPLEX Error`, any positive number of blanks, the numeral of n and a colon has return code n, so one or two spaces before `1217` both give 1217 |
| LogOutcome.TagMismatch | pyomo/solvers/tests/checks/test_cplex.py:77-79 | No error message starts where the line differs from `CPLEX Error` |
| LogOutcome.NoTagLetterNoCode | pyomo/solvers/tests/checks/test_cplex.py:77-79 | A line without the letter `X` of the tag reports no code |
| LogTranscripts.TranscriptSplits | pyomo/solvers/tests/checks/test_cplex.py:75-83 | The test transcript splits into its nine lines, the first one empty |
| LogTranscripts.ErrorLineCode | pyomo/solvers/tests/checks/test_cplex.py:81 | The prompted line `CPLEX> CPLEX Error  1217: No solution exists.` reports code 1217 |
| LogTranscripts.ErrorLineMessageCode | pyomo/solvers/tests/checks/test_cplex.py:81 | The error message after the prompt reads code 1217 |
| LogTranscripts.ErrorLinePromptHasNoCode | pyomo/solvers/tests/checks/test_cplex.py:81 | No error message starts inside the prompt |
| LogTranscripts.PromptHasNoCode | pyomo/solvers/tests/checks/test_cplex.py:81 | No error message starts anywhere inside the prompt of a line that begins with it, whatever follows |
| LogTranscripts.SilentWithout | pyomo/solvers/tests/checks/test_cplex.py:77-82 | A line lacking a letter that every trigger phrase contains states no outcome |
| LogTranscripts.BoundLineSilent | pyomo/solvers/tests/checks/test_cplex.py:77 | The best-bound line states no outcome |
| LogTranscripts.TimeLineSilent | pyomo/solvers/tests/checks/test_cplex.py:78 | The solution-time line states no outcome |
| LogTranscripts.TicksLineSilent | pyomo/solvers/tests/checks/test_cplex.py:79 | The deterministic-time line states no outcome |
| LogTranscripts.ErrorLineSilent | pyomo/solvers/tests/checks/test_cplex.py:81 | The error line states no outcome |
| LogTranscripts.ClosingLinesSilent | pyomo/solvers/tests/checks/test_cplex.py:82-83 | `No file written.` and the bare prompt `CPLEX>` state no outcome |
| LogTranscripts.OtherLinesSilent | pyomo/solvers/tests/checks/test_cplex.py:75-83 | Every line of the transcript but the outcome line states no outcome: the empty line, the three timing lines, the error line, `No file written.` and the bare prompt |
| LogTranscripts.LinesBeforeErrorHaveNoCode | pyomo/solvers/tests/checks/test_cplex.py:75-80 | No line before the error line reports a code |
| LogTranscripts.TranscriptReturnCode | pyomo/solvers/tests/checks/test_cplex.py:96-119 | Either test transcript has return code 1217 |
| LogTranscripts.NoSolutionLineText | pyomo/solvers/tests/checks/test_cplex.py:76 | The no-solution outcome line is the literal the test expects |
| LogTranscripts.NoSolutionLineTrimmed | pyomo/solvers/tests/checks/test_cplex.py:92-95 | Trimming the no-solution line leaves it unchanged |
| LogTranscripts.NoSolutionLineMatches | pyomo/solvers/tests/checks/test_cplex.py:76-91 | The no-solution line matches the first row |
| LogTranscripts.NoSolutionLineOutcome | pyomo/solvers/tests/checks/test_cplex.py:76-95 | The no-solution line states error / noSolution with itself as message |
| LogTranscripts.InfeasibleLineText | pyomo/solvers/tests/checks/test_cplex.py:100 | The infeasible outcome line is the literal the test expects |
| LogTranscripts.InfeasibleLineTrimmed | pyomo/solvers/tests/checks/test_cplex.py:116-118 | Trimming the infeasible line leaves it unchanged |
| LogTranscripts.InfeasibleLineMatches | pyomo/solvers/tests/checks/test_cplex.py:100-115 | The infeasible line does not hold the no-solution phrase and matches the second row |
| LogTranscripts.InfeasibleLineHoldsTrigger | pyomo/solvers/tests/checks/test_cplex.py:100 | The infeasible line holds the phrase `Integer infeasible.` |
| LogTranscripts.InfeasibleLineOutcome | pyomo/solvers/tests/checks/test_cplex.py:100-118 | The infeasible line states error / infeasible with itself as message |
| LogTranscripts.TranscriptResult | pyomo/solvers/tests/checks/test_cplex.py:74-119 | A test transcript is classified by its outcome line and reports code 1217 |
| LogTranscripts.NoSolutionTranscript | pyomo/solvers/tests/checks/test_cplex.py:74-96 | The first test transcript gives status error, condition noSolution, message `MIP - Time limit exceeded, no integer solution.` and return code 1217 |
| LogTranscripts.InfeasibleTranscript | pyomo/solvers/tests/checks/test_cplex.py:98-119 | The second test transcript gives status error, condition infeasible, message `MIP - Integer infeasible.` and return code 1217 |
| LogTranscripts.ErrorLineLeavesOutcome | pyomo/solvers/tests/checks/test_cplex.py:81-95 | Removing the error-code line from a test transcript leaves the outcome unchanged |
| LogTranscripts.SilentTranscriptUnknown | pyomo/solvers/tests/checks/test_cplex.py:87-96 | A transcript whose lines state no outcome and report no code is `unknown`/`unknown` with an empty message and no return code |
| LogTranscripts.EmptyTranscriptUnknown | pyomo/solvers/tests/checks/test_cplex.py:87-96 | An empty transcript is `unknown`/`unknown` with no return code |
| LogTranscripts.TimingTranscriptUnknown | pyomo/solvers/tests/checks/test_cplex.py:77-79 | The timing lines alone are `unknown`/`unknown` with no return code |

## Left out

- The implementation module `pyomo/solvers/plugins/solvers/CPLEX.py` is not part of this model. The model follows the behaviour its tests fix.
- Temporary files and writing the transcript to disk (test lines 64-72, 84-85): file I/O. The transcript is a `string` parameter.
- The mock solver objects and `MockCPLEX` (lines 20-26, 65): the solver's `version()` becomes a `Version` triple parameter, and `process_logfile` takes the transcript instead of the solver object.
- `os.path.sep` (lines 47, 52): a host query. It becomes the `native` parameter, restricted to `/` or `\`.
- The regular-expression match of `assertRaisesRegexp` (lines 40, 56): the error messages are modelled as exact strings. The test only searches for them, so the implementation may say more around them.
- The floating-point figures of the transcript (best bound, times, ticks; lines 77-79, 101-103): they take no part in the classification and are not parsed.
- Outcome phrasings other than the two the tests show (optimal, unbounded, node or iteration limits): they are not evidenced. The rule table is an ordered list to which rows can be appended.
- A path holding both a space and the foreign separator is untested. The model checks the separator first and reports the unallowed-character error.
- SolverVersion.QuotingSince: the value 12.7.0 is the one constant the tests do not pin. They fix only that 12.6.0 lies below the threshold and 12.8.0 at or above it.
- The other fields of the results object (solution values, timing, the solver's name) are not filled in by the modelled scan.
- Text.RStrip: trims ASCII whitespace only (space, tab, line feed, carriage return, vertical tab, form feed). Python's `str.rstrip()` also removes further characters, such as `\x1c` to `\x1f`, `\x85` and `\xa0`.
- LogOutcome.CodeAt: counts only space and tab as blanks between the tag and the digits, and only ASCII digits as digits. A Python `\s` also matches carriage return, vertical tab and form feed (`\r`, `\v`, `\f`) inside a line, and further Unicode spaces; `\d` also matches non-ASCII digits.
- The long transcript literals are written as concatenations of short pieces, and the transcript as its lines joined with newlines. The text is the same.
- When several lines report an error code, the model keeps the first one (`LogOutcome.FirstCodeStable`). The tests have a single error line, so a scan that keeps the last code would pass them too.
- When several lines hold a trigger phrase, the first one decides the outcome and later ones never override it (`LogOutcome.FirstOutcomeStable`). The tests have a single outcome line.
- The termination message is the outcome line with trailing whitespace removed; leading blanks are kept. The tests' outcome lines have neither.
- A transcript that holds no trigger phrase gets the empty message. The tests do not show such a transcript.
- Every path character other than the foreign separator and the space is accepted unchanged. The tests only try letters, dots and the two separators.
