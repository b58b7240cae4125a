/** The string operations the log scan is built from: splitting on newlines,
    right-trimming, substring search and decimal digit runs. */
module Text {

  /** `text.split("\n")`: the pieces between newline characters, in order. */
  function SplitLines(s: string): (lines: seq<string>)
    ensures |lines| >= 1
    ensures forall i :: 0 <= i < |lines| ==> '\n' !in lines[i]
  {
    if s == [] then [""]
    else
      var rest := SplitLines(s[1..]);
      if s[0] == '\n' then [""] + rest
      else [[s[0]] + rest[0]] + rest[1..]
  }

  /** `"\n".join(lines)`. */
  function JoinLines(lines: seq<string>): (s: string)
    requires |lines| >= 1
    ensures lines[0] <= s
  {
    if |lines| == 1 then lines[0] else lines[0] + "\n" + JoinLines(lines[1..])
  }

  /** Splitting loses nothing: joining the lines gives back the text. */
  lemma {:induction false} JoinSplit(s: string)
    ensures JoinLines(SplitLines(s)) == s
  {
    if s != [] {
      JoinSplit(s[1..]);
      var rest := SplitLines(s[1..]);
      if s[0] != '\n' {
        if |rest| == 1 {
          assert JoinLines(SplitLines(s)) == [s[0]] + rest[0];
        } else {
          assert rest == [rest[0]] + rest[1..];
          calc {
            JoinLines(SplitLines(s));
            ([s[0]] + rest[0]) + "\n" + JoinLines(rest[1..]);
            [s[0]] + (rest[0] + "\n" + JoinLines(rest[1..]));
            [s[0]] + JoinLines(rest);
          }
        }
      }
    }
  }

  /** Splitting a joined text gives back the lines, when none holds a newline. */
  lemma {:induction false} SplitJoin(lines: seq<string>)
    requires |lines| >= 1
    requires forall i :: 0 <= i < |lines| ==> '\n' !in lines[i]
    ensures SplitLines(JoinLines(lines)) == lines
  {
    if |lines| == 1 {
      NoNewlineIsOneLine(lines[0]);
    } else {
      SplitJoin(lines[1..]);
      SplitAfterNewline(lines[0], JoinLines(lines[1..]));
      assert lines == [lines[0]] + lines[1..];
    }
  }

  /** A text without a newline is a single line. */
  lemma {:induction false} NoNewlineIsOneLine(s: string)
    requires '\n' !in s
    ensures SplitLines(s) == [s]
  {
    if s != [] {
      NoNewlineIsOneLine(s[1..]);
      assert [s[0]] + s[1..] == s;
    }
  }

  /** A newline-free prefix followed by a newline is the first line. */
  lemma {:induction false} SplitAfterNewline(a: string, b: string)
    requires '\n' !in a
    ensures SplitLines(a + "\n" + b) == [a] + SplitLines(b)
  {
    if a == [] {
      assert a + "\n" + b == "\n" + b;
      assert ("\n" + b)[1..] == b;
    } else {
      SplitAfterNewline(a[1..], b);
      assert (a + "\n" + b)[1..] == a[1..] + "\n" + b;
      assert [a[0]] + a[1..] == a;
    }
  }

  /** ASCII whitespace: space, tab, line feed, carriage return, vertical tab
      and form feed. */
  predicate IsSpace(c: char) {
    c == ' ' || c == '\t' || c == '\n' || c == '\r' || c == '\U{000B}' || c == '\U{000C}'
  }

  /** `s.rstrip()`: `s` without its trailing run of whitespace. */
  function RStrip(s: string): (r: string)
    ensures r <= s
    ensures r == [] || !IsSpace(r[|r| - 1])
    ensures forall i :: |r| <= i < |s| ==> IsSpace(s[i])
  {
    if s == [] || !IsSpace(s[|s| - 1]) then s else RStrip(s[..|s| - 1])
  }

  /** Right-trimming twice is right-trimming once. */
  lemma RStripIdempotent(s: string)
    ensures RStrip(RStrip(s)) == RStrip(s)
  {
  }

  /** Pattern `p` occurs in `s` starting at position `i`. */
  predicate OccursAt(s: string, p: string, i: int) {
    0 <= i && i + |p| <= |s| && s[i..i + |p|] == p
  }

  /** Python's `p in s` for strings: case-sensitive substring search. */
  predicate Contains(s: string, p: string)
    ensures Contains(s, p) ==> |p| <= |s|
    ensures p == [] ==> Contains(s, p)
  {
    p <= s || (s != [] && Contains(s[1..], p))
  }

  /** Contains agrees with the reference definition: some occurrence exists. */
  lemma ContainsIffOccurs(s: string, p: string)
    ensures Contains(s, p) <==> exists i :: OccursAt(s, p, i)
  {
    if Contains(s, p) {
      ContainsHasOccurrence(s, p);
    }
    forall i | OccursAt(s, p, i) ensures Contains(s, p) {
      OccurrenceIsContained(s, p, i);
    }
  }

  lemma {:induction false} ContainsHasOccurrence(s: string, p: string)
    requires Contains(s, p)
    ensures exists i :: OccursAt(s, p, i)
  {
    if p <= s {
      assert OccursAt(s, p, 0);
    } else {
      ContainsHasOccurrence(s[1..], p);
      var i :| OccursAt(s[1..], p, i);
      assert s[1..][i..i + |p|] == s[i + 1..i + 1 + |p|];
      assert OccursAt(s, p, i + 1);
    }
  }

  lemma {:induction false} OccurrenceIsContained(s: string, p: string, i: int)
    requires OccursAt(s, p, i)
    ensures Contains(s, p)
    decreases i
  {
    if i > 0 {
      assert s[1..][i - 1..i - 1 + |p|] == s[i..i + |p|];
      OccurrenceIsContained(s[1..], p, i - 1);
    }
  }

  /** The blanks accepted between the error tag and its digits: space and tab
      only. This is a smaller set than `IsSpace`, the whitespace RStrip removes. */
  predicate IsBlank(c: char) {
    c == ' ' || c == '\t'
  }

  predicate IsDigit(c: char) {
    '0' <= c <= '9'
  }

  /** The end of the run of blanks starting at `j`. */
  function SkipBlanks(s: string, j: nat): (k: nat)
    requires j <= |s|
    ensures j <= k <= |s|
    ensures forall p :: j <= p < k ==> IsBlank(s[p])
    ensures k == |s| || !IsBlank(s[k])
    decreases |s| - j
  {
    if j == |s| || !IsBlank(s[j]) then j else SkipBlanks(s, j + 1)
  }

  /** The end of the run of decimal digits starting at `j`. */
  function SkipDigits(s: string, j: nat): (k: nat)
    requires j <= |s|
    ensures j <= k <= |s|
    ensures forall p :: j <= p < k ==> IsDigit(s[p])
    ensures k == |s| || !IsDigit(s[k])
    decreases |s| - j
  {
    if j == |s| || !IsDigit(s[j]) then j else SkipDigits(s, j + 1)
  }

  function DigitValue(c: char): nat
    requires IsDigit(c)
  {
    (c as int - '0' as int) as nat
  }

  function DigitChar(d: nat): (c: char)
    requires d < 10
    ensures IsDigit(c) && DigitValue(c) == d
  {
    ('0' as int + d) as char
  }

  /** `int(digits)` for a run of decimal digits, most significant first. */
  function ParseDigits(s: string): (n: nat)
    requires forall i :: 0 <= i < |s| ==> IsDigit(s[i])
    ensures n < Pow10(|s|)
  {
    if s == [] then 0 else 10 * ParseDigits(s[..|s| - 1]) + DigitValue(s[|s| - 1])
  }

  /** `10 ** k`. */
  function Pow10(k: nat): (p: nat)
    ensures p >= 1
  {
    if k == 0 then 1 else 10 * Pow10(k - 1)
  }

  /** The decimal numeral of `n`, without leading zeros (`str(n)`). */
  function Decimal(n: nat): (s: string)
    ensures |s| >= 1
    ensures forall i :: 0 <= i < |s| ==> IsDigit(s[i])
    ensures n > 0 ==> s[0] != '0'
  {
    if n < 10 then [DigitChar(n)] else Decimal(n / 10) + [DigitChar(n % 10)]
  }

  /** Parsing the numeral of `n` gives `n` back. */
  lemma {:induction false} ParseDecimal(n: nat)
    ensures ParseDigits(Decimal(n)) == n
  {
    var s := Decimal(n);
    if n < 10 {
      assert s[..|s| - 1] == [];
    } else {
      ParseDecimal(n / 10);
      assert s[..|s| - 1] == Decimal(n / 10);
    }
  }

  /** A pattern occurs where it is written. */
  lemma ContainsInfix(a: string, p: string, b: string)
    ensures Contains(a + p + b, p)
  {
    assert (a + p + b)[|a|..|a| + |p|] == p;
    OccurrenceIsContained(a + p + b, p, |a|);
  }

  /** A pattern cannot occur in a text that lacks one of its characters. */
  lemma MissingCharNotContained(s: string, p: string, c: char)
    requires c in p && c !in s
    ensures !Contains(s, p)
  {
    if Contains(s, p) {
      ContainsHasOccurrence(s, p);
    }
  }
}
