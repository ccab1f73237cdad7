// Day 1: calibration values, the first and last digit of each line; in the
// second part a digit may also be spelled out as a word.

module Day1 {
  import opened Lib

  predicate IsDigit(c: char) { '0' <= c <= '9' }

  function DigitValue(c: char): (v: nat)
    requires IsDigit(c)
    ensures v <= 9
  {
    c as int - '0' as int
  }

  /** The values of the digit characters of `line`, left to right. */
  function Digits(line: string): (r: seq<nat>)
    ensures forall k :: 0 <= k < |r| ==> r[k] <= 9
    decreases |line|
  {
    if line == [] then []
    else
      var c := line[|line| - 1];
      Digits(line[..|line| - 1]) + (if IsDigit(c) then [DigitValue(c)] else [])
  }

  /** A line has no digit values exactly when it has no digit characters. */
  lemma {:induction false} NoDigits(line: string)
    ensures Digits(line) == [] <==> forall i :: 0 <= i < |line| ==> !IsDigit(line[i])
    decreases |line|
  {
    if line != [] {
      var init := line[..|line| - 1];
      NoDigits(init);
      assert forall i :: 0 <= i < |init| ==> init[i] == line[i];
    }
  }

  /** A line's value: its first value times ten plus its last; a line without
      any value has none (the source panics on the empty index). */
  function Calibration(vals: seq<nat>): (r: Option<nat>)
    ensures r.Some? <==> vals != []
  {
    if vals == [] then None else Some(vals[0] * 10 + vals[|vals| - 1])
  }

  /** For digit values the line's value is a two-digit number whose tens digit
      is the first value and whose units digit is the last. */
  lemma CalibrationDigits(vals: seq<nat>)
    requires vals != [] && forall k :: 0 <= k < |vals| ==> vals[k] <= 9
    ensures Calibration(vals).value <= 99
    ensures Calibration(vals).value / 10 == vals[0]
    ensures Calibration(vals).value % 10 == vals[|vals| - 1]
  {
  }

  /** The puzzle answer: the sum over the lines of their calibration values,
      where `values` extracts the values of one line. */
  function Answer(lines: seq<string>, values: string -> seq<nat>): Option<nat>
    decreases |lines|
  {
    if lines == [] then Some(0)
    else
      match (Answer(lines[..|lines| - 1], values), Calibration(values(lines[|lines| - 1])))
      case (Some(total), Some(v)) => Some(total + v)
      case _ => None
  }

  lemma AnswerStep(lines: seq<string>, i: nat, values: string -> seq<nat>)
    requires i < |lines|
    ensures Answer(lines[..i + 1], values) ==
      match (Answer(lines[..i], values), Calibration(values(lines[i])))
      case (Some(total), Some(v)) => Some(total + v)
      case _ => None
  {
    assert lines[..i + 1][..i] == lines[..i];
  }

  /** The answer is an error exactly when some line has no value. */
  lemma {:induction false} AnswerFails(lines: seq<string>, values: string -> seq<nat>)
    ensures Answer(lines, values).None? <==> exists i :: 0 <= i < |lines| && values(lines[i]) == []
    decreases |lines|
  {
    if lines != [] {
      var init := lines[..|lines| - 1];
      AnswerFails(init, values);
      assert forall i :: 0 <= i < |init| ==> init[i] == lines[i];
      if values(lines[|lines| - 1]) != [] && Answer(init, values).Some? {
        forall i | 0 <= i < |lines| ensures values(lines[i]) != [] {
          if i < |init| { assert lines[i] == init[i]; }
        }
      }
    }
  }

  /** With every value a digit, each line adds at most 99. */
  lemma {:induction false} AnswerBound(lines: seq<string>, values: string -> seq<nat>)
    requires forall i, k :: 0 <= i < |lines| && 0 <= k < |values(lines[i])| ==> values(lines[i])[k] <= 9
    ensures Answer(lines, values).Some? ==> Answer(lines, values).value <= 99 * |lines|
    decreases |lines|
  {
    if lines != [] {
      var init := lines[..|lines| - 1];
      assert forall i :: 0 <= i < |init| ==> init[i] == lines[i];
      AnswerBound(init, values);
      var last := values(lines[|lines| - 1]);
      if last != [] { CalibrationDigits(last); }
    }
  }

  lemma NoValueFails(lines: seq<string>, i: nat, values: string -> seq<nat>)
    requires i < |lines| && values(lines[i]) == []
    ensures Answer(lines, values).None?
  {
    AnswerFails(lines, values);
  }

  /** `part1`: one calibration value per line from its digit characters. */
  method Part1(data: string) returns (r: Option<nat>)
    ensures r == Answer(Lines(data), Digits)
  {
    r := SumDigitLines(Lines(data));
  }

  lemma LineStep(lines: seq<string>, i: nat, sum: nat, v: nat, values: string -> seq<nat>)
    requires i < |lines| && Answer(lines[..i], values) == Some(sum)
    requires Calibration(values(lines[i])) == Some(v)
    ensures Answer(lines[..i + 1], values) == Some(sum + v)
  {
    AnswerStep(lines, i, values);
  }
  /** The loop of `part1` over the lines. */
  method SumDigitLines(lines: seq<string>) returns (r: Option<nat>)
    ensures r == Answer(lines, Digits)
  {
    var sum: nat := 0;
    var i := 0;
    while i < |lines|
      invariant 0 <= i <= |lines|
      invariant Answer(lines[..i], Digits) == Some(sum)
    {
      var v := DigitLine(lines[i]);
      if v.None? {
        NoValueFails(lines, i, Digits);
        return None;
      }
      LineStep(lines, i, sum, v.value, Digits);
      sum := sum + v.value;
      i := i + 1;
    }
    assert lines[..i] == lines;
    r := Some(sum);
  }

  /** One line of `part1`: its first and last digit characters. */
  method DigitLine(line: string) returns (v: Option<nat>)
    ensures v == Calibration(Digits(line))
  {
    var digits := Digits(line);
    if |digits| == 0 {
      return None;
    }
    v := Some(digits[0] * 10 + digits[|digits| - 1]);
  }

  /* ---------------- part 2: spelled digits ---------------- */

  /** The table the second part tries at every index, in order. */
  const Table: seq<(string, nat)> := [
    ("0", 0), ("1", 1), ("2", 2), ("3", 3), ("4", 4),
    ("5", 5), ("6", 6), ("7", 7), ("8", 8), ("9", 9),
    ("one", 1), ("two", 2), ("three", 3), ("four", 4), ("five", 5),
    ("six", 6), ("seven", 7), ("eight", 8), ("nine", 9)]

  /** The value of the first table entry from index `k` on that starts `rest`. */
  function FirstMatch(rest: string, k: nat): Option<nat>
    requires k <= |Table|
    decreases |Table| - k
  {
    if k == |Table| then None
    else if Table[k].0 <= rest then Some(Table[k].1)
    else FirstMatch(rest, k + 1)
  }

  /** The value recorded for start index `i` of `line`, if any. */
  function ValueAt(line: string, i: nat): Option<nat>
    requires i <= |line|
  {
    FirstMatch(line[i..], 0)
  }

  /** The values recorded for the start indices below `n`, in order. */
  function Spelled(line: string, n: nat): seq<nat>
    requires n <= |line|
    decreases n
  {
    if n == 0 then []
    else Spelled(line, n - 1) + (match ValueAt(line, n - 1) case Some(v) => [v] case None => [])
  }

  function SpelledDigits(line: string): seq<nat> { Spelled(line, |line|) }

  lemma {:induction false} FirstMatchFound(rest: string, k: nat)
    requires k <= |Table|
    ensures FirstMatch(rest, k).None? <==> forall j :: k <= j < |Table| ==> !(Table[j].0 <= rest)
    ensures FirstMatch(rest, k).Some? ==>
      exists j :: k <= j < |Table| && Table[j].0 <= rest && Table[j].1 == FirstMatch(rest, k).value
    decreases |Table| - k
  {
    if k < |Table| && !(Table[k].0 <= rest) { FirstMatchFound(rest, k + 1); }
  }

  /** A value is recorded at an index exactly when some table entry starts
      there, and it is the value of such an entry. */
  lemma ValueAtMeaning(line: string, i: nat)
    requires i <= |line|
    ensures ValueAt(line, i).None? <==> forall j :: 0 <= j < |Table| ==> !(Table[j].0 <= line[i..])
    ensures ValueAt(line, i).Some? ==>
      exists j :: 0 <= j < |Table| && Table[j].0 <= line[i..] && Table[j].1 == ValueAt(line, i).value
  {
    FirstMatchFound(line[i..], 0);
  }

  /** A digit character wins over any word: digits come first in the table. */
  lemma DigitWins(line: string, i: nat)
    requires i < |line| && IsDigit(line[i])
    ensures ValueAt(line, i) == Some(DigitValue(line[i]))
  {
    var rest := line[i..];
    var d := DigitValue(line[i]);
    assert rest[0] == line[i];
    var k := 0;
    while k < d
      invariant 0 <= k <= d
      invariant FirstMatch(rest, 0) == FirstMatch(rest, k)
    {
      assert Table[k].0 == [('0' as int + k) as char];
      k := k + 1;
    }
    assert Table[d].0 == [line[i]];
  }

  /** No spelled-out digit word starts at any index of `line`. */
  predicate NoWords(line: string) {
    forall i, j :: 0 <= i <= |line| && 10 <= j < |Table| ==> !(Table[j].0 <= line[i..])
  }

  lemma NoWordValue(line: string, i: nat)
    requires i < |line| && NoWords(line) && !IsDigit(line[i])
    ensures ValueAt(line, i).None?
  {
    FirstMatchFound(line[i..], 0);
    forall j | 0 <= j < 10 ensures !(Table[j].0 <= line[i..]) {
      assert |Table[j].0| == 1 && '0' <= Table[j].0[0] <= '9';
    }
  }

  /** On a line without spelled digits the second part records exactly the
      digits the first part uses. */
  lemma {:induction false} SpelledAgreesWithDigits(line: string, n: nat)
    requires n <= |line| && NoWords(line)
    ensures Spelled(line, n) == Digits(line[..n])
    decreases n
  {
    if n > 0 {
      SpelledAgreesWithDigits(line, n - 1);
      assert line[..n][..n - 1] == line[..n - 1];
      if IsDigit(line[n - 1]) { DigitWins(line, n - 1); } else { NoWordValue(line, n - 1); }
    }
  }

  lemma PartsAgree(lines: seq<string>)
    requires forall i :: 0 <= i < |lines| ==> NoWords(lines[i])
    ensures Answer(lines, SpelledDigits) == Answer(lines, Digits)
  {
    forall i | 0 <= i < |lines| ensures SpelledDigits(lines[i]) == Digits(lines[i]) {
      LineAgrees(lines[i]);
    }
    AnswersAgree(lines, SpelledDigits, Digits);
  }

  lemma LineAgrees(line: string)
    requires NoWords(line)
    ensures SpelledDigits(line) == Digits(line)
  {
    SpelledAgreesWithDigits(line, |line|);
    assert line[..|line|] == line;
  }

  lemma {:induction false} AnswersAgree(lines: seq<string>, f: string -> seq<nat>, g: string -> seq<nat>)
    requires forall i :: 0 <= i < |lines| ==> f(lines[i]) == g(lines[i])
    ensures Answer(lines, f) == Answer(lines, g)
    decreases |lines|
  {
    if lines != [] {
      var init := lines[..|lines| - 1];
      assert forall i :: 0 <= i < |init| ==> init[i] == lines[i];
      AnswersAgree(init, f, g);
    }
  }

  /** The scan of one line in `part2`: at every index the table is tried in
      order and the first entry that starts there is recorded. */
  method ScanLine(line: string) returns (vals: seq<nat>)
    ensures vals == SpelledDigits(line)
  {
    vals := [];
    var i := 0;
    while i < |line|
      invariant 0 <= i <= |line|
      invariant vals == Spelled(line, i)
    {
      var rest := line[i..];
      var k := 0;
      while k < |Table| && !(Table[k].0 <= rest)
        invariant 0 <= k <= |Table|
        invariant FirstMatch(rest, 0) == FirstMatch(rest, k)
      {
        k := k + 1;
      }
      if k < |Table| {
        vals := vals + [Table[k].1];
      }
      i := i + 1;
    }
  }

  /** `part2`: one calibration value per line from its digits and digit words. */
  method Part2(data: string) returns (r: Option<nat>)
    ensures r == Answer(Lines(data), SpelledDigits)
  {
    var lines := Lines(data);
    var sum: nat := 0;
    var i := 0;
    while i < |lines|
      invariant 0 <= i <= |lines|
      invariant Answer(lines[..i], SpelledDigits) == Some(sum)
    {
      var vals := ScanLine(lines[i]);
      if vals == [] {
        NoValueFails(lines, i, SpelledDigits);
        return None;
      }
      var v := vals[0] * 10 + vals[|vals| - 1];
      LineStep(lines, i, sum, v, SpelledDigits);
      sum := sum + v;
      i := i + 1;
    }
    assert lines[..i] == lines;
    r := Some(sum);
  }

  /** A line whose only digit is at `p` yields just that digit, so it counts
      as both the first and the last digit. */
  lemma {:induction false} SingleDigit(line: string, p: nat)
    requires p < |line| && IsDigit(line[p])
    requires forall i :: 0 <= i < |line| && i != p ==> !IsDigit(line[i])
    ensures Digits(line) == [DigitValue(line[p])]
    ensures Calibration(Digits(line)) == Some(11 * DigitValue(line[p]))
    decreases |line|
  {
    var init := line[..|line| - 1];
    if p < |line| - 1 {
      assert forall i :: 0 <= i < |init| ==> init[i] == line[i];
      SingleDigit(init, p);
    } else {
      assert forall i :: 0 <= i < |init| ==> !IsDigit(init[i]);
      NoDigits(init);
    }
  }

  lemma SampleSingleDigit()
    ensures Calibration(Digits("treb7uchet")) == Some(77)
  {
    SingleDigit("treb7uchet", 4);
  }
}
