// Day 3: the engine schematic. Numbers are maximal runs of digits on a line;
// any character other than '.' and a digit is a symbol.

module Day3 {
  import opened Lib

  datatype PartInfo = PartInfo(val: nat, x: nat, y: nat, digits: nat)

  type Pos = (nat, nat)

  predicate IsDigit(c: char) { '0' <= c <= '9' }

  predicate IsSymbol(c: char) { c != '.' && !IsDigit(c) }

  function DigitValue(c: char): nat
    requires IsDigit(c)
  {
    c as int - '0' as int
  }

  predicate AllDigits(s: string) {
    forall i :: 0 <= i < |s| ==> IsDigit(s[i])
  }

  /** The number a run of decimal digits spells. */
  function Decimal(s: string): nat
    requires AllDigits(s)
    decreases |s|
  {
    if s == [] then 0 else Decimal(s[..|s| - 1]) * 10 + DigitValue(s[|s| - 1])
  }

  /** The first index from `x` on that does not hold a digit. */
  function RunEnd(line: string, x: nat): (e: nat)
    requires x <= |line|
    ensures x <= e <= |line|
    ensures AllDigits(line[x..e])
    ensures e < |line| ==> !IsDigit(line[e])
    decreases |line| - x
  {
    if x < |line| && IsDigit(line[x]) then
      var e := RunEnd(line, x + 1);
      assert forall i :: 0 < i < e - x ==> line[x..e][i] == line[x + 1..e][i - 1];
      e
    else x
  }

  /** The numbers of `line` from column `x` on, one per run of digits, left to right. */
  function PartsFrom(line: string, y: nat, x: nat): seq<PartInfo>
    requires x <= |line|
    decreases |line| - x
  {
    if x == |line| then []
    else if IsDigit(line[x]) then
      var e := RunEnd(line, x);
      [PartInfo(Decimal(line[x..e]), x, y, e - x)] + PartsFrom(line, y, e)
    else PartsFrom(line, y, x + 1)
  }

  /** The numbers of line `y`. */
  function LineParts(line: string, y: nat): seq<PartInfo> { PartsFrom(line, y, 0) }

  /** The numbers of all the lines, top to bottom. */
  function AllParts(lines: seq<string>): seq<PartInfo>
    decreases |lines|
  {
    if lines == [] then []
    else AllParts(lines[..|lines| - 1]) + LineParts(lines[|lines| - 1], |lines| - 1)
  }

  /** `p` is a maximal run of digits of line `y`, and `val` is its decimal value. */
  predicate IsRun(line: string, y: nat, p: PartInfo) {
    p.y == y && p.digits >= 1 && p.x + p.digits <= |line| &&
    AllDigits(line[p.x..p.x + p.digits]) &&
    p.val == Decimal(line[p.x..p.x + p.digits]) &&
    (p.x == 0 || !IsDigit(line[p.x - 1])) &&
    (p.x + p.digits == |line| || !IsDigit(line[p.x + p.digits]))
  }

  /** A number found from column `x` on is a maximal run of digits: it starts
      after a non-digit (or at `x`), ends before a non-digit or the line's end,
      and `val` is the run's decimal value. */
  lemma {:induction false} PartsFromAreRuns(line: string, y: nat, x: nat, k: nat)
    requires x <= |line| && k < |PartsFrom(line, y, x)|
    requires x == 0 || x == |line| || !IsDigit(line[x - 1]) || !IsDigit(line[x])
    ensures x <= PartsFrom(line, y, x)[k].x && IsRun(line, y, PartsFrom(line, y, x)[k])
    decreases |line| - x
  {
    if IsDigit(line[x]) {
      var e := RunEnd(line, x);
      var q := PartInfo(Decimal(line[x..e]), x, y, e - x);
      assert PartsFrom(line, y, x) == [q] + PartsFrom(line, y, e);
      if k > 0 {
        assert PartsFrom(line, y, x)[k] == PartsFrom(line, y, e)[k - 1];
        PartsFromAreRuns(line, y, e, k - 1);
      } else {
        FirstRun(line, y, x);
      }
    } else {
      assert PartsFrom(line, y, x) == PartsFrom(line, y, x + 1);
      PartsFromAreRuns(line, y, x + 1, k);
    }
  }

  /** The number starting at a run start `x` is the whole run. */
  lemma FirstRun(line: string, y: nat, x: nat)
    requires x < |line| && IsDigit(line[x])
    requires x == 0 || !IsDigit(line[x - 1])
    ensures PartsFrom(line, y, x)[0].x == x && IsRun(line, y, PartsFrom(line, y, x)[0])
  {
    var e := RunEnd(line, x);
    assert e > x;
  }

  /** Every number of a line is a maximal run of digits with its value. */
  lemma LinePartsAreRuns(line: string, y: nat, k: nat)
    requires k < |LineParts(line, y)|
    ensures var p := LineParts(line, y)[k];
      p.y == y && p.digits >= 1 && p.x + p.digits <= |line| &&
      AllDigits(line[p.x..p.x + p.digits]) &&
      p.val == Decimal(line[p.x..p.x + p.digits]) &&
      (p.x == 0 || !IsDigit(line[p.x - 1])) &&
      (p.x + p.digits == |line| || !IsDigit(line[p.x + p.digits]))
  {
    PartsFromAreRuns(line, y, 0, k);
  }

  /** Every run start of a line (a digit with no digit before it) is the
      start of one of its numbers. */
  lemma {:induction false} RunStartIsPart(line: string, y: nat, x: nat, s: nat)
    requires x <= s < |line| && IsDigit(line[s]) && (s == 0 || !IsDigit(line[s - 1]))
    requires x == 0 || x == |line| || !IsDigit(line[x - 1]) || !IsDigit(line[x])
    ensures exists k :: 0 <= k < |PartsFrom(line, y, x)| && PartsFrom(line, y, x)[k].x == s
    decreases |line| - x
  {
    if x == s {
      assert PartsFrom(line, y, x)[0].x == s;
    } else if IsDigit(line[x]) {
      var e := RunEnd(line, x);
      if s < e {
        assert false;
      }
      RunStartIsPart(line, y, e, s);
      var k :| 0 <= k < |PartsFrom(line, y, e)| && PartsFrom(line, y, e)[k].x == s;
      assert PartsFrom(line, y, x)[k + 1].x == s;
    } else {
      RunStartIsPart(line, y, x + 1, s);
      var k :| 0 <= k < |PartsFrom(line, y, x + 1)| && PartsFrom(line, y, x + 1)[k].x == s;
      assert PartsFrom(line, y, x)[k].x == s;
    }
  }

  /* ---- how the numbers of a prefix grow by one character ---- */

  lemma {:induction false} RunEndSnoc(s: string, c: char, x: nat)
    requires x <= |s|
    ensures RunEnd(s + [c], x) ==
      if RunEnd(s, x) == |s| && IsDigit(c) then |s| + 1 else RunEnd(s, x)
    decreases |s| - x
  {
    if x < |s| {
      assert (s + [c])[x] == s[x];
      if IsDigit(s[x]) { RunEndSnoc(s, c, x + 1); }
    }
  }

  lemma DecimalSnoc(s: string, c: char)
    requires AllDigits(s) && IsDigit(c)
    ensures AllDigits(s + [c]) && Decimal(s + [c]) == Decimal(s) * 10 + DigitValue(c)
  {
    assert (s + [c])[..|s|] == s;
  }

  /** The pending number extended by one more digit. */
  function Extend(p: PartInfo, c: char): PartInfo
    requires IsDigit(c)
  {
    p.(val := p.val * 10 + DigitValue(c), digits := p.digits + 1)
  }

  /** Appending a non-digit leaves the numbers of a prefix as they were. */
  lemma {:induction false} NonDigitSnoc(s: string, c: char, y: nat, x: nat)
    requires x <= |s| && !IsDigit(c)
    ensures PartsFrom(s + [c], y, x) == PartsFrom(s, y, x)
    decreases |s| - x
  {
    var t := s + [c];
    if x < |s| {
      assert t[x] == s[x];
      if IsDigit(s[x]) {
        var e := RunEnd(s, x);
        RunEndSnoc(s, c, x);
        assert t[x..e] == s[x..e];
        NonDigitSnoc(s, c, y, e);
      } else {
        NonDigitSnoc(s, c, y, x + 1);
      }
    }
  }

  /** Appending a digit after a non-digit starts a new number. */
  lemma {:induction false} NewRunSnoc(s: string, c: char, y: nat, x: nat)
    requires x <= |s| && IsDigit(c)
    requires x == |s| || !IsDigit(s[|s| - 1])
    ensures PartsFrom(s + [c], y, x) == PartsFrom(s, y, x) + [PartInfo(DigitValue(c), |s|, y, 1)]
    decreases |s| - x
  {
    var t := s + [c];
    if x == |s| {
      NewRunAtEnd(s, c, y);
    } else {
      assert t[x] == s[x];
      if IsDigit(s[x]) {
        var e := RunEnd(s, x);
        RunEndSnoc(s, c, x);
        if e == |s| {
          assert false;
        }
        assert t[x..e] == s[x..e];
        var q := PartInfo(Decimal(s[x..e]), x, y, e - x);
        assert PartsFrom(s, y, x) == [q] + PartsFrom(s, y, e);
        assert PartsFrom(t, y, x) == [q] + PartsFrom(t, y, e);
        NewRunSnoc(s, c, y, e);
      } else {
        NewRunSnoc(s, c, y, x + 1);
      }
    }
  }

  /** A digit appended at the end of the line is a number on its own. */
  lemma NewRunAtEnd(s: string, c: char, y: nat)
    requires IsDigit(c)
    ensures PartsFrom(s + [c], y, |s|) == [PartInfo(DigitValue(c), |s|, y, 1)]
  {
    var t := s + [c];
    assert RunEnd(t, |s|) == |s| + 1 by { assert RunEnd(t, |s| + 1) == |s| + 1; }
    assert t[|s|..|s| + 1] == [c];
    assert Decimal([c]) == DigitValue(c) by { assert [c][..0] == []; }
  }

  /** Appending a digit after a digit extends the last number, which ends
      where the prefix ends. */
  lemma {:induction false} ExtendSnoc(s: string, c: char, y: nat, x: nat)
    requires x < |s| && IsDigit(c) && IsDigit(s[|s| - 1])
    ensures var o := PartsFrom(s, y, x);
      |o| > 0 && o[|o| - 1].x + o[|o| - 1].digits == |s| &&
      PartsFrom(s + [c], y, x) == o[..|o| - 1] + [Extend(o[|o| - 1], c)]
    decreases |s| - x, 1
  {
    var t := s + [c];
    assert t[x] == s[x];
    if IsDigit(s[x]) {
      ExtendRun(s, c, y, x);
    } else {
      ExtendSnoc(s, c, y, x + 1);
    }
  }

  /** `ExtendSnoc` where a number starts at `x`. */
  lemma {:induction false} ExtendRun(s: string, c: char, y: nat, x: nat)
    requires x < |s| && IsDigit(c) && IsDigit(s[|s| - 1]) && IsDigit(s[x])
    ensures var o := PartsFrom(s, y, x);
      |o| > 0 && o[|o| - 1].x + o[|o| - 1].digits == |s| &&
      PartsFrom(s + [c], y, x) == o[..|o| - 1] + [Extend(o[|o| - 1], c)]
    decreases |s| - x, 0
  {
    var t := s + [c];
    var e := RunEnd(s, x);
    RunEndSnoc(s, c, x);
    if e < |s| {
      assert e < |s| - 1;
      assert t[x..e] == s[x..e];
      ExtendSnoc(s, c, y, e);
      var o := PartsFrom(s, y, e);
      var p := PartInfo(Decimal(s[x..e]), x, y, e - x);
      assert PartsFrom(s, y, x) == [p] + o;
      assert ([p] + o)[..|o|] == [p] + o[..|o| - 1];
    } else {
      ExtendLast(s, c, y, x);
    }
  }

  /** `ExtendSnoc` where the number starting at `x` is the last one. */
  lemma ExtendLast(s: string, c: char, y: nat, x: nat)
    requires x < |s| && IsDigit(c) && IsDigit(s[x]) && RunEnd(s, x) == |s|
    requires RunEnd(s + [c], x) == |s| + 1
    ensures var o := PartsFrom(s, y, x);
      |o| > 0 && o[|o| - 1].x + o[|o| - 1].digits == |s| &&
      PartsFrom(s + [c], y, x) == o[..|o| - 1] + [Extend(o[|o| - 1], c)]
  {
    var t := s + [c];
    assert t[x] == s[x];
    assert s[x..|s|] == s[x..];
    assert t[x..|s| + 1] == s[x..] + [c];
    DecimalSnoc(s[x..], c);
    assert PartsFrom(s, y, |s|) == [];
    assert PartsFrom(t, y, |s| + 1) == [];
    var p := PartInfo(Decimal(s[x..]), x, y, |s| - x);
    assert PartsFrom(s, y, x) == [p];
    assert PartsFrom(t, y, x) == [Extend(p, c)];
  }

  /* ---- the scanner ---- */

  function PendingSeq(part: Option<PartInfo>): seq<PartInfo> {
    match part case Some(p) => [p] case None => []
  }

  /** Cell (c, r) comes before column `x` of line `y` in reading order. */
  predicate Before(r: nat, c: nat, y: nat, x: nat) { r < y || (r == y && c < x) }

  /** The symbol map of the first `y` lines plus the first `x` columns of line `y`. */
  ghost predicate SymbolsUpTo(symbols: map<Pos, char>, lines: seq<string>, y: nat, x: nat) {
    (forall q :: q in symbols ==>
      q.1 < |lines| && q.0 < |lines[q.1]| && symbols[q] == lines[q.1][q.0] && Before(q.1, q.0, y, x)) &&
    (forall r, c :: 0 <= r < |lines| && 0 <= c < |lines[r]| && Before(r, c, y, x) ==>
      ((c, r) in symbols <==> IsSymbol(lines[r][c])))
  }

  lemma SymbolsStep(symbols: map<Pos, char>, lines: seq<string>, y: nat, x: nat)
    requires y < |lines| && x < |lines[y]|
    requires SymbolsUpTo(symbols, lines, y, x)
    ensures var c := lines[y][x];
      SymbolsUpTo(if IsSymbol(c) then symbols[(x, y) := c] else symbols, lines, y, x + 1)
  {
  }

  lemma SymbolsNextLine(symbols: map<Pos, char>, lines: seq<string>, y: nat)
    requires y < |lines|
    requires SymbolsUpTo(symbols, lines, y, |lines[y]|)
    ensures SymbolsUpTo(symbols, lines, y + 1, 0)
  {
  }

  /** The whole symbol map: every symbol character at its (x, y). */
  ghost predicate IsSymbolMap(symbols: map<Pos, char>, lines: seq<string>) {
    (forall q :: q in symbols ==> q.1 < |lines| && q.0 < |lines[q.1]| && symbols[q] == lines[q.1][q.0]) &&
    (forall r, c :: 0 <= r < |lines| && 0 <= c < |lines[r]| ==> ((c, r) in symbols <==> IsSymbol(lines[r][c])))
  }

  lemma SymbolsDone(symbols: map<Pos, char>, lines: seq<string>)
    requires SymbolsUpTo(symbols, lines, |lines|, 0)
    ensures IsSymbolMap(symbols, lines)
  {
  }

  /** One character's effect on the numbers found so far. */
  lemma PartsStep(lines: seq<string>, y: nat, x: nat, parts: seq<PartInfo>, part: Option<PartInfo>)
    requires y < |lines| && x < |lines[y]|
    requires parts + PendingSeq(part) == AllParts(lines[..y]) + LineParts(lines[y][..x], y)
    requires x > 0 ==> (part.Some? <==> IsDigit(lines[y][x - 1]))
    ensures var c := lines[y][x];
      var flushed := if (x == 0 || !IsDigit(c)) && part.Some? then parts + [part.value] else parts;
      var pending := if (x == 0 || !IsDigit(c)) then None else part;
      var next := if !IsDigit(c) then pending
                  else if pending.None? then Some(PartInfo(DigitValue(c), x, y, 1))
                  else Some(Extend(pending.value, c));
      flushed + PendingSeq(next) == AllParts(lines[..y]) + LineParts(lines[y][..x + 1], y)
  {
    var c := lines[y][x];
    if !IsDigit(c) {
      StepNonDigit(lines, y, x, parts, part);
    } else if x > 0 && IsDigit(lines[y][x - 1]) {
      StepExtend(lines, y, x, parts, part);
    } else {
      StepNewRun(lines, y, x, parts, part);
    }
  }

  lemma StepNonDigit(lines: seq<string>, y: nat, x: nat, parts: seq<PartInfo>, part: Option<PartInfo>)
    requires y < |lines| && x < |lines[y]| && !IsDigit(lines[y][x])
    requires parts + PendingSeq(part) == AllParts(lines[..y]) + LineParts(lines[y][..x], y)
    ensures (if part.Some? then parts + [part.value] else parts) == AllParts(lines[..y]) + LineParts(lines[y][..x + 1], y)
  {
    var line := lines[y];
    assert line[..x + 1] == line[..x] + [line[x]];
    NonDigitSnoc(line[..x], line[x], y, 0);
  }

  lemma StepExtend(lines: seq<string>, y: nat, x: nat, parts: seq<PartInfo>, part: Option<PartInfo>)
    requires y < |lines| && 0 < x < |lines[y]| && IsDigit(lines[y][x]) && IsDigit(lines[y][x - 1])
    requires parts + PendingSeq(part) == AllParts(lines[..y]) + LineParts(lines[y][..x], y)
    requires part.Some?
    ensures parts + [Extend(part.value, lines[y][x])] == AllParts(lines[..y]) + LineParts(lines[y][..x + 1], y)
  {
    var line := lines[y];
    var c := line[x];
    assert line[..x + 1] == line[..x] + [c];
    assert line[..x][x - 1] == line[x - 1];
    ExtendSnoc(line[..x], c, y, 0);
    var a := AllParts(lines[..y]);
    var l := LineParts(line[..x], y);
    assert parts + [part.value] == a + l;
    assert part.value == l[|l| - 1] by { assert (parts + [part.value])[|parts|] == (a + l)[|a + l| - 1]; }
    assert parts == a + l[..|l| - 1] by { assert parts == (parts + [part.value])[..|parts|]; }
  }

  lemma StepNewRun(lines: seq<string>, y: nat, x: nat, parts: seq<PartInfo>, part: Option<PartInfo>)
    requires y < |lines| && x < |lines[y]| && IsDigit(lines[y][x]) && (x == 0 || !IsDigit(lines[y][x - 1]))
    requires parts + PendingSeq(part) == AllParts(lines[..y]) + LineParts(lines[y][..x], y)
    requires x > 0 ==> part.None?
    ensures (if part.Some? then parts + [part.value] else parts) + [PartInfo(DigitValue(lines[y][x]), x, y, 1)]
            == AllParts(lines[..y]) + LineParts(lines[y][..x + 1], y)
  {
    var line := lines[y];
    var c := line[x];
    assert line[..x + 1] == line[..x] + [c];
    assert x > 0 ==> line[..x][x - 1] == line[x - 1];
    NewRunSnoc(line[..x], c, y, 0);
    if x == 0 {
      assert LineParts(line[..x], y) == [];
      assert parts + PendingSeq(part) == AllParts(lines[..y]);
    } else {
      assert parts == AllParts(lines[..y]) + LineParts(line[..x], y);
      assert LineParts(line[..x + 1], y) == LineParts(line[..x], y) + [PartInfo(DigitValue(c), x, y, 1)];
    }
  }

  /** `parse_input`: one scan over the characters, building the pending number
      in place and recording symbols. */
  method ParseInput(input: string) returns (symbols: map<Pos, char>, parts: seq<PartInfo>)
    ensures parts == AllParts(Lines(input))
    ensures IsSymbolMap(symbols, Lines(input))
  {
    var lines := Lines(input);
    symbols := map[];
    parts := [];
    var part: Option<PartInfo> := None;
    var y := 0;
    while y < |lines|
      invariant 0 <= y <= |lines|
      invariant parts + PendingSeq(part) == AllParts(lines[..y])
      invariant SymbolsUpTo(symbols, lines, y, 0)
    {
      symbols, parts, part := ScanRow(lines, y, symbols, parts, part);
      SymbolsNextLine(symbols, lines, y);
      y := y + 1;
    }
    if part.Some? {
      parts := parts + [part.value];
    }
    assert lines[..y] == lines;
    SymbolsDone(symbols, lines);
  }

  /** The inner loop of `parse_input`: one line, character by character. */
  method ScanRow(lines: seq<string>, y: nat, symbols0: map<Pos, char>, parts0: seq<PartInfo>, part0: Option<PartInfo>)
    returns (symbols: map<Pos, char>, parts: seq<PartInfo>, part: Option<PartInfo>)
    requires y < |lines|
    requires parts0 + PendingSeq(part0) == AllParts(lines[..y])
    requires SymbolsUpTo(symbols0, lines, y, 0)
    ensures parts + PendingSeq(part) == AllParts(lines[..y + 1])
    ensures SymbolsUpTo(symbols, lines, y, |lines[y]|)
  {
    symbols, parts, part := symbols0, parts0, part0;
    var line := lines[y];
    var x := 0;
    assert line[..0] == [];
    while x < |line|
      invariant 0 <= x <= |line|
      invariant parts + PendingSeq(part) == AllParts(lines[..y]) + LineParts(line[..x], y)
      invariant x > 0 ==> (part.Some? <==> IsDigit(line[x - 1]))
      invariant SymbolsUpTo(symbols, lines, y, x)
    {
      var c := line[x];
      PartsStep(lines, y, x, parts, part);
      SymbolsStep(symbols, lines, y, x);
      if (x == 0 || !IsDigit(c)) && part.Some? {
        parts := parts + [part.value];
        part := None;
      }
      if c == '.' {
      } else if IsDigit(c) {
        if part.None? {
          part := Some(PartInfo(DigitValue(c), x, y, 1));
        } else {
          part := Some(Extend(part.value, c));
        }
      } else {
        symbols := symbols[(x, y) := c];
      }
      x := x + 1;
    }
    assert line[..x] == line;
    assert lines[..y + 1][..y] == lines[..y];
  }

  /** The numbers found are exactly the maximal runs of digits. */
  lemma ParsedPartsAreRuns(lines: seq<string>, k: nat)
    requires k < |AllParts(lines)|
    ensures var p := AllParts(lines)[k];
      p.y < |lines| && p.digits >= 1 && p.x + p.digits <= |lines[p.y]| &&
      AllDigits(lines[p.y][p.x..p.x + p.digits]) &&
      p.val == Decimal(lines[p.y][p.x..p.x + p.digits]) &&
      (p.x == 0 || !IsDigit(lines[p.y][p.x - 1])) &&
      (p.x + p.digits == |lines[p.y]| || !IsDigit(lines[p.y][p.x + p.digits]))
    decreases |lines|
  {
    var init := lines[..|lines| - 1];
    if k < |AllParts(init)| {
      ParsedPartsAreRuns(init, k);
      var p := AllParts(lines)[k];
      assert AllParts(lines)[k] == AllParts(init)[k];
      assert lines[p.y] == init[p.y];
    } else {
      LinePartsAreRuns(lines[|lines| - 1], |lines| - 1, k - |AllParts(init)|);
    }
  }

  /* ---------------- part 1 ---------------- */

  /** (x, y) is in the box around the number: a row above to a row below, a
      column left of it to a column right of it. */
  predicate Adjacent(x: nat, y: nat, p: PartInfo) {
    x + 1 >= p.x && x <= p.x + p.digits && y + 1 >= p.y && y <= p.y + 1
  }

  ghost predicate HasAdjacentSymbol(symbols: map<Pos, char>, p: PartInfo) {
    exists q :: q in symbols && Adjacent(q.0, q.1, p)
  }

  /** The sum of the values of the numbers next to a symbol. */
  ghost function PartNumberSum(symbols: map<Pos, char>, parts: seq<PartInfo>): nat
    decreases |parts|
  {
    if parts == [] then 0
    else
      var p := parts[|parts| - 1];
      PartNumberSum(symbols, parts[..|parts| - 1]) + (if HasAdjacentSymbol(symbols, p) then p.val else 0)
  }

  function SatSub1(n: nat): nat { if n == 0 then 0 else n - 1 }

  /** `part1`: scans the box around each number and adds its value at the
      first symbol found, so a number counts once however many symbols touch it. */
  method Part1(symbols: map<Pos, char>, parts: seq<PartInfo>) returns (result: nat)
    ensures result == PartNumberSum(symbols, parts)
  {
    result := 0;
    var i := 0;
    while i < |parts|
      invariant 0 <= i <= |parts|
      invariant result == PartNumberSum(symbols, parts[..i])
    {
      var part := parts[i];
      var found := false;
      var y := SatSub1(part.y);
      while y <= part.y + 1 && !found
        invariant SatSub1(part.y) <= y <= part.y + 2
        invariant found ==> HasAdjacentSymbol(symbols, part)
        invariant !found ==> forall q :: q in symbols && Adjacent(q.0, q.1, part) ==> q.1 >= y
      {
        var x := SatSub1(part.x);
        while x <= part.x + part.digits && !found
          invariant SatSub1(part.x) <= x <= part.x + part.digits + 1
          invariant found ==> HasAdjacentSymbol(symbols, part)
          invariant !found ==> forall q :: q in symbols && Adjacent(q.0, q.1, part) ==> q.1 > y || (q.1 == y && q.0 >= x)
        {
          if (x, y) in symbols {
            assert Adjacent(x, y, part);
            found := true;
          }
          x := x + 1;
        }
        y := y + 1;
      }
      assert parts[..i + 1][..i] == parts[..i];
      if found {
        result := result + part.val;
      }
      i := i + 1;
    }
    assert parts[..i] == parts;
  }

  /* ---------------- part 2 ---------------- */

  /** The numbers next to the symbol at (x, y), in order. */
  function AdjacentParts(parts: seq<PartInfo>, x: nat, y: nat): (r: seq<PartInfo>)
    ensures forall k :: 0 <= k < |r| ==> r[k] in parts && Adjacent(x, y, r[k])
    ensures forall k :: 0 <= k < |parts| && Adjacent(x, y, parts[k]) ==> parts[k] in r
    decreases |parts|
  {
    if parts == [] then []
    else
      var init := AdjacentParts(parts[..|parts| - 1], x, y);
      var p := parts[|parts| - 1];
      assert forall k :: 0 <= k < |parts| - 1 ==> parts[k] == parts[..|parts| - 1][k];
      init + (if Adjacent(x, y, p) then [p] else [])
  }

  /** A gear's ratio: the product of its two numbers when a '*' touches
      exactly two numbers, otherwise nothing. */
  function GearRatio(symbols: map<Pos, char>, parts: seq<PartInfo>, q: Pos): nat {
    if q in symbols && symbols[q] == '*' then
      var adj := AdjacentParts(parts, q.0, q.1);
      if |adj| == 2 then adj[0].val * adj[1].val else 0
    else 0
  }

  /** The sum of the gear ratios of the symbols listed in `keys`. */
  function GearSum(symbols: map<Pos, char>, parts: seq<PartInfo>, keys: seq<Pos>): nat
    decreases |keys|
  {
    if keys == [] then 0
    else GearSum(symbols, parts, keys[..|keys| - 1]) + GearRatio(symbols, parts, keys[|keys| - 1])
  }

  /** Only '*' symbols add anything. */
  lemma {:induction false} GearSumOnlyStars(symbols: map<Pos, char>, parts: seq<PartInfo>, keys: seq<Pos>)
    requires forall k :: 0 <= k < |keys| ==> keys[k] in symbols && symbols[keys[k]] != '*'
    ensures GearSum(symbols, parts, keys) == 0
    decreases |keys|
  {
    if keys != [] {
      var init := keys[..|keys| - 1];
      assert forall k :: 0 <= k < |init| ==> init[k] == keys[k];
      GearSumOnlyStars(symbols, parts, init);
    }
  }

  /** `part2`: for every symbol (in the map's iteration order `keys`), collect
      the adjacent numbers; a '*' with exactly two adds their product. */
  method Part2(symbols: map<Pos, char>, parts: seq<PartInfo>, keys: seq<Pos>) returns (sum: nat)
    requires forall q :: q in symbols <==> q in keys
    ensures sum == GearSum(symbols, parts, keys)
  {
    sum := 0;
    var i := 0;
    while i < |keys|
      invariant 0 <= i <= |keys|
      invariant sum == GearSum(symbols, parts, keys[..i])
    {
      var (x, y) := keys[i];
      assert keys[..i + 1][..i] == keys[..i];
      var ratio := 0;
      if symbols[(x, y)] == '*' {
        var adjacent := FindAdjacent(parts, x, y);
        if |adjacent| == 2 {
          ratio := adjacent[0].val * adjacent[1].val;
        }
      }
      assert ratio == GearRatio(symbols, parts, keys[i]);
      sum := sum + ratio;
      i := i + 1;
    }
    assert keys[..i] == keys;
  }

  /** The inner loop of `part2`: the numbers next to the symbol at (x, y). */
  method FindAdjacent(parts: seq<PartInfo>, x: nat, y: nat) returns (adjacent: seq<PartInfo>)
    ensures adjacent == AdjacentParts(parts, x, y)
  {
    adjacent := [];
    var k := 0;
    while k < |parts|
      invariant 0 <= k <= |parts|
      invariant adjacent == AdjacentParts(parts[..k], x, y)
    {
      assert parts[..k + 1][..k] == parts[..k];
      if x + 1 >= parts[k].x && x <= parts[k].x + parts[k].digits &&
         y + 1 >= parts[k].y && y <= parts[k].y + 1 {
        adjacent := adjacent + [parts[k]];
      }
      k := k + 1;
    }
    assert parts[..k] == parts;
  }
}
