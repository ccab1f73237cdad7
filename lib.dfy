// Shared helpers of the solvers: line and list splitting, parsing every piece,
// and Euclid's greatest common divisor.

module Lib {

  datatype Option<T> = None | Some(value: T)
  {
    predicate IsFailure()
    {
      None?
    }

    function PropagateFailure<U>(): Option<U>
      requires None?
    {
      None
    }

    function Extract(): T
      requires Some?
    {
      value
    }
  }

  /* ---------------- splitting text ---------------- */

  /** The pieces of `s` between occurrences of `c`, as `str::split` yields them:
      always at least one piece, the empty text gives one empty piece. */
  function Split<T(==)>(s: seq<T>, c: T): (r: seq<seq<T>>)
    ensures |r| >= 1
    ensures forall i :: 0 <= i < |r| ==> c !in r[i]
    decreases |s|
  {
    if |s| == 0 then [[]]
    else
      var rest := Split(s[1..], c);
      if s[0] == c then [[]] + rest
      else [[s[0]] + rest[0]] + rest[1..]
  }

  /** The inverse of Split: the pieces glued back together with `c` between them. */
  function Join<T>(pieces: seq<seq<T>>, c: T): seq<T>
    requires |pieces| >= 1
    decreases |pieces|
  {
    if |pieces| == 1 then pieces[0] else pieces[0] + [c] + Join(pieces[1..], c)
  }

  function Occurrences<T(==)>(s: seq<T>, c: T): nat
    decreases |s|
  {
    if |s| == 0 then 0 else (if s[0] == c then 1 else 0) + Occurrences(s[1..], c)
  }

  /** There is one more piece than there are delimiters. */
  lemma {:induction false} SplitCount<T>(s: seq<T>, c: T)
    ensures |Split(s, c)| == Occurrences(s, c) + 1
    decreases |s|
  {
    if |s| > 0 { SplitCount(s[1..], c); }
  }

  /** Gluing the pieces back gives the text that was split. */
  lemma {:induction false} JoinSplit<T>(s: seq<T>, c: T)
    ensures Join(Split(s, c), c) == s
    decreases |s|
  {
    if |s| > 0 {
      var rest := Split(s[1..], c);
      JoinSplit(s[1..], c);
      if s[0] == c {
        assert Split(s, c) == [[]] + rest;
        assert ([[]] + rest)[1..] == rest;
        assert s == [s[0]] + s[1..];
      } else {
        var r := Split(s, c);
        assert r[0] == [s[0]] + rest[0];
        assert r[1..] == rest[1..];
        if |rest| == 1 {
          assert s == [s[0]] + rest[0];
        } else {
          assert Join(rest, c) == rest[0] + [c] + Join(rest[1..], c);
          assert s == [s[0]] + s[1..];
        }
      }
    }
  }

  /** Splitting pieces glued together gives the pieces back, provided no piece
      contains the delimiter. */
  lemma {:induction false} SplitJoin<T>(pieces: seq<seq<T>>, c: T)
    requires |pieces| >= 1
    requires forall i :: 0 <= i < |pieces| ==> c !in pieces[i]
    ensures Split(Join(pieces, c), c) == pieces
    decreases |pieces|, |pieces[0]|
  {
    var p := pieces[0];
    if |p| == 0 {
      if |pieces| > 1 {
        SplitJoin(pieces[1..], c);
        var j := Join(pieces, c);
        assert j == [c] + Join(pieces[1..], c);
        assert j[1..] == Join(pieces[1..], c);
        assert pieces == [[]] + pieces[1..];
      }
    } else {
      var shorter := [p[1..]] + pieces[1..];
      forall i | 0 <= i < |shorter| ensures c !in shorter[i] {
        if i == 0 { assert forall x :: x in p[1..] ==> x in p; }
      }
      SplitJoin(shorter, c);
      JoinCons(pieces, c);
      JoinCons(shorter, c);
      var j := Join(pieces, c);
      assert j == p + Tail(pieces, c);
      assert Join(shorter, c) == p[1..] + Tail(pieces, c);
      assert j[1..] == Join(shorter, c);
      assert j[0] == p[0];
      assert p[0] != c;
      var rest := Split(j[1..], c);
      assert rest == shorter;
      assert p == [p[0]] + p[1..];
      assert [[p[0]] + rest[0]] + rest[1..] == pieces;
    }
  }

  /** The text after the first piece of a Join (empty when there is one piece). */
  function Tail<T>(pieces: seq<seq<T>>, c: T): seq<T>
    requires |pieces| >= 1
  {
    if |pieces| == 1 then [] else [c] + Join(pieces[1..], c)
  }

  lemma JoinCons<T>(pieces: seq<seq<T>>, c: T)
    requires |pieces| >= 1
    ensures Join(pieces, c) == pieces[0] + Tail(pieces, c)
  {
  }

  /** The lines of a text as `str::lines` yields them: split at line feeds, a
      final line feed ends the last line instead of starting an empty one, and
      one carriage return before each line feed is dropped. */
  function Lines(s: string): (r: seq<string>)
    ensures s == [] ==> r == []
    ensures forall i :: 0 <= i < |r| ==> '\n' !in r[i]
  {
    if s == [] then []
    else
      var pieces := Split(s, '\n');
      var kept := if s[|s| - 1] == '\n' then pieces[..|pieces| - 1] else pieces;
      seq(|kept|, i requires 0 <= i < |kept| => StripCr(kept[i]))
  }

  function StripCr(line: string): (r: string)
    ensures '\n' !in line ==> '\n' !in r
  {
    if |line| > 0 && line[|line| - 1] == '\r' then line[..|line| - 1] else line
  }

  /** A text of lines, each ended by a line feed, splits back into those lines. */
  lemma LinesOfJoined(lines: seq<string>)
    requires |lines| >= 1
    requires forall i :: 0 <= i < |lines| ==> '\n' !in lines[i]
    requires forall i :: 0 <= i < |lines| ==> |lines[i]| == 0 || lines[i][|lines[i]| - 1] != '\r'
    ensures Lines(Join(lines, '\n') + "\n") == lines
  {
    var s := Join(lines, '\n') + "\n";
    var extended := lines + [""];
    JoinSnoc(lines, '\n');
    assert Join(extended, '\n') == s;
    assert forall i :: 0 <= i < |extended| ==> '\n' !in extended[i];
    SplitJoin(extended, '\n');
    var pieces := Split(s, '\n');
    assert pieces == extended;
    assert s[|s| - 1] == '\n';
    var kept := pieces[..|pieces| - 1];
    assert kept == lines;
    var r := Lines(s);
    assert |r| == |lines|;
    forall i | 0 <= i < |lines| ensures r[i] == lines[i] {
      assert r[i] == StripCr(kept[i]);
    }
  }

  lemma {:induction false} JoinSnoc<T>(pieces: seq<seq<T>>, c: T)
    requires |pieces| >= 1
    ensures Join(pieces + [[]], c) == Join(pieces, c) + [c]
    decreases |pieces|
  {
    if |pieces| == 1 {
      assert (pieces + [[]])[1..] == [[]];
    } else {
      JoinSnoc(pieces[1..], c);
      assert (pieces + [[]])[1..] == pieces[1..] + [[]];
    }
  }

  /* ---------------- parse_lines / parse_list ---------------- */

  /** Parses every piece; a piece that fails to parse makes the whole parse fail
      (the source panics there). */
  function ParseAll<T>(pieces: seq<string>, parse: string -> Option<T>): (r: Option<seq<T>>)
    ensures r.Some? <==> forall i :: 0 <= i < |pieces| ==> parse(pieces[i]).Some?
    ensures r.Some? ==> |r.value| == |pieces|
    ensures r.Some? ==> forall i :: 0 <= i < |pieces| ==> Some(r.value[i]) == parse(pieces[i])
    decreases |pieces|
  {
    if |pieces| == 0 then Some([])
    else
      match (parse(pieces[0]), ParseAll(pieces[1..], parse))
      case (Some(x), Some(xs)) =>
        assert forall i :: 1 <= i < |pieces| ==> pieces[i] == pieces[1..][i - 1];
        Some([x] + xs)
      case _ =>
        assert forall i :: 1 <= i < |pieces| ==> pieces[i] == pieces[1..][i - 1];
        None
  }

  /** `parse_lines`: one parsed element per line of the text, in order. */
  function ParseLines<T>(data: string, parse: string -> Option<T>): (r: Option<seq<T>>)
    ensures r.Some? ==> |r.value| == |Lines(data)|
    ensures r.Some? ==> forall i :: 0 <= i < |r.value| ==> parse(Lines(data)[i]) == Some(r.value[i])
    ensures r.None? ==> exists i :: 0 <= i < |Lines(data)| && parse(Lines(data)[i]).None?
  {
    ParseAll(Lines(data), parse)
  }

  /** `parse_list`: one parsed element per delimiter-separated piece, in order. */
  function ParseList<T>(data: string, delim: char, parse: string -> Option<T>): (r: Option<seq<T>>)
    ensures r.Some? ==> |r.value| == |Split(data, delim)| == Occurrences(data, delim) + 1
    ensures r.Some? ==> forall i :: 0 <= i < |Split(data, delim)| ==> parse(Split(data, delim)[i]) == Some(r.value[i])
  {
    SplitCount(data, delim);
    ParseAll(Split(data, delim), parse)
  }

  /* ---------------- gcd ---------------- */

  ghost predicate Divides(d: nat, n: nat) {
    exists k: nat :: n == d * k
  }

  ghost predicate IsGcd(g: nat, a: nat, b: nat) {
    Divides(g, a) && Divides(g, b) &&
    forall d: nat :: Divides(d, a) && Divides(d, b) ==> Divides(d, g)
  }

  /** Euclid's algorithm, as a recursive reference definition. */
  function Euclid(a: nat, b: nat): nat
    decreases b
  {
    if b == 0 then a else Euclid(b, a % b)
  }

  lemma DividesZero(d: nat)
    ensures Divides(d, 0)
  {
    assert 0 == d * 0;
  }

  lemma DividesSelf(d: nat)
    ensures Divides(d, d)
  {
    assert d == d * 1;
  }

  lemma DividesTransitive(a: nat, b: nat, c: nat)
    requires Divides(a, b) && Divides(b, c)
    ensures Divides(a, c)
  {
    var k :| b == a * k;
    var l :| c == b * l;
    assert c == a * (k * l);
  }

  /** A common divisor of `a` and `b` divides `a % b`, and conversely a divisor of
      `b` and of `a % b` divides `a`. */
  /** A product with a positive factor keeps the sign of the other factor and is at least as far from zero. */
  lemma {:induction false} MulSign(g: nat, k: int)
    ensures k >= 0 ==> g * k >= 0
    ensures k <= 0 ==> g * k <= 0
    ensures g >= 1 && k >= 0 ==> g * k >= k
    ensures g >= 1 && k <= 0 ==> g * k <= k
  {
    if g > 0 {
      MulSign(g - 1, k);
      assert g * k == (g - 1) * k + k;
    }
  }

  lemma DividesMultiple(d: nat, b: nat, q: nat)
    requires Divides(d, b)
    ensures Divides(d, q * b)
  {
    var s: nat :| b == d * s;
    assert q * b == d * (q * s) by { assert q * (d * s) == d * (q * s); }
  }

  lemma DividesSum(d: nat, x: nat, y: nat)
    requires Divides(d, x) && Divides(d, y)
    ensures Divides(d, x + y)
  {
    var p: nat :| x == d * p;
    var t: nat :| y == d * t;
    assert x + y == d * (p + t);
  }

  lemma DividesDifference(d: nat, x: nat, y: nat)
    requires y <= x && Divides(d, x) && Divides(d, y)
    ensures Divides(d, x - y)
  {
    var p: nat :| x == d * p;
    var t: nat :| y == d * t;
    var k := p - t;
    assert x - y == d * k;
    MulSign(d, k);
    if d == 0 {
      assert x - y == d * 0;
    } else {
      var k': nat := k;
      assert x - y == d * k';
    }
  }

  lemma DividesRemainder(d: nat, a: nat, b: nat)
    requires b > 0 && Divides(d, b)
    ensures Divides(d, a) <==> Divides(d, a % b)
  {
    var q := a / b;
    var r := a % b;
    assert a == q * b + r;
    DividesMultiple(d, b, q);
    if Divides(d, a) {
      DividesDifference(d, a, q * b);
    }
    if Divides(d, r) {
      DividesSum(d, q * b, r);
    }
  }

  lemma {:induction false} EuclidIsGcd(a: nat, b: nat)
    ensures IsGcd(Euclid(a, b), a, b)
    decreases b
  {
    if b == 0 {
      DividesSelf(a);
      DividesZero(a);
    } else {
      EuclidIsGcd(b, a % b);
      var g := Euclid(a, b);
      DividesRemainder(g, a, b);
      forall d: nat | Divides(d, a) && Divides(d, b) ensures Divides(d, g) {
        DividesRemainder(d, a, b);
      }
    }
  }

  lemma DividesAntisymmetric(a: nat, b: nat)
    requires Divides(a, b) && Divides(b, a)
    ensures a == b
  {
    var k: nat :| b == a * k;
    var l: nat :| a == b * l;
    if a != 0 && b != 0 {
      assert a == a * (k * l);
      assert k * l == 1;
      assert k == 1;
    }
  }

  /** The greatest common divisor is unique. */
  lemma GcdUnique(g: nat, h: nat, a: nat, b: nat)
    requires IsGcd(g, a, b) && IsGcd(h, a, b)
    ensures g == h
  {
    DividesAntisymmetric(g, h);
  }

  /** `gcd(a, b) == gcd(b, a)`. */
  lemma EuclidSymmetric(a: nat, b: nat)
    ensures Euclid(a, b) == Euclid(b, a)
  {
    EuclidIsGcd(a, b);
    EuclidIsGcd(b, a);
    GcdUnique(Euclid(a, b), Euclid(b, a), a, b);
  }

  lemma ModUnique(x: nat, m: nat, q: nat, r: nat)
    requires m > 0 && x == q * m + r && r < m
    ensures x / m == q && x % m == r
  {
    var q', r' := x / m, x % m;
    assert x == q' * m + r';
    var k := q' - q;
    assert k * m == r - r';
    if k >= 1 {
      MulSign(k, m);
    }
    if k <= -1 {
      MulSign(-k, m);
    }
  }

  /** Scaling both arguments scales the greatest common divisor. */
  lemma {:induction false} EuclidScale(a: nat, b: nat, c: nat)
    ensures Euclid(a * c, b * c) == Euclid(a, b) * c
    decreases b
  {
    if b != 0 && c != 0 {
      var q, r := a / b, a % b;
      assert a * c == q * (b * c) + r * c;
      assert r * c < b * c;
      ModUnique(a * c, b * c, q, r * c);
      EuclidScale(b, r, c);
    }
  }

  /** A denominator coprime to its numerator divides the denominator of any
      other form of the same fraction. */
  lemma CoprimeDivides(a1: nat, d1: nat, a2: nat, d2: nat)
    requires d1 > 0 && d2 > 0 && Euclid(a1, d1) == 1 && a1 * d2 == a2 * d1
    ensures Divides(d1, d2)
  {
    ScaledCoprime(a1, d1, d2);
    DividesSelf(d1);
    DividesMultiple(d1, d1, a2);
    DividesProduct(d1, d2);
    DividesGcd(d1, a1 * d2, d1 * d2);
  }

  lemma ScaledCoprime(a: nat, d: nat, c: nat)
    requires Euclid(a, d) == 1
    ensures Euclid(a * c, d * c) == c
  {
    EuclidScale(a, d, c);
  }

  lemma DividesGcd(d: nat, x: nat, y: nat)
    requires Divides(d, x) && Divides(d, y)
    ensures Divides(d, Euclid(x, y))
  {
    EuclidIsGcd(x, y);
  }

  lemma DividesProduct(d: nat, k: nat)
    ensures Divides(d, d * k)
  {
  }

  /** `gcd`: orders the arguments larger-first, then repeatedly replaces the
      pair by the smaller one and the remainder. */
  method Gcd(a0: nat, b0: nat) returns (g: nat)
    ensures IsGcd(g, a0, b0)
    ensures g == Euclid(a0, b0)
    ensures b0 == 0 ==> g == a0
    ensures a0 == 0 ==> g == b0
  {
    var a: nat, b: nat := if a0 > b0 then a0 else b0, if a0 > b0 then b0 else a0;
    EuclidSymmetric(a0, b0);
    while b > 0
      invariant Euclid(a, b) == Euclid(a0, b0)
      decreases b
    {
      a := a % b;
      a, b := b, a;
    }
    g := a;
    EuclidIsGcd(a0, b0);
  }

  /* ---------------- powers of two (shared helper) ---------------- */

  /** 2^n, the value of `1 << n`. */
  function Pow2(n: nat): (r: nat)
    ensures r >= 1
  {
    if n == 0 then 1 else 2 * Pow2(n - 1)
  }

  lemma {:induction false} Pow2Monotone(a: nat, b: nat)
    requires a <= b
    ensures Pow2(a) <= Pow2(b)
    decreases b
  {
    if a < b { Pow2Monotone(a, b - 1); }
  }
}
