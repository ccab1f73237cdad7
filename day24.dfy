/** Day 24: hailstones flying in straight lines.  Part 1 counts the pairs whose
    paths, projected onto the X-Y plane, cross inside a square window in the
    future, computing the crossing with exact fractions of 128-bit integers
    whose arithmetic panics on overflow. */
module Day24 {
  import opened Lib

  /** The range of `i128`. */
  const MinCoord: int := -0x8000_0000_0000_0000_0000_0000_0000_0000
  const MaxCoord: int := 0x7fff_ffff_ffff_ffff_ffff_ffff_ffff_ffff

  type Coord = x: int | -0x8000_0000_0000_0000_0000_0000_0000_0000 <= x <= 0x7fff_ffff_ffff_ffff_ffff_ffff_ffff_ffff

  /** `checked_*(…).unwrap()`: the exact result, or a panic when it leaves `i128`. */
  function Checked(x: int): (r: Option<Coord>)
    ensures r.Some? <==> MinCoord <= x <= MaxCoord
    ensures r.Some? ==> r.value == x
  {
    if MinCoord <= x <= MaxCoord then Some(x) else None
  }

  function Abs(x: int): nat
  {
    if x < 0 then -x else x
  }

  /** Rust's integer `/`, which rounds toward zero. */
  function Quot(a: int, g: nat): (r: int)
    requires g > 0
    ensures Abs(r) <= Abs(a)
  {
    DivAtMost(Abs(a), g);
    if a >= 0 then a / g else -((-a) / g)
  }

  lemma DivAtMost(a: nat, g: nat)
    requires g > 0
    ensures a / g <= a
  {
    var q := a / g;
    assert a == g * q + a % g;
    MulAtLeast(g, q);
  }

  lemma MulAtLeast(g: nat, q: nat)
    requires g >= 1
    ensures g * q >= q
  {
    assert g * q == (g - 1) * q + q;
    assert (g - 1) * q >= 0;
  }

  /* ---------------- number theory ---------------- */

  lemma AbsMul(n: int, d: nat)
    ensures Abs(n * d) == Abs(n) * d
  {
    if n < 0 {
      assert n * d == -((-n) * d);
      MulAtLeastZero(-n, d);
    } else {
      MulAtLeastZero(n, d);
    }
  }

  lemma MulAtLeastZero(a: nat, b: nat)
    ensures a * b >= 0
  {
  }

  lemma MulCancel(a: int, b: int, d: nat)
    requires d > 0 && a * d == b * d
    ensures a == b
  {
    var k := a - b;
    assert k * d == 0;
    AbsMul(k, d);
    MulAtLeast(d, Abs(k));
  }

  /** A fraction in lowest terms with a positive denominator is the only such
      form of its value. */
  lemma ReducedUnique(n1: int, d1: nat, n2: int, d2: nat)
    requires d1 > 0 && d2 > 0
    requires Euclid(Abs(n1), d1) == 1 && Euclid(Abs(n2), d2) == 1
    requires n1 * d2 == n2 * d1
    ensures n1 == n2 && d1 == d2
  {
    AbsMul(n1, d2);
    AbsMul(n2, d1);
    CoprimeDivides(Abs(n1), d1, Abs(n2), d2);
    CoprimeDivides(Abs(n2), d2, Abs(n1), d1);
    DividesAntisymmetric(d1, d2);
    MulCancel(n1, n2, d1);
  }

  /* ---------------- Rat ---------------- */

  /** A fraction `num / den` of two `i128`s; nothing keeps `den` nonzero. */
  datatype Rat = Rat(num: Coord, den: Coord)

  /** The value of a fraction with a nonzero denominator. */
  ghost function Val(r: Rat): real
    requires r.den != 0
  {
    r.num as real / r.den as real
  }

  lemma CrossVal(a: Rat, b: Rat)
    requires a.den != 0 && b.den != 0
    ensures Val(a) == Val(b) <==> a.num * b.den == b.num * a.den
  {
    var an, ad, bn, bd := a.num as real, a.den as real, b.num as real, b.den as real;
    assert (a.num * b.den) as real == an * bd;
    assert (b.num * a.den) as real == bn * ad;
    assert Val(a) * ad == an;
    assert Val(b) * bd == bn;
    if Val(a) == Val(b) {
      assert an * bd == Val(a) * ad * bd == bn * ad;
    }
    if a.num * b.den == b.num * a.den {
      assert Val(a) * ad * bd == Val(b) * bd * ad;
    }
  }

  /** `norm` as written: the sign moves to the numerator, then both parts are
      divided by the gcd of their magnitudes each cast to a 64-bit `usize`
      (keeping the low 64 bits), when that gcd exceeds 1.  Negating or taking
      the magnitude of `i128::MIN` panics. */
  function NormAsWritten(r: Rat): (n: Option<Rat>)
    ensures n.Some? <==> r.num != MinCoord && r.den != MinCoord
  {
    if r.num == MinCoord || r.den == MinCoord then None
    else
      var (num, den) := if r.den < 0 then (-r.num, -r.den) else (r.num, r.den);
      Some(Reduce(num, den, Euclid(Abs(num) % 0x1_0000_0000_0000_0000, Abs(den) % 0x1_0000_0000_0000_0000)))
  }

  /** Both parts divided by `g` when `g` exceeds 1. */
  function Reduce(num: Coord, den: Coord, g: nat): Rat
  {
    if g > 1 then Rat(Quot(num, g), Quot(den, g)) else Rat(num, den)
  }

  /** The truncation loses the value once a magnitude reaches 2^64:
      (2^64 + 3) / 3 becomes 6148914691236517206 / 1. */
  lemma NormAsWrittenChangesValue()
    ensures var r := Rat(0x1_0000_0000_0000_0003, 3);
            NormAsWritten(r) == Some(Rat(6148914691236517206, 1))
            && NormAsWritten(r).value.num * r.den != r.num * NormAsWritten(r).value.den
  {
    assert Euclid(3, 3) == 3 by {
      assert Euclid(3, 0) == 3;
    }
  }

  /** `norm` with the gcd taken of the full magnitudes. */
  function Norm(r: Rat): (n: Option<Rat>)
    ensures n.Some? <==> r.num != MinCoord && r.den != MinCoord
  {
    if r.num == MinCoord || r.den == MinCoord then None
    else
      var (num, den) := if r.den < 0 then (-r.num, -r.den) else (r.num, r.den);
      Some(Reduce(num, den, Euclid(Abs(num), Abs(den))))
  }

  /** A normalised fraction has a positive denominator, the same value, and
      numerator and denominator without a common factor. */
  lemma NormMeaning(r: Rat)
    requires r.den != 0 && Norm(r).Some?
    ensures var n := Norm(r).value;
            n.den > 0 && n.num * r.den == r.num * n.den && Euclid(Abs(n.num), n.den) == 1
  {
    var n := Norm(r).value;
    var (num, den) := if r.den < 0 then (-r.num, -r.den) else (r.num, r.den);
    assert n == Reduce(num, den, Euclid(Abs(num), den));
    PositiveNorm(num, den);
    if r.den < 0 {
      NegatedCross(n.num, n.den, r.num, r.den);
    }
  }

  lemma NegatedCross(p: int, q: int, x: int, y: int)
    requires p * -y == -x * q
    ensures p * y == x * q
  {
    assert p * -y == -(p * y);
    assert -x * q == -(x * q);
  }

  /** Dividing a fraction with a positive denominator by the gcd of its
      magnitudes. */
  lemma PositiveNorm(num: Coord, den: Coord)
    requires den > 0
    ensures var n := Reduce(num, den, Euclid(Abs(num), den));
            n.den > 0 && n.num * den == num * n.den && Euclid(Abs(n.num), n.den) == 1
  {
    var a, d := Abs(num), den;
    var g := Euclid(a, d);
    EuclidIsGcd(a, d);
    var l: nat :| d == g * l;
    if g > 1 {
      var k: nat :| a == g * k;
      ExactQuot(num, g, k);
      ExactQuot(den, g, l);
      var p, q := Quot(num, g), Quot(den, g);
      assert q > 0;
      assert p * den == num * q by {
        Regroup(p, q, g);
      }
      assert Euclid(k, l) == 1 by {
        EuclidScale(k, l, g);
        assert k * g == a && l * g == d;
        MulCancel(Euclid(k, l), 1, g);
      }
    }
  }

  lemma Regroup(p: int, q: int, g: int)
    ensures p * (q * g) == (p * g) * q
  {
  }

  /** Dividing by an exact divisor of the magnitude. */
  lemma ExactQuot(x: int, g: nat, k: nat)
    requires g > 0 && Abs(x) == g * k
    ensures Quot(x, g) * g == x && Abs(Quot(x, g)) == k
    ensures x >= 0 ==> Quot(x, g) >= 0
  {
    ModUnique(Abs(x), g, k, 0);
  }

  /** The unchanged definitions agree while both magnitudes fit 64 bits. */
  lemma NormAgrees(r: Rat)
    requires Abs(r.num) < 0x1_0000_0000_0000_0000 && Abs(r.den) < 0x1_0000_0000_0000_0000
    ensures NormAsWritten(r) == Norm(r)
  {
  }

  function From(v: Coord): (r: Rat)
    ensures r.den == 1 && Val(r) == v as real
  {
    Rat(v, 1)
  }

  function Recip(r: Rat): (q: Rat)
    ensures q.num == r.den && q.den == r.num
  {
    Rat(r.den, r.num)
  }

  function Mul(a: Rat, b: Rat): Option<Rat>
  {
    var num :- Checked(a.num * b.num);
    var den :- Checked(a.den * b.den);
    Norm(Rat(num, den))
  }

  function Add(a: Rat, b: Rat): Option<Rat>
  {
    var den :- Checked(a.den * b.den);
    var num1 :- Checked(a.num * b.den);
    var num2 :- Checked(b.num * a.den);
    var num :- Checked(num1 + num2);
    Norm(Rat(num, den))
  }

  function Sub(a: Rat, b: Rat): Option<Rat>
  {
    var den :- Checked(a.den * b.den);
    var num1 :- Checked(a.num * b.den);
    var num2 :- Checked(b.num * a.den);
    var num :- Checked(num1 - num2);
    Norm(Rat(num, den))
  }

  function Div(a: Rat, b: Rat): Option<Rat>
  {
    Mul(a, Recip(b))
  }

  /** A normalised result of the fraction `num / den` has that value. */
  lemma NormVal(num: Coord, den: Coord)
    requires den != 0 && Norm(Rat(num, den)).Some?
    ensures Norm(Rat(num, den)).value.den > 0
    ensures Val(Norm(Rat(num, den)).value) == num as real / den as real
  {
    NormMeaning(Rat(num, den));
    CrossVal(Norm(Rat(num, den)).value, Rat(num, den));
  }

  lemma MulValue(a: Rat, b: Rat)
    requires a.den != 0 && b.den != 0 && Mul(a, b).Some?
    ensures Mul(a, b).value.den > 0 && Val(Mul(a, b).value) == Val(a) * Val(b)
  {
    var num, den := a.num * b.num, a.den * b.den;
    assert Checked(num).Some? && Checked(den).Some?;
    assert Mul(a, b) == Norm(Rat(num, den));
    NormVal(num, den);
    FracMul(a.num, a.den, b.num, b.den);
  }

  lemma AddValue(a: Rat, b: Rat)
    requires a.den != 0 && b.den != 0 && Add(a, b).Some?
    ensures Add(a, b).value.den > 0 && Val(Add(a, b).value) == Val(a) + Val(b)
  {
    var den, num1, num2 := a.den * b.den, a.num * b.den, b.num * a.den;
    assert Checked(den).Some? && Checked(num1).Some? && Checked(num2).Some?;
    assert Checked(num1 + num2).Some?;
    assert Add(a, b) == Norm(Rat(num1 + num2, den));
    NormVal(num1 + num2, den);
    FracAdd(a.num, a.den, b.num, b.den);
  }

  lemma SubValue(a: Rat, b: Rat)
    requires a.den != 0 && b.den != 0 && Sub(a, b).Some?
    ensures Sub(a, b).value.den > 0 && Val(Sub(a, b).value) == Val(a) - Val(b)
  {
    var den, num1, num2 := a.den * b.den, a.num * b.den, b.num * a.den;
    assert Checked(den).Some? && Checked(num1).Some? && Checked(num2).Some?;
    assert Checked(num1 - num2).Some?;
    assert Sub(a, b) == Norm(Rat(num1 - num2, den));
    NormVal(num1 - num2, den);
    FracSub(a.num, a.den, b.num, b.den);
  }

  lemma RealMul(x: int, y: int)
    ensures (x * y) as real == x as real * y as real
  {
  }

  lemma FracMul(n1: int, d1: int, n2: int, d2: int)
    requires d1 != 0 && d2 != 0
    ensures (n1 as real / d1 as real) * (n2 as real / d2 as real) == (n1 * n2) as real / (d1 * d2) as real
  {
    RealMul(n1, n2);
    RealMul(d1, d2);
    var x, y := n1 as real / d1 as real, n2 as real / d2 as real;
    assert x * d1 as real == n1 as real;
    assert y * d2 as real == n2 as real;
    assert (x * y) * (d1 * d2) as real == (n1 * n2) as real;
  }

  lemma FracAdd(n1: int, d1: int, n2: int, d2: int)
    requires d1 != 0 && d2 != 0
    ensures (n1 as real / d1 as real) + (n2 as real / d2 as real) == (n1 * d2 + n2 * d1) as real / (d1 * d2) as real
  {
    RealMul(n1, d2);
    RealMul(n2, d1);
    RealMul(d1, d2);
    var x, y := n1 as real / d1 as real, n2 as real / d2 as real;
    assert x * d1 as real == n1 as real;
    assert y * d2 as real == n2 as real;
    assert (x + y) * (d1 * d2) as real == (n1 * d2 + n2 * d1) as real;
  }

  lemma FracSub(n1: int, d1: int, n2: int, d2: int)
    requires d1 != 0 && d2 != 0
    ensures (n1 as real / d1 as real) - (n2 as real / d2 as real) == (n1 * d2 - n2 * d1) as real / (d1 * d2) as real
  {
    RealMul(n1, d2);
    RealMul(n2, d1);
    RealMul(d1, d2);
    var x, y := n1 as real / d1 as real, n2 as real / d2 as real;
    assert x * d1 as real == n1 as real;
    assert y * d2 as real == n2 as real;
    assert (x - y) * (d1 * d2) as real == (n1 * d2 - n2 * d1) as real;
  }

  lemma DivValue(a: Rat, b: Rat)
    requires a.den != 0 && b.den != 0 && b.num != 0 && Div(a, b).Some?
    ensures Div(a, b).value.den > 0 && Val(Div(a, b).value) == Val(a) / Val(b)
  {
    MulValue(a, Recip(b));
    DivByFrac(Val(a), b.num as real, b.den as real);
  }

  lemma DivByFrac(x: real, n: real, d: real)
    requires n != 0.0 && d != 0.0
    ensures x / (n / d) == x * (d / n)
  {
  }

  /** `eq`: equal normalised forms. */
  function Eq(a: Rat, b: Rat): Option<bool>
  {
    var n1 :- Norm(a);
    var n2 :- Norm(b);
    Some(n1.num == n2.num && n1.den == n2.den)
  }

  lemma EqMeaning(a: Rat, b: Rat)
    requires a.den != 0 && b.den != 0 && Eq(a, b).Some?
    ensures Eq(a, b).value <==> Val(a) == Val(b)
  {
    var n1, n2 := Norm(a).value, Norm(b).value;
    NormMeaning(a);
    NormMeaning(b);
    CrossVal(n1, a);
    CrossVal(n2, b);
    CrossVal(n1, n2);
    if Val(a) == Val(b) {
      ReducedUnique(n1.num, n1.den, n2.num, n2.den);
    }
  }

  /** `is_pos`: the normalised numerator is positive. */
  function IsPos(r: Rat): Option<bool>
  {
    var n :- Norm(r);
    Some(n.num > 0)
  }

  lemma IsPosMeaning(r: Rat)
    requires r.den != 0 && IsPos(r).Some?
    ensures IsPos(r).value <==> Val(r) > 0.0
  {
    NormVal(r.num, r.den);
    var n := Norm(r).value;
    PositiveFrac(n.num, n.den);
  }

  lemma PositiveFrac(p: int, q: int)
    requires q > 0
    ensures p as real / q as real > 0.0 <==> p > 0
  {
    var x := p as real / q as real;
    assert x * q as real == p as real;
  }

  datatype Ordering = Less | Equal | Greater

  /** `partial_cmp`: Equal when equal, else Less when `b - a` is positive,
      else Greater. */
  function Cmp(a: Rat, b: Rat): Option<Ordering>
  {
    var e :- Eq(a, b);
    if e then Some(Equal)
    else
      var d :- Sub(b, a);
      var p :- IsPos(d);
      Some(if p then Less else Greater)
  }

  lemma CmpMeaning(a: Rat, b: Rat)
    requires a.den != 0 && b.den != 0 && Cmp(a, b).Some?
    ensures Cmp(a, b).value == Equal <==> Val(a) == Val(b)
    ensures Cmp(a, b).value == Less <==> Val(a) < Val(b)
    ensures Cmp(a, b).value == Greater <==> Val(a) > Val(b)
  {
    EqMeaning(a, b);
    if !Eq(a, b).value {
      SubValue(b, a);
      IsPosMeaning(Sub(b, a).value);
    }
  }

  /* ---------------- hailstones ---------------- */

  datatype Vec3 = Vec3(x: Coord, y: Coord, z: Coord)

  /** A hailstone's position and velocity at time 0. */
  datatype Stone = Stone(pos: Vec3, vel: Vec3)

  /** `Rat < Coord`: `partial_cmp` gives Less. */
  function Lt(a: Rat, c: Coord): Option<bool>
  {
    var o :- Cmp(a, From(c));
    Some(o == Less)
  }

  /** `Rat > Coord`: `partial_cmp` gives Greater. */
  function Gt(a: Rat, c: Coord): Option<bool>
  {
    var o :- Cmp(a, From(c));
    Some(o == Greater)
  }

  /** The slope `m = vy / vx` of the path in the X-Y plane. */
  function Slope(s: Stone): Option<Rat>
  {
    Div(From(s.vel.y), From(s.vel.x))
  }

  /** The intercept `b = py - m * px` of the path `y = m * x + b`. */
  function Intercept(s: Stone, m: Rat): Option<Rat>
  {
    var p :- Mul(m, From(s.pos.x));
    Sub(From(s.pos.y), p)
  }

  /** `v < c1 || v > c2`, short-circuited. */
  function Outside(v: Rat, c1: Coord, c2: Coord): Option<bool>
  {
    var below :- Lt(v, c1);
    if below then Some(true) else Gt(v, c2)
  }

  /** The time `(x - px) / vx` at which stone `s` reaches `x` is negative. */
  function InPast(x: Rat, s: Stone): Option<bool>
  {
    var d :- Sub(x, From(s.pos.x));
    var t :- Div(d, From(s.vel.x));
    Lt(t, 0)
  }

  /** `will_collide`: the paths cross at a single point inside the window
      `[c1, c2]` on both axes, reached by both stones at nonnegative times;
      `None` when a checked operation panics. */
  function WillCollide(s1: Stone, s2: Stone, c1: Coord, c2: Coord): Option<bool>
  {
    var m1 :- Slope(s1);
    var m2 :- Slope(s2);
    var b1 :- Intercept(s1, m1);
    var b2 :- Intercept(s2, m2);
    Decide(s1, s2, m1, b1, m2, b2, c1, c2)
  }

  /** The test proper, on the lines `y = m1 x + b1` and `y = m2 x + b2`. */
  function Decide(s1: Stone, s2: Stone, m1: Rat, b1: Rat, m2: Rat, b2: Rat, c1: Coord, c2: Coord): Option<bool>
  {
    var parallel :- Eq(m1, m2);
    if parallel then Some(false)
    else
      var x :- CrossingX(m1, b1, m2, b2);
      InsideAt(s1, s2, m1, b1, x, c1, c2)
  }

  /** `x = (b2 - b1) / (m1 - m2)`, where `y = m1 x + b1` meets `y = m2 x + b2`. */
  function CrossingX(m1: Rat, b1: Rat, m2: Rat, b2: Rat): Option<Rat>
  {
    var db :- Sub(b2, b1);
    var dm :- Sub(m1, m2);
    Div(db, dm)
  }

  /** The window and time tests on the crossing at `x` of the line
      `y = m1 x + b1` of `s1`. */
  function InsideAt(s1: Stone, s2: Stone, m1: Rat, b1: Rat, x: Rat, c1: Coord, c2: Coord): Option<bool>
  {
    var xOut :- Outside(x, c1, c2);
    if xOut then Some(false) else YInside(s1, s2, m1, b1, x, c1, c2)
  }

  /** The window test on `y = m1 x + b1`, then the time tests. */
  function YInside(s1: Stone, s2: Stone, m1: Rat, b1: Rat, x: Rat, c1: Coord, c2: Coord): Option<bool>
  {
    var mx :- Mul(m1, x);
    var y :- Add(mx, b1);
    var yOut :- Outside(y, c1, c2);
    if yOut then Some(false) else Future(s1, s2, x)
  }

  /** Neither stone reaches `x` in the past. */
  function Future(s1: Stone, s2: Stone, x: Rat): Option<bool>
  {
    var past1 :- InPast(x, s1);
    if past1 then Some(false)
    else
      var past2 :- InPast(x, s2);
      Some(!past2)
  }

  /* ---------------- the geometry the test decides ---------------- */

  ghost function PosX(s: Stone, t: real): real
  {
    s.pos.x as real + s.vel.x as real * t
  }

  ghost function PosY(s: Stone, t: real): real
  {
    s.pos.y as real + s.vel.y as real * t
  }

  /** Stone `s1` at time `t1` and stone `s2` at time `t2` are at the same
      point of the X-Y plane. */
  ghost predicate Meets(s1: Stone, s2: Stone, t1: real, t2: real)
  {
    PosX(s1, t1) == PosX(s2, t2) && PosY(s1, t1) == PosY(s2, t2)
  }

  ghost predicate InWindow(v: real, c1: Coord, c2: Coord)
  {
    c1 as real <= v <= c2 as real
  }

  /** The paths cross inside the window, both stones getting there at a
      time that is not in the past. */
  ghost predicate CrossesInside(s1: Stone, s2: Stone, c1: Coord, c2: Coord)
  {
    exists t1: real, t2: real :: t1 >= 0.0 && t2 >= 0.0 && Meets(s1, s2, t1, t2)
      && InWindow(PosX(s1, t1), c1, c2) && InWindow(PosY(s1, t1), c1, c2)
  }

  /** The paths are parallel (or one of them is a point). */
  predicate Parallel(s1: Stone, s2: Stone)
  {
    s1.vel.y * s2.vel.x == s2.vel.y * s1.vel.x
  }

  ghost function SlopeR(s: Stone): real
    requires s.vel.x != 0
  {
    s.vel.y as real / s.vel.x as real
  }

  ghost function InterceptR(s: Stone): real
    requires s.vel.x != 0
  {
    s.pos.y as real - SlopeR(s) * s.pos.x as real
  }

  ghost function TimeAt(s: Stone, x: real): real
    requires s.vel.x != 0
  {
    (x - s.pos.x as real) / s.vel.x as real
  }

  /** A point of a non-vertical path lies on its line, at the time the
      X coordinate determines. */
  lemma OnLine(s: Stone, t: real)
    requires s.vel.x != 0
    ensures PosY(s, t) == SlopeR(s) * PosX(s, t) + InterceptR(s)
    ensures TimeAt(s, PosX(s, t)) == t
  {
    var vx, vy := s.vel.x as real, s.vel.y as real;
    assert SlopeR(s) * vx == vy;
    assert SlopeR(s) * (PosX(s, t) - s.pos.x as real) == vy * t;
  }

  lemma AtTime(s: Stone, x: real)
    requires s.vel.x != 0
    ensures PosX(s, TimeAt(s, x)) == x
  {
  }

  /** The line of a non-vertical path at `x` is where the stone is when it
      reaches `x`. */
  lemma LineAtTime(s: Stone, x: real)
    requires s.vel.x != 0
    ensures SlopeR(s) * x + InterceptR(s) == PosY(s, TimeAt(s, x))
  {
    AtTime(s, x);
    OnLine(s, TimeAt(s, x));
  }

  lemma SlopesDiffer(s1: Stone, s2: Stone)
    requires s1.vel.x != 0 && s2.vel.x != 0
    ensures SlopeR(s1) == SlopeR(s2) <==> Parallel(s1, s2)
  {
    CrossVal(Rat(s1.vel.y, s1.vel.x), Rat(s2.vel.y, s2.vel.x));
  }

  ghost function CrossX(s1: Stone, s2: Stone): real
    requires s1.vel.x != 0 && s2.vel.x != 0 && !Parallel(s1, s2)
  {
    SlopesDiffer(s1, s2);
    (InterceptR(s2) - InterceptR(s1)) / (SlopeR(s1) - SlopeR(s2))
  }

  /** Two non-parallel, non-vertical paths meet at `CrossX`, at the times
      it determines ... */
  lemma Crossing(s1: Stone, s2: Stone)
    requires s1.vel.x != 0 && s2.vel.x != 0 && !Parallel(s1, s2)
    ensures Meets(s1, s2, TimeAt(s1, CrossX(s1, s2)), TimeAt(s2, CrossX(s1, s2)))
  {
    var x := CrossX(s1, s2);
    SlopesDiffer(s1, s2);
    AtTime(s1, x);
    AtTime(s2, x);
    LineAtTime(s1, x);
    LineAtTime(s2, x);
    SameLineValue(SlopeR(s1), InterceptR(s1), SlopeR(s2), InterceptR(s2), x);
  }

  /** ... and nowhere else. */
  lemma CrossingUnique(s1: Stone, s2: Stone, u1: real, u2: real)
    requires s1.vel.x != 0 && s2.vel.x != 0 && !Parallel(s1, s2) && Meets(s1, s2, u1, u2)
    ensures u1 == TimeAt(s1, CrossX(s1, s2)) && u2 == TimeAt(s2, CrossX(s1, s2))
  {
    SlopesDiffer(s1, s2);
    OnLine(s1, u1);
    OnLine(s2, u2);
    LinesMeetOnce(SlopeR(s1), InterceptR(s1), SlopeR(s2), InterceptR(s2), PosX(s1, u1));
  }

  lemma SameLineValue(m1: real, b1: real, m2: real, b2: real, x: real)
    requires m1 != m2 && x == (b2 - b1) / (m1 - m2)
    ensures m1 * x + b1 == m2 * x + b2
  {
    assert x * (m1 - m2) == b2 - b1;
  }

  lemma LinesMeetOnce(m1: real, b1: real, m2: real, b2: real, x: real)
    requires m1 != m2 && m1 * x + b1 == m2 * x + b2
    ensures x == (b2 - b1) / (m1 - m2)
  {
    assert x * (m1 - m2) == b2 - b1;
  }

  /** Whether the paths cross inside the window comes down to the one
      crossing point. */
  lemma CrossesInsideAt(s1: Stone, s2: Stone, c1: Coord, c2: Coord)
    requires s1.vel.x != 0 && s2.vel.x != 0 && !Parallel(s1, s2)
    ensures var x := CrossX(s1, s2);
            var t1, t2 := TimeAt(s1, x), TimeAt(s2, x);
            CrossesInside(s1, s2, c1, c2) <==>
              t1 >= 0.0 && t2 >= 0.0 && InWindow(x, c1, c2) && InWindow(PosY(s1, t1), c1, c2)
  {
    var x := CrossX(s1, s2);
    var t1, t2 := TimeAt(s1, x), TimeAt(s2, x);
    AtTime(s1, x);
    if t1 >= 0.0 && t2 >= 0.0 && InWindow(x, c1, c2) && InWindow(PosY(s1, t1), c1, c2) {
      Crossing(s1, s2);
    }
    if CrossesInside(s1, s2, c1, c2) {
      var u1: real, u2: real :| u1 >= 0.0 && u2 >= 0.0 && Meets(s1, s2, u1, u2)
        && InWindow(PosX(s1, u1), c1, c2) && InWindow(PosY(s1, u1), c1, c2);
      CrossingUnique(s1, s2, u1, u2);
    }
  }

  /* ---------------- what each step of the test computes ---------------- */

  lemma SlopeVal(s: Stone)
    requires s.vel.x != 0 && Slope(s).Some?
    ensures Slope(s).value.den > 0 && Val(Slope(s).value) == SlopeR(s)
  {
    DivValue(From(s.vel.y), From(s.vel.x));
  }

  lemma InterceptVal(s: Stone, m: Rat)
    requires s.vel.x != 0 && m.den != 0 && Val(m) == SlopeR(s) && Intercept(s, m).Some?
    ensures Intercept(s, m).value.den > 0 && Val(Intercept(s, m).value) == InterceptR(s)
  {
    var p := Mul(m, From(s.pos.x)).value;
    ScaleValue(m, s.pos.x);
    FromSubValue(s.pos.y, p);
  }

  lemma ScaleValue(a: Rat, v: Coord)
    requires a.den != 0 && Mul(a, From(v)).Some?
    ensures Mul(a, From(v)).value.den > 0 && Val(Mul(a, From(v)).value) == Val(a) * v as real
  {
    MulValue(a, From(v));
  }

  lemma FromSubValue(v: Coord, b: Rat)
    requires b.den != 0 && Sub(From(v), b).Some?
    ensures Sub(From(v), b).value.den > 0 && Val(Sub(From(v), b).value) == v as real - Val(b)
  {
    SubValue(From(v), b);
  }

  lemma LtMeaning(a: Rat, c: Coord)
    requires a.den != 0 && Lt(a, c).Some?
    ensures Lt(a, c).value <==> Val(a) < c as real
  {
    CmpMeaning(a, From(c));
  }

  lemma GtMeaning(a: Rat, c: Coord)
    requires a.den != 0 && Gt(a, c).Some?
    ensures Gt(a, c).value <==> Val(a) > c as real
  {
    CmpMeaning(a, From(c));
  }

  lemma OutsideMeaning(v: Rat, c1: Coord, c2: Coord)
    requires v.den != 0 && Outside(v, c1, c2).Some?
    ensures Outside(v, c1, c2).value <==> !InWindow(Val(v), c1, c2)
  {
    LtMeaning(v, c1);
    if !Lt(v, c1).value {
      GtMeaning(v, c2);
    }
  }

  lemma InPastMeaning(x: Rat, s: Stone)
    requires x.den != 0 && s.vel.x != 0 && InPast(x, s).Some?
    ensures InPast(x, s).value <==> TimeAt(s, Val(x)) < 0.0
  {
    SubValue(x, From(s.pos.x));
    var d := Sub(x, From(s.pos.x)).value;
    DivValue(d, From(s.vel.x));
    LtMeaning(Div(d, From(s.vel.x)).value, 0);
  }

  /** A rational with a nonzero value has a nonzero numerator. */
  lemma NonzeroNum(r: Rat)
    requires r.den != 0 && Val(r) != 0.0
    ensures r.num != 0
  {
  }

  lemma CrossingXVal(m1: Rat, b1: Rat, m2: Rat, b2: Rat)
    requires m1.den != 0 && b1.den != 0 && m2.den != 0 && b2.den != 0
    requires Val(m1) != Val(m2) && CrossingX(m1, b1, m2, b2).Some?
    ensures CrossingX(m1, b1, m2, b2).value.den > 0
    ensures Val(CrossingX(m1, b1, m2, b2).value) == (Val(b2) - Val(b1)) / (Val(m1) - Val(m2))
  {
    SubValue(b2, b1);
    SubValue(m1, m2);
    NonzeroNum(Sub(m1, m2).value);
    DivValue(Sub(b2, b1).value, Sub(m1, m2).value);
  }

  lemma FutureMeaning(s1: Stone, s2: Stone, x: Rat)
    requires s1.vel.x != 0 && s2.vel.x != 0 && x.den != 0 && Future(s1, s2, x).Some?
    ensures Future(s1, s2, x).value <==> TimeAt(s1, Val(x)) >= 0.0 && TimeAt(s2, Val(x)) >= 0.0
  {
    InPastMeaning(x, s1);
    if !InPast(x, s1).value {
      InPastMeaning(x, s2);
    }
  }

  lemma InsideAtMeaning(s1: Stone, s2: Stone, m1: Rat, b1: Rat, x: Rat, c1: Coord, c2: Coord)
    requires s1.vel.x != 0 && s2.vel.x != 0 && m1.den != 0 && b1.den != 0 && x.den != 0
    requires Val(m1) == SlopeR(s1) && Val(b1) == InterceptR(s1)
    requires InsideAt(s1, s2, m1, b1, x, c1, c2).Some?
    ensures var t1 := TimeAt(s1, Val(x));
            InsideAt(s1, s2, m1, b1, x, c1, c2).value <==>
              InWindow(Val(x), c1, c2) && InWindow(PosY(s1, t1), c1, c2)
              && t1 >= 0.0 && TimeAt(s2, Val(x)) >= 0.0
  {
    OutsideMeaning(x, c1, c2);
    if !Outside(x, c1, c2).value {
      YInsideMeaning(s1, s2, m1, b1, x, c1, c2);
    }
  }

  /** `m1 * x + b1` is where `s1` is when it reaches `x`. */
  lemma YValue(s1: Stone, m1: Rat, b1: Rat, x: Rat)
    requires s1.vel.x != 0 && m1.den != 0 && b1.den != 0 && x.den != 0
    requires Val(m1) == SlopeR(s1) && Val(b1) == InterceptR(s1)
    requires Mul(m1, x).Some? && Add(Mul(m1, x).value, b1).Some?
    ensures Add(Mul(m1, x).value, b1).value.den > 0
    ensures Val(Add(Mul(m1, x).value, b1).value) == PosY(s1, TimeAt(s1, Val(x)))
  {
    var mx := Mul(m1, x).value;
    MulValue(m1, x);
    AddValue(mx, b1);
    LineAtTime(s1, Val(x));
  }

  lemma YInsideMeaning(s1: Stone, s2: Stone, m1: Rat, b1: Rat, x: Rat, c1: Coord, c2: Coord)
    requires s1.vel.x != 0 && s2.vel.x != 0 && m1.den != 0 && b1.den != 0 && x.den != 0
    requires Val(m1) == SlopeR(s1) && Val(b1) == InterceptR(s1)
    requires YInside(s1, s2, m1, b1, x, c1, c2).Some?
    ensures var t1 := TimeAt(s1, Val(x));
            YInside(s1, s2, m1, b1, x, c1, c2).value <==>
              InWindow(PosY(s1, t1), c1, c2) && t1 >= 0.0 && TimeAt(s2, Val(x)) >= 0.0
  {
    var y := Add(Mul(m1, x).value, b1).value;
    YValue(s1, m1, b1, x);
    OutsideMeaning(y, c1, c2);
    if !Outside(y, c1, c2).value {
      FutureMeaning(s1, s2, x);
    }
  }

  /** `will_collide`, for two stones that both move along X, answers
      whether their paths are not parallel and cross inside the window at
      times that are not in the past; parallel paths never count, even when
      they lie on one line. */
  lemma WillCollideMeaning(s1: Stone, s2: Stone, c1: Coord, c2: Coord)
    requires s1.vel.x != 0 && s2.vel.x != 0 && WillCollide(s1, s2, c1, c2).Some?
    ensures WillCollide(s1, s2, c1, c2).value <==> !Parallel(s1, s2) && CrossesInside(s1, s2, c1, c2)
  {
    var m1, m2 := Slope(s1).value, Slope(s2).value;
    var b1, b2 := Intercept(s1, m1).value, Intercept(s2, m2).value;
    LineVal(s1);
    LineVal(s2);
    assert WillCollide(s1, s2, c1, c2) == Decide(s1, s2, m1, b1, m2, b2, c1, c2);
    DecideMeaning(s1, s2, m1, b1, m2, b2, c1, c2);
  }

  /** The slope and intercept computed for a non-vertical path are those of
      its line. */
  lemma LineVal(s: Stone)
    requires s.vel.x != 0 && Slope(s).Some? && Intercept(s, Slope(s).value).Some?
    ensures var m := Slope(s).value;
            var b := Intercept(s, m).value;
            m.den > 0 && b.den > 0 && Val(m) == SlopeR(s) && Val(b) == InterceptR(s)
  {
    SlopeVal(s);
    InterceptVal(s, Slope(s).value);
  }


  lemma SameQuotient(a: real, b: real, c: real, d: real, a': real, b': real, c': real, d': real)
    requires a == a' && b == b' && c == c' && d == d' && c != d
    ensures (a - b) / (c - d) == (a' - b') / (c' - d')
  {
  }

  lemma DecideMeaning(s1: Stone, s2: Stone, m1: Rat, b1: Rat, m2: Rat, b2: Rat, c1: Coord, c2: Coord)
    requires s1.vel.x != 0 && s2.vel.x != 0
    requires m1.den != 0 && b1.den != 0 && m2.den != 0 && b2.den != 0
    requires Val(m1) == SlopeR(s1) && Val(m2) == SlopeR(s2)
    requires Val(b1) == InterceptR(s1) && Val(b2) == InterceptR(s2)
    requires Decide(s1, s2, m1, b1, m2, b2, c1, c2).Some?
    ensures Decide(s1, s2, m1, b1, m2, b2, c1, c2).value <==> !Parallel(s1, s2) && CrossesInside(s1, s2, c1, c2)
  {
    EqMeaning(m1, m2);
    SlopesDiffer(s1, s2);
    if !Parallel(s1, s2) {
      var x := CrossingX(m1, b1, m2, b2).value;
      assert x.den > 0 && Val(x) == CrossX(s1, s2) by {
        CrossingXVal(m1, b1, m2, b2);
        SameQuotient(Val(b2), Val(b1), Val(m1), Val(m2), InterceptR(s2), InterceptR(s1), SlopeR(s1), SlopeR(s2));
      }
      CrossesInsideAt(s1, s2, c1, c2);
      InsideAtMeaning(s1, s2, m1, b1, x, c1, c2);
    }
  }

  /** The answer does not depend on which stone comes first. */
  lemma WillCollideSymmetric(s1: Stone, s2: Stone, c1: Coord, c2: Coord)
    requires s1.vel.x != 0 && s2.vel.x != 0
    requires WillCollide(s1, s2, c1, c2).Some? && WillCollide(s2, s1, c1, c2).Some?
    ensures WillCollide(s1, s2, c1, c2) == WillCollide(s2, s1, c1, c2)
  {
    WillCollideMeaning(s1, s2, c1, c2);
    WillCollideMeaning(s2, s1, c1, c2);
    if CrossesInside(s1, s2, c1, c2) {
      var t1: real, t2: real :| t1 >= 0.0 && t2 >= 0.0 && Meets(s1, s2, t1, t2)
        && InWindow(PosX(s1, t1), c1, c2) && InWindow(PosY(s1, t1), c1, c2);
      assert Meets(s2, s1, t2, t1);
    }
    if CrossesInside(s2, s1, c1, c2) {
      var t2: real, t1: real :| t2 >= 0.0 && t1 >= 0.0 && Meets(s2, s1, t2, t1)
        && InWindow(PosX(s2, t2), c1, c2) && InWindow(PosY(s2, t2), c1, c2);
      assert Meets(s1, s2, t1, t2);
    }
  }

  /* ---------------- part 1 ---------------- */

  /** A test on a pair of stones that may panic. */
  type Test = (Stone, Stone) -> Option<bool>

  /** `will_collide` with the window fixed. */
  function Tester(c1: Coord, c2: Coord): Test
  {
    (a: Stone, b: Stone) => WillCollide(a, b, c1, c2)
  }

  /** The colliding partners `j < jn` of stone `i`, counted in order; `None`
      once a test panics. */
  function RowCount(data: seq<Stone>, i: nat, jn: nat, test: Test): Option<nat>
    requires jn <= i < |data|
  {
    if jn == 0 then Some(0)
    else
      var k :- RowCount(data, i, jn - 1, test);
      var w :- test(data[i], data[jn - 1]);
      Some(if w then k + 1 else k)
  }

  /** The colliding pairs `j < i` with `i < n`, row by row. */
  function PairCount(data: seq<Stone>, n: nat, test: Test): Option<nat>
    requires n <= |data|
  {
    if n == 0 then Some(0)
    else
      var k :- PairCount(data, n - 1, test);
      var r :- RowCount(data, n - 1, n - 1, test);
      Some(k + r)
  }

  /** `do_part1`: the pairs counted with `will_collide` on the window. */
  method Part1(data: seq<Stone>, c1: Coord, c2: Coord) returns (r: Option<nat>)
    ensures r == PairCount(data, |data|, Tester(c1, c2))
  {
    r := CountPairs(data, Tester(c1, c2));
  }

  /** The loops of `do_part1`: every pair `j < i` is checked once, row by
      row, and the first panic ends the count. */
  method CountPairs(data: seq<Stone>, test: Test) returns (r: Option<nat>)
    ensures r == PairCount(data, |data|, test)
  {
    var result := 0;
    var i := 1;
    while i < |data|
      invariant 1 <= i && (|data| > 0 ==> i <= |data|)
      invariant PairCount(data, if |data| == 0 then 0 else i, test) == Some(result)
    {
      ghost var base := result;
      var j := 0;
      while j < i
        invariant j <= i && result >= base
        invariant RowCount(data, i, j, test) == Some(result - base)
      {
        var w := test(data[i], data[j]);
        if w.None? {
          RowPanics(data, i, j + 1, i, test);
          PairPanics(data, i + 1, |data|, test);
          return None;
        }
        if w.value {
          result := result + 1;
        }
        j := j + 1;
      }
      i := i + 1;
    }
    r := Some(result);
  }

  lemma {:induction false} RowPanics(data: seq<Stone>, i: nat, j: nat, k: nat, test: Test)
    requires j <= k <= i < |data| && RowCount(data, i, j, test).None?
    ensures RowCount(data, i, k, test).None?
    decreases k - j
  {
    if j < k {
      RowPanics(data, i, j + 1, k, test);
    }
  }

  lemma {:induction false} PairPanics(data: seq<Stone>, m: nat, n: nat, test: Test)
    requires m <= n <= |data| && PairCount(data, m, test).None?
    ensures PairCount(data, n, test).None?
    decreases n - m
  {
    if m < n {
      PairPanics(data, m + 1, n, test);
    }
  }

  /** The pairs `j < i < n` the test says collide: each unordered pair of
      stones appears once. */
  ghost function Colliding(data: seq<Stone>, n: nat, test: Test): set<(nat, nat)>
    requires n <= |data|
  {
    set i: nat, j: nat | j < i < n && test(data[i], data[j]) == Some(true) :: (i, j)
  }

  ghost function RowColliding(data: seq<Stone>, i: nat, jn: nat, test: Test): set<(nat, nat)>
    requires jn <= i < |data|
  {
    set j: nat | j < jn && test(data[i], data[j]) == Some(true) :: (i, j)
  }

  lemma {:induction false} RowCountIsCard(data: seq<Stone>, i: nat, jn: nat, test: Test)
    requires jn <= i < |data| && RowCount(data, i, jn, test).Some?
    ensures RowCount(data, i, jn, test).value == |RowColliding(data, i, jn, test)|
  {
    if jn > 0 {
      RowCountIsCard(data, i, jn - 1, test);
      var prev := RowColliding(data, i, jn - 1, test);
      assert (i, jn - 1) !in prev;
      if test(data[i], data[jn - 1]) == Some(true) {
        assert RowColliding(data, i, jn, test) == prev + {(i, jn - 1)};
      } else {
        assert RowColliding(data, i, jn, test) == prev;
      }
    }
  }

  /** A count that did not panic is the number of colliding pairs. */
  lemma {:induction false} PairCountIsCard(data: seq<Stone>, n: nat, test: Test)
    requires n <= |data| && PairCount(data, n, test).Some?
    ensures PairCount(data, n, test).value == |Colliding(data, n, test)|
  {
    if n > 0 {
      PairCountIsCard(data, n - 1, test);
      RowCountIsCard(data, n - 1, n - 1, test);
      var prev, row := Colliding(data, n - 1, test), RowColliding(data, n - 1, n - 1, test);
      CollidingSplit(data, n, test);
      assert prev * row == {} by {
        forall p | p in row ensures p !in prev {
        }
      }
    }
  }

  /** The pairs below `n` are those below `n - 1` and the row of `n - 1`. */
  lemma CollidingSplit(data: seq<Stone>, n: nat, test: Test)
    requires 0 < n <= |data|
    ensures Colliding(data, n, test) == Colliding(data, n - 1, test) + RowColliding(data, n - 1, n - 1, test)
  {
    var all, prev, row := Colliding(data, n, test), Colliding(data, n - 1, test), RowColliding(data, n - 1, n - 1, test);
    forall p | p in all
      ensures p in prev + row
    {
      var (i, j) := p;
      if i < n - 1 {
        assert p in prev;
      } else {
        assert p in row;
      }
    }
    forall p | p in prev + row
      ensures p in all
    {
      var (i, j) := p;
      assert j < i < n && test(data[i], data[j]) == Some(true);
    }
  }

  /** The count panics exactly when some pair's test does. */
  lemma {:induction false} PairCountPanics(data: seq<Stone>, n: nat, test: Test)
    requires n <= |data|
    ensures PairCount(data, n, test).None? <==>
            exists i, j :: 0 <= j < i < n && test(data[i], data[j]).None?
  {
    if n > 0 {
      PairCountPanics(data, n - 1, test);
      RowPanicsAt(data, n - 1, n - 1, test);
    }
  }

  lemma {:induction false} RowPanicsAt(data: seq<Stone>, i: nat, jn: nat, test: Test)
    requires jn <= i < |data|
    ensures RowCount(data, i, jn, test).None? <==>
            exists j :: 0 <= j < jn && test(data[i], data[j]).None?
  {
    if jn > 0 {
      RowPanicsAt(data, i, jn - 1, test);
    }
  }
}
