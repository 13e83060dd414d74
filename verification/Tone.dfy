/** Whether a tone is in a recording: the loudest window found, and Goertzel's recurrence
    over it. Arithmetic is over the reals; an angle is given as the unit vector (a, b) of
    its cosine and sine. */
module Tone {

  datatype Complex = Complex(re: real, im: real)

  function Plus(p: Complex, q: Complex): Complex { Complex(p.re + q.re, p.im + q.im) }
  function Times(p: Complex, q: Complex): Complex { Complex(p.re * q.re - p.im * q.im, p.re * q.im + p.im * q.re) }
  function Scaled(x: real, p: Complex): Complex { Complex(x * p.re, x * p.im) }
  function Conj(p: Complex): Complex { Complex(p.re, -p.im) }
  function Norm(p: Complex): real { p.re * p.re + p.im * p.im }

  const ONE := Complex(1.0, 0.0)
  const ZERO := Complex(0.0, 0.0)

  function Power(u: Complex, n: nat): Complex {
    if n == 0 then ONE else Times(u, Power(u, n - 1))
  }

  /** The plain Fourier sum: each sample on the unit circle turned back to its time. */
  function Fourier(xs: seq<real>, u: Complex): Complex {
    if xs == [] then ZERO else
      var n := |xs| - 1;
      Plus(Fourier(xs[..n], u), Scaled(xs[n], Conj(Power(u, n))))
  }

  function Energy(xs: seq<real>): real {
    if xs == [] then 0.0 else Energy(xs[..|xs| - 1]) + Square(xs[|xs| - 1])
  }

  function Square(x: real): real { x * x }

  /** What the squared magnitude of a sum over n samples of that energy cannot pass. */
  function Most(n: nat, energy: real): real { n as real * energy }

  /** The recurrence's last two values. */
  function Goertzel(xs: seq<real>, c: real): (real, real) {
    if xs == [] then (0.0, 0.0) else Step(Goertzel(xs[..|xs| - 1], c), xs[|xs| - 1], c)
  }

  function Step(s: (real, real), x: real, c: real): (real, real) {
    (x + c * s.0 - s.1, s.0)
  }

  function PowerOf(s1: real, s2: real, c: real): real {
    s1 * s1 + s2 * s2 - c * s1 * s2
  }

  // ---- Complex arithmetic ----

  lemma TimesAssociates(p: Complex, q: Complex, r: Complex)
    ensures Times(Times(p, q), r) == Times(p, Times(q, r))
  {
    assert (p.re * q.re - p.im * q.im) * r.re - (p.re * q.im + p.im * q.re) * r.im
        == p.re * (q.re * r.re - q.im * r.im) - p.im * (q.re * r.im + q.im * r.re);
    assert (p.re * q.re - p.im * q.im) * r.im + (p.re * q.im + p.im * q.re) * r.re
        == p.re * (q.re * r.im + q.im * r.re) + p.im * (q.re * r.re - q.im * r.im);
  }

  lemma TimesDistributes(p: Complex, q: Complex, r: Complex)
    ensures Times(p, Plus(q, r)) == Plus(Times(p, q), Times(p, r))
  {
  }

  lemma TimesConj(p: Complex, x: real)
    ensures Times(p, Scaled(x, Conj(p))) == Complex(x * Norm(p), 0.0)
  {
    assert p.re * (x * p.re) - p.im * (x * -p.im) == x * (p.re * p.re + p.im * p.im);
    assert p.re * (x * -p.im) + p.im * (x * p.re) == 0.0;
  }

  lemma NormOfTimes(p: Complex, q: Complex)
    ensures Norm(Times(p, q)) == Norm(p) * Norm(q)
  {
    TwoSquares(p.re, p.im, q.re, q.im);
  }

  /** A product of sums of two squares is one. */
  lemma TwoSquares(a: real, b: real, c: real, d: real)
    ensures (a * c - b * d) * (a * c - b * d) + (a * d + b * c) * (a * d + b * c) == (a * a + b * b) * (c * c + d * d)
  {
    var ac, bd, ad, bc := a * c, b * d, a * d, b * c;
    assert (ac - bd) * (ac - bd) == ac * ac - 2.0 * (ac * bd) + bd * bd;
    assert (ad + bc) * (ad + bc) == ad * ad + 2.0 * (ad * bc) + bc * bc;
    assert ac * bd == ad * bc;
    assert (a * a + b * b) * (c * c + d * d) == ac * ac + ad * ad + bc * bc + bd * bd;
  }

  lemma {:induction false} PowerIsUnit(u: Complex, n: nat)
    requires Norm(u) == 1.0
    ensures Norm(Power(u, n)) == 1.0
    decreases n
  {
    if n > 0 {
      PowerIsUnit(u, n - 1);
      NormOfTimes(u, Power(u, n - 1));
    }
  }

  // ---- The recurrence computes the sum ----

  /** The last two values as one complex number, which turns once a sample. */
  function Turned(s: (real, real), u: Complex): Complex {
    Complex(s.0 - u.re * s.1, u.im * s.1)
  }

  lemma OneTurn(x: real, s: (real, real), u: Complex)
    requires Norm(u) == 1.0
    ensures Turned(Step(s, x, 2.0 * u.re), u) == Plus(Complex(x, 0.0), Times(u, Turned(s, u)))
  {
    assert u.re * (s.0 - u.re * s.1) - u.im * (u.im * s.1) == u.re * s.0 - (u.re * u.re + u.im * u.im) * s.1;
    assert u.re * (u.im * s.1) + u.im * (s.0 - u.re * s.1) == u.im * s.0;
  }

  /** After n samples it is the Fourier sum turned n - 1 times. */
  lemma {:induction false} TurnedIsFourier(xs: seq<real>, u: Complex)
    requires Norm(u) == 1.0 && xs != []
    ensures Turned(Goertzel(xs, 2.0 * u.re), u) == Times(Power(u, |xs| - 1), Fourier(xs, u))
    decreases |xs|
  {
    hide Times, Plus, Turned, Scaled, Conj, Norm, Step;
    var n := |xs| - 1;
    var before, x := xs[..n], xs[n];
    var p, f := Power(u, n), Fourier(before, u);
    OneTurn(x, Goertzel(before, 2.0 * u.re), u);
    PowerIsUnit(u, n);
    TimesDistributes(p, f, Scaled(x, Conj(p)));
    TimesConj(p, x);
    if n == 0 {
      assert before == [];
      assert Goertzel(before, 2.0 * u.re) == (0.0, 0.0) && f == ZERO && p == ONE;
      FromNothing(u, x);
      assert Goertzel(xs, 2.0 * u.re) == Step((0.0, 0.0), x, 2.0 * u.re);
      assert Fourier(xs, u) == Plus(ZERO, Scaled(x, Conj(ONE)));
      assert Norm(p) == 1.0 && x * Norm(p) == x;
    } else {
      TurnedIsFourier(before, u);
      TimesAssociates(u, Power(u, n - 1), f);
      PlusCommutes(Times(p, f), Complex(x, 0.0));
    }
  }

  lemma PlusCommutes(p: Complex, q: Complex)
    ensures Plus(p, q) == Plus(q, p)
  {
  }

  lemma FromNothing(u: Complex, x: real)
    ensures Turned((0.0, 0.0), u) == ZERO && Times(u, ZERO) == ZERO && Times(ONE, ZERO) == ZERO
    ensures Plus(Complex(x, 0.0), ZERO) == Plus(ZERO, Complex(x, 0.0))
  {
  }

  lemma NormOfTurned(s: (real, real), u: Complex)
    requires Norm(u) == 1.0
    ensures Norm(Turned(s, u)) == PowerOf(s.0, s.1, 2.0 * u.re)
  {
    var s1, s2 := s.0, s.1;
    assert (s1 - u.re * s2) * (s1 - u.re * s2) == s1 * s1 - 2.0 * u.re * s1 * s2 + (u.re * u.re) * (s2 * s2);
    assert (u.im * s2) * (u.im * s2) == (u.im * u.im) * (s2 * s2);
    assert (u.re * u.re) * (s2 * s2) + (u.im * u.im) * (s2 * s2) == (u.re * u.re + u.im * u.im) * (s2 * s2);
  }

  /** What is made of the recurrence's last two values is the squared magnitude of the
      plain Fourier sum, for every recording and every frequency. */
  lemma GoertzelIsFourier(xs: seq<real>, u: Complex)
    requires Norm(u) == 1.0
    ensures var s := Goertzel(xs, 2.0 * u.re); PowerOf(s.0, s.1, 2.0 * u.re) == Norm(Fourier(xs, u))
  {
    if xs == [] {
      NothingHeard(u);
    } else {
      hide Times, Turned, Norm, PowerOf, Goertzel, Fourier, Power;
      var s, p, f := Goertzel(xs, 2.0 * u.re), Power(u, |xs| - 1), Fourier(xs, u);
      NormOfTurned(s, u);
      TurnedIsFourier(xs, u);
      PowerIsUnit(u, |xs| - 1);
      NormOfTimes(p, f);
      OneTimes(Norm(p), Norm(f));
    }
  }

  lemma OneTimes(x: real, y: real)
    requires x == 1.0
    ensures x * y == y
  {
  }

  lemma NothingHeard(u: Complex)
    ensures PowerOf(0.0, 0.0, 2.0 * u.re) == 0.0 == Norm(ZERO)
  {
  }

  // ---- No more than all of it ----

  lemma {:induction false} EnergyIsNotNegative(xs: seq<real>)
    ensures Energy(xs) >= 0.0
    decreases |xs|
  {
    if xs != [] {
      EnergyIsNotNegative(xs[..|xs| - 1]);
      SquareIsNotNegative(xs[|xs| - 1]);
    }
  }

  lemma SquareIsNotNegative(x: real)
    ensures x * x >= 0.0
  {
  }

  /** The inner product of two vectors of the plane. */
  function Dot(p: Complex, q: Complex): real {
    p.re * q.re + p.im * q.im
  }

  function Cross(x: real, d: real): real { x * d }

  lemma SquareOfSum(a: real, b: real)
    ensures Square(a + b) == Square(a) + 2.0 * Cross(a, b) + Square(b)
  {
  }

  lemma SquareOfScaled(x: real, a: real, b: real)
    ensures Square(a + Cross(x, b)) == Square(a) + 2.0 * Cross(x, Cross(a, b)) + Cross(Square(x), Square(b))
  {
    SquareOfSum(a, Cross(x, b));
    assert Cross(a, Cross(x, b)) == Cross(x, Cross(a, b));
    assert Square(Cross(x, b)) == Cross(Square(x), Square(b)) by {
      assert (x * b) * (x * b) == (x * x) * (b * b);
    }
  }

  lemma CrossOfSum(x: real, a: real, b: real)
    ensures Cross(x, a) + Cross(x, b) == Cross(x, a + b)
  {
  }

  lemma NormOfSum(p: Complex, q: Complex, x: real)
    requires Norm(q) == 1.0
    ensures Norm(Plus(p, Scaled(x, q))) == Norm(p) + 2.0 * Cross(x, Dot(p, q)) + Square(x)
  {
    var r := Plus(p, Scaled(x, q));
    assert r.re == p.re + Cross(x, q.re) && r.im == p.im + Cross(x, q.im);
    InSquares(p);
    InSquares(q);
    InSquares(r);
    hide Norm, Dot, Cross, Square, Plus, Scaled;
    SquareOfScaled(x, p.re, q.re);
    SquareOfScaled(x, p.im, q.im);
    CrossOfSum(x, Cross(p.re, q.re), Cross(p.im, q.im));
    CrossOfSum(Square(x), Square(q.re), Square(q.im));
    DotInCrosses(p, q);
    CrossOne(Square(x));
  }

  lemma InSquares(p: Complex)
    ensures Norm(p) == Square(p.re) + Square(p.im)
  {
  }

  lemma DotInCrosses(p: Complex, q: Complex)
    ensures Dot(p, q) == Cross(p.re, q.re) + Cross(p.im, q.im)
  {
  }

  lemma CrossOne(x: real)
    ensures Cross(x, 1.0) == x
  {
  }

  lemma DotIsBounded(p: Complex, q: Complex)
    requires Norm(q) == 1.0
    ensures Square(Dot(p, q)) <= Norm(p)
  {
    var cross := p.re * q.im - p.im * q.re;
    SquareIsNotNegative(cross);
    assert Dot(p, q) * Dot(p, q) + cross * cross == Norm(p) * Norm(q) by {
      NormOfTimes(p, Conj(q));
      assert Times(p, Conj(q)).re == Dot(p, q) && Times(p, Conj(q)).im == -cross;
      assert (-cross) * (-cross) == cross * cross;
    }
  }

  lemma SquaresOrder(p: real, q: real)
    requires p >= 0.0 && p * p >= q * q
    ensures q <= p
  {
    if q > p {
      ProductIsPositive(q - p, q + p);
      DifferenceOfSquares(p, q);
      assert false;
    }
  }

  lemma DifferenceOfSquares(p: real, q: real)
    ensures (q - p) * (q + p) == q * q - p * p
  {
  }

  lemma ProductIsPositive(x: real, y: real)
    requires x > 0.0 && y > 0.0
    ensures x * y > 0.0
  {
  }

  lemma ProductIsNotNegative(x: real, y: real)
    requires x >= 0.0 && y >= 0.0
    ensures x * y >= 0.0
  {
  }

  /** Twice a sample's part in the sum is no more than the energy so far and the sample's
      own, as often as there are samples. */
  lemma CrossTerm(x: real, d: real, e: real, n: real)
    requires n >= 0.0 && e >= 0.0 && d * d <= n * e
    ensures 2.0 * (x * d) <= e + n * (x * x)
  {
    var m := n * (x * x);
    SquareIsNotNegative(x);
    ProductIsNotNegative(n, x * x);
    SquareIsNotNegative(e - m);
    assert (e + m) * (e + m) == (e - m) * (e - m) + 4.0 * (e * m);
    assert e * m == (n * e) * (x * x);
    ProductIsNotNegative(n * e - d * d, x * x);
    assert (n * e - d * d) * (x * x) == (n * e) * (x * x) - (d * d) * (x * x);
    assert (2.0 * (x * d)) * (2.0 * (x * d)) == 4.0 * ((d * d) * (x * x));
    SquaresOrder(e + m, 2.0 * (x * d));
  }

  /** Cauchy and Schwarz: the sum's squared magnitude is at most the energy, as often as
      there are samples. */
  lemma {:induction false} FourierIsBounded(xs: seq<real>, u: Complex)
    requires Norm(u) == 1.0
    ensures Norm(Fourier(xs, u)) <= Most(|xs|, Energy(xs))
    decreases |xs|
  {
    if xs != [] {
      var n := |xs| - 1;
      var f, x, q, e := Fourier(xs[..n], u), xs[n], Conj(Power(u, n)), Energy(xs[..n]);
      FourierIsBounded(xs[..n], u);
      EnergyIsNotNegative(xs[..n]);
      PowerIsUnit(u, n);
      ConjIsUnit(Power(u, n));
      hide Norm, Dot, Plus, Scaled, Conj, Power, Square, Most;
      NormOfSum(f, q, x);
      DotIsBounded(f, q);
      OneMoreSample(Norm(f), x, Dot(f, q), e, n);
      assert Norm(Fourier(xs, u)) == Norm(f) + 2.0 * Cross(x, Dot(f, q)) + Square(x);
    }
  }

  lemma OneMoreSample(f: real, x: real, d: real, e: real, n: nat)
    requires e >= 0.0 && Square(d) <= f <= Most(n, e)
    ensures f + 2.0 * Cross(x, d) + Square(x) <= Most(n + 1, e + Square(x))
  {
    CrossTerm(x, d, e, n as real);
    Widened(n as real, e, x * x);
  }

  lemma Widened(n: real, e: real, y: real)
    ensures (n + 1.0) * (e + y) == n * e + e + n * y + y
  {
  }

  lemma ConjIsUnit(p: Complex)
    ensures Norm(Conj(p)) == Norm(p)
  {
    assert (-p.im) * (-p.im) == p.im * p.im;
  }

  /** The loop over a window. */
  method LastTwo(part: seq<real>, c: real) returns (s1: real, s2: real)
    ensures s1 == Goertzel(part, c).0 && s2 == Goertzel(part, c).1
  {
    hide Goertzel;
    s1, s2 := 0.0, 0.0;
    NoSamples(part, c);
    for i := 0 to |part|
      invariant s1 == Goertzel(part[..i], c).0 && s2 == Goertzel(part[..i], c).1
    {
      OneSample(part, i, c);
      s1, s2 := part[i] + c * s1 - s2, s1;
    }
    assert part[..|part|] == part;
  }

  lemma NoSamples(part: seq<real>, c: real)
    ensures Goertzel(part[..0], c) == (0.0, 0.0)
  {
  }

  lemma OneSample(part: seq<real>, i: nat, c: real)
    requires i < |part|
    ensures Goertzel(part[..i + 1], c) == Step(Goertzel(part[..i], c), part[i], c)
  {
    var more := part[..i + 1];
    assert more[..i] == part[..i] && more[i] == part[i];
  }

  /** The part of a window's power at a frequency: two at the most, and never less than
      none. */
  method Share(part: seq<real>, best: real, u: Complex) returns (share: real)
    requires Norm(u) == 1.0 && best == Energy(part) > 0.0
    ensures share * Most(|part|, best) == 2.0 * Norm(Fourier(part, u))
    ensures 0.0 <= share <= 2.0
  {
    hide Norm, Most, Fourier, Goertzel, Energy;
    var c := 2.0 * u.re;
    var s1, s2 := LastTwo(part, c);
    var power := s1 * s1 + s2 * s2 - c * s1 * s2;
    PowerIsPart(part, best, u, c, s1, s2);
    share := PartOf(power, |part|, best);
  }

  lemma PowerIsPart(part: seq<real>, best: real, u: Complex, c: real, s1: real, s2: real)
    requires Norm(u) == 1.0 && best == Energy(part) > 0.0
    requires c == 2.0 * u.re && s1 == Goertzel(part, c).0 && s2 == Goertzel(part, c).1
    ensures |part| > 0
    ensures PowerOf(s1, s2, c) == Norm(Fourier(part, u))
    ensures 0.0 <= PowerOf(s1, s2, c) <= Most(|part|, best)
  {
    hide Norm, PowerOf, Most, Fourier, Goertzel;
    GoertzelIsFourier(part, u);
    FourierIsBounded(part, u);
    NormIsNotNegative(Fourier(part, u));
  }

  lemma NormIsNotNegative(p: Complex)
    ensures Norm(p) >= 0.0
  {
    SquareIsNotNegative(p.re);
    SquareIsNotNegative(p.im);
  }

  function PartOf(power: real, n: nat, best: real): (share: real)
    requires n > 0 && best > 0.0
    ensures share * Most(n, best) == 2.0 * power
    ensures 0.0 <= power <= Most(n, best) ==> 0.0 <= share <= 2.0
  {
    ProductIsPositive(n as real, best);
    Halves(power, n as real * best);
    power / (n as real * best / 2.0)
  }

  lemma Halves(power: real, most: real)
    requires most > 0.0
    ensures power / (most / 2.0) * most == 2.0 * power
    ensures 0.0 <= power <= most ==> 0.0 <= power / (most / 2.0) <= 2.0
  {
    var part := power / most;
    Divided(power, most);
    assert part * 2.0 * (most / 2.0) == part * most;
    Quotient(part * 2.0, most / 2.0, power);
    if 0.0 <= power <= most {
      PartIsFair(part, most, power);
    }
  }

  lemma Divided(p: real, d: real)
    requires d != 0.0
    ensures p / d * d == p
  {
  }

  lemma Quotient(q: real, d: real, p: real)
    requires d > 0.0 && q * d == p
    ensures p / d == q
  {
  }

  lemma PartIsFair(part: real, most: real, power: real)
    requires most > 0.0 && part * most == power && 0.0 <= power <= most
    ensures 0.0 <= part <= 1.0
  {
    if part < 0.0 {
      ProductIsPositive(-part, most);
    } else if part > 1.0 {
      ProductIsPositive(part - 1.0, most);
    }
  }

  // ---- The bound is met ----

  predicate Steady(xs: seq<real>, x: real) {
    forall i :: 0 <= i < |xs| ==> xs[i] == x
  }

  lemma {:induction false} SteadySums(xs: seq<real>, x: real)
    requires Steady(xs, x)
    ensures Fourier(xs, ONE) == Complex(Most(|xs|, x), 0.0)
    ensures Energy(xs) == Most(|xs|, Square(x))
    decreases |xs|
  {
    hide Scaled, Conj, Square, Most, Power;
    var n := |xs| - 1;
    if xs != [] {
      SteadySums(xs[..n], x);
      PowerOfOne(n);
      AlongOne(x);
      OneMore(n, x);
      OneMore(n, Square(x));
    } else {
      NoneOf(x);
      NoneOf(Square(x));
    }
  }

  lemma OneMore(n: nat, x: real)
    ensures Most(n + 1, x) == Most(n, x) + x
  {
  }

  lemma NoneOf(x: real)
    ensures Most(0, x) == 0.0
  {
  }

  lemma ConjOfOne()
    ensures Conj(ONE) == Complex(1.0, 0.0)
  {
  }

  lemma AlongOne(x: real)
    ensures Scaled(x, Conj(ONE)) == Complex(x, 0.0)
  {
    ConjOfOne();
    hide Conj;
  }

  lemma {:induction false} PowerOfOne(n: nat)
    ensures Power(ONE, n) == ONE
    decreases n
  {
    hide Times;
    if n > 0 {
      PowerOfOne(n - 1);
      OneTimesOne();
    }
  }

  lemma OneTimesOne()
    ensures Times(ONE, ONE) == ONE
  {
  }

  /** A sound that does not change has the most its window allows at no frequency at all,
      so that its share there is two: the bound cannot be made smaller. */
  lemma SteadyIsTheMost(xs: seq<real>, x: real)
    requires Steady(xs, x)
    ensures Norm(Fourier(xs, ONE)) == Most(|xs|, Energy(xs))
  {
    hide Fourier, Energy;
    SteadySums(xs, x);
    var n := |xs| as real;
    assert (n * x) * (n * x) == n * (n * (x * x));
  }

  // ---- The loudest window ----

  datatype Outcome =
    | NothingPlayed
    | NoStep                       // the step between windows is nought, which a range refuses
    | Silence
    | Loudest(at: nat, energy: real)

  predicate Begins(at: int, step: nat, window: nat, n: nat)
    requires step > 0
  {
    at % step == 0 && 0 <= at && at + window <= n
  }

  function At(mono: seq<real>, at: nat, window: nat): seq<real>
    requires at + window <= |mono|
  {
    mono[at..at + window]
  }

  /** None is louder, and none before it is as loud. */
  ghost predicate FirstLoudest(mono: seq<real>, step: nat, window: nat, upTo: int, at: nat, energy: real)
    requires step > 0
  {
    && Begins(at, step, window, |mono|) && at < upTo
    && energy == Energy(At(mono, at, window))
    && (forall j: int | Begins(j, step, window, |mono|) && j < upTo ::
          && Energy(At(mono, j, window)) <= energy
          && (j < at ==> Energy(At(mono, j, window)) < energy))
  }

  /** The window with the most energy, of those that begin half a window apart. */
  method Search(mono: seq<real>, rate: nat) returns (outcome: Outcome)
    ensures outcome.NothingPlayed? <==> |mono| < rate / 10
    ensures outcome.NoStep? <==> rate < 20 && |mono| >= rate / 10
    ensures outcome.Silence? ==> (forall j: int | Begins(j, rate / 10 / 2, rate / 10, |mono|) ::
      Energy(At(mono, j, rate / 10)) <= (rate / 10) as real * 100.0)
    ensures outcome.Loudest? ==>
      && FirstLoudest(mono, rate / 10 / 2, rate / 10, |mono|, outcome.at, outcome.energy)
      && outcome.energy > (rate / 10) as real * 100.0
  {
    hide Energy;
    var window := rate / 10;
    if |mono| < window {
      return NothingPlayed;
    }
    var step := window / 2;
    if step == 0 {
      return NoStep;
    }
    var best := -1.0;
    var bestAt: nat, i: nat := 0, 0;
    while i < |mono| - window + 1
      invariant i % step == 0
      invariant i == 0 ==> best == -1.0 && bestAt == 0
      invariant i > 0 ==> FirstLoudest(mono, step, window, i, bestAt, best)
    {
      var energy := Energy(At(mono, i, window));
      EnergyIsNotNegative(At(mono, i, window));
      LouderYet(mono, step, window, i, bestAt, best);
      if energy > best {
        best, bestAt := energy, i;
      }
      NextMultiple(i, step);
      i := i + step;
    }
    outcome := if best <= window as real * 100.0 then Silence else Loudest(bestAt, best);
  }

  lemma LouderYet(mono: seq<real>, step: nat, window: nat, i: nat, at: nat, best: real)
    requires step > 0 && Begins(i, step, window, |mono|)
    requires if i == 0 then best == -1.0 else FirstLoudest(mono, step, window, i, at, best)
    requires Energy(At(mono, i, window)) >= 0.0
    ensures var energy := Energy(At(mono, i, window));
      if energy > best then FirstLoudest(mono, step, window, i + step, i, energy)
      else FirstLoudest(mono, step, window, i + step, at, best)
  {
    hide Energy, At;
    NoneSkipped(i, step, window, |mono|);
  }

  lemma NoneSkipped(i: nat, step: nat, window: nat, n: nat)
    requires step > 0 && i % step == 0
    ensures forall j: int :: Begins(j, step, window, n) && j < i + step ==> j <= i
  {
    forall j: int | i <= j < i + step && Begins(j, step, window, n)
      ensures j == i
    {
      NoneBetween(i, j, step);
    }
  }

  lemma NoneBetween(i: nat, j: nat, step: nat)
    requires step > 0 && i % step == 0 && j % step == 0 && i <= j < i + step
    ensures j == i
  {
    var a, b := i / step, j / step;
    assert i == step * a && j == step * b;
    var apart := b - a;
    assert step * apart == j - i;
    assert apart >= 1 ==> step * apart >= step;
    assert apart < 0 ==> step * apart < 0;
  }

  lemma NextMultiple(i: nat, step: nat)
    requires step > 0 && i % step == 0
    ensures (i + step) % step == 0
  {
    var next := i + step;
    var a, b, r := i / step, next / step, next % step;
    assert next == step * (a + 1);
    assert next == step * b + r;
    var ahead := a + 1 - b;
    assert step * ahead == r;
    assert ahead >= 1 ==> step * ahead >= step;
    assert ahead < 0 ==> step * ahead <= step * -1;
  }
}
