/** LoRa time on air as an exact rational, rounded up. */
module Airtime {
  import opened Octets

  datatype Status = OK | INVALID_ARGUMENT | UNSUPPORTED | OVERFLOW | STRUCT | RAISED

  const LDRO_OFF := 0
  const LDRO_ON := 1
  const LDRO_AUTO := 2
  const LDRO_AUTO_NUM := 100_000
  const LDRO_AUTO_DEN := 1638
  const U32_MAX := 0xFFFF_FFFF
  const MAX_NUMERATOR := 270152704

  datatype Input = Input(
    sf: int, cr: int, headerImplicit: int, crcOn: int, ldro: int,
    payload: int, preamble: int, bw: int, reserved: int)

  datatype Outcome = Outcome(
    status: Status, us: int, symbols: int, tsym: int, numerator: int, ms: int, ldro: int)

  function Just(status: Status): Outcome {
    Outcome(status, 0, 0, 0, 0, 0, 0)
  }

  predicate ClosedBandwidth(bw: int) {
    bw in {7812, 10417, 15625, 20833, 31250, 41667, 62500, 125000, 250000, 500000}
  }

  /** The ceiling of an exact fraction. */
  function Ceiling(n: int, d: int): int
    requires d > 0
  {
    -((-n) as real / d as real).Floor
  }

  // ----- low data rate optimisation

  /** The symbol lasts 16.38 ms or longer, as a fraction and in whole numbers. */
  predicate LongSymbol(sf: nat, bw: int)
    requires bw > 0
  {
    Pow2(sf) as real / bw as real >= 1638.0 / 100_000.0
  }

  predicate LongSymbolScaled(sf: nat, bw: int) {
    Pow2(sf) * LDRO_AUTO_NUM >= bw * LDRO_AUTO_DEN
  }

  /** The effective setting; the source raises when its two forms of the automatic rule disagree. */
  datatype Resolved = Effective(de: int) | Refused | Mismatch

  function ResolveDe(sf: nat, bw: int, ldro: int): Resolved
    requires bw > 0
  {
    if ldro == LDRO_OFF then Effective(0)
    else if ldro == LDRO_ON then Effective(1)
    else if ldro == LDRO_AUTO then
      if LongSymbol(sf, bw) != LongSymbolScaled(sf, bw) then Mismatch
      else Effective(if LongSymbol(sf, bw) then 1 else 0)
    else Refused
  }

  /** The fraction and the whole-number form of the automatic rule always agree. */
  lemma FormsAgree(sf: nat, bw: int)
    requires bw > 0
    ensures LongSymbol(sf, bw) <==> LongSymbolScaled(sf, bw)
  {
    var p, b := Pow2(sf) as real, bw as real;
    RatioAgainst(p, b, 1638.0, 100_000.0);
    assert (Pow2(sf) * LDRO_AUTO_NUM) as real == p * 100_000.0;
    assert (bw * LDRO_AUTO_DEN) as real == b * 1638.0;
  }

  lemma RatioAgainst(a: real, b: real, c: real, d: real)
    requires b > 0.0 && d > 0.0
    ensures a / b >= c / d <==> a * d >= c * b
  {
    var x, y := a / b, c / d;
    assert a == x * b && c == y * d;
    var e := b * d;
    assert e > 0.0;
    assert a * d == x * e by { assert x * b * d == x * (b * d); }
    assert c * b == y * e by { assert y * d * b == y * (b * d); }
    if x >= y {
      ScaledOrder(x, y, e);
    } else {
      ScaledStrict(y, x, e);
    }
  }

  lemma ScaledOrder(x: real, y: real, e: real)
    requires x >= y && e > 0.0
    ensures x * e >= y * e
  {
  }

  lemma ScaledStrict(x: real, y: real, e: real)
    requires x > y && e > 0.0
    ensures x * e > y * e
  {
  }

  // ----- the numerator

  function Explicit(implicit: int): int {
    if implicit != 0 then 0 else 20
  }

  function Bits(sf: int, pl: int, crc: int, implicit: int): int {
    pl * 8 + (if crc != 0 then 16 else 0) - 4 * sf + Explicit(implicit) + (if sf <= 6 then 0 else 8)
  }

  function Divisor(sf: int, de: int): int {
    if sf > 6 && de != 0 then 4 * (sf - 2) else 4 * sf
  }

  /** Whole code words for the payload; a negative bit count asks for none. */
  function CodeWords(num: int, den: int): int
    requires den > 0
  {
    ((if num < 0 then 0 else num) + den - 1) / den
  }

  function Symbols(sf: int, words: int, cr: int, preamble: int): int {
    words * (cr + 4) + preamble + 12 + (if sf <= 6 then 2 else 0)
  }

  /** The numerator and the payload symbols, or nothing where the source raises an overflow. */
  function ToaNumerator(sf: int, pl: int, crc: int, implicit: int, de: int, cr: int, preamble: int): Option<(int, int)>
    requires sf >= 2
  {
    var den := Divisor(sf, de);
    if den <= 0 then None
    else
      var words := CodeWords(Bits(sf, pl, crc, implicit), den);
      var u := (4 * Symbols(sf, words, cr, preamble) + 1) * Pow2(sf - 2);
      if u < 0 then None else Some((u, 8 + words * (cr + 4)))
  }

  function Compute(i: Input): Outcome {
    if i.reserved != 0 then Just(STRUCT)
    else if !(5 <= i.sf <= 12) then Just(INVALID_ARGUMENT)
    else if !(1 <= i.cr <= 4) then Just(INVALID_ARGUMENT)
    else if i.headerImplicit != 0 && i.headerImplicit != 1 then Just(INVALID_ARGUMENT)
    else if i.crcOn != 0 && i.crcOn != 1 then Just(INVALID_ARGUMENT)
    else if !(6 <= i.preamble <= 65535) then Just(INVALID_ARGUMENT)
    else if !(0 <= i.payload <= 255) then Just(INVALID_ARGUMENT)
    else if !ClosedBandwidth(i.bw) then Just(UNSUPPORTED)
    else
      match ResolveDe(i.sf, i.bw, i.ldro)
      case Refused => Just(INVALID_ARGUMENT)
      case Mismatch => Just(RAISED)
      case Effective(de) =>
        match ToaNumerator(i.sf, i.payload, i.crcOn, i.headerImplicit, de, i.cr, i.preamble)
        case None => Just(OVERFLOW)
        case Some((u, symbols)) => Finish(i, de, u, symbols)
  }

  function Finish(i: Input, de: int, u: int, symbols: int): Outcome
    requires i.bw > 0 && i.sf >= 0
  {
    var ms := Ceiling(u * 1000, i.bw);
    var us := Ceiling(u * 1_000_000, i.bw);
    if us < 0 || us > U32_MAX then
      Outcome(OVERFLOW, 0, 0, 0, u, if 0 <= ms <= 0x8000_0000_0000_0000 then ms else 0, de)
    else Outcome(OK, us, symbols, Ceiling(Pow2(i.sf) * 1_000_000, i.bw), u, ms, de)
  }

  // ----- valid inputs

  predicate Valid(i: Input) {
    && i.reserved == 0 && 5 <= i.sf <= 12 && 1 <= i.cr <= 4
    && 0 <= i.headerImplicit <= 1 && 0 <= i.crcOn <= 1
    && 6 <= i.preamble <= 65535 && 0 <= i.payload <= 255
    && ClosedBandwidth(i.bw) && 0 <= i.ldro <= 2
  }

  function De(i: Input): (de: int)
    ensures 0 <= de <= 1
  {
    if i.ldro == LDRO_OFF then 0
    else if i.ldro == LDRO_ON then 1
    else if i.sf >= 0 && LongSymbolScaled(i.sf, i.bw) then 1 else 0
  }

  function Words(i: Input, de: int): int
    requires i.sf >= 5
  {
    CodeWords(Bits(i.sf, i.payload, i.crcOn, i.headerImplicit), Divisor(i.sf, de))
  }

  /** The numerator of a valid input under a given optimisation. */
  function U(i: Input, de: int): int
    requires i.sf >= 5
  {
    (4 * Symbols(i.sf, Words(i, de), i.cr, i.preamble) + 1) * Pow2(i.sf - 2)
  }

  lemma WordsAtLeastNone(num: int, den: int)
    requires den > 0
    ensures CodeWords(num, den) >= 0
    ensures num <= CodeWords(num, den) * den
    ensures num > 0 ==> (CodeWords(num, den) - 1) * den < num
    ensures num <= 0 ==> CodeWords(num, den) == 0
  {
    var n := if num < 0 then 0 else num;
    var q := CodeWords(num, den);
    var r := (n + den - 1) % den;
    assert q * den == n + den - 1 - r;
    assert (q - 1) * den == q * den - den;
    if num <= 0 {
      SmallQuotient(den - 1, den);
    }
  }

  lemma SmallQuotient(a: int, d: int)
    requires 0 <= a < d
    ensures a / d == 0
  {
  }

  lemma PositiveProduct(a: int, b: int)
    requires a >= 0 && b >= 0
    ensures a * b >= 0
  {
  }

  lemma ProductMonotone(a: int, b: int, c: int, d: int)
    requires 0 <= a <= b && 0 <= c <= d
    ensures a * c <= b * d
  {
    PositiveProduct(b - a, c);
    PositiveProduct(b, d - c);
    assert (b - a) * c + b * (d - c) == b * d - a * c;
  }

  /** A valid input passes every guard, and neither overflow branch is ever taken. */
  lemma ValidComputes(i: Input)
    requires Valid(i)
    ensures ResolveDe(i.sf, i.bw, i.ldro) == Effective(De(i))
    ensures Words(i, De(i)) >= 0 && U(i, De(i)) > 0
    ensures ToaNumerator(i.sf, i.payload, i.crcOn, i.headerImplicit, De(i), i.cr, i.preamble) ==
      Some((U(i, De(i)), 8 + Words(i, De(i)) * (i.cr + 4)))
    ensures Compute(i) == Finish(i, De(i), U(i, De(i)), 8 + Words(i, De(i)) * (i.cr + 4))
  {
    hide Pow2, LongSymbol, LongSymbolScaled, CodeWords, Finish;
    FormsAgree(i.sf, i.bw);
    Positive(i, De(i));
  }

  lemma Positive(i: Input, de: int)
    requires Valid(i)
    ensures Words(i, de) >= 0 && U(i, de) > 0
  {
    hide Pow2, CodeWords;
    WordsAtLeastNone(Bits(i.sf, i.payload, i.crcOn, i.headerImplicit), Divisor(i.sf, de));
    PositiveProduct(Words(i, de), i.cr + 4);
    ProductPositive(4 * Symbols(i.sf, Words(i, de), i.cr, i.preamble) + 1, Pow2(i.sf - 2));
  }

  lemma ProductPositive(a: int, b: int)
    requires a > 0 && b > 0
    ensures a * b > 0
  {
  }

  /** The status of every input. */
  lemma StatusIff(i: Input)
    ensures Compute(i).status == STRUCT <==> i.reserved != 0
    ensures Compute(i).status != RAISED
    ensures Compute(i).status in {OK, OVERFLOW} <==> Valid(i)
    ensures Valid(i) ==> (Compute(i).status == OK <==> U(i, De(i)) * 1_000_000 <= U32_MAX * i.bw)
    ensures Compute(i).status == UNSUPPORTED <==>
      && Valid(i.(bw := 125000, ldro := 0)) && !ClosedBandwidth(i.bw)
  {
    hide Finish, ToaNumerator, LongSymbol, LongSymbolScaled, U, Words, De;
    if Valid(i) {
      ValidComputes(i);
      FinishStatus(i, De(i), U(i, De(i)), 8 + Words(i, De(i)) * (i.cr + 4));
    } else if Valid(i.(bw := 125000, ldro := 0)) && ClosedBandwidth(i.bw) {
      assert ResolveDe(i.sf, i.bw, i.ldro) == Refused;
    }
  }

  lemma FinishStatus(i: Input, de: int, u: int, symbols: int)
    requires i.bw > 0 && i.sf >= 0 && u > 0
    ensures Finish(i, de, u, symbols).status in {OK, OVERFLOW}
    ensures Finish(i, de, u, symbols).status == OK <==> u * 1_000_000 <= U32_MAX * i.bw
  {
    hide Ceiling, Pow2;
    CeilingMore(u * 1_000_000, i.bw, 0);
    if u * 1_000_000 <= U32_MAX * i.bw {
      CeilingLeast(u * 1_000_000, i.bw, U32_MAX);
    } else {
      CeilingMore(u * 1_000_000, i.bw, U32_MAX);
    }
  }

  // ----- rounding up

  /** The ceiling is the one whole number within one above the fraction. */
  lemma CeilingIs(n: int, d: int)
    requires d > 0
    ensures (Ceiling(n, d) - 1) * d < n <= Ceiling(n, d) * d
  {
    FloorIs(-n, d);
    var f := ((-n) as real / d as real).Floor;
    NegatedProduct(f, d);
    NegatedProduct(f + 1, d);
    assert Ceiling(n, d) == -f && Ceiling(n, d) - 1 == -(f + 1);
  }

  lemma NegatedProduct(a: int, d: int)
    ensures -a * d == -(a * d)
  {
  }

  function Times(a: real, b: real): real {
    a * b
  }

  lemma FloorIs(n: int, d: int)
    requires d > 0
    ensures var f := (n as real / d as real).Floor;
      f * d <= n < (f + 1) * d
  {
    Undivided(n as real, d as real);
    FloorOf(n as real / d as real, n, d);
  }

  lemma FloorOf(x: real, n: int, d: int)
    requires d > 0 && Times(x, d as real) == n as real
    ensures x.Floor * d <= n < (x.Floor + 1) * d
  {
    hide Times;
    FloorBounds(x);
    var lo, hi := x.Floor, x.Floor + 1;
    Scaled(lo as real, x, hi as real, d as real);
    CastProduct(lo, d);
    CastProduct(hi, d);
    CastOrder(lo * d, n);
    CastOrder(hi * d, n);
    CastOrder(n, hi * d);
  }

  lemma FloorBounds(x: real)
    ensures x.Floor as real <= x < (x.Floor + 1) as real
  {
  }

  lemma Scaled(lo: real, x: real, hi: real, e: real)
    requires lo <= x < hi && e > 0.0
    ensures Times(lo, e) <= Times(x, e) < Times(hi, e)
  {
    ScaledOrder(x, lo, e);
    ScaledStrict(hi, x, e);
  }

  lemma CastOrder(a: int, b: int)
    ensures a as real <= b as real <==> a <= b
  {
  }

  lemma Undivided(a: real, b: real)
    requires b > 0.0
    ensures Times(a / b, b) == a
  {
  }

  lemma CastProduct(a: int, b: int)
    ensures (a * b) as real == Times(a as real, b as real)
  {
  }

  lemma QuotientOrder(a: int, b: int, d: int)
    requires d > 0 && a * d < b * d
    ensures a < b
  {
  }

  /** Anything that covers the fraction is at least the ceiling. */
  lemma CeilingLeast(n: int, d: int, q: int)
    requires d > 0 && n <= q * d
    ensures Ceiling(n, d) <= q
  {
    hide Ceiling;
    CeilingIs(n, d);
    QuotientOrder(Ceiling(n, d) - 1, q, d);
  }

  lemma CeilingMore(n: int, d: int, q: int)
    requires d > 0 && q * d < n
    ensures q < Ceiling(n, d)
  {
    hide Ceiling;
    CeilingIs(n, d);
    QuotientOrder(q, Ceiling(n, d), d);
  }

  /** More over less is no smaller, rounded up. */
  lemma CeilingMonotone(n: int, d: int, n': int, d': int)
    requires 0 <= n <= n' && d >= d' > 0
    ensures Ceiling(n, d) <= Ceiling(n', d')
  {
    hide Ceiling;
    CeilingIs(n', d');
    var q := Ceiling(n', d');
    QuotientOrder(-1, q, d');
    ProductMonotone(q, q, d', d);
    CeilingLeast(n, d, q);
  }

  /** Rounding up to microseconds first and to milliseconds afterwards loses nothing. */
  lemma CeilingTwice(u: int, bw: int)
    requires bw > 0
    ensures Ceiling(u * 1000, bw) == Ceiling(Ceiling(u * 1_000_000, bw), 1000)
  {
    hide Ceiling;
    var ms, us := Ceiling(u * 1000, bw), Ceiling(u * 1_000_000, bw);
    CeilingIs(u * 1000, bw);
    assert (ms * bw) * 1000 == (ms * 1000) * bw && ((ms - 1) * bw) * 1000 == ((ms - 1) * 1000) * bw;
    CeilingLeast(u * 1_000_000, bw, ms * 1000);
    CeilingMore(u * 1_000_000, bw, (ms - 1) * 1000);
    CeilingLeast(us, 1000, ms);
    CeilingMore(us, 1000, ms - 1);
  }

  /** What an accepted input reports. */
  lemma ReportIsExact(i: Input)
    requires Compute(i).status == OK
    ensures var r := Compute(i);
      && (r.us - 1) * i.bw < r.numerator * 1_000_000 <= r.us * i.bw
      && r.ms == Ceiling(r.us, 1000)
      && (r.tsym - 1) * i.bw < Pow2(i.sf) * 1_000_000 <= r.tsym * i.bw
      && 0 < r.us <= U32_MAX
  {
    hide Ceiling, Pow2, ResolveDe, ToaNumerator;
    StatusIff(i);
    ValidComputes(i);
    var u := U(i, De(i));
    CeilingIs(u * 1_000_000, i.bw);
    CeilingIs(Pow2(i.sf) * 1_000_000, i.bw);
    CeilingTwice(u, i.bw);
    CeilingMore(u * 1_000_000, i.bw, 0);
  }

  // ----- the published formula

  /**
   The least number of code words that carry the payload: a word carries four bits per bit of
   the spreading factor, two less per symbol when the optimisation counts.
   */
  predicate FewestWords(i: Input, optimised: int, n: int) {
    var perWord := 4 * (if i.sf >= 7 then i.sf - 2 * optimised else i.sf);
    var bits := 8 * i.payload + 16 * i.crcOn - 4 * i.sf + (if i.sf >= 7 then 8 else 0)
      + (if i.headerImplicit == 0 then 20 else 0);
    && n >= 0 && n * perWord >= bits
    && (n > 0 ==> (n - 1) * perWord < bits)
  }

  /** Symbols of the preamble and its synchronisation, and of the payload, each of two to the spreading factor chips. */
  predicate OnAir(i: Input, r: Outcome, n: int)
    requires i.sf >= 0
  {
    && FewestWords(i, r.ldro, n)
    && r.numerator as real ==
         ((i.preamble + 8 + n * (i.cr + 4)) as real + (if i.sf <= 6 then 6.25 else 4.25)) * Pow2(i.sf) as real
    && (r.status == OK ==> r.symbols == 8 + n * (i.cr + 4))
  }

  lemma QuarterChips(s: int, x: int, e: real, p: int)
    requires 4.0 * (x as real + e) == (4 * s + 1) as real
    ensures ((4 * s + 1) * p) as real == (x as real + e) * (4 * p) as real
  {
    hide Times;
    CastProduct(4 * s + 1, p);
    var f := x as real + e;
    assert Times((4 * s + 1) as real, p as real) == f * (4 * p) as real by { FourfoldMoves(f, p as real); }
  }

  lemma FourfoldMoves(f: real, p: real)
    ensures Times(4.0 * f, p) == f * (4.0 * p)
  {
  }

  lemma WordsAreFewest(i: Input, de: int)
    requires Valid(i) && 0 <= de <= 1
    ensures FewestWords(i, de, Words(i, de))
  {
    hide CodeWords;
    WordsAtLeastNone(Bits(i.sf, i.payload, i.crcOn, i.headerImplicit), Divisor(i.sf, de));
  }

  lemma NumeratorIsChips(i: Input, de: int)
    requires Valid(i) && 0 <= de <= 1
    ensures U(i, de) as real ==
      ((i.preamble + 8 + Words(i, de) * (i.cr + 4)) as real + (if i.sf <= 6 then 6.25 else 4.25)) * Pow2(i.sf) as real
  {
    hide CodeWords, Words;
    var s := Symbols(i.sf, Words(i, de), i.cr, i.preamble);
    var x := i.preamble + 8 + Words(i, de) * (i.cr + 4);
    assert s == x + (if i.sf <= 6 then 6 else 4);
    assert Pow2(i.sf) == 2 * Pow2(i.sf - 1) == 4 * Pow2(i.sf - 2);
    hide Pow2, Symbols;
    QuarterChips(s, x, if i.sf <= 6 then 6.25 else 4.25, Pow2(i.sf - 2));
  }

  lemma FinishReports(i: Input, de: int, u: int, symbols: int)
    requires i.bw > 0 && i.sf >= 0
    ensures var r := Finish(i, de, u, symbols);
      r.numerator == u && r.ldro == de && (r.status == OK ==> r.symbols == symbols)
  {
    hide Ceiling, Pow2;
  }

  /** The optimisation that counts: on, or automatic and the symbol lasts 16.38 ms or longer. */
  lemma OptimisationIs(i: Input)
    requires Valid(i)
    ensures De(i) == 1 <==> i.ldro == 1 || (i.ldro == 2 && Pow2(i.sf) as real / i.bw as real >= 0.01638)
  {
    FormsAgree(i.sf, i.bw);
    assert 1638.0 / 100_000.0 == 0.01638;
    hide Pow2, LongSymbolScaled;
  }

  /** What a valid input reports is the time on air of the published formula, in chips of the bandwidth. */
  lemma ReportIsTimeOnAir(i: Input)
    requires Valid(i)
    ensures exists n :: OnAir(i, Compute(i), n)
    ensures Compute(i).ldro == 1 <==> i.ldro == 1 || (i.ldro == 2 && Pow2(i.sf) as real / i.bw as real >= 0.01638)
    ensures Compute(i).ldro in {0, 1}
  {
    hide Pow2, U, Words, De, ResolveDe, ToaNumerator, Finish, Compute, FewestWords;
    ValidComputes(i);
    OptimisationIs(i);
    WordsAreFewest(i, De(i));
    NumeratorIsChips(i, De(i));
    FinishReports(i, De(i), U(i, De(i)), 8 + Words(i, De(i)) * (i.cr + 4));
    assert OnAir(i, Compute(i), Words(i, De(i)));
  }

  // ----- the spreading factor

  lemma TwiceAndOne(c: int, d: int)
    ensures (2 * c + 1) * d == c * (2 * d) + d
  {
  }

  lemma WordsHalve(num: int, den: int, num': int, den': int)
    requires den >= 4 && 0 < den' <= den + 4 && den' <= 2 * den && num <= num' + 4
    ensures CodeWords(num, den) <= 2 * CodeWords(num', den') + 1
  {
    hide CodeWords;
    WordsAtLeastNone(num, den);
    WordsAtLeastNone(num', den');
    var c, c' := CodeWords(num, den), CodeWords(num', den');
    ProductMonotone(c', c', den', 2 * den);
    TwiceAndOne(c', den);
    if c > 2 * c' + 1 && num > 0 {
      QuotientOrder(c - 1, 2 * c' + 1, den);
    }
  }

  lemma SymbolsHalve(sf: int, c: int, c': int, cr: int, preamble: int)
    requires 1 <= cr <= 4 && preamble >= 6 && 0 <= c <= 2 * c' + 1
    ensures Symbols(sf, c, cr, preamble) <= 2 * Symbols(sf + 1, c', cr, preamble)
  {
    var k := cr + 4;
    PositiveProduct(2 * c' + 1 - c, k);
    assert (2 * c' + 1 - c) * k == 2 * (c' * k) + k - c * k;
  }

  lemma NextFactor(i: Input, de: int, de': int)
    requires Valid(i) && i.sf <= 11 && 0 <= de <= de' <= 1
    ensures U(i, de) < U(i.(sf := i.sf + 1), de')
  {
    hide CodeWords, Symbols;
    var j := i.(sf := i.sf + 1);
    var num, num' := Bits(i.sf, i.payload, i.crcOn, i.headerImplicit), Bits(j.sf, j.payload, j.crcOn, j.headerImplicit);
    WordsHalve(num, Divisor(i.sf, de), num', Divisor(j.sf, de'));
    Positive(i, de);
    SymbolsHalve(i.sf, Words(i, de), Words(j, de'), i.cr, i.preamble);
    var s, s', p := Symbols(i.sf, Words(i, de), i.cr, i.preamble), Symbols(j.sf, Words(j, de'), j.cr, j.preamble), Pow2(i.sf - 2);
    assert Pow2(j.sf - 2) == 2 * p;
    hide Pow2, Bits, Divisor, Words;
    ProductPositive(2 * (4 * s' + 1) - (4 * s + 1), p);
    assert (2 * (4 * s' + 1) - (4 * s + 1)) * p == (4 * s' + 1) * (2 * p) - (4 * s + 1) * p;
  }

  lemma AutoGrows(i: Input, j: Input)
    requires Valid(i) && j == i.(sf := i.sf + 1)
    ensures De(i) <= De(j)
  {
    assert Pow2(j.sf) == 2 * Pow2(i.sf);
    hide Pow2;
  }

  /** A larger spreading factor is strictly slower, whatever the optimisation setting. */
  lemma {:induction false} NumeratorIncreases(i: Input, sf: int)
    requires Valid(i) && i.sf < sf <= 12
    ensures U(i, De(i)) < U(i.(sf := sf), De(i.(sf := sf)))
    decreases sf - i.sf
  {
    hide U, Pow2, De;
    var j := i.(sf := i.sf + 1);
    AutoGrows(i, j);
    NextFactor(i, De(i), De(j));
    if sf > j.sf {
      NumeratorIncreases(j, sf);
    }
  }

  lemma MaxWords(num: int, den: int)
    requires den >= 40 && num <= 2036
    ensures CodeWords(num, den) <= 51
  {
    hide CodeWords;
    WordsAtLeastNone(num, den);
    if num > 0 {
      QuotientOrder(CodeWords(num, den) - 1, 51, den);
    }
  }

  lemma LargestFactor(i: Input, de: int)
    requires Valid(i) && i.sf == 12
    ensures U(i, de) <= MAX_NUMERATOR
  {
    hide CodeWords;
    MaxWords(Bits(12, i.payload, i.crcOn, i.headerImplicit), Divisor(12, de));
    Positive(i, de);
    var c := Words(i, de);
    hide Words;
    ProductMonotone(c, 51, i.cr + 4, 8);
    Kilo();
    var s := Symbols(12, c, i.cr, i.preamble);
    assert s <= 65955;
    hide Pow2;
    assert U(i, de) == (4 * s + 1) * 1024;
  }

  lemma Kilo()
    ensures Pow2(10) == 1024
  {
    assert Pow2(3) == 8;
    assert Pow2(6) == 64;
    assert Pow2(8) == 256;
  }

  /** The numerator has a bound that is attained, and its microseconds fit 63 bits. */
  lemma NumeratorBound(i: Input)
    requires Valid(i)
    ensures 0 < U(i, De(i)) <= MAX_NUMERATOR
    ensures U(i, De(i)) * 1_000_000 < 0x8000_0000_0000_0000
  {
    hide U, De;
    Positive(i, De(i));
    var j := i.(sf := 12);
    if i.sf < 12 {
      NumeratorIncreases(i, 12);
    }
    LargestFactor(j, De(j));
  }

  /** The bound is attained at the longest legal frame, which does not fit 32 bits of microseconds. */
  lemma LongestFrame()
    ensures var r := Compute(Input(12, 4, 0, 1, LDRO_ON, 255, 65535, 7812, 0));
      r.status == OVERFLOW && r.numerator == MAX_NUMERATOR && r.ms == 34581760
  {
    hide Ceiling, ToaNumerator, Pow2;
    var i := Input(12, 4, 0, 1, LDRO_ON, 255, 65535, 7812, 0);
    ValidComputes(i);
    Kilo();
    assert Words(i, 1) == 51;
    assert U(i, 1) == MAX_NUMERATOR;
    CeilingLeast(MAX_NUMERATOR * 1000, 7812, 34581760);
    CeilingMore(MAX_NUMERATOR * 1000, 7812, 34581759);
    CeilingMore(MAX_NUMERATOR * 1_000_000, 7812, U32_MAX);
  }

  // ----- the optimisation

  lemma WordsMonotone(num: int, den: int, num': int, den': int)
    requires num <= num' && den >= den' > 0
    ensures CodeWords(num, den) <= CodeWords(num', den')
  {
    hide CodeWords;
    WordsAtLeastNone(num, den);
    WordsAtLeastNone(num', den');
    var c, c' := CodeWords(num, den), CodeWords(num', den');
    ProductMonotone(c', c', den', den);
    if c > c' && num > 0 {
      QuotientOrder(c - 1, c', den);
    }
  }

  /** The optimisation changes nothing at SF5 and SF6 and never shortens a frame from SF7 on. */
  lemma OptimisationNeverShortens(i: Input)
    requires Valid(i)
    ensures i.sf <= 6 ==> U(i, 0) == U(i, 1)
    ensures U(i, 0) <= U(i, 1)
  {
    hide CodeWords, Pow2;
    var num := Bits(i.sf, i.payload, i.crcOn, i.headerImplicit);
    WordsMonotone(num, Divisor(i.sf, 0), num, Divisor(i.sf, 1));
    NumeratorMonotone(i, i, 0, 1);
  }

  /** One frame asks for no more air than another: less to send, sent no slower. */
  predicate Lighter(a: Input, b: Input) {
    && a.payload <= b.payload && a.preamble <= b.preamble && a.cr <= b.cr
    && a.crcOn <= b.crcOn && a.headerImplicit >= b.headerImplicit
    && a.sf <= b.sf && a.bw >= b.bw
    && (a.ldro == b.ldro || a.ldro == LDRO_OFF || b.ldro == LDRO_ON)
  }

  lemma NumeratorMonotone(a: Input, b: Input, da: int, db: int)
    requires Valid(a) && Valid(b) && Lighter(a, b) && a.sf == b.sf && 0 <= da <= db <= 1
    ensures U(a, da) <= U(b, db)
  {
    hide CodeWords, Pow2;
    WordsMonotone(Bits(a.sf, a.payload, a.crcOn, a.headerImplicit), Divisor(a.sf, da),
                  Bits(b.sf, b.payload, b.crcOn, b.headerImplicit), Divisor(b.sf, db));
    Positive(a, da);
    var c, c', p := Words(a, da), Words(b, db), Pow2(a.sf - 2);
    hide Words, Bits, Divisor;
    ProductMonotone(c, c', a.cr + 4, b.cr + 4);
    var s, s' := Symbols(a.sf, c, a.cr, a.preamble), Symbols(b.sf, c', b.cr, b.preamble);
    hide Symbols, U;
    PositiveProduct(c, a.cr + 4);
    ProductMonotone(4 * s + 1, 4 * s' + 1, p, p);
  }

  lemma DeMonotone(a: Input, b: Input)
    requires Valid(a) && Valid(b) && Lighter(a, b) && a.sf == b.sf
    ensures De(a) <= De(b)
  {
    hide Pow2;
  }

  /** A lighter frame has no larger a numerator. */
  lemma LighterNumerator(a: Input, b: Input)
    requires Valid(a) && Valid(b) && Lighter(a, b)
    ensures U(a, De(a)) <= U(b, De(b))
  {
    hide U, De;
    var mid := a.(sf := b.sf);
    if a.sf < b.sf {
      NumeratorIncreases(a, b.sf);
    }
    DeMonotone(mid, b);
    NumeratorMonotone(mid, b, De(mid), De(b));
  }

  /** A frame lighter than an accepted one is accepted, and takes no longer. */
  lemma LighterIsAccepted(a: Input, b: Input)
    requires Valid(a) && Lighter(a, b) && Compute(b).status == OK
    ensures Compute(a).status == OK
    ensures Compute(a).us <= Compute(b).us && Compute(a).ms <= Compute(b).ms
  {
    hide Ceiling, Pow2, U, De, Words, ToaNumerator, ResolveDe, ClosedBandwidth;
    StatusIff(b);
    ValidComputes(a);
    ValidComputes(b);
    LighterNumerator(a, b);
    BandwidthPositive(a);
    BandwidthPositive(b);
    var u, u' := U(a, De(a)), U(b, De(b));
    CeilingMonotone(u * 1_000_000, a.bw, u' * 1_000_000, b.bw);
    CeilingMonotone(u * 1000, a.bw, u' * 1000, b.bw);
    CeilingMore(u * 1_000_000, a.bw, 0);
  }

  lemma BandwidthPositive(i: Input)
    requires Valid(i)
    ensures i.bw > 0
  {
  }
}
