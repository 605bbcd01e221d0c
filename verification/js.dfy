/** JavaScript's value coercions as the components rely on them: truthiness,
    `||`, `isNaN`/`Number()`, `parseFloat`, `parseInt`, the ordering and
    arithmetic of numbers (with NaN and the infinities), `toFixed(2)` and
    `Math.round`. Finite numbers are exact reals: binary rounding, `-0`,
    exponent notation, hexadecimal literals and the text "Infinity" are not
    modelled. */
module Js {
  import opened Wrappers
  import opened Text

  /** A JavaScript number. */
  datatype Number = Fin(v: real) | NaN | Inf(negative: bool)

  /** A field value as the components receive it: absent, null, the text of
      an input, or a number decoded from a server response. Stored values are
      never NaN or infinite (JSON cannot carry them), so they are not here. */
  datatype JsVal = Undefined | Null | Str(s: string) | Num(x: real)

  /** `!!v` */
  predicate Truthy(v: JsVal) {
    match v
    case Undefined => false
    case Null => false
    case Str(s) => s != []
    case Num(x) => x != 0.0
  }

  predicate Nullish(v: JsVal) {
    v.Undefined? || v.Null?
  }

  /** `v === '' || v === null || v === undefined` */
  predicate IsEmptyInput(v: JsVal) {
    Nullish(v) || v == Str([])
  }

  /** `a || b` */
  function Or(a: JsVal, b: JsVal): (r: JsVal)
    ensures Truthy(a) ==> r == a
    ensures !Truthy(a) ==> r == b
  {
    if Truthy(a) then a else b
  }

  // ---------------------------------------------------------------------
  // Reading decimal text, one character at a time:
  //   space* sign? (digits ('.' digits?)? | '.' digits) space*

  /** The value of a decimal digit (0 for any other character). */
  function DigitValue(c: char): (r: nat)
    ensures r <= 9
  {
    if IsDigit(c) then c as int - '0' as int else 0
  }

  /** The value of the digits after a decimal point: 0.d1d2... */
  function Fraction(d: string): (r: real)
    ensures 0.0 <= r < 1.0
  {
    if |d| == 0 then 0.0 else (DigitValue(d[0]) as real + Fraction(d[1..])) / 10.0
  }

  function Signed(negative: bool, x: real): real {
    if negative then -x else x
  }

  /** How far a left-to-right reading of decimal text has got. */
  datatype Phase =
    | Lead                                            // white space only
    | Sign(negative: bool)                            // a sign, no digit yet
    | Whole(negative: bool, whole: nat)               // digits, no point
    | Point(negative: bool, whole: nat, digits: bool) // a point; were there digits before it
    | Frac(negative: bool, whole: nat, frac: string)  // digits after the point
    | Trail(done: Phase)                              // white space after a complete literal
    | Bad                                             // not a literal

  /** The phase holds a complete literal: digits, possibly with a point,
      or a point followed by digits. */
  predicate Complete(p: Phase) {
    p.Whole? || (p.Point? && p.digits) || p.Frac?
  }

  /** The literal read so far, if the phase holds a complete one. */
  function PhaseValue(p: Phase): (r: Number)
    ensures !r.Inf?
    ensures r.Fin? <==> Complete(p) || (p.Trail? && Complete(p.done))
  {
    match p
    case Whole(n, w) => Fin(Signed(n, w as real))
    case Point(n, w, d) => if d then Fin(Signed(n, w as real)) else NaN
    case Frac(n, w, f) => Fin(Signed(n, w as real + Fraction(f)))
    case Trail(q) => if Complete(q) then PhaseValue(q) else NaN
    case _ => NaN
  }

  /** The first digit or point of a literal. */
  function Start(negative: bool, c: char): Phase {
    if IsDigit(c) then Whole(negative, DigitValue(c))
    else if c == '.' then Point(negative, 0, false)
    else Bad
  }

  /** Reads one more character. */
  function Step(p: Phase, c: char): Phase {
    if IsSpace(c) then
      if p.Lead? || p.Trail? then p
      else if Complete(p) then Trail(p)
      else Bad
    else
      match p
      case Lead => if c == '+' || c == '-' then Sign(c == '-') else Start(false, c)
      case Sign(n) => Start(n, c)
      case Whole(n, w) =>
        if IsDigit(c) then Whole(n, 10 * w + DigitValue(c))
        else if c == '.' then Point(n, w, true)
        else Bad
      case Point(n, w, _) => if IsDigit(c) then Frac(n, w, [c]) else Bad
      case Frac(n, w, f) => if IsDigit(c) then Frac(n, w, f + [c]) else Bad
      case _ => Bad
  }

  /** `Number(text)`, reading on from phase p: the whole text must be one
      literal between white space, and white space alone is 0. */
  function ReadNumber(s: string, p: Phase): (r: Number)
    ensures !r.Inf?
    decreases |s|
  {
    if s == [] then (if p.Lead? then Fin(0.0) else PhaseValue(p))
    else ReadNumber(s[1..], Step(p, s[0]))
  }

  /** `parseFloat(text)`, reading on from phase p: the longest literal after
      leading white space, whatever follows it. */
  function ReadFloat(s: string, p: Phase): (r: Number)
    ensures !r.Inf?
    decreases |s|
  {
    if s == [] then PhaseValue(p)
    else
      var q := Step(p, s[0]);
      if q.Bad? || q.Trail? then PhaseValue(p) else ReadFloat(s[1..], q)
  }

  /** The integer a phase holds, if it is a run of digits. */
  function WholeValue(p: Phase): Option<int> {
    match p
    case Whole(n, w) => Some(if n then -(w as int) else w as int)
    case _ => None
  }

  /** `parseInt(text, 10)`, reading on from phase p: a sign and the run of
      digits after leading white space; None when there is no digit. */
  function ReadInt(s: string, p: Phase): Option<int>
    decreases |s|
  {
    if s == [] then WholeValue(p)
    else
      var q := Step(p, s[0]);
      if q.Lead? || q.Sign? || q.Whole? then ReadInt(s[1..], q) else WholeValue(p)
  }

  lemma {:induction false} ReadNumberFromBad(s: string)
    ensures ReadNumber(s, Bad) == NaN
    decreases |s|
  {
    if s != [] {
      ReadNumberFromBad(s[1..]);
    }
  }

  /** After a complete literal only white space may follow. */
  lemma {:induction false} ReadNumberFromTrail(s: string, q: Phase)
    ensures ReadNumber(s, Trail(q)) == if AllSpace(s) then PhaseValue(Trail(q)) else NaN
    decreases |s|
  {
    if s != [] {
      if IsSpace(s[0]) {
        ReadNumberFromTrail(s[1..], q);
        assert AllSpace(s) <==> AllSpace(s[1..]);
      } else {
        ReadNumberFromBad(s[1..]);
      }
    }
  }

  /** White space alone is 0 for `Number()` and NaN for `parseFloat` and
      `parseInt`. */
  lemma {:induction false} ReadBlank(s: string)
    requires AllSpace(s)
    ensures ReadNumber(s, Lead) == Fin(0.0)
    ensures ReadFloat(s, Lead) == NaN
    ensures ReadInt(s, Lead) == None
    decreases |s|
  {
    if s != [] {
      ReadBlank(s[1..]);
    }
  }

  /** Where `Number()` reads a number, `parseFloat` reads the same one. */
  lemma {:induction false} ReadFloatAgrees(s: string, p: Phase)
    requires !p.Trail? && !p.Bad?
    requires p.Lead? ==> !AllSpace(s)
    requires ReadNumber(s, p).Fin?
    ensures ReadFloat(s, p) == ReadNumber(s, p)
    decreases |s|
  {
    if s != [] {
      var q := Step(p, s[0]);
      if q.Bad? {
        ReadNumberFromBad(s[1..]);
      } else if q.Trail? {
        ReadNumberFromTrail(s[1..], q.done);
      } else {
        if q.Lead? {
          assert !AllSpace(s[1..]);
        }
        ReadFloatAgrees(s[1..], q);
      }
    }
  }

  /** Truncating a value that lies between d and d + 1 (or its negation)
      gives d (or -d). */
  lemma TruncOfSigned(d: nat, v: real, negative: bool)
    requires d as real <= v < d as real + 1.0
    ensures Trunc(Signed(negative, v)) == if negative then -(d as int) else d as int
  {
  }

  /** Once the point is read, the number is the digits before it plus a
      fraction below one. */
  lemma {:induction false} ReadNumberAfterPoint(s: string, p: Phase)
    requires p.Point? || p.Frac?
    requires p.Point? && s == [] ==> p.digits
    ensures ReadNumber(s, p).Fin? ==>
      Trunc(ReadNumber(s, p).v) == if p.negative then -(p.whole as int) else p.whole as int
    decreases |s|
  {
    var f := if p.Frac? then Fraction(p.frac) else 0.0;
    if p.Point? && !p.digits {
      assert PhaseValue(p) == NaN;
    } else {
      assert PhaseValue(p) == Fin(Signed(p.negative, p.whole as real + f));
      TruncOfSigned(p.whole, p.whole as real + f, p.negative);
    }
    if s != [] {
      var q := Step(p, s[0]);
      if q.Trail? {
        ReadNumberFromTrail(s[1..], q.done);
      } else if q.Bad? {
        ReadNumberFromBad(s[1..]);
      } else {
        ReadNumberAfterPoint(s[1..], q);
      }
    }
  }

  /** Where `Number()` reads a number and `parseInt` reads digits, the
      integer is the number truncated toward zero; where `parseInt` reads
      no digit at all (text such as ".5") the number truncates to zero. */
  lemma {:induction false} ReadIntAgrees(s: string, p: Phase)
    requires p.Lead? || p.Sign? || p.Whole?
    requires p.Lead? ==> !AllSpace(s)
    requires ReadNumber(s, p).Fin?
    ensures ReadInt(s, p).Some? ==> ReadInt(s, p).value == Trunc(ReadNumber(s, p).v)
    ensures ReadInt(s, p).None? ==> Trunc(ReadNumber(s, p).v) == 0
    decreases |s|
  {
    if p.Whole? {
      TruncOfSigned(p.whole, p.whole as real, p.negative);
    }
    if s != [] {
      var q := Step(p, s[0]);
      if q.Lead? || q.Sign? || q.Whole? {
        if q.Lead? {
          assert !AllSpace(s[1..]);
        }
        ReadIntAgrees(s[1..], q);
      } else if p.Whole? {
        if q.Trail? {
          ReadNumberFromTrail(s[1..], q.done);
        } else if q.Bad? {
          ReadNumberFromBad(s[1..]);
        } else {
          ReadNumberAfterPoint(s[1..], q);
        }
      } else if q.Point? && s[1..] != [] {
        ReadNumberAfterPoint(s[1..], q);
      } else if q.Bad? {
        ReadNumberFromBad(s[1..]);
      }
    }
  }

  /** A run of digits after digits keeps the literal whole. */
  lemma {:induction false} ReadDigitRun(s: string, n: bool, w: nat)
    requires AllDigits(s)
    ensures ReadNumber(s, Whole(n, w)).Fin? && ReadInt(s, Whole(n, w)).Some?
    decreases |s|
  {
    if s != [] {
      ReadDigitRun(s[1..], n, 10 * w + DigitValue(s[0]));
    }
  }

  /** Text made of digits only is a number for `isNaN` and an integer for
      `parseInt`. */
  lemma DigitsAreNumber(s: string)
    requires |s| > 0 && AllDigits(s)
    ensures !IsNaN(Str(s)) && ParseInt(Str(s)).Some?
  {
    ReadDigitRun(s[1..], false, DigitValue(s[0]));
  }

  // ---------------------------------------------------------------------
  // Coercions

  /** `parseFloat(v)` */
  function ParseFloat(v: JsVal): (r: Number)
    ensures !r.Inf?
    ensures v.Num? ==> r == Fin(v.x)
    ensures Nullish(v) ==> r == NaN
  {
    match v
    case Num(x) => Fin(x)
    case Str(s) => ReadFloat(s, Lead)
    case _ => NaN
  }

  /** `Number(v)`, the coercion `isNaN` applies. */
  function ToNumber(v: JsVal): (r: Number)
    ensures !r.Inf?
  {
    match v
    case Undefined => NaN
    case Null => Fin(0.0)
    case Num(x) => Fin(x)
    case Str(s) => ReadNumber(s, Lead)
  }

  /** `isNaN(v)` */
  predicate IsNaN(v: JsVal) {
    ToNumber(v).NaN?
  }

  /** `parseFloat` and `Number()` agree on every value `isNaN` accepts,
      except null and blank text. */
  lemma ParseFloatAgreesWithNumber(v: JsVal)
    requires !IsNaN(v) && !v.Null?
    requires v.Str? ==> !IsBlank(v.s)
    ensures ParseFloat(v) == ToNumber(v)
  {
    if v.Str? {
      BlankIffAllSpace(v.s);
      ReadFloatAgrees(v.s, Lead);
    }
  }

  /** A value that gets past `!v || isNaN(v)` and that `parseFloat` reads
      as the same number `isNaN` saw: truthy, numeric, not blank text. */
  predicate IsUsableNumber(v: JsVal) {
    Truthy(v) && !IsNaN(v) && !(v.Str? && IsBlank(v.s))
  }

  /** The number `isNaN` sees in a value it accepts. */
  function NumberValue(v: JsVal): real
    requires !IsNaN(v)
  {
    ToNumber(v).v
  }

  lemma UsableNumberParses(v: JsVal)
    requires IsUsableNumber(v)
    ensures ParseFloat(v) == Fin(NumberValue(v))
  {
    ParseFloatAgreesWithNumber(v);
  }

  /** Blank text is a number for `isNaN` (zero) but NaN for `parseFloat`
      and `parseInt`. */
  lemma BlankTextDiverges(s: string)
    requires IsBlank(s)
    ensures !IsNaN(Str(s)) && ToNumber(Str(s)) == Fin(0.0)
    ensures ParseFloat(Str(s)) == NaN
    ensures ParseInt(Str(s)) == None
  {
    BlankIffAllSpace(s);
    ReadBlank(s);
  }

  /** Truncation toward zero. */
  function Trunc(x: real): (r: int)
    ensures 0.0 <= x ==> r as real <= x < r as real + 1.0
    ensures x < 0.0 ==> r as real - 1.0 < x <= r as real
  {
    if x >= 0.0 then x.Floor else -((-x).Floor)
  }

  /** `parseInt(v)` in base 10; None is NaN. */
  function ParseInt(v: JsVal): (r: Option<int>)
    ensures v.Num? ==> r == Some(Trunc(v.x))
    ensures Nullish(v) ==> r == None
  {
    match v
    case Num(x) => Some(Trunc(x))
    case Str(s) => ReadInt(s, Lead)
    case _ => None
  }

  /** On text that `isNaN` accepts, `parseInt` reads either nothing (text
      such as ".5") or the number truncated toward zero. */
  lemma ParseIntAgreesWithNumber(s: string)
    requires !IsNaN(Str(s)) && !IsBlank(s)
    ensures ParseInt(Str(s)).Some? ==> ParseInt(Str(s)).value == Trunc(NumberValue(Str(s)))
    ensures ParseInt(Str(s)).None? ==> Trunc(NumberValue(Str(s))) == 0
  {
    BlankIffAllSpace(s);
    ReadIntAgrees(s, Lead);
  }

  /** An integer-valued number reads back as itself. */
  lemma IntegerReadsBack(k: int)
    ensures ParseInt(Num(k as real)) == Some(k) && IntOrZero(Num(k as real)) == k
  {
  }

  /** `parseFloat(v) || 0` */
  function FloatOrZero(v: JsVal): real {
    match ParseFloat(v)
    case Fin(x) => x
    case _ => 0.0
  }

  /** `parseInt(v) || 0` */
  function IntOrZero(v: JsVal): int {
    ParseInt(v).GetOr(0)
  }

  // ---------------------------------------------------------------------
  // Numbers

  /** `a < b`; every comparison with NaN is false. */
  predicate Lt(a: Number, b: Number) {
    match (a, b)
    case (Fin(x), Fin(y)) => x < y
    case (Inf(true), Fin(_)) => true
    case (Inf(true), Inf(false)) => true
    case (Fin(_), Inf(false)) => true
    case _ => false
  }

  /** `a <= b` */
  predicate Le(a: Number, b: Number) {
    Lt(a, b) || (a == b && !a.NaN?)
  }

  lemma LtTransitive(a: Number, b: Number, c: Number)
    requires Lt(a, b) && Lt(b, c)
    ensures Lt(a, c)
  {
  }

  function Add(a: Number, b: Number): Number {
    match (a, b)
    case (Fin(x), Fin(y)) => Fin(x + y)
    case (Inf(n), Fin(_)) => Inf(n)
    case (Fin(_), Inf(n)) => Inf(n)
    case (Inf(n), Inf(m)) => if n == m then Inf(n) else NaN
    case _ => NaN
  }

  function Neg(a: Number): Number {
    match a
    case Fin(x) => Fin(-x)
    case Inf(n) => Inf(!n)
    case NaN => NaN
  }

  function Sub(a: Number, b: Number): Number {
    Add(a, Neg(b))
  }

  function Mul(a: Number, b: Number): Number {
    match (a, b)
    case (Fin(x), Fin(y)) => Fin(x * y)
    case (Inf(n), Fin(y)) => if y == 0.0 then NaN else Inf(n != (y < 0.0))
    case (Fin(x), Inf(n)) => if x == 0.0 then NaN else Inf(n != (x < 0.0))
    case (Inf(n), Inf(m)) => Inf(n != m)
    case _ => NaN
  }

  function Div(a: Number, b: Number): Number {
    match (a, b)
    case (Fin(x), Fin(y)) =>
      if y != 0.0 then Fin(x / y)
      else if x == 0.0 then NaN
      else Inf(x < 0.0)
    case (Inf(n), Fin(y)) => Inf(n != (y < 0.0))
    case (Fin(_), Inf(_)) => Fin(0.0)
    case _ => NaN
  }

  /** `x + x * t / 100`, the tax-inclusive price in the number arithmetic. */
  function TaxedPrice(x: real, t: real): Number {
    Add(Fin(x), Div(Mul(Fin(x), Fin(t)), Fin(100.0)))
  }

  /** On finite numbers the tax-inclusive price is the exact one. */
  lemma TaxedPriceOfFinite(x: real, t: real)
    ensures TaxedPrice(x, t) == Fin(x + x * t / 100.0)
  {
  }

  /** Division by a non-zero finite number keeps finite values finite. */
  lemma DivFinite(x: real, y: real)
    requires y != 0.0
    ensures Div(Fin(x), Fin(y)) == Fin(x / y)
  {
  }

  /** Division of a non-zero finite number by zero is infinite. */
  lemma DivByZero(x: real)
    ensures x != 0.0 ==> Div(Fin(x), Fin(0.0)).Inf?
    ensures x == 0.0 ==> Div(Fin(x), Fin(0.0)) == NaN
  {
  }

  // ---------------------------------------------------------------------
  // Rounding

  /** `parseFloat(x.toFixed(2))` on a finite x: the nearest multiple of 1/100,
      ties away from zero. */
  function Round2(x: real): (r: real)
    ensures (r * 100.0).Floor as real == r * 100.0
    ensures -0.005 <= r - x <= 0.005
    ensures x >= 0.0 ==> r >= 0.0
    ensures x <= 0.0 ==> r <= 0.0
  {
    if x >= 0.0 then
      var k := (x * 100.0 + 0.5).Floor;
      k as real / 100.0
    else
      var k := ((-x) * 100.0 + 0.5).Floor;
      assert -(k as real / 100.0) == (-k) as real / 100.0;
      -(k as real / 100.0)
  }

  /** `parseFloat(n.toFixed(2))` on any number: NaN and the infinities
      survive the round trip through text. */
  function ToFixed2(n: Number): Number {
    match n
    case Fin(x) => Fin(Round2(x))
    case _ => n
  }

  /** `Math.round(total / n)` for an integer total and a positive count:
      the nearest integer, halves rounded up. */
  function RoundRatio(total: int, n: nat): (r: int)
    requires n > 0
    ensures r as real <= total as real / n as real + 0.5 < r as real + 1.0
  {
    (total as real / n as real + 0.5).Floor
  }
}
