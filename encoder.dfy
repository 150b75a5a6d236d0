/**
 * The command encoder of the control window: the 1..9 speed scale and its PWM byte,
 * the one-letter motion codes, the ASCII frame `<code><pwm>` and the per-block delay.
 * Python's float arithmetic is modelled with exact reals: every quotient that occurs
 * ((vel-1)/8 and deg/90 for the reachable values) is exact in binary floating point,
 * and Python's `int(x)` on a float is truncation toward zero (Trunc).
 */
module Encoder {
  import opened Wrappers
  import opened Workspace

  /** The running speed of a run: the 1..9 scale of the `Velocidad` selector. */
  type Speed = v: int | 1 <= v <= 9 witness 5

  /** The speed a run starts with. */
  const DefaultSpeed: Speed := 5

  /** Python's `int(x)` on a finite float: truncation toward zero. */
  function Trunc(x: real): (r: int)
    ensures x >= 0.0 ==> r as real <= x < r as real + 1.0
    ensures x < 0.0 ==> r as real - 1.0 < x <= r as real
  {
    if x >= 0.0 then x.Floor else -((-x).Floor)
  }

  /** `int((vel - 1) / 8 * 227 + 28)`: the PWM byte sent for a speed. */
  function SpeedPwm(vel: Speed): (pwm: int)
    ensures 28 <= pwm <= 255
  {
    Trunc((vel - 1) as real / 8.0 * 227.0 + 28.0)
  }

  /**
   * The float truncation equals the integer formula `(vel-1)*227/8 + 28`: the scale maps
   * 1 to 28, 5 to 141 (truncated) and 9 to 255, strictly increasing.
   */
  lemma SpeedPwmIntegral(vel: Speed)
    ensures SpeedPwm(vel) == (vel - 1) * 227 / 8 + 28
  {
    var q := (vel - 1) * 227 / 8 + 28;
    var x := (vel - 1) as real / 8.0 * 227.0 + 28.0;
    assert x == ((vel - 1) * 227) as real / 8.0 + 28.0;
    assert (vel - 1) * 227 == 8 * ((vel - 1) * 227 / 8) + (vel - 1) * 227 % 8;
    assert q as real <= x < q as real + 1.0;
  }

  lemma SpeedPwmValues()
    ensures SpeedPwm(1) == 28 && SpeedPwm(5) == 141 && SpeedPwm(9) == 255
  {
    SpeedPwmIntegral(1);
    SpeedPwmIntegral(5);
    SpeedPwmIntegral(9);
  }

  lemma SpeedPwmIncreasing(v: Speed, w: Speed)
    requires v < w
    ensures SpeedPwm(v) < SpeedPwm(w)
  {
    SpeedPwmIntegral(v);
    SpeedPwmIntegral(w);
  }

  /** The integer parse of a block's parameter widget (None when there is no widget). */
  function IntegerOf(param: Option<Entry>): Option<int> {
    if param.Some? then param.value.integer else None
  }

  /** `float(entry.get())` when the block has a widget, else None. */
  function NumberOf(param: Option<Entry>): Option<real> {
    if param.Some? then param.value.number else None
  }

  /**
   * A `Velocidad` block's effect on the running speed: its parameter clamped to 1..9,
   * or the speed unchanged when the parameter does not parse as an integer.
   */
  function NextSpeed(vel: Speed, param: Option<Entry>): (r: Speed)
    ensures IntegerOf(param) == None ==> r == vel
    ensures forall n :: IntegerOf(param) == Some(n) ==>
              r == (if n < 1 then 1 else if n > 9 then 9 else n)
  {
    match IntegerOf(param)
    case None => vel
    case Some(n) => if n < 1 then 1 else if n > 9 then 9 else n
  }

  /**
   * The motion code: `{"Adelante": "F", "Reversa": "B", "Izquierda": "L", "Derecha": "R",
   * "Detener": "S"}.get(action, "S")`, so `Esperar` falls back to `S` as well.
   */
  function Code(a: Action): (c: char)
    ensures c in "FBLRS"
    ensures c == 'S' <==> a in {Detener, Esperar, Velocidad}
    ensures a == Adelante ==> c == 'F'
    ensures a == Reversa ==> c == 'B'
    ensures a == Izquierda ==> c == 'L'
    ensures a == Derecha ==> c == 'R'
  {
    match a
    case Adelante => 'F'
    case Reversa => 'B'
    case Izquierda => 'L'
    case Derecha => 'R'
    case Detener => 'S'
    case _ => 'S'
  }

  // ---------------------------------------------------------------------------
  // Decimal text (Python's `str` of a non-negative int) and its parse
  // ---------------------------------------------------------------------------

  predicate IsDigit(c: char) {
    '0' <= c <= '9'
  }

  function DigitChar(d: nat): (c: char)
    requires d < 10
    ensures IsDigit(c)
  {
    "0123456789"[d]
  }

  function DigitValue(c: char): (d: nat)
    requires IsDigit(c)
    ensures d < 10
  {
    (c as int - '0' as int)
  }

  /** `str(n)`: the decimal digits of `n`, most significant first, without leading zeros. */
  function DecimalString(n: nat): (s: string)
    ensures |s| > 0
    ensures forall i | 0 <= i < |s| :: IsDigit(s[i])
    ensures |s| > 1 ==> s[0] != '0'
  {
    if n < 10 then [DigitChar(n)] else DecimalString(n / 10) + [DigitChar(n % 10)]
  }

  /** The value of a string of decimal digits. */
  function DigitsValue(s: string): nat
    requires forall i | 0 <= i < |s| :: IsDigit(s[i])
  {
    if s == [] then 0 else 10 * DigitsValue(s[..|s| - 1]) + DigitValue(s[|s| - 1])
  }

  /** Reads a canonical decimal numeral (digits only, no leading zero). */
  function ParseDecimal(s: string): Option<nat> {
    if |s| > 0 && (forall i | 0 <= i < |s| :: IsDigit(s[i])) && (|s| == 1 || s[0] != '0')
    then Some(DigitsValue(s))
    else None
  }

  lemma {:induction false} DigitsValueOfDecimal(n: nat)
    ensures DigitsValue(DecimalString(n)) == n
  {
    var s := DecimalString(n);
    if n < 10 {
      assert s[..0] == [];
    } else {
      DigitsValueOfDecimal(n / 10);
      assert s[..|s| - 1] == DecimalString(n / 10);
    }
  }

  /** Reading back `str(n)` gives `n`. */
  lemma DecimalRoundTrip(n: nat)
    ensures ParseDecimal(DecimalString(n)) == Some(n)
  {
    DigitsValueOfDecimal(n);
  }

  /** The only numeral read as `n` is `str(n)`. */
  lemma {:induction false} DecimalCanonical(s: string, n: nat)
    requires ParseDecimal(s) == Some(n)
    ensures DecimalString(n) == s
    decreases |s|
  {
    if |s| > 1 {
      var init := s[..|s| - 1];
      var last := DigitValue(s[|s| - 1]);
      assert n == 10 * DigitsValue(init) + last;
      assert init[0] == s[0];
      assert ParseDecimal(init) == Some(DigitsValue(init));
      DecimalCanonical(init, DigitsValue(init));
      assert n >= 10 by {
        if DigitsValue(init) == 0 {
          ZeroValueIsZeros(init);
        }
      }
      assert n / 10 == DigitsValue(init) && n % 10 == last;
      assert DigitChar(last) == s[|s| - 1];
      assert s == init + [s[|s| - 1]];
    } else {
      assert DigitChar(DigitValue(s[0])) == s[0];
      assert s == [s[0]];
    }
  }

  lemma {:induction false} ZeroValueIsZeros(s: string)
    requires |s| > 0 && forall i | 0 <= i < |s| :: IsDigit(s[i])
    requires DigitsValue(s) == 0
    ensures s[0] == '0'
  {
    if |s| > 1 {
      ZeroValueIsZeros(s[..|s| - 1]);
      assert s[..|s| - 1][0] == s[0];
    }
  }

  // ---------------------------------------------------------------------------
  // Frames
  // ---------------------------------------------------------------------------

  /** The message `f"{cmd}{vel_real}"` sent for a non-speed block at running speed `vel`. */
  function Frame(a: Action, vel: Speed): (m: string)
    ensures |m| >= 3 && m[0] == Code(a)
    ensures forall i | 1 <= i < |m| :: IsDigit(m[i])
  {
    var digits := DecimalString(SpeedPwm(vel));
    assert |digits| >= 2 by {
      if |digits| == 1 { assert DigitsValue(digits) < 10 by { assert digits[..0] == []; } DigitsValueOfDecimal(SpeedPwm(vel)); }
    }
    assert forall i | 1 <= i < |[Code(a)] + digits| :: ([Code(a)] + digits)[i] == digits[i - 1];
    [Code(a)] + digits
  }

  /** How the receiving side reads a message: a code letter followed by a numeral. */
  function DecodeFrame(m: string): Option<(char, nat)> {
    if |m| >= 1 && ParseDecimal(m[1..]).Some? then Some((m[0], ParseDecimal(m[1..]).value))
    else None
  }

  /** A frame carries exactly its motion code and the PWM byte of the running speed. */
  lemma FrameRoundTrip(a: Action, vel: Speed)
    ensures DecodeFrame(Frame(a, vel)) == Some((Code(a), SpeedPwm(vel)))
  {
    var m := Frame(a, vel);
    assert m[1..] == DecimalString(SpeedPwm(vel));
    DecimalRoundTrip(SpeedPwm(vel));
  }

  // ---------------------------------------------------------------------------
  // Delays
  // ---------------------------------------------------------------------------

  /**
   * The delay of `Adelante`, `Reversa` and `Esperar`: the parameter truncated to whole
   * seconds (1 when it does not parse), clamped to 1..10, in milliseconds.
   */
  function SecondsDelay(param: Option<Entry>): (ms: int)
    ensures 1000 <= ms <= 10000 && ms % 1000 == 0
    ensures NumberOf(param).None? ==> ms == 1000
    ensures forall x :: NumberOf(param) == Some(x) && x < 1.0 ==> ms == 1000
    ensures forall x :: NumberOf(param) == Some(x) && x >= 10.0 ==> ms == 10000
  {
    var v := match NumberOf(param) case Some(x) => Trunc(x) case None => 1;
    var v := if v < 1 then 1 else v;
    var v := if v > 10 then 10 else v;
    v * 1000
  }

  /** Within range, the delay is the entered duration cut to whole seconds. */
  lemma SecondsDelayWholeSeconds(param: Option<Entry>, x: real)
    requires NumberOf(param) == Some(x) && 1.0 <= x < 11.0
    ensures (SecondsDelay(param) / 1000) as real <= x < (SecondsDelay(param) / 1000 + 1) as real
  {
  }

  /**
   * The angle of `Izquierda` and `Derecha`: the parameter truncated to an integer
   * (90 when it does not parse), any value outside {45, 90, 180, 360} coerced to 90.
   */
  function Degrees(param: Option<Entry>): (deg: int)
    ensures deg in {45, 90, 180, 360}
    ensures forall x :: NumberOf(param) == Some(x) && Trunc(x) in {45, 90, 180, 360} ==> deg == Trunc(x)
    ensures forall x :: NumberOf(param) == Some(x) && Trunc(x) !in {45, 90, 180, 360} ==> deg == 90
    ensures NumberOf(param).None? ==> deg == 90
  {
    var deg := match NumberOf(param) case Some(x) => Trunc(x) case None => 90;
    if deg in {45, 90, 180, 360} then deg else 90
  }

  /** `int((deg / 90) * 1000)` ms: 500, 1000, 2000 or 4000, proportional to the angle. */
  function TurnDelay(param: Option<Entry>): (ms: int)
    ensures ms * 90 == Degrees(param) * 1000
    ensures ms in {500, 1000, 2000, 4000}
  {
    Trunc(Degrees(param) as real / 90.0 * 1000.0)
  }

  /** The delay before the next block: 400 ms after a speed block, 700 after `Detener`. */
  function BlockDelay(b: Block): (ms: int)
    ensures 400 <= ms <= 10000
    ensures b.action == Velocidad ==> ms == 400
    ensures b.action == Detener ==> ms == 700
    ensures b.action in {Adelante, Reversa, Esperar} ==> ms == SecondsDelay(b.param)
    ensures b.action in {Izquierda, Derecha} ==> ms == TurnDelay(b.param)
  {
    match b.action
    case Velocidad => 400
    case Adelante => SecondsDelay(b.param)
    case Reversa => SecondsDelay(b.param)
    case Esperar => SecondsDelay(b.param)
    case Izquierda => TurnDelay(b.param)
    case Derecha => TurnDelay(b.param)
    case Detener => 700
  }
}
