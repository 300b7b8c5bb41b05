/** The ADC emulator of `SPICE/adc.py`: voltages become lines of a sign bit and a magnitude. */
module Adc {
  import opened Basics
  import opened Factorization

  /** The ways a conversion ends: the script's exit codes, and the error of a zero reference. */
  datatype Outcome = Lines(lines: seq<string>) | NoVoltages | BadWidth | ZeroReference

  // ----- Rounding

  /** Python's `round`: to the nearest integer, ties to even. */
  function Round(x: real): int {
    var f := x.Floor;
    var d := x - f as real;
    if d < 0.5 then f else if d > 0.5 then f + 1 else if f % 2 == 0 then f else f + 1
  }

  lemma RoundIsNear(x: real)
    ensures -0.5 <= Round(x) as real - x <= 0.5
  {}

  lemma RoundWithin(x: real, m: nat)
    requires 0.0 <= x <= m as real
    ensures 0 <= Round(x) <= m
  {}

  /** The nearest integer, and of two equally near the even one. */
  lemma RoundIs(x: real, n: int)
    ensures n == Round(x) <==>
      -0.5 <= n as real - x <= 0.5 && (n as real - x == 0.5 || n as real - x == -0.5 ==> n % 2 == 0)
  {
    var f, d := x.Floor, x - x.Floor as real;
    assert x == f as real + d && 0.0 <= d < 1.0;
    if n == f {
      assert n as real - x == -d;
    } else if n == f + 1 {
      assert n as real - x == 1.0 - d;
    } else if n < f {
      assert n as real <= f as real - 1.0;
    } else {
      assert n as real >= f as real + 2.0;
    }
  }

  lemma RoundOfInteger(m: int)
    ensures Round(m as real) == m
  {}

  // ----- Quantising

  function Abs(x: real): real {
    if x < 0.0 then -x else x
  }

  function Clamp(x: real, top: real): real {
    var capped := if top < x then top else x;
    if capped > 0.0 then capped else 0.0
  }

  function MaxCode(bits: nat): int {
    Pow2(bits) - 1
  }

  /** A voltage in units of the quantisation step. */
  function Steps(v: real, vref: real, maxCode: int): real
    requires vref != 0.0
  {
    v / vref * maxCode as real
  }

  /** `quantize_voltage`; a zero reference divides by zero. */
  function QuantizeVoltage(v: real, vref: real, bits: nat, gain: real): (code: Option<int>)
    ensures code.None? <==> vref == 0.0
    ensures code.Some? ==> 0 <= code.value <= MaxCode(bits)
  {
    Pow2Monotone(0, bits);
    if vref == 0.0 then None else
      var clamped := Clamp(gain * v, vref);
      var maxCode := MaxCode(bits);
      var code := Round(Steps(clamped, vref, maxCode));
      Some(if code < 0 then 0 else if code > maxCode then maxCode else code)
  }

  // ----- Printing

  function Digit(b: int): char {
    if b == 0 then '0' else '1'
  }

  /** The binary digits of a number, the most significant first. */
  function Digits(n: nat): string {
    if n < 2 then [Digit(n)] else Digits(n / 2) + [Digit(n % 2)]
  }

  /** The codes of a width are just the numbers with that many binary digits at most. */
  lemma {:induction false} CodesOfWidth(c: nat, bits: nat)
    requires bits >= 1
    ensures c <= MaxCode(bits) <==> |Digits(c)| <= bits
  {
    if bits == 1 {
      assert Pow2(1) == 2;
      MoreThanOneDigit(c);
    } else if c >= 2 {
      CodesOfWidth(c / 2, bits - 1);
      assert Pow2(bits) == 2 * Pow2(bits - 1);
    } else {
      Pow2Monotone(1, bits);
    }
  }

  lemma MoreThanOneDigit(c: nat)
    ensures |Digits(c)| >= 1 && (c >= 2 ==> |Digits(c)| >= 2)
  {}

  /** Full scale prints as ones. */
  lemma {:induction false} FullScale(bits: nat)
    requires bits >= 1
    ensures MaxCode(bits) >= 1 && Digits(MaxCode(bits)) == Ones(bits)
  {
    if bits == 1 {
      assert Pow2(1) == 2;
    } else {
      FullScale(bits - 1);
      assert Pow2(bits) == 2 * Pow2(bits - 1);
      Pow2Monotone(2, bits);
      assert Pow2(2) == 4;
      assert MaxCode(bits) / 2 == MaxCode(bits - 1) && MaxCode(bits) % 2 == 1;
      assert Ones(bits) == Ones(bits - 1) + ['1'];
    }
  }

  function Ones(k: nat): string {
    seq(k, _ => '1')
  }

  function Zeros(k: nat): string {
    seq(k, _ => '0')
  }

  /** `format(code, f"0{bits}b")`. */
  function FormatBinary(code: nat, bits: nat): string {
    var digits := Digits(code);
    if |digits| < bits then Zeros(bits - |digits|) + digits else digits
  }

  /** The magnitude printed for one voltage. */
  function Magnitude(v: real, vref: real, bits: nat, gain: real): string
    requires vref != 0.0
  {
    FormatBinary(QuantizeVoltage(Abs(v), vref, bits, gain).value, bits)
  }

  /** The line written for one voltage. */
  function Line(v: real, vref: real, bits: nat, gain: real): string
    requires vref != 0.0
  {
    [if v < 0.0 then '1' else '0'] + Magnitude(v, vref, bits, gain)
  }

  function MaxAbs(voltages: seq<real>): (m: real)
    ensures m >= 0.0
    ensures forall v :: v in voltages ==> Abs(v) <= m
  {
    if voltages == [] then 0.0 else
      var m := MaxAbs(voltages[1..]);
      if Abs(voltages[0]) > m then Abs(voltages[0]) else m
  }

  /** The reference in use: the given one, or 5% above the largest sample. */
  function Reference(voltages: seq<real>, vref: Option<real>): real {
    match vref
    case Some(r) => r
    case None => var vmax := MaxAbs(voltages); if vmax == 0.0 then 1.0 else vmax * 1.05
  }

  /** The largest magnitude is some sample's. */
  lemma {:induction false} MaxAbsAttained(voltages: seq<real>)
    requires voltages != []
    ensures exists v :: v in voltages && Abs(v) == MaxAbs(voltages)
  {
    if |voltages| == 1 || Abs(voltages[0]) > MaxAbs(voltages[1..]) {
      assert |voltages| == 1 ==> MaxAbs(voltages[1..]) == 0.0;
      assert voltages[0] in voltages && Abs(voltages[0]) == MaxAbs(voltages);
    } else {
      MaxAbsAttained(voltages[1..]);
      var v :| v in voltages[1..] && Abs(v) == MaxAbs(voltages[1..]);
      assert v in voltages;
    }
  }

  /** The automatic reference is 21/20 of the largest magnitude, and 1 where that is 0. */
  lemma AutoReferenceIs(voltages: seq<real>, v: real)
    requires v in voltages && forall u :: u in voltages ==> Abs(u) <= Abs(v)
    ensures 20.0 * Reference(voltages, None) == if v == 0.0 then 20.0 else 21.0 * Abs(v)
  {
    MaxAbsAttained(voltages);
    hide MaxAbs;
    assert Abs(v) == MaxAbs(voltages);
  }

  method MaxOfAbs(voltages: seq<real>) returns (m: real)
    ensures m == MaxAbs(voltages)
  {
    m := 0.0;
    var i := |voltages|;
    while i > 0
      invariant 0 <= i <= |voltages|
      invariant m == MaxAbs(voltages[i..])
    {
      i := i - 1;
      assert voltages[i..][1..] == voltages[i + 1..];
      if Abs(voltages[i]) > m {
        m := Abs(voltages[i]);
      }
    }
  }

  /** The first loop: magnitudes, and the positions of the negative voltages. */
  method Magnitudes(voltages: seq<real>, vref: real, bits: nat, gain: real)
      returns (binLines: Option<seq<string>>, negPositions: set<int>)
    requires voltages != []
    ensures binLines.None? <==> vref == 0.0
    ensures binLines.Some? ==> |binLines.value| == |voltages|
    ensures binLines.Some? ==> forall j :: 0 <= j < |voltages| ==>
      binLines.value[j] == Magnitude(voltages[j], vref, bits, gain)
    ensures binLines.Some? ==> forall j :: j in negPositions <==> 0 <= j < |voltages| && voltages[j] < 0.0
  {
    hide FormatBinary, QuantizeVoltage;
    var lines: seq<string> := [];
    negPositions := {};
    var i := 0;
    while i < |voltages|
      invariant 0 <= i <= |voltages| && |lines| == i && (i > 0 ==> vref != 0.0)
      invariant forall j :: j in negPositions <==> 0 <= j < i && voltages[j] < 0.0
      invariant forall j :: 0 <= j < i ==> lines[j] == Magnitude(voltages[j], vref, bits, gain)
    {
      var v := voltages[i];
      if v < 0.0 {
        negPositions := negPositions + {i};
        v := -v;
      }
      var code := QuantizeVoltage(v, vref, bits, gain);
      if code.None? {
        return None, {};
      }
      lines := lines + [FormatBinary(code.value, bits)];
      i := i + 1;
    }
    binLines := Some(lines);
  }

  /** The conversion of `main`: magnitudes and negative positions are collected first, and the
      lines are put together from both afterwards. */
  method Convert(voltages: seq<real>, vref: Option<real>, bits: int, gain: real) returns (out: Outcome)
    ensures voltages == [] <==> out == NoVoltages
    ensures out == BadWidth <==> voltages != [] && (bits <= 0 || bits > 64)
    ensures out == ZeroReference <==> voltages != [] && 0 < bits <= 64 && Reference(voltages, vref) == 0.0
    ensures out.Lines? ==> |out.lines| == |voltages|
    ensures out.Lines? ==>
      forall i :: 0 <= i < |voltages| ==> out.lines[i] == Line(voltages[i], Reference(voltages, vref), bits, gain)
  {
    hide FormatBinary, QuantizeVoltage, Magnitude, MaxAbs;
    if |voltages| == 0 {
      return NoVoltages;
    }
    var reference;
    match vref {
      case Some(r) => reference := r;
      case None =>
        var vmax := MaxOfAbs(voltages);
        reference := if vmax == 0.0 then 1.0 else vmax * 1.05;
    }
    if bits <= 0 || bits > 64 {
      return BadWidth;
    }
    var binLines, negPositions := Magnitudes(voltages, reference, bits, gain);
    if binLines.None? {
      return ZeroReference;
    }
    var lines: seq<string> := [];
    for i := 0 to |binLines.value|
      invariant |lines| == i
      invariant forall j :: 0 <= j < i ==> lines[j] == Line(voltages[j], reference, bits, gain)
    {
      var signBit := if i in negPositions then '1' else '0';
      lines := lines + [[signBit] + binLines.value[i]];
    }
    return Lines(lines);
  }

  // ----- Auto-scaling never clamps

  lemma AutoReferenceNeverClamps(voltages: seq<real>, v: real)
    requires v in voltages
    ensures Reference(voltages, None) > 0.0
    ensures Clamp(1.0 * Abs(v), Reference(voltages, None)) == Abs(v)
  {}
}
