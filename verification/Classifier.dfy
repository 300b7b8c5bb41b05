/** The reading side, `Examples/PDL/Classifier.cpp`: lines become voltages, and the voltages a
    spectrum computed term by term. */
module Classifier {
  import opened Basics
  import opened ComplexNumbers
  import opened Twiddles
  import opened Transform
  import opened Factorization
  import opened Adc
  import Api
  import Butterflies

  const ULLONG_RANGE := 0x1_0000_0000_0000_0000

  // ----- Parsing

  function IsBit(c: char): bool {
    c == '0' || c == '1'
  }

  /** The characters that are bits. */
  function Bits(s: string): string {
    if s == "" then "" else
      var rest := Bits(s[..|s| - 1]);
      if IsBit(s[|s| - 1]) then rest + [s[|s| - 1]] else rest
  }

  /** `Bits` keeps the characters '0' and '1', and no other. */
  lemma BitsOfOne(c: char)
    ensures Bits([c]) == if c == '0' || c == '1' then [c] else ""
  {
    assert [c][..0] == "" && Bits("") == "";
  }

  /** It does so for each character, in order. */
  lemma {:induction false} BitsOfParts(s: string, t: string)
    ensures Bits(s + t) == Bits(s) + Bits(t)
  {
    if t == "" {
      assert s + t == s;
    } else {
      var front := t[..|t| - 1];
      assert (s + t)[..|s + t| - 1] == s + front;
      BitsOfParts(s, front);
    }
  }

  function BitValue(c: char): nat {
    if c == '1' then 1 else 0
  }

  /** The number a string of bits denotes. */
  function Value(s: string): nat {
    if s == "" then 0 else 2 * Value(s[..|s| - 1]) + BitValue(s[|s| - 1])
  }

  /** `std::stoull` in base 2 of a string of bits; None stands for its exceptions, for a string without
      digits and for a number that does not fit. */
  method Stoull(s: string) returns (code: Option<nat>)
    ensures code == if s != "" && Value(s) < ULLONG_RANGE then Some(Value(s)) else None
  {
    if s == "" {
      return None;
    }
    var n := 0;
    for i := 0 to |s|
      invariant n == Value(s[..i]) < ULLONG_RANGE
    {
      assert s[..i + 1][..i] == s[..i];
      n := 2 * n + BitValue(s[i]);
      if n >= ULLONG_RANGE {
        ValueGrows(s, i + 1);
        return None;
      }
    }
    assert s[..|s|] == s;
    code := Some(n);
  }

  lemma {:induction false} ValueGrows(s: string, i: nat)
    requires i <= |s|
    ensures Value(s[..i]) <= Value(s)
    decreases |s|
  {
    if i < |s| {
      ValueGrows(s[..|s| - 1], i);
      assert s[..|s| - 1][..i] == s[..i];
    } else {
      assert s[..i] == s;
    }
  }

  /** The code of a magnitude; anything but bits is skipped, and a number too large reads as 0. */
  method BinaryToCode(binStr: string) returns (code: nat)
    ensures code == if Value(Bits(binStr)) < ULLONG_RANGE then Value(Bits(binStr)) else 0
  {
    var s := "";
    for i := 0 to |binStr|
      invariant s == Bits(binStr[..i])
    {
      assert binStr[..i + 1][..i] == binStr[..i];
      if IsBit(binStr[i]) {
        s := s + [binStr[i]];
      }
    }
    assert binStr[..|binStr|] == binStr;
    if s == "" {
      return 0;
    }
    var n := Stoull(s);
    code := match n case Some(v) => v case None => 0;
  }

  function CodeToVoltage(code: nat, lsb: real): real {
    code as real * lsb
  }

  /** The voltage a line stands for. */
  function Sample(line: string, lsb: real): real
    requires line != ""
  {
    var value := Value(Bits(line[1..]));
    var voltage := CodeToVoltage(if value < ULLONG_RANGE then value else 0, lsb);
    if line[0] == '1' then -voltage else voltage
  }

  /** The voltages of the non-empty lines. */
  function SamplesOf(lines: seq<string>, lsb: real): seq<real> {
    if lines == [] then [] else
      var last := lines[|lines| - 1];
      SamplesOf(lines[..|lines| - 1], lsb) + if last == "" then [] else [Sample(last, lsb)]
  }

  /** Lines count one by one, in order; an empty one does not count. */
  lemma {:induction false} SamplesOfParts(a: seq<string>, b: seq<string>, lsb: real)
    ensures SamplesOf(a + b, lsb) == SamplesOf(a, lsb) + SamplesOf(b, lsb)
  {
    hide Sample;
    if b == [] {
      assert a + b == a;
    } else {
      var front := b[..|b| - 1];
      assert (a + b)[..|a + b| - 1] == a + front;
      SamplesOfParts(a, front, lsb);
    }
  }

  lemma SamplesOfOne(line: string, lsb: real)
    ensures SamplesOf([line], lsb) == if line == "" then [] else [Sample(line, lsb)]
  {
    hide Sample;
    assert [line][..0] == [];
  }

  /** The read loop; the first line is taken for a header and dropped. */
  method ReadSamples(file: seq<string>, lsb: real) returns (analogSamples: seq<real>)
    ensures analogSamples == if file == [] then [] else SamplesOf(file[1..], lsb)
  {
    analogSamples := [];
    if file == [] {
      return;
    }
    var lines := file[1..];
    for i := 0 to |lines|
      invariant analogSamples == SamplesOf(lines[..i], lsb)
    {
      assert lines[..i + 1][..i] == lines[..i];
      var line := lines[i];
      if line != "" {
        var code := BinaryToCode(line[1..]);
        var voltage := CodeToVoltage(code, lsb);
        if line[0] == '1' {
          voltage := -voltage;
        }
        analogSamples := analogSamples + [voltage];
      }
    }
    assert lines[..|lines|] == lines;
  }

  // ----- What was printed is read back

  lemma {:induction false} DigitsAreBits(n: nat)
    ensures Bits(Digits(n)) == Digits(n) && Value(Digits(n)) == n && Digits(n) != ""
  {
    var d := Digits(n);
    if n < 2 {
      assert d[..|d| - 1] == "";
    } else {
      DigitsAreBits(n / 2);
      assert d[..|d| - 1] == Digits(n / 2);
    }
  }

  lemma {:induction false} OnlyZeros(k: nat)
    ensures Bits(Zeros(k)) == Zeros(k) && Value(Zeros(k)) == 0
  {
    if k > 0 {
      OnlyZeros(k - 1);
      ZerosBefore(k);
      hide Zeros;
    }
  }

  lemma ZerosBefore(k: nat)
    requires k > 0
    ensures |Zeros(k)| == k && Zeros(k)[..k - 1] == Zeros(k - 1) && Zeros(k)[k - 1] == '0'
    ensures Zeros(k) == Zeros(k - 1) + ['0']
  {}

  lemma {:induction false} ZerosInFront(k: nat, s: string)
    requires Bits(s) == s
    ensures Bits(Zeros(k) + s) == Zeros(k) + s && Value(Zeros(k) + s) == Value(s)
  {
    if s == "" {
      OnlyZeros(k);
      assert Zeros(k) + s == Zeros(k);
    } else {
      hide Zeros, Bits;
      var front := s[..|s| - 1];
      BitsOfPrefix(s);
      ZerosInFront(k, front);
      OneMoreBit(Zeros(k), s);
      assert Zeros(k) + s == Zeros(k) + front + [s[|s| - 1]];
    }
  }

  lemma OneMoreBit(front: string, s: string)
    requires s != ""
    ensures var b := Bits(front + s[..|s| - 1]); Bits(front + s) == if IsBit(s[|s| - 1]) then b + [s[|s| - 1]] else b
    ensures Value(front + s) == 2 * Value(front + s[..|s| - 1]) + BitValue(s[|s| - 1])
  {
    assert (front + s)[..|front + s| - 1] == front + s[..|s| - 1];
  }

  lemma BitsOfPrefix(s: string)
    requires s != "" && Bits(s) == s
    ensures Bits(s[..|s| - 1]) == s[..|s| - 1] && IsBit(s[|s| - 1])
  {
    var front := s[..|s| - 1];
    BitsNotLonger(front);
    if IsBit(s[|s| - 1]) {
      assert (Bits(front) + [s[|s| - 1]])[..|s| - 1] == Bits(front);
    }
  }

  lemma {:induction false} BitsNotLonger(s: string)
    ensures |Bits(s)| <= |s|
  {
    if s != "" {
      BitsNotLonger(s[..|s| - 1]);
    }
  }

  lemma {:induction false} DigitsFit(n: nat, bits: nat)
    requires n < Pow2(bits) && bits >= 1
    ensures |Digits(n)| <= bits
  {
    if n >= 2 {
      assert bits >= 2;
      DigitsFit(n / 2, bits - 1);
    }
  }

  /** A code of any width from 1 to 64 bits is printed in that width and read back unchanged. */
  lemma CodeRoundTrip(code: nat, bits: nat)
    requires 1 <= bits <= 64 && code < Pow2(bits)
    ensures |FormatBinary(code, bits)| == bits
    ensures Bits(FormatBinary(code, bits)) == FormatBinary(code, bits)
    ensures Value(Bits(FormatBinary(code, bits))) == code < ULLONG_RANGE
  {
    DigitsAreBits(code);
    DigitsFit(code, bits);
    ZerosInFront(bits - |Digits(code)|, Digits(code));
    Pow2Monotone(bits, 64);
    TwoToThe64();
    hide Digits, Bits, Value, Pow2;
  }

  lemma TwoToThe64()
    ensures Pow2(64) == ULLONG_RANGE
  {
    assert Pow2(8) == 0x100;
    assert Pow2(16) == 0x1_0000;
    assert Pow2(24) == 0x100_0000;
    assert Pow2(32) == 0x1_0000_0000;
    assert Pow2(40) == 0x100_0000_0000;
    assert Pow2(48) == 0x1_0000_0000_0000;
    assert Pow2(56) == 0x100_0000_0000_0000;
  }

  /** The reading side's step for a reference and a width. */
  function Lsb(vref: real, bits: nat): real
    requires bits >= 1
  {
    Pow2Monotone(1, bits);
    vref / MaxCode(bits) as real
  }

  /** The line of a voltage reads back as its code times the step, with its sign. */
  lemma LineReadBack(v: real, vref: real, bits: nat, gain: real)
    requires 1 <= bits <= 64 && vref != 0.0
    ensures Line(v, vref, bits, gain) != ""
    ensures var code := QuantizeVoltage(Abs(v), vref, bits, gain).value;
      var magnitude := code as real * Lsb(vref, bits);
      Sample(Line(v, vref, bits, gain), Lsb(vref, bits)) == if v < 0.0 then -magnitude else magnitude
  {
    hide FormatBinary, QuantizeVoltage;
    var code := QuantizeVoltage(Abs(v), vref, bits, gain).value;
    CodeRoundTrip(code, bits);
    assert Line(v, vref, bits, gain)[1..] == FormatBinary(code, bits);
  }

  // ----- How close the voltage comes

  lemma StepsAddUp(vref: real, bits: nat)
    requires bits >= 1 && vref > 0.0
    ensures MaxCode(bits) >= 1
    ensures Lsb(vref, bits) > 0.0 && Lsb(vref, bits) * MaxCode(bits) as real == vref
  {
    Pow2Monotone(1, bits);
    assert Pow2(1) == 2;
    Quotients(vref, MaxCode(bits) as real);
  }

  lemma Quotients(a: real, b: real)
    requires a > 0.0 && b > 0.0
    ensures a / b > 0.0 && a / b * b == a
  {}

  /** In range, the code is the nearest step. */
  lemma InRangeError(y: real, vref: real, bits: nat, code: int)
    requires bits >= 1 && vref > 0.0 && 0.0 <= y <= vref
    requires code == Round(Steps(y, vref, MaxCode(bits)))
    ensures 0 <= code <= MaxCode(bits)
    ensures var lsb := Lsb(vref, bits); -(lsb / 2.0) <= code as real * lsb - y <= lsb / 2.0
  {
    hide Round, Lsb, MaxCode, Steps;
    StepsAddUp(vref, bits);
    NearestStep(y, vref, MaxCode(bits), Lsb(vref, bits), code);
  }

  lemma NearestStep(y: real, vref: real, m: nat, lsb: real, code: int)
    requires vref > 0.0 && 0.0 <= y <= vref && m >= 1 && lsb > 0.0 && lsb * m as real == vref
    requires code == Round(Steps(y, vref, m))
    ensures 0 <= code <= m
    ensures -(lsb / 2.0) <= code as real * lsb - y <= lsb / 2.0
  {
    hide Round, Steps;
    var x, c := Steps(y, vref, m), code as real;
    Fraction(y, vref, m, lsb);
    RoundIsNear(x);
    RoundWithin(x, m);
    StepError(lsb, c, x, y);
  }

  lemma StepError(lsb: real, c: real, x: real, y: real)
    requires lsb > 0.0 && lsb * x == y && -0.5 <= c - x <= 0.5
    ensures -(lsb / 2.0) <= c * lsb - y <= lsb / 2.0
  {
    hide Times;
    MulBounds(lsb, c - x);
    Distance(lsb, c, x, y);
  }

  lemma Distance(lsb: real, c: real, x: real, y: real)
    requires lsb * x == y
    ensures c * lsb - y == Times(lsb, c - x)
  {}

  lemma Fraction(y: real, vref: real, m: int, lsb: real)
    requires vref > 0.0 && m > 0 && 0.0 <= y <= vref && lsb * m as real == vref
    ensures lsb * Steps(y, vref, m) == y
    ensures 0.0 <= Steps(y, vref, m) <= m as real
  {
    var t, k := y / vref, m as real;
    assert t * vref == y;
    UnitInterval(t, vref, y);
    assert lsb * (t * k) == t * (lsb * k);
    NonNegativeTimes(1.0 - t, k);
    assert (1.0 - t) * k == k - t * k;
    NonNegativeTimes(t, k);
  }

  lemma UnitInterval(t: real, vref: real, y: real)
    requires vref > 0.0 && t * vref == y && 0.0 <= y <= vref
    ensures 0.0 <= t <= 1.0
  {
    if t < 0.0 {
      NegativeTimes(t, vref);
    } else if t > 1.0 {
      NegativeTimes(1.0 - t, vref);
    }
  }

  lemma NegativeTimes(a: real, b: real)
    requires a < 0.0 && b > 0.0
    ensures a * b < 0.0
  {}

  lemma NonNegativeTimes(a: real, b: real)
    requires a >= 0.0 && b >= 0.0
    ensures a * b >= 0.0
  {}

  lemma MulBounds(lsb: real, e: real)
    requires lsb > 0.0 && -0.5 <= e <= 0.5
    ensures -(lsb / 2.0) <= Times(lsb, e) <= lsb / 2.0
  {
    NonNegativeTimes(lsb, 0.5 - e);
    NonNegativeTimes(lsb, 0.5 + e);
    assert lsb * (0.5 - e) == lsb * 0.5 - lsb * e && lsb * (0.5 + e) == lsb * 0.5 + lsb * e;
  }

  lemma OwnFraction(x: real)
    requires x != 0.0
    ensures x / x == 1.0 && 0.0 / x == 0.0
  {
    assert x * (0.0 / x) == 0.0;
    RealCancel(x, 0.0 / x);
  }

  lemma OneTimes(a: real, b: real)
    requires a == 1.0
    ensures a * b == b
  {}

  lemma ZeroTimes(a: real, b: real)
    requires a == 0.0
    ensures a * b == 0.0
  {}

  lemma EndsOfScale(vref: real, m: nat)
    requires vref != 0.0
    ensures Round(Steps(vref, vref, m)) == m
    ensures Round(Steps(0.0, vref, m)) == 0
  {
    OwnFraction(vref);
    OneTimes(vref / vref, m as real);
    ZeroTimes(0.0 / vref, m as real);
    RoundOfInteger(m);
    RoundOfInteger(0);
  }

  /** For a positive reference the code is the rounded fraction in range and the end of the scale out of
      range, on that side; for a negative one it is 0. */
  lemma ClampedCode(v: real, vref: real, bits: nat, gain: real, y: real)
    requires bits >= 1 && vref != 0.0 && y == gain * v
    ensures var code := QuantizeVoltage(v, vref, bits, gain).value;
      && (vref > 0.0 && 0.0 <= y <= vref ==> code == Round(Steps(y, vref, MaxCode(bits))))
      && (vref > 0.0 && y > vref ==> code == MaxCode(bits))
      && (vref > 0.0 && y < 0.0 ==> code == 0)
      && (vref < 0.0 ==> code == 0)
  {
    var m := MaxCode(bits);
    Pow2Monotone(1, bits);
    EndsOfScale(vref, m);
    hide Round, Steps;
    if vref < 0.0 || y < 0.0 {
      assert Clamp(y, vref) == 0.0;
    } else if y > vref {
      assert Clamp(y, vref) == vref;
    } else {
      assert Clamp(y, vref) == y;
      InRangeError(y, vref, bits, Round(Steps(y, vref, m)));
    }
  }

  /** Full scale and beyond prints as ones, zero and below as zeros. */
  lemma EndsOfScalePrinted(v: real, vref: real, bits: nat, gain: real)
    requires bits >= 1 && vref > 0.0
    ensures gain * Abs(v) >= vref ==> Magnitude(v, vref, bits, gain) == Ones(bits)
    ensures gain * Abs(v) <= 0.0 ==> Magnitude(v, vref, bits, gain) == Zeros(bits)
  {
    var y := gain * Abs(v);
    ClampedCode(Abs(v), vref, bits, gain, y);
    EndsOfScale(vref, MaxCode(bits));
    FullScale(bits);
    assert Digits(0) == "0" && Zeros(bits - 1) + "0" == Zeros(bits);
    hide QuantizeVoltage, MaxCode, Round, Steps, Digits;
  }

  lemma MagnitudeError(y: real, vref: real, bits: nat, code: int)
    requires bits >= 1 && vref > 0.0
    requires 0.0 <= y <= vref ==> code == Round(Steps(y, vref, MaxCode(bits)))
    requires y > vref ==> code == MaxCode(bits)
    requires y < 0.0 ==> code == 0
    ensures var half := Lsb(vref, bits) / 2.0;
      -half <= code as real * Lsb(vref, bits) - y <= half <==> -half <= y <= vref + half
  {
    hide Lsb, Round, Steps;
    StepsAddUp(vref, bits);
    var lsb, m := Lsb(vref, bits), MaxCode(bits);
    hide MaxCode;
    assert lsb * m as real == m as real * lsb;
    if 0.0 <= y <= vref {
      InRangeError(y, vref, bits, code);
    }
  }

  /** The line of a voltage reads back within half a step of gain * v. */
  ghost predicate Close(v: real, vref: real, bits: nat, gain: real)
    requires bits >= 1 && vref != 0.0
  {
    var half, back := Lsb(vref, bits) / 2.0, Sample(Line(v, vref, bits, gain), Lsb(vref, bits));
    -half <= back - gain * v <= half
  }

  /** The decoded voltage is within half a step of gain * v exactly when the scaled magnitude
      does not leave [0, vref] by more than that. */
  lemma VoltageError(v: real, vref: real, bits: nat, gain: real)
    requires 1 <= bits <= 64 && vref > 0.0
    ensures var half := Lsb(vref, bits) / 2.0; Close(v, vref, bits, gain) <==> -half <= gain * Abs(v) <= vref + half
  {
    hide Line, Sample, QuantizeVoltage, Lsb, Round, Steps, MaxCode;
    LineReadBack(v, vref, bits, gain);
    var y, code := gain * Abs(v), QuantizeVoltage(Abs(v), vref, bits, gain).value;
    ClampedCode(Abs(v), vref, bits, gain, y);
    MagnitudeError(y, vref, bits, code);
    SignedProduct(gain, v);
  }

  /** With the automatic reference and gain 1 every sample comes back within half a step. */
  lemma AutoReferenceIsClose(voltages: seq<real>, v: real, bits: nat)
    requires v in voltages && 1 <= bits <= 64
    ensures Reference(voltages, None) > 0.0 && Close(v, Reference(voltages, None), bits, 1.0)
  {
    hide Close, Reference;
    AutoReferenceNeverClamps(voltages, v);
    InRangeIsClose(v, Reference(voltages, None), bits, 1.0);
  }

  lemma InRangeIsClose(v: real, vref: real, bits: nat, gain: real)
    requires 1 <= bits <= 64 && vref > 0.0 && Clamp(gain * Abs(v), vref) == gain * Abs(v)
    ensures Close(v, vref, bits, gain)
  {
    VoltageError(v, vref, bits, gain);
    StepPositive(vref, bits);
    hide Close, Lsb;
  }

  lemma StepPositive(vref: real, bits: nat)
    requires bits >= 1 && vref > 0.0
    ensures Lsb(vref, bits) > 0.0
  {
    StepsAddUp(vref, bits);
  }

  lemma SignedProduct(gain: real, v: real)
    ensures gain * v == if v < 0.0 then -(gain * Abs(v)) else gain * Abs(v)
  {
    assert gain * -v == -(gain * v);
  }

  /** The lines of a conversion are read back one sample each, in order. */
  lemma {:induction false} FileReadBack(voltages: seq<real>, lines: seq<string>, vref: real, bits: nat, gain: real)
    requires 1 <= bits <= 64 && vref != 0.0 && |lines| == |voltages|
    requires forall i :: 0 <= i < |voltages| ==> lines[i] == Line(voltages[i], vref, bits, gain)
    ensures |SamplesOf(lines, Lsb(vref, bits))| == |voltages|
    ensures forall i :: 0 <= i < |voltages| ==>
      SamplesOf(lines, Lsb(vref, bits))[i] == Sample(Line(voltages[i], vref, bits, gain), Lsb(vref, bits))
  {
    hide Line, Sample, Lsb;
    if voltages != [] {
      var k := |voltages| - 1;
      FileReadBack(voltages[..k], lines[..k], vref, bits, gain);
      LineReadBack(voltages[k], vref, bits, gain);
    }
  }

  /** Writer and reader together. The reader takes the first line for a header; the writer writes
      none. With some header line put in front every sample arrives, without one the first is lost. */
  method ConvertAndRead(voltages: seq<real>, vref: Option<real>, bits: int, gain: real, header: Option<string>)
      returns (samples: Option<seq<real>>)
    ensures samples.Some? <==> voltages != [] && 0 < bits <= 64 && Reference(voltages, vref) != 0.0
    ensures samples.Some? ==>
      var r, sent := Reference(voltages, vref), if header.Some? then voltages else voltages[1..];
      && |samples.value| == |sent|
      && forall i :: 0 <= i < |sent| ==> samples.value[i] == Sample(Line(sent[i], r, bits, gain), Lsb(r, bits))
  {
    hide Line, Sample, Lsb, Reference;
    var out := Convert(voltages, vref, bits, gain);
    if !out.Lines? {
      return None;
    }
    var r := Reference(voltages, vref);
    match header {
      case Some(h) =>
        assert ([h] + out.lines)[1..] == out.lines;
        FileReadBack(voltages, out.lines, r, bits, gain);
        var read := ReadSamples([h] + out.lines, Lsb(r, bits));
        samples := Some(read);
      case None =>
        FileReadBack(voltages[1..], out.lines[1..], r, bits, gain);
        var read := ReadSamples(out.lines, Lsb(r, bits));
        samples := Some(read);
    }
  }

  // ----- The spectrum

  function Reals(samples: seq<real>): (x: seq<Complex>)
    ensures |x| == |samples|
  {
    seq(|samples|, j requires 0 <= j < |samples| => FromReal(samples[j]))
  }

  /** The inner loop: bin k is accumulated sample by sample; cexp(-(k*n)) is
      exp(-2*pi*i*k*n/N). */
  method SpectrumBin(analogSamples: seq<real>, cexp: int -> Complex, k: nat) returns (sum: Complex)
    ensures sum == DftBin(Reals(analogSamples), Api.Table(cexp, false), 1, k)
  {
    hide Mul, Add, DftTerm, Reals;
    ghost var f := DftTerm(Reals(analogSamples), Api.Table(cexp, false), 1, k);
    sum := Complex(0.0, 0.0);
    for n := 0 to |analogSamples|
      invariant sum == Sum(n, f)
    {
      SpectrumTerm(analogSamples, cexp, k, n);
      sum := Add(sum, Mul(FromReal(analogSamples[n]), cexp(-(k * n))));
    }
  }

  /** The bins up to half the length. */
  method Spectrum(analogSamples: seq<real>, cexp: int -> Complex) returns (fourierTransform: seq<Complex>)
    ensures |fourierTransform| == |analogSamples| / 2 + 1
    ensures forall k :: 0 <= k < |fourierTransform| ==>
      fourierTransform[k] == DftBin(Reals(analogSamples), Api.Table(cexp, false), 1, k)
  {
    hide DftBin;
    fourierTransform := [];
    for k := 0 to |analogSamples| / 2 + 1
      invariant |fourierTransform| == k
      invariant forall j :: 0 <= j < k ==>
        fourierTransform[j] == DftBin(Reals(analogSamples), Api.Table(cexp, false), 1, j)
    {
      var sum := SpectrumBin(analogSamples, cexp, k);
      fourierTransform := fourierTransform + [sum];
    }
  }

  /** The same bins from the fast transform. */
  method FastSpectrum(analogSamples: seq<real>, cfg: Butterflies.State, ghost cexp: int -> Complex)
      returns (bins: seq<Complex>)
    requires analogSamples != [] && Api.Configured(cfg)
    requires cfg.nfft == |analogSamples| && cfg.w == Api.Table(cexp, false)
    ensures |bins| == |analogSamples| / 2 + 1
    ensures forall k :: 0 <= k < |bins| ==> bins[k] == DftBin(Reals(analogSamples), Api.Table(cexp, false), 1, k)
  {
    hide DftBin, Api.Configured, RootsOfUnity;
    var n := |analogSamples|;
    var fin, fout := new Complex[n], new Complex[n];
    for i := 0 to n
      invariant fin[..i] == Reals(analogSamples)[..i]
    {
      fin[i] := FromReal(analogSamples[i]);
    }
    assert fin[..n] == Reals(analogSamples);
    ghost var generic := Api.KissFft(cfg, fin, fout);
    bins := fout[..n / 2 + 1];
    assert forall k :: 0 <= k < |bins| ==> bins[k] == fout[..n][k];
  }

  lemma SpectrumTerm(samples: seq<real>, cexp: int -> Complex, k: int, n: nat)
    requires n < |samples|
    ensures DftTerm(Reals(samples), Api.Table(cexp, false), 1, k)(n) == Mul(FromReal(samples[n]), cexp(-(k * n)))
  {
    hide Mul;
    assert -(1 * n * k) == -(k * n);
    assert Api.Table(cexp, false)(1 * n * k) == cexp(-(k * n));
  }

  /** The spectrum the lower half stands for. */
  function Mirrored(half: seq<Complex>, n: nat): seq<Complex>
    requires n > 0 && |half| == n / 2 + 1
  {
    seq(n, k requires 0 <= k < n => if k <= n / 2 then half[k] else Conj(half[n - k]))
  }

  /** The lower half of a real signal's transform determines all of it, and its magnitudes. */
  lemma HalfSpectrumSuffices(samples: seq<real>, cexp: int -> Complex, half: seq<Complex>)
    requires RootsOfUnity(cexp, |samples|, true) && |half| == |samples| / 2 + 1
    requires forall k :: 0 <= k < |half| && k < |samples| ==>
      half[k] == DftBin(Reals(samples), Api.Table(cexp, false), 1, k)
    ensures Mirrored(half, |samples|) == Dft(Reals(samples), Api.Table(cexp, false), 1)
    ensures forall k :: 0 < k < |samples| ==>
      var X := Dft(Reals(samples), Api.Table(cexp, false), 1);
      Norm(X[|samples| - k]) == Norm(X[k])
  {
    hide Mul, Conj, Norm, DftBin, RootsOfUnity;
    var n, x, w := |samples|, Reals(samples), Api.Table(cexp, false);
    Api.TableIsValid(cexp, n, false);
    forall k | 0 < k < n
      ensures Dft(x, w, 1)[n - k] == Conj(Dft(x, w, 1)[k])
      ensures Norm(Dft(x, w, 1)[n - k]) == Norm(Dft(x, w, 1)[k])
    {
      RealSpectrumMirrors(w, n, false, x, k);
      NormConj(Dft(x, w, 1)[k]);
    }
    forall k | 0 <= k < n
      ensures Mirrored(half, n)[k] == Dft(x, w, 1)[k]
    {
      if k > n / 2 {
        RealSpectrumMirrors(w, n, false, x, n - k);
        assert n - (n - k) == k;
      }
    }
  }

  lemma NormConj(a: Complex)
    ensures Norm(Conj(a)) == Norm(a)
  {}
}
