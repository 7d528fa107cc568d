/**
 * The deposit amount on the reservation page: preset buttons add or
 * subtract a fixed sum without letting the amount go negative, the reset
 * button sets it to zero and typing sets it to the number typed.
 */
module Reservation {
  import opened Optional
  import opened Text

  /** `amountPresets`. */
  const Presets: seq<int> := [4000, 5500, 8000, 11000]

  /** The amount a page opens with, and the one the reset button sets. */
  const InitialAmount: int := 0

  /** `handleAmountChange(value, isSubtract)` applied to the previous amount: `max(0, prev ± value)`. */
  function AmountChange(prev: int, value: int, isSubtract: bool): (r: int)
    ensures r >= 0
    ensures r >= (if isSubtract then prev - value else prev + value)
    ensures r == 0 || r == (if isSubtract then prev - value else prev + value)
  {
    var next := if isSubtract then prev - value else prev + value;
    if next > 0 then next else 0
  }

  /** Adding a preset to an amount that is not negative adds exactly the preset. */
  lemma AddPresetExact(prev: int, p: int)
    requires prev >= 0 && p in Presets
    ensures AmountChange(prev, p, false) == prev + p
  {
  }

  /** Subtracting more than the amount leaves zero. */
  lemma SubtractTooMuch(prev: int, value: int)
    requires value > prev
    ensures AmountChange(prev, value, true) == 0
  {
  }

  /** Adding and then subtracting the same sum gives the amount back. */
  lemma AddThenSubtract(prev: int, value: int)
    requires prev >= 0 && value >= 0
    ensures AmountChange(AmountChange(prev, value, false), value, true) == prev
  {
  }

  /** One button of the amount panel: the sum it carries and whether it subtracts. */
  datatype AmountButton = AmountButton(value: int, isSubtract: bool)

  /** The two button rows: every preset to add, then every preset to subtract. */
  function PresetButtons(): (r: seq<AmountButton>)
    ensures |r| == 2 * |Presets|
    ensures forall p :: p in Presets ==> AmountButton(p, false) in r && AmountButton(p, true) in r
    ensures forall b :: b in r ==> b.value in Presets
  {
    var adds := seq(|Presets|, i requires 0 <= i < |Presets| => AmountButton(Presets[i], false));
    var subs := seq(|Presets|, i requires 0 <= i < |Presets| => AmountButton(Presets[i], true));
    assert forall i :: 0 <= i < |Presets| ==> adds[i] == AmountButton(Presets[i], false) && subs[i] == AmountButton(Presets[i], true);
    adds + subs
  }

  /**
   * `Number(s)` for the strings an integer field produces: surrounding white
   * space is ignored, the empty string is 0, an optional sign and decimal
   * digits give an integer, and anything else is NaN, here None.
   */
  function NumberOf(s: string): (r: Option<int>)
    ensures IsBlank(s) ==> r == Some(0)
  {
    var t := Trim(s);
    if t == [] then Some(0)
    else if t[0] == '-' && |t| > 1 && AllDigits(t[1..]) then Some(-(DigitsValue(t[1..]) as int))
    else if t[0] == '+' && |t| > 1 && AllDigits(t[1..]) then Some(DigitsValue(t[1..]) as int)
    else if AllDigits(t) then Some(DigitsValue(t) as int)
    else None
  }

  /** The amount typed into the field: `Number(value) || 0`. */
  function TypedAmount(s: string): int {
    match NumberOf(s)
    case Some(n) => n
    case None => 0
  }

  /** A nonempty run of decimal digits reads as the number it denotes. */
  lemma NumberOfDigits(d: string)
    requires d != [] && AllDigits(d)
    ensures NumberOf(d) == Some(DigitsValue(d) as int)
  {
    assert IsDigit(d[0]) && IsDigit(d[|d| - 1]);
    TrimOfTrimmed(d);
  }

  /** A minus sign before a nonempty run of digits reads as the negated number. */
  lemma NumberOfNegated(d: string)
    requires d != [] && AllDigits(d)
    ensures NumberOf("-" + d) == Some(-(DigitsValue(d) as int))
  {
    var s := "-" + d;
    assert s[1..] == d;
    assert IsDigit(d[|d| - 1]);
    assert s[|s| - 1] == d[|d| - 1];
    TrimOfTrimmed(s);
  }

  /** Typing the decimal form of any integer sets exactly that amount; negatives are kept. */
  lemma TypedAmountOfString(n: int)
    ensures TypedAmount(IntToString(n)) == n
  {
    var d := NatToDigits(if n < 0 then -n else n);
    DigitsRoundTrip(if n < 0 then -n else n);
    if n < 0 {
      assert IntToString(n) == "-" + d;
      NumberOfNegated(d);
    } else {
      assert IntToString(n) == d;
      NumberOfDigits(d);
    }
  }

  /** Input with no digit in it sets the amount to 0. */
  lemma TypedWithoutDigits(s: string)
    requires forall i :: 0 <= i < |s| ==> !IsDigit(s[i])
    ensures TypedAmount(s) == 0
  {
    var t := Trim(s);
    if t != [] {
      var p := TextStart(s);
      TrimKeeps(s, p);
      assert t[0] == s[p];
      if |t| > 1 {
        assert t[1] == s[p + 1];
        assert !AllDigits(t[1..]) by { assert t[1..][0] == t[1]; }
      }
      assert !AllDigits(t);
    }
  }
}
