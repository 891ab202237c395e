/** The CNPJ of `asaas-sandbox-e2e.js`: its two check digits, the generator and the validator. */
module Cnpj {
  import opened Prelude

  type Digit = d: int | 0 <= d < 10

  const FIRST_WEIGHTS := [5, 4, 3, 2, 9, 8, 7, 6, 5, 4, 3, 2]
  const SECOND_WEIGHTS := [6, 5, 4, 3, 2, 9, 8, 7, 6, 5, 4, 3, 2]

  /** The weighted sum of the numbers from place `k` on. */
  function Weighted(numbers: seq<int>, weights: seq<int>, k: nat): int
    requires |numbers| == |weights| && k <= |numbers|
    decreases |numbers| - k
  {
    if k == |numbers| then 0 else numbers[k] * weights[k] + Weighted(numbers, weights, k + 1)
  }

  /** `dv`: sums are never negative, so the source's `%` and this one agree. */
  function CheckDigit(sum: int): Digit {
    var rest := sum % 11;
    if rest < 2 then 0 else 11 - rest
  }

  function FirstSum(twelve: seq<Digit>): int
    requires |twelve| == 12
  {
    Weighted(twelve, FIRST_WEIGHTS, 0)
  }

  function SecondSum(twelve: seq<Digit>, first: Digit): int
    requires |twelve| == 12
  {
    Weighted(twelve + [first], SECOND_WEIGHTS, 0)
  }

  /** `digitosCnpj`. */
  function CheckDigits(twelve: seq<Digit>): (Digit, Digit)
    requires |twelve| == 12
  {
    var first := CheckDigit(FirstSum(twelve));
    (first, CheckDigit(SecondSum(twelve, first)))
  }

  predicate AllSame(numbers: seq<Digit>) {
    forall i | 0 <= i < |numbers| :: numbers[i] == numbers[0]
  }

  predicate ValidNumbers(numbers: seq<Digit>) {
    |numbers| == 14 && !AllSame(numbers) && CheckDigits(numbers[..12]) == (numbers[12], numbers[13])
  }

  function Digits(text: string): seq<Digit> {
    if text == "" then []
    else (if '0' <= text[0] <= '9' then [text[0] as int - '0' as int] else []) + Digits(text[1..])
  }

  /** `cnpjValido`: whatever is not a digit is dropped first; no value is no digits. */
  predicate Valid(value: Option<string>) {
    ValidNumbers(Digits(if value.Some? then value.value else ""))
  }

  function Written(numbers: seq<Digit>): string {
    seq(|numbers|, i requires 0 <= i < |numbers| => (numbers[i] + '0' as int) as char)
  }

  lemma {:induction false} DigitsOfWritten(numbers: seq<Digit>)
    ensures Digits(Written(numbers)) == numbers
  {
    if numbers != [] {
      DigitsOfWritten(numbers[1..]);
      assert Written(numbers)[1..] == Written(numbers[1..]);
    }
  }

  // ----- The digits by modulo 11 -----

  /** The sum of the numbers from place `k` on, each times its weight: from the right, 2 to 9 and round again. */
  function PlaceSum(numbers: seq<int>, k: nat): int
    requires k <= |numbers|
    decreases |numbers| - k
  {
    if k == |numbers| then 0 else numbers[k] * (2 + (|numbers| - 1 - k) % 8) + PlaceSum(numbers, k + 1)
  }

  /** The digit that makes a sum a multiple of 11; none would where 10 or 11 were missing, and there it is 0. */
  predicate Completes(sum: int, digit: int) {
    if sum % 11 == 0 || sum % 11 == 1 then digit == 0 else (sum + digit) % 11 == 0
  }

  lemma {:induction false} WeightsByPlace(numbers: seq<int>, weights: seq<int>, k: nat)
    requires |numbers| == |weights| && k <= |numbers|
    requires forall i | 0 <= i < |weights| :: weights[i] == 2 + (|weights| - 1 - i) % 8
    ensures Weighted(numbers, weights, k) == PlaceSum(numbers, k)
    decreases |numbers| - k
  {
    if k < |numbers| { WeightsByPlace(numbers, weights, k + 1); }
  }

  lemma BothWeightsByPlace()
    ensures forall i | 0 <= i < 12 :: FIRST_WEIGHTS[i] == 2 + (11 - i) % 8
    ensures forall i | 0 <= i < 13 :: SECOND_WEIGHTS[i] == 2 + (12 - i) % 8
  {
  }

  lemma OnlyOneCompletes(sum: int, digit: Digit)
    ensures Completes(sum, digit) <==> digit == CheckDigit(sum)
  {
  }

  lemma FirstByPlace(twelve: seq<Digit>, first: Digit)
    requires |twelve| == 12
    ensures CheckDigit(FirstSum(twelve)) == first <==> Completes(PlaceSum(twelve, 0), first)
  {
    BothWeightsByPlace();
    WeightsByPlace(twelve, FIRST_WEIGHTS, 0);
    OnlyOneCompletes(FirstSum(twelve), first);
  }

  lemma SecondByPlace(twelve: seq<Digit>, first: Digit, second: Digit)
    requires |twelve| == 12
    ensures CheckDigit(SecondSum(twelve, first)) == second <==> Completes(PlaceSum(twelve + [first], 0), second)
  {
    BothWeightsByPlace();
    WeightsByPlace(twelve + [first], SECOND_WEIGHTS, 0);
    OnlyOneCompletes(SecondSum(twelve, first), second);
  }

  /** The check digits of twelve numbers are the two that complete the sums by place. */
  lemma CheckDigitsByPlace(twelve: seq<Digit>, first: Digit, second: Digit)
    requires |twelve| == 12
    ensures CheckDigits(twelve) == (first, second)
            <==> Completes(PlaceSum(twelve, 0), first) && Completes(PlaceSum(twelve + [first], 0), second)
  {
    FirstByPlace(twelve, first);
    SecondByPlace(twelve, first, second);
  }

  /**
   * A text is a valid CNPJ exactly when it has fourteen digits, not all the same,
   * of which the thirteenth completes the sum by place of the twelve before it,
   * and the last that of the thirteen before it.
   */
  lemma ValidMeaning(text: string)
    ensures var n := Digits(text);
      Valid(Some(text)) <==>
        && |n| == 14 && (exists i, j | 0 <= i < 14 && 0 <= j < 14 :: n[i] != n[j])
        && Completes(PlaceSum(n[..12], 0), n[12]) && Completes(PlaceSum(n[..13], 0), n[13])
  {
    var n := Digits(text);
    if |n| == 14 {
      CheckDigitsByPlace(n[..12], n[12], n[13]);
      assert n[..12] + [n[12]] == n[..13];
      if i, j :| 0 <= i < 14 && 0 <= j < 14 && n[i] != n[j] { assert n[i] != n[0] || n[j] != n[0]; }
    }
  }

  /** The digits of a text, each the number its character stands for, in order; anything else is passed over. */
  lemma {:induction false} DigitsMeaning(text: string, c: char)
    ensures Digits(text + [c]) == Digits(text) + if '0' <= c && c <= '9' then [c as int - 48] else []
    ensures Digits("") == []
  {
    if text == "" {
      assert text + [c] == [c] && [c][1..] == "";
    } else {
      assert (text + [c])[1..] == text[1..] + [c];
      DigitsMeaning(text[1..], c);
    }
  }

  /** Punctuation does not matter. */
  lemma {:induction false} FormattingIsIgnored(a: string, b: string)
    requires Filter(a, c => '0' <= c <= '9') == Filter(b, c => '0' <= c <= '9')
    ensures Valid(Some(a)) <==> Valid(Some(b))
  {
    DigitsAreFiltered(a);
    DigitsAreFiltered(b);
  }

  lemma {:induction false} DigitsAreFiltered(text: string)
    ensures Digits(text) == Digits(Filter(text, c => '0' <= c <= '9'))
  {
    if text != "" {
      DigitsAreFiltered(text[1..]);
      var rest := Filter(text[1..], c => '0' <= c <= '9');
      assert ([text[0]] + rest)[1..] == rest;
    }
  }

  /**
   * `gerarCnpj`: roots are drawn until one has two different digits. `draws`
   * are the draws to come; none is returned when they end first.
   */
  method Generate(draws: seq<seq<Digit>>) returns (result: Option<string>)
    requires forall root | root in draws :: |root| == 8
    ensures result.None? <==> forall root | root in draws :: AllSame(root)
    ensures result.Some? ==>
      Valid(result) && |Digits(result.value)| == 14 && |result.value| == 14
      && Completes(PlaceSum(Digits(result.value)[..12], 0), Digits(result.value)[12])
      && Completes(PlaceSum(Digits(result.value)[..13], 0), Digits(result.value)[13])
      && exists i | 0 <= i < |draws| ::
           !AllSame(draws[i]) && (forall k | 0 <= k < i :: AllSame(draws[k])) && result.value[..12] == Written(draws[i]) + "0001"
  {
    for i := 0 to |draws|
      invariant forall k | 0 <= k < i :: AllSame(draws[k])
    {
      var root := draws[i];
      if AllSame(root) { continue; }
      var twelve := root + [0, 0, 0, 1];
      var digits := CheckDigits(twelve);
      var numbers := twelve + [digits.0, digits.1];
      result := Some(Written(numbers));
      DigitsOfWritten(numbers);
      CheckDigitsByPlace(twelve, digits.0, digits.1);
      assert numbers[..13] == twelve + [digits.0];
      assert numbers[..12] == twelve;
      assert forall k | 0 <= k < 8 :: numbers[k] == root[k];
      assert !AllSame(draws[i]) && result.value[..12] == Written(draws[i]) + "0001";
      return;
    }
    return None;
  }

  // ----- One digit changed -----

  lemma {:induction false} WeightedUpdate(numbers: seq<int>, weights: seq<int>, p: nat, d: int, k: nat)
    requires |numbers| == |weights| && p < |numbers| && k <= |numbers|
    ensures Weighted(numbers[p := d], weights, k)
         == Weighted(numbers, weights, k) + if k <= p then (d - numbers[p]) * weights[p] else 0
    decreases |numbers| - k
  {
    if k < |numbers| { WeightedUpdate(numbers, weights, p, d, k + 1); }
  }

  /** Two sums give the same check digit when their remainders are the same, or are 0 and 1. */
  lemma SameCheckDigit(a: int, b: int)
    ensures CheckDigit(a) == CheckDigit(b) <==> a % 11 == b % 11 || (a % 11 < 2 && b % 11 < 2)
  {
  }

  /** What one changed digit does to both sums. */
  lemma SumsAfterChange(twelve: seq<Digit>, first: Digit, p: nat, d: Digit)
    requires |twelve| == 12 && p < 12
    ensures FirstSum(twelve[p := d]) == FirstSum(twelve) + (d - twelve[p]) * FIRST_WEIGHTS[p]
    ensures SecondSum(twelve[p := d], first) == SecondSum(twelve, first) + (d - twelve[p]) * SECOND_WEIGHTS[p]
  {
    WeightedUpdate(twelve, FIRST_WEIGHTS, p, d, 0);
    assert twelve[p := d] + [first] == (twelve + [first])[p := d];
    WeightedUpdate(twelve + [first], SECOND_WEIGHTS, p, d, 0);
  }

  predicate TwoOrNine(difference: int) {
    difference == 2 || difference == -2 || difference == 9 || difference == -9
  }

  predicate FiveOrSix(difference: int) {
    difference == 5 || difference == -5 || difference == 6 || difference == -6
  }

  /** Modulo eleven, one up or one down. */
  predicate MovesByOne(x: int) {
    x % 11 == 1 || x % 11 == 10
  }

  /** Where one changed digit can go unnoticed: two weights that add up to eleven, and a difference that moves both remainders by one. */
  predicate CanSurvive(p: nat, difference: int) {
    ((p == 0 || p == 8) && TwoOrNine(difference)) || (p == 4 && FiveOrSix(difference))
  }

  lemma RemainderOfSum(sum: int, x: int)
    ensures (sum + x) % 11 == (sum % 11 + x % 11) % 11
  {
  }

  lemma SmallWeight(weight: int, difference: int)
    requires 2 <= weight <= 5 && -9 <= difference <= 9 && difference != 0
    ensures (difference * weight) % 11 != 0
  {
    if weight == 2 { assert difference * weight == difference * 2; }
    else if weight == 3 { assert difference * weight == difference * 3; }
    else if weight == 4 { assert difference * weight == difference * 4; }
    else { assert difference * weight == difference * 5; }
  }

  /** Eleven is prime: a weight times a difference is never a multiple of it. */
  lemma NotAMultiple(weight: int, difference: int)
    requires 2 <= weight <= 9 && -9 <= difference <= 9 && difference != 0
    ensures (difference * weight) % 11 != 0
  {
    if weight <= 5 {
      SmallWeight(weight, difference);
    } else {
      SmallWeight(11 - weight, difference);
      assert difference * (11 - weight) == 11 * difference - difference * weight;
    }
  }

  /** The difference moves the remainder, and from one of 0 and 1 to the other only by one. */
  lemma RemainderMoves(sum: int, weight: int, difference: int)
    requires 2 <= weight <= 9 && -9 <= difference <= 9 && difference != 0
    ensures (sum + difference * weight) % 11 != sum % 11
    ensures sum % 11 < 2 && (sum + difference * weight) % 11 < 2 ==> MovesByOne(difference * weight)
  {
    NotAMultiple(weight, difference);
    RemainderOfSum(sum, difference * weight);
  }

  /** Both weights of a place turn the same difference into one only at places 0, 4 and 8. */
  lemma BothMoveByOne(p: nat, difference: int)
    requires p < 12 && -9 <= difference <= 9 && difference != 0
    ensures MovesByOne(difference * FIRST_WEIGHTS[p]) && MovesByOne(difference * SECOND_WEIGHTS[p])
      <==> CanSurvive(p, difference)
  {
    if p == 0 || p == 8 {
      PairOfWeights(5, 6, difference);
    } else if p == 4 {
      PairOfWeights(9, 2, difference);
    } else {
      NeighbouringWeights(FIRST_WEIGHTS[p], difference);
    }
  }

  /** Two weights that add up to eleven are each other's opposite. */
  lemma PairOfWeights(weight: int, other: int, difference: int)
    requires ((weight == 5 && other == 6) || (weight == 9 && other == 2)) && -9 <= difference <= 9
    ensures MovesByOne(difference * weight) <==> MovesByOne(difference * other)
    ensures weight == 5 ==> (MovesByOne(difference * weight) <==> TwoOrNine(difference))
    ensures weight == 9 ==> (MovesByOne(difference * weight) <==> FiveOrSix(difference))
  {
    if weight == 5 {
      assert difference * weight == difference * 5 && difference * other == difference * 6;
    } else {
      assert difference * weight == difference * 9 && difference * other == difference * 2;
    }
  }

  /** Two values that both move by one lie a multiple of eleven, two or nine apart. */
  lemma BothMove(x: int, d: int)
    requires MovesByOne(x) && MovesByOne(x + d) && -9 <= d <= 9 && d != 0
    ensures TwoOrNine(d)
  {
  }

  lemma MovesOnlyFromFiveAndSix(weight: int, difference: int)
    requires 2 <= weight <= 9 && TwoOrNine(difference)
    ensures MovesByOne(difference * weight) ==> weight == 5 || weight == 6
  {
    if difference == 2 { assert difference * weight == 2 * weight; }
    else if difference == -2 { assert difference * weight == -2 * weight; }
    else if difference == 9 { assert difference * weight == 9 * weight; }
    else { assert difference * weight == -9 * weight; }
  }

  /** Two weights that differ by one and do not add up to eleven are never both turned into one. */
  lemma NeighbouringWeights(weight: int, difference: int)
    requires 2 <= weight <= 8 && weight != 5 && -9 <= difference <= 9 && difference != 0
    ensures !(MovesByOne(difference * weight) && MovesByOne(difference * (weight + 1)))
  {
    assert difference * (weight + 1) == difference * weight + difference;
    if MovesByOne(difference * weight) && MovesByOne(difference * weight + difference) {
      BothMove(difference * weight, difference);
      MovesOnlyFromFiveAndSix(weight, difference);
      MovesOnlyFromFiveAndSix(weight + 1, difference);
    }
  }

  predicate ZeroOrOne(sum: int) {
    sum % 11 < 2
  }

  /** Exactly when a changed digit among the first twelve leaves both check digits as they were. */
  lemma ChangeUnnoticedIff(twelve: seq<Digit>, p: nat, d: Digit)
    requires |twelve| == 12 && p < 12 && d != twelve[p]
    ensures var (first, second) := CheckDigits(twelve);
      CheckDigits(twelve[p := d]) == (first, second) <==>
        && ZeroOrOne(FirstSum(twelve)) && ZeroOrOne(FirstSum(twelve[p := d]))
        && ZeroOrOne(SecondSum(twelve, first)) && ZeroOrOne(SecondSum(twelve[p := d], first))
  {
    var first := CheckDigit(FirstSum(twelve));
    SumsAfterChange(twelve, first, p, d);
    RemainderMoves(FirstSum(twelve), FIRST_WEIGHTS[p], d - twelve[p]);
    RemainderMoves(SecondSum(twelve, first), SECOND_WEIGHTS[p], d - twelve[p]);
    SameCheckDigit(FirstSum(twelve), FirstSum(twelve[p := d]));
    SameCheckDigit(SecondSum(twelve, first), SecondSum(twelve[p := d], first));
  }

  lemma ChangedCheckDigit(numbers: seq<Digit>, p: nat, d: Digit)
    requires ValidNumbers(numbers) && 12 <= p < 14 && d != numbers[p]
    ensures !ValidNumbers(numbers[p := d])
  {
    assert numbers[p := d][..12] == numbers[..12];
  }

  /** One changed digit makes a valid number invalid, except where it can survive. */
  lemma OneChangedDigit(numbers: seq<Digit>, p: nat, d: Digit)
    requires ValidNumbers(numbers) && p < 14 && d != numbers[p] && ValidNumbers(numbers[p := d])
    ensures CanSurvive(p, d - numbers[p])
  {
    var twelve := numbers[..12];
    if p < 12 {
      assert numbers[p := d][..12] == twelve[p := d];
      var first := CheckDigits(twelve).0;
      ChangeUnnoticedIff(twelve, p, d);
      SumsAfterChange(twelve, first, p, d);
      RemainderMoves(FirstSum(twelve), FIRST_WEIGHTS[p], d - twelve[p]);
      RemainderMoves(SecondSum(twelve, first), SECOND_WEIGHTS[p], d - twelve[p]);
      BothMoveByOne(p, d - twelve[p]);
    } else {
      ChangedCheckDigit(numbers, p, d);
    }
  }

  /** A valid number that stays valid when the digit at `p` moves by the difference. */
  predicate SurvivesIn(numbers: seq<Digit>, p: nat, difference: int) {
    && p < |numbers| && 0 <= numbers[p] + difference < 10
    && ValidNumbers(numbers) && ValidNumbers(numbers[p := numbers[p] + difference])
  }

  /** Seen from the changed number, the change is the opposite one. */
  lemma SurvivesBack(numbers: seq<Digit>, p: nat, difference: int)
    requires SurvivesIn(numbers, p, difference)
    ensures SurvivesIn(numbers[p := numbers[p] + difference], p, -difference)
  {
    assert numbers[p := numbers[p] + difference][p := numbers[p]] == numbers;
  }

  /** A number whose sums both leave 0 or 1, before and after the change. */
  lemma SurvivesWithZeroes(twelve: seq<Digit>, p: nat, difference: int)
    requires |twelve| == 12 && p < 12 && 0 <= twelve[p] + difference < 10 && twelve[1] != twelve[2] && p != 1 && p != 2
    requires ZeroOrOne(FirstSum(twelve)) && ZeroOrOne(FirstSum(twelve) + difference * FIRST_WEIGHTS[p])
    requires ZeroOrOne(SecondSum(twelve, 0)) && ZeroOrOne(SecondSum(twelve, 0) + difference * SECOND_WEIGHTS[p])
    ensures SurvivesIn(twelve + [0, 0], p, difference)
  {
    var numbers, d := twelve + [0, 0], twelve[p] + difference;
    SumsAfterChange(twelve, 0, p, d);
    assert numbers[..12] == twelve && numbers[p := d][..12] == twelve[p := d];
    assert numbers[1] != numbers[2] && numbers[p := d][1] != numbers[p := d][2];
  }

  const TWO_AND_FIVE: seq<Digit> := [6, 8, 3, 8, 7, 3, 8, 0, 0, 0, 0, 1]
  const NINE_AND_SIX: seq<Digit> := [0, 0, 2, 5, 6, 2, 0, 0, 0, 0, 0, 1]

  lemma TheirSums()
    ensures FirstSum(TWO_AND_FIVE) == 232 && SecondSum(TWO_AND_FIVE, 0) == 220
    ensures FirstSum(NINE_AND_SIX) == 88 && SecondSum(NINE_AND_SIX, 0) == 56
  {
    var a: seq<int> := [6, 8, 3, 8, 7, 3, 8, 0, 0, 0, 0, 1, 0];
    var b: seq<int> := [0, 0, 2, 5, 6, 2, 0, 0, 0, 0, 0, 1, 0];
    assert TWO_AND_FIVE + [0] == a && NINE_AND_SIX + [0] == b;
    assert Weighted(a, SECOND_WEIGHTS, 0) == 220;
    assert Weighted(b, SECOND_WEIGHTS, 0) == 56;
  }

  lemma FivesAndSixesSurvive(difference: int)
    requires FiveOrSix(difference)
    ensures exists numbers: seq<Digit> :: SurvivesIn(numbers, 4, difference)
  {
    TheirSums();
    var numbers := if difference == 5 || difference == -5 then TWO_AND_FIVE else NINE_AND_SIX;
    var down := if difference == 5 || difference == -5 then -5 else -6;
    SurvivesWithZeroes(numbers, 4, down);
    SurvivesBack(numbers + [0, 0], 4, down);
  }

  lemma TwosAndNinesSurvive(p: nat, difference: int)
    requires (p == 0 || p == 8) && TwoOrNine(difference)
    ensures exists numbers: seq<Digit> :: SurvivesIn(numbers, p, difference)
  {
    TheirSums();
    var numbers := if difference == 2 || difference == -2 then TWO_AND_FIVE else NINE_AND_SIX;
    var up := if difference == 2 || difference == -2 then 2 else 9;
    SurvivesWithZeroes(numbers, p, up);
    SurvivesBack(numbers + [0, 0], p, up);
  }

  /** A digit can be changed unnoticed by a difference in exactly these places and by exactly these differences. */
  lemma SurvivesIff(p: nat, difference: int)
    requires p < 14 && difference != 0
    ensures (exists numbers: seq<Digit> :: SurvivesIn(numbers, p, difference)) <==> CanSurvive(p, difference)
  {
    if CanSurvive(p, difference) {
      if p == 4 { FivesAndSixesSurvive(difference); } else { TwosAndNinesSurvive(p, difference); }
    }
    if numbers: seq<Digit> :| SurvivesIn(numbers, p, difference) {
      OneChangedDigit(numbers, p, numbers[p] + difference);
    }
  }
}
