/**
 The password strength estimator of the change-password form (`calcStrength`)
 and the strength indicator it drives (`updateStrength`): a fill percentage,
 the colour tier of the bar, and the text "Strength: <label>".
 */
module Strength {
  import opened JsText

  /** The strength label. `Placeholder` is the em dash shown for an empty field. */
  datatype Label = Placeholder | Weak | Okay | Strong

  function LabelText(l: Label): string {
    match l
    case Placeholder => "\U{2014}"
    case Weak => "Weak"
    case Okay => "Okay"
    case Strong => "Strong"
  }

  /** Colour of the filled part of the bar: the `--good`, `--okay` and `--bad` colours. */
  datatype Tier = Good | Fair | Bad

  /** The five criteria of the estimator, each worth one point. */
  datatype Criteria = Criteria(
    atLeast8: bool,
    atLeast12: bool,
    mixedCase: bool,
    digit: bool,
    symbol: bool)

  /** Which criteria a password meets. Lengths are JavaScript lengths. The
      empty password meets none, twelve code units are also eight, and mixed
      case needs at least two characters. */
  function CriteriaOf(pw: string): (c: Criteria)
    ensures pw == [] ==> c == Criteria(false, false, false, false, false)
    ensures c.atLeast12 ==> c.atLeast8
    ensures c.mixedCase ==> |pw| >= 2
  {
    Criteria(
      Length(pw) >= 8,
      Length(pw) >= 12,
      Matches(pw, Lower) && Matches(pw, Upper),
      Matches(pw, Digit),
      Matches(pw, NonAlnum))
  }

  function Bit(b: bool): nat {
    if b then 1 else 0
  }

  /** The raw score: the number of criteria met. */
  function Points(c: Criteria): nat {
    Bit(c.atLeast8) + Bit(c.atLeast12) + Bit(c.mixedCase) + Bit(c.digit) + Bit(c.symbol)
  }

  /** `c` meets every criterion `d` meets. */
  predicate Covers(c: Criteria, d: Criteria) {
    && (d.atLeast8 ==> c.atLeast8)
    && (d.atLeast12 ==> c.atLeast12)
    && (d.mixedCase ==> c.mixedCase)
    && (d.digit ==> c.digit)
    && (d.symbol ==> c.symbol)
  }

  /** `Math.round(num / den)`: the integer nearest to the quotient, halves rounded up. */
  function RoundHalfUp(num: int, den: int): (r: int)
    requires den > 0
    ensures 2 * den * r <= 2 * num + den < 2 * den * (r + 1)
  {
    (2 * num + den) / (2 * den)
  }

  /** `Math.min(100, Math.round((points / 5) * 100))`, computed on exact rationals. */
  function Percent(points: nat): (p: int)
    ensures 0 <= p <= 100
  {
    var p := RoundHalfUp(points * 100, 5);
    if p < 100 then p else 100
  }

  /** For the raw scores the estimator can produce, the percentage is exactly
      twenty per point: rounding and the cap at 100 never change it. */
  lemma PercentIsTwentyPerPoint(points: nat)
    requires points <= 5
    ensures Percent(points) == 20 * points
  {
    var r := RoundHalfUp(points * 100, 5);
    assert 10 * r <= 200 * points + 5 < 10 * (r + 1);
    assert r == 20 * points;
  }

  /** The label thresholds of `calcStrength`: never the placeholder, and each
      label covers one band of percentages. */
  function LabelFor(pct: int): (l: Label)
    ensures l != Placeholder
    ensures l == Strong <==> pct >= 80
    ensures l == Okay <==> 50 <= pct < 80
    ensures l == Weak <==> pct < 50
  {
    if pct >= 80 then Strong
    else if pct >= 50 then Okay
    else Weak
  }

  /** The colour thresholds of `updateStrength`: each tier covers one band of
      scores. */
  function TierFor(score: int): (t: Tier)
    ensures t == Good <==> score >= 80
    ensures t == Fair <==> 50 <= score < 80
    ensures t == Bad <==> score < 50
  {
    if score >= 80 then Good
    else if score >= 50 then Fair
    else Bad
  }

  /** The estimate: a percentage and a label. */
  datatype Estimate = Estimate(score: int, rating: Label)

  /** `calcStrength`: the empty password gets the placeholder and 0; any other
      password gets twenty per criterion met and a label by threshold. */
  function CalcStrength(pw: string): (e: Estimate)
    ensures e.rating == Placeholder <==> pw == []
    ensures pw == [] ==> e.score == 0
    ensures pw != [] ==> e.score == 20 * Points(CriteriaOf(pw))
    ensures 0 <= e.score <= 100 && e.score % 20 == 0
  {
    if pw == [] then Estimate(0, Placeholder)
    else
      var points := Points(CriteriaOf(pw));
      PercentIsTwentyPerPoint(points);
      var pct := Percent(points);
      Estimate(pct, LabelFor(pct))
  }

  /** For a non-empty password the label is decided by the percentage alone:
      `Strong` from 80, `Okay` from 50 below 80, `Weak` below 50. */
  lemma LabelThresholds(pw: string)
    requires pw != []
    ensures CalcStrength(pw).rating == Strong <==> CalcStrength(pw).score >= 80
    ensures CalcStrength(pw).rating == Okay <==> 50 <= CalcStrength(pw).score < 80
    ensures CalcStrength(pw).rating == Weak <==> CalcStrength(pw).score < 50
  {
  }

  /** Because the percentage moves in steps of twenty, a non-empty password is
      `Strong` with four or five criteria, `Okay` with exactly three, and
      `Weak` with two or fewer, including none at all. */
  lemma LabelByCriteriaCount(pw: string)
    requires pw != []
    ensures CalcStrength(pw).rating == Strong <==> Points(CriteriaOf(pw)) >= 4
    ensures CalcStrength(pw).rating == Okay <==> Points(CriteriaOf(pw)) == 3
    ensures CalcStrength(pw).rating == Weak <==> Points(CriteriaOf(pw)) <= 2
  {
  }

  /** The inclusive boundaries of the label thresholds. */
  lemma LabelBoundaries()
    ensures LabelFor(80) == Strong && LabelFor(79) == Okay
    ensures LabelFor(50) == Okay && LabelFor(49) == Weak
  {
  }

  /** The bar colour and the label use the same thresholds, so for a non-empty
      password they always agree; an empty password shows the placeholder
      over a bar in the `--bad` colour. */
  lemma TierAgreesWithLabel(pw: string)
    ensures pw != [] ==>
      (TierFor(CalcStrength(pw).score) == Good <==> CalcStrength(pw).rating == Strong)
    ensures pw != [] ==>
      (TierFor(CalcStrength(pw).score) == Fair <==> CalcStrength(pw).rating == Okay)
    ensures pw != [] ==>
      (TierFor(CalcStrength(pw).score) == Bad <==> CalcStrength(pw).rating == Weak)
    ensures pw == [] ==> TierFor(CalcStrength(pw).score) == Bad
  {
  }

  /** Meeting more criteria never lowers the score. */
  lemma ScoreMonotone(a: string, b: string)
    requires Covers(CriteriaOf(b), CriteriaOf(a))
    ensures CalcStrength(a).score <= CalcStrength(b).score
  {
    if a != [] && b == [] {
      assert !Matches(b, Lower) && !Matches(b, Digit) && !Matches(b, NonAlnum);
    }
  }

  /** A length of twelve alone meets two criteria, so it scores at least 40. */
  lemma TwelveLongScoresAtLeastForty(pw: string)
    requires Length(pw) >= 12
    ensures CalcStrength(pw).score >= 40
  {
  }

  /** Mixed case needs both cases: eight lower-case letters meet only the
      length criterion, and so do eight upper-case letters. */
  lemma OneCaseIsNotMixed()
    ensures CalcStrength("abcdefgh") == Estimate(20, Weak)
    ensures CalcStrength("ABCDEFGH") == Estimate(20, Weak)
  {
    var lower, upper := "abcdefgh", "ABCDEFGH";
    OnlyLettersOfOneCase(lower, Lower);
    OneCriterionIsWeak(lower);
    OnlyLettersOfOneCase(upper, Upper);
    OneCriterionIsWeak(upper);
  }

  /** A password meeting only the length-8 criterion scores 20, `Weak`. */
  lemma OneCriterionIsWeak(pw: string)
    requires CriteriaOf(pw) == Criteria(true, false, false, false, false)
    ensures CalcStrength(pw) == Estimate(20, Weak)
  {
    assert pw != [];
  }

  /** A password of eight to eleven ASCII letters of one case meets exactly one criterion. */
  lemma OnlyLettersOfOneCase(pw: string, k: CharClass)
    requires 8 <= |pw| < 12
    requires k == Lower || k == Upper
    requires forall i :: 0 <= i < |pw| ==> InClass(pw[i], k)
    ensures CriteriaOf(pw) == Criteria(true, false, false, false, false)
  {
    assert Length(pw) == |pw|;
    assert !Matches(pw, if k == Lower then Upper else Lower);
    assert !Matches(pw, Digit);
    assert !Matches(pw, NonAlnum);
  }

  /** A non-empty password that meets no criterion is `Weak`, not the placeholder. */
  lemma ShortPlainIsWeak()
    ensures CalcStrength("abc") == Estimate(0, Weak)
  {
    assert !Matches("abc", Upper) && !Matches("abc", Digit) && !Matches("abc", NonAlnum);
  }

  /** Four characters above U+FFFF are eight UTF-16 code units, so they meet
      the length-8 criterion as well as the symbol one. */
  lemma AstralCharactersCountTwice()
    ensures CalcStrength("\U{1F600}\U{1F600}\U{1F600}\U{1F600}") == Estimate(40, Weak)
  {
    var pw := "\U{1F600}\U{1F600}\U{1F600}\U{1F600}";
    assert Length(pw) == 8;
    assert InClass(pw[0], NonAlnum);
    assert !Matches(pw, Lower) && !Matches(pw, Digit);
  }

  /** What `updateStrength` shows: the bar's fill, its colour, and the text. */
  datatype Indicator = Indicator(fill: int, tier: Tier, text: string)
  /** `updateStrength`: the bar is filled to the estimate's percentage and
      coloured by the same thresholds as the label; an empty field shows an
      empty `--bad` bar and the placeholder. */
  function UpdateStrength(pw: string): (ind: Indicator)
    ensures ind.fill == CalcStrength(pw).score && 0 <= ind.fill <= 100
    ensures pw != [] ==> (ind.tier == Good <==> CalcStrength(pw).rating == Strong)
    ensures pw != [] ==> (ind.tier == Fair <==> CalcStrength(pw).rating == Okay)
    ensures pw != [] ==> (ind.tier == Bad <==> CalcStrength(pw).rating == Weak)
    ensures ind.text == "Strength: " + LabelText(CalcStrength(pw).rating)
    ensures pw == [] ==> ind == Indicator(0, Bad, "Strength: \U{2014}")
  {
    var e := CalcStrength(pw);
    Indicator(e.score, TierFor(e.score), "Strength: " + LabelText(e.rating))
  }

  /** One pass over the password, the way the length and the four regular
      expressions read it: its JavaScript length and which classes occur. */
  method Scan(pw: string) returns (len: nat, lower: bool, upper: bool, digit: bool, symbol: bool)
    ensures len == Length(pw)
    ensures lower == Matches(pw, Lower) && upper == Matches(pw, Upper)
    ensures digit == Matches(pw, Digit) && symbol == Matches(pw, NonAlnum)
  {
    len, lower, upper, digit, symbol := 0, false, false, false, false;
    var i := 0;
    while i < |pw|
      invariant 0 <= i <= |pw|
      invariant len == Length(pw[..i])
      invariant lower == Matches(pw[..i], Lower)
      invariant upper == Matches(pw[..i], Upper)
      invariant digit == Matches(pw[..i], Digit)
      invariant symbol == Matches(pw[..i], NonAlnum)
    {
      var c := pw[i];
      assert pw[..i + 1] == pw[..i] + [c];
      LengthSnoc(pw[..i], c);
      MatchesSnoc(pw[..i], c, Lower);
      MatchesSnoc(pw[..i], c, Upper);
      MatchesSnoc(pw[..i], c, Digit);
      MatchesSnoc(pw[..i], c, NonAlnum);
      len := len + CodeUnits(c);
      lower := lower || InClass(c, Lower);
      upper := upper || InClass(c, Upper);
      digit := digit || InClass(c, Digit);
      symbol := symbol || InClass(c, NonAlnum);
      i := i + 1;
    }
    assert pw[..i] == pw;
  }

  /** `calcStrength` computed from one pass over the password, agreeing with
      `CalcStrength`. */
  method EstimateStrength(pw: string) returns (e: Estimate)
    ensures e == CalcStrength(pw)
  {
    if pw == [] {
      return Estimate(0, Placeholder);
    }
    var len, lower, upper, digit, symbol := Scan(pw);
    assert CriteriaOf(pw) == Criteria(len >= 8, len >= 12, lower && upper, digit, symbol);
    var score := 0;
    if len >= 8 { score := score + 1; }
    if len >= 12 { score := score + 1; }
    if lower && upper { score := score + 1; }
    if digit { score := score + 1; }
    if symbol { score := score + 1; }
    var pct := 20 * score;
    var rating := if pct >= 80 then Strong else if pct >= 50 then Okay else Weak;
    e := Estimate(pct, rating);
  }
}
