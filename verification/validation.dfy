/**
 Client-side validation of the change-password form (`validate`).

 Five independent rules are checked in a fixed order and every violated one is
 reported; the form is accepted exactly when none is. Only the current
 password is trimmed: the new password and its confirmation are used as typed.
 */
module Validation {
  import opened JsText

  /** The five rules, in the order their messages are pushed. */
  datatype Violation = CurrentMissing | NewMissing | TooShort | Mismatch | SameAsCurrent

  /** The minimum JavaScript length of a new password. */
  const MinLength: nat := 8

  /** The text listed for each rule. Every text is one sentence, and the
      minimum-length text names the minimum the rule enforces. */
  function Message(v: Violation): (m: string)
    ensures |m| > 1 && m[|m| - 1] == '.'
    ensures v == TooShort ==>
      m == "New password must be at least " + [('0' as int + MinLength) as char] + " characters."
  {
    match v
    case CurrentMissing => "Enter your current password."
    case NewMissing => "Enter a new password."
    case TooShort => "New password must be at least 8 characters."
    case Mismatch => "New password and confirmation do not match."
    case SameAsCurrent => "New password must be different from the current password."
  }

  /** No two rules share a text, so the listed messages identify the rules. */
  lemma MessagesDistinct(v: Violation, w: Violation)
    ensures Message(v) == Message(w) <==> v == w
  {
    if Message(v) == Message(w) {
      assert |Message(CurrentMissing)| == 28 && |Message(NewMissing)| == 21;
      assert |Message(TooShort)| == 43 && Message(TooShort)[13] == 'm';
      assert |Message(Mismatch)| == 43 && Message(Mismatch)[13] == 'a';
      assert |Message(SameAsCurrent)| == 57;
      assert |Message(v)| == |Message(w)| && Message(v)[13] == Message(w)[13];
    }
  }

  /** Position of a rule in the report. */
  function Rank(v: Violation): nat {
    match v
    case CurrentMissing => 0
    case NewMissing => 1
    case TooShort => 2
    case Mismatch => 3
    case SameAsCurrent => 4
  }

  /** Ranks strictly increase along `errs`. */
  predicate InReportOrder(errs: seq<Violation>) {
    forall i, j :: 0 <= i < j < |errs| ==> Rank(errs[i]) < Rank(errs[j])
  }

  /** Every rule in `errs` comes before `v` in the report. */
  predicate AllBefore(errs: seq<Violation>, v: Violation) {
    forall i :: 0 <= i < |errs| ==> Rank(errs[i]) < Rank(v)
  }

  /** `if (violated) errs.push(v)`. */
  function PushIf(errs: seq<Violation>, violated: bool, v: Violation): (r: seq<Violation>)
    requires InReportOrder(errs) && AllBefore(errs, v)
    ensures InReportOrder(r)
    ensures forall w :: Rank(w) > Rank(v) ==> AllBefore(r, w)
    ensures forall w :: w in r <==> w in errs || (violated && w == v)
  {
    if violated then errs + [v] else errs
  }

  /** The violations whose flag is set, in report order: the five
      `if (...) errs.push(...)` statements of `validate` with their conditions
      already evaluated. */
  function Collect(currentMissing: bool, newMissing: bool, tooShort: bool, mismatch: bool,
                   sameAsCurrent: bool): (errs: seq<Violation>)
    ensures InReportOrder(errs)
    ensures CurrentMissing in errs <==> currentMissing
    ensures NewMissing in errs <==> newMissing
    ensures TooShort in errs <==> tooShort
    ensures Mismatch in errs <==> mismatch
    ensures SameAsCurrent in errs <==> sameAsCurrent
  {
    var e0 := PushIf([], currentMissing, CurrentMissing);
    var e1 := PushIf(e0, newMissing, NewMissing);
    var e2 := PushIf(e1, tooShort, TooShort);
    var e3 := PushIf(e2, mismatch, Mismatch);
    PushIf(e3, sameAsCurrent, SameAsCurrent)
  }

  /** `validate`: the violations of the form's three fields, in report order.
      Only the current password is trimmed. */
  function Validate(current: string, newPw: string, confirm: string): (errs: seq<Violation>)
    ensures InReportOrder(errs)
    ensures CurrentMissing in errs <==> AllTrimmable(current)
    ensures NewMissing in errs <==> newPw == []
    ensures TooShort in errs <==> 0 < Length(newPw) < MinLength
    ensures Mismatch in errs <==> newPw != [] && confirm != [] && newPw != confirm
    ensures SameAsCurrent in errs <==> newPw != [] && Trim(current) == newPw
  {
    var cur := Trim(current);
    Collect(
      cur == [],
      newPw == [],
      newPw != [] && Length(newPw) < MinLength,
      newPw != [] && confirm != [] && newPw != confirm,
      cur != [] && newPw != [] && cur == newPw)
  }

  /** The form is accepted when `validate` reports nothing. */
  predicate Accepts(current: string, newPw: string, confirm: string) {
    Validate(current, newPw, confirm) == []
  }

  /** Acceptance in closed form: a current password with something besides
      white space, a new password at least 8 code units long, a confirmation
      that is empty or equal to it, and a new password different from the
      trimmed current one. */
  lemma AcceptsIff(current: string, newPw: string, confirm: string)
    ensures Accepts(current, newPw, confirm) <==>
      && !AllTrimmable(current)
      && Length(newPw) >= MinLength
      && (confirm == [] || confirm == newPw)
      && Trim(current) != newPw
  {
    var errs := Validate(current, newPw, confirm);
    if errs != [] {
      assert errs[0] in errs;
    }
  }

  /** In a list whose ranks strictly increase, the rank at position `i` is at least `i`. */
  lemma {:induction false} RankAtLeastPosition(errs: seq<Violation>, i: nat)
    requires InReportOrder(errs)
    requires i < |errs|
    ensures Rank(errs[i]) >= i
  {
    if i > 0 {
      RankAtLeastPosition(errs, i - 1);
    }
  }

  /** No message is reported twice, and there are at most five. */
  lemma NoRepeatedViolation(current: string, newPw: string, confirm: string)
    ensures |Validate(current, newPw, confirm)| <= 5
    ensures forall i, j :: 0 <= i < j < |Validate(current, newPw, confirm)| ==>
      Validate(current, newPw, confirm)[i] != Validate(current, newPw, confirm)[j]
  {
    var errs := Validate(current, newPw, confirm);
    if errs != [] {
      RankAtLeastPosition(errs, |errs| - 1);
    }
  }

  /** An empty new password is reported as missing and never as too short,
      mismatched or equal to the current one. */
  lemma EmptyNewIsOnlyMissing(current: string, confirm: string)
    ensures NewMissing in Validate(current, [], confirm)
    ensures TooShort !in Validate(current, [], confirm)
    ensures Mismatch !in Validate(current, [], confirm)
    ensures SameAsCurrent !in Validate(current, [], confirm)
  {
  }

  /** A new password shorter than 8 code units, empty or not, is always rejected. */
  lemma ShortNewRejected(current: string, newPw: string, confirm: string)
    requires Length(newPw) < MinLength
    ensures !Accepts(current, newPw, confirm)
  {
    AcceptsIff(current, newPw, confirm);
  }

  /** An empty confirmation is tolerated: it never causes a mismatch. */
  lemma EmptyConfirmTolerated(current: string, newPw: string)
    ensures Mismatch !in Validate(current, newPw, [])
    ensures Length(newPw) >= MinLength && Trim(current) != newPw && !AllTrimmable(current) ==>
      Accepts(current, newPw, [])
  {
    AcceptsIff(current, newPw, []);
  }

  /** A report is determined by which rules it contains: two lists in report
      order with the same members are the same list. */
  lemma {:induction false} ReportFromMembers(errs: seq<Violation>, expected: seq<Violation>)
    requires InReportOrder(errs) && InReportOrder(expected)
    requires forall w :: w in errs <==> w in expected
    ensures errs == expected
  {
    NoMembersIsEmpty(errs);
    NoMembersIsEmpty(expected);
    if errs != [] {
      HeadHasLeastRank(errs, expected[0]);
      HeadHasLeastRank(expected, errs[0]);
      RankInjective(errs[0], expected[0]);
      forall w ensures w in errs[1..] <==> w in expected[1..] {
        TailMembers(errs, w);
        TailMembers(expected, w);
      }
      ReportFromMembers(errs[1..], expected[1..]);
      assert errs == [errs[0]] + errs[1..];
      assert expected == [expected[0]] + expected[1..];
    }
  }

  /** Different rules have different ranks. */
  lemma RankInjective(v: Violation, w: Violation)
    requires Rank(v) == Rank(w)
    ensures v == w
  {
  }

  /** The first rule of a report in rule order has the least rank in it. */
  lemma HeadHasLeastRank(errs: seq<Violation>, w: Violation)
    requires InReportOrder(errs) && w in errs
    ensures Rank(errs[0]) <= Rank(w)
  {
    var i :| 0 <= i < |errs| && errs[i] == w;
    if i > 0 {
      assert Rank(errs[0]) < Rank(errs[i]);
    }
  }

  /** After the first rule of a report in rule order come all the others. */
  lemma TailMembers(errs: seq<Violation>, w: Violation)
    requires InReportOrder(errs) && errs != []
    ensures InReportOrder(errs[1..])
    ensures w in errs[1..] <==> w in errs && w != errs[0]
  {
    if w in errs[1..] {
      var j :| 0 <= j < |errs| - 1 && errs[1..][j] == w;
      assert errs[j + 1] == w;
      assert Rank(errs[0]) < Rank(errs[j + 1]);
    }
    if w in errs && w != errs[0] {
      var i :| 0 <= i < |errs| && errs[i] == w;
      assert errs[1..][i - 1] == w;
    }
  }

  /** A list is empty exactly when nothing is in it. */
  lemma NoMembersIsEmpty(errs: seq<Violation>)
    ensures errs == [] <==> forall w :: w !in errs
  {
    if errs != [] {
      assert errs[0] in errs;
    }
  }

  /** The report for given fields, from the rules they break; `cur` stands
      for the trimmed current password. */
  lemma ReportIs(current: string, newPw: string, confirm: string, cur: string,
                 expected: seq<Violation>)
    requires cur == Trim(current) && InReportOrder(expected)
    requires CurrentMissing in expected <==> cur == []
    requires NewMissing in expected <==> newPw == []
    requires TooShort in expected <==> 0 < Length(newPw) < MinLength
    requires Mismatch in expected <==> newPw != [] && confirm != [] && newPw != confirm
    requires SameAsCurrent in expected <==> newPw != [] && cur == newPw
    ensures Validate(current, newPw, confirm) == expected
  {
    var errs := Validate(current, newPw, confirm);
    forall w ensures w in errs <==> w in expected {
      match w
      case CurrentMissing =>
      case NewMissing =>
      case TooShort =>
      case Mismatch =>
      case SameAsCurrent =>
    }
    ReportFromMembers(errs, expected);
  }

  /** A confirmation that differs from an empty new password is not a
      mismatch: only the missing new password is reported. */
  lemma MismatchNeedsNewPassword()
    ensures Validate("x", "", "abc") == [NewMissing]
  {
    TrimUnpadded("x");
    ReportIs("x", "", "abc", "x", [NewMissing]);
  }

  /** A current password of white space only counts as missing, whatever
      else is right with the form. */
  lemma WhitespaceCurrentIsMissing(current: string, newPw: string)
    requires AllTrimmable(current) && Length(newPw) >= MinLength
    ensures Validate(current, newPw, newPw) == [CurrentMissing]
  {
    ReportIs(current, newPw, newPw, [], [CurrentMissing]);
  }

  /** The current password is trimmed before it is compared with the new
      one: padding the current password with spaces still makes it equal to
      the new one. */
  lemma PaddedCurrentEqualsNew(p: string)
    requires p != [] && !IsTrimmable(p[0]) && !IsTrimmable(p[|p| - 1])
    requires Length(p) >= MinLength
    ensures Validate([' '] + p + [' '], p, p) == [SameAsCurrent]
  {
    TrimPadded(p);
    ReportIs([' '] + p + [' '], p, p, p, [SameAsCurrent]);
  }

  /** The new password is not trimmed: a leading space makes it differ from
      the current one, and the padded password is accepted as typed. */
  lemma PaddedNewDiffers(p: string)
    requires p != [] && !IsTrimmable(p[0]) && !IsTrimmable(p[|p| - 1])
    requires Length(p) >= MinLength
    ensures Validate(p, [' '] + p, [' '] + p) == []
  {
    TrimUnpadded(p);
    LengthCons(' ', p);
    assert ([' '] + p)[0] != p[0];
    ReportIs(p, [' '] + p, [' '] + p, p, []);
  }

  /** A well-formed request passes validation. */
  lemma ScenarioAccepted()
    ensures Accepts("oldPass1", "NewPass123!", "NewPass123!")
  {
    TrimUnpadded("oldPass1");
    assert Length("NewPass123!") == 11;
    assert "oldPass1"[0] != "NewPass123!"[0];
    ReportIs("oldPass1", "NewPass123!", "NewPass123!", "oldPass1", []);
  }

  /** A short new password with a matching confirmation gets exactly the length message. */
  lemma ScenarioTooShort()
    ensures Validate("x", "short", "short") == [TooShort]
  {
    TrimUnpadded("x");
    assert Length("short") == 5;
    ReportIs("x", "short", "short", "x", [TooShort]);
  }
}
