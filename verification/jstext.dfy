/**
 Strings as the change-password script sees them.

 A Dafny `char` is a Unicode scalar value, whereas a JavaScript string is a
 sequence of UTF-16 code units. The two views hold the same information for
 well-formed text: equality agrees, the ASCII character classes agree, and
 only `length` differs, because a character above U+FFFF occupies two code
 units. `Length` below is therefore the JavaScript `length`, not `|s|`.
 */
module JsText {

  /** Number of UTF-16 code units needed for `c`. */
  function CodeUnits(c: char): nat {
    if c as int > 0xFFFF then 2 else 1
  }

  /** JavaScript `s.length`: the number of UTF-16 code units of `s`. */
  function Length(s: string): (n: nat)
    ensures |s| <= n <= 2 * |s|
    ensures n == |s| <==> forall i :: 0 <= i < |s| ==> CodeUnits(s[i]) == 1
  {
    if s == [] then 0
    else
      var n := CodeUnits(s[0]) + Length(s[1..]);
      assert forall i :: 1 <= i < |s| ==> s[i] == s[1..][i - 1];
      n
  }

  /** Prepending one character adds its code units to the length. */
  lemma LengthCons(c: char, s: string)
    ensures Length([c] + s) == CodeUnits(c) + Length(s)
  {
    assert ([c] + s)[1..] == s;
  }

  /** Appending one character adds its code units to the length. */
  lemma {:induction false} LengthSnoc(s: string, c: char)
    ensures Length(s + [c]) == Length(s) + CodeUnits(c)
  {
    if s == [] {
      assert s + [c] == [c];
      assert [c][1..] == [];
    } else {
      assert (s + [c])[0] == s[0];
      assert (s + [c])[1..] == s[1..] + [c];
      LengthSnoc(s[1..], c);
    }
  }

  // ---------------------------------------------------------------------
  // String.prototype.trim
  // ---------------------------------------------------------------------

  /** ECMAScript WhiteSpace: TAB, VT, FF, ZWNBSP and the Zs space separators. */
  predicate IsWhiteSpace(c: char) {
    || c == '\t' || c == '\U{000B}' || c == '\U{000C}' || c == '\U{FEFF}'
    || c == ' ' || c == '\U{00A0}' || c == '\U{1680}'
    || ('\U{2000}' <= c <= '\U{200A}')
    || c == '\U{202F}' || c == '\U{205F}' || c == '\U{3000}'
  }

  /** ECMAScript LineTerminator: LF, CR, LINE SEPARATOR, PARAGRAPH SEPARATOR. */
  predicate IsLineTerminator(c: char) {
    c == '\n' || c == '\r' || c == '\U{2028}' || c == '\U{2029}'
  }

  /** The characters `trim` removes from either end. */
  predicate IsTrimmable(c: char) {
    IsWhiteSpace(c) || IsLineTerminator(c)
  }

  /** True iff every character of `s` is one `trim` removes. */
  predicate AllTrimmable(s: string) {
    forall i :: 0 <= i < |s| ==> IsTrimmable(s[i])
  }

  /** `s` with its leading trimmable characters removed. */
  function TrimStart(s: string): (r: string)
    ensures |r| <= |s| && r == s[|s| - |r|..]
    ensures AllTrimmable(s[..|s| - |r|])
    ensures r == [] || !IsTrimmable(r[0])
  {
    if s != [] && IsTrimmable(s[0]) then
      var r := TrimStart(s[1..]);
      assert s[..|s| - |r|] == [s[0]] + s[1..][..|s[1..]| - |r|];
      r
    else s
  }

  /** `s` with its trailing trimmable characters removed. */
  function TrimEnd(s: string): (r: string)
    ensures |r| <= |s| && r == s[..|r|]
    ensures AllTrimmable(s[|r|..])
    ensures r == [] || !IsTrimmable(r[|r| - 1])
  {
    if s != [] && IsTrimmable(s[|s| - 1]) then
      var r := TrimEnd(s[..|s| - 1]);
      assert s[|r|..] == s[..|s| - 1][|r|..] + [s[|s| - 1]];
      r
    else s
  }

  /** JavaScript `s.trim()`: `s` without its leading and trailing white space
      and line terminators. */
  function Trim(s: string): (r: string)
    ensures |r| <= |TrimStart(s)| && r == TrimStart(s)[..|r|]
    ensures AllTrimmable(TrimStart(s)[|r|..])
    ensures r == [] || (!IsTrimmable(r[0]) && !IsTrimmable(r[|r| - 1]))
    ensures r == [] <==> AllTrimmable(s)
  {
    TrimFacts(s);
    TrimEnd(TrimStart(s))
  }

  /** What cutting both trimmable runs leaves, stated for `Trim`. */
  lemma TrimFacts(s: string)
    ensures var r := TrimEnd(TrimStart(s));
      r == [] || (!IsTrimmable(r[0]) && !IsTrimmable(r[|r| - 1]))
    ensures TrimEnd(TrimStart(s)) == [] <==> AllTrimmable(s)
  {
    var t := TrimStart(s);
    var r := TrimEnd(t);
    MiddleSlice(s, t, r);
  }

  /** Cutting trimmable runs off both ends of `s` leaves a middle slice that
      is empty exactly when all of `s` was trimmable. */
  lemma MiddleSlice(s: string, t: string, r: string)
    requires |t| <= |s| && t == s[|s| - |t|..] && AllTrimmable(s[..|s| - |t|])
    requires t == [] || !IsTrimmable(t[0])
    requires |r| <= |t| && r == t[..|r|] && AllTrimmable(t[|r|..])
    ensures r == [] || !IsTrimmable(r[0])
    ensures r == [] <==> AllTrimmable(s)
  {
    var a := |s| - |t|;
    if r == [] {
      assert t[|r|..] == t;
      assert t == [];
      forall i | 0 <= i < |s| ensures IsTrimmable(s[i]) {
        assert s[i] == s[..a][i];
      }
    } else {
      assert t[0] == r[0];
      assert s[a] == t[0];
    }
  }

  /** Trimming twice is trimming once. */
  lemma TrimIdempotent(s: string)
    ensures Trim(Trim(s)) == Trim(s)
  {
    var r := Trim(s);
    if r != [] {
      assert TrimStart(r) == r;
      assert TrimEnd(r) == r;
    }
  }

  /** A string that neither starts nor ends with white space trims to itself. */
  lemma TrimUnpadded(s: string)
    requires s != [] && !IsTrimmable(s[0]) && !IsTrimmable(s[|s| - 1])
    ensures Trim(s) == s
  {
    assert TrimStart(s) == s;
    assert TrimEnd(s) == s;
  }

  /** Trimming removes one space on each side of such a string. */
  lemma TrimPadded(s: string)
    requires s != [] && !IsTrimmable(s[0]) && !IsTrimmable(s[|s| - 1])
    ensures Trim([' '] + s + [' ']) == s
  {
    var padded := [' '] + s + [' '];
    assert padded[1..] == s + [' '];
    assert TrimStart(padded) == s + [' '];
    assert (s + [' '])[..|s|] == s;
    assert TrimEnd(s + [' ']) == s;
  }

  // ---------------------------------------------------------------------
  // The regular-expression character classes the script tests
  // ---------------------------------------------------------------------

  /** The four classes the strength estimator tests with `RegExp.test`.
      In JavaScript `\d` is always the ASCII digits `[0-9]`. */
  datatype CharClass = Lower | Upper | Digit | NonAlnum

  predicate IsAsciiLower(c: char) { 'a' <= c <= 'z' }
  predicate IsAsciiUpper(c: char) { 'A' <= c <= 'Z' }
  predicate IsAsciiDigit(c: char) { '0' <= c <= '9' }

  /** Membership of one character in a class: `[a-z]`, `[A-Z]`, `\d`, `[^A-Za-z0-9]`. */
  predicate InClass(c: char, k: CharClass) {
    match k
    case Lower => IsAsciiLower(c)
    case Upper => IsAsciiUpper(c)
    case Digit => IsAsciiDigit(c)
    case NonAlnum => !IsAsciiLower(c) && !IsAsciiUpper(c) && !IsAsciiDigit(c)
  }

  /** `/[class]/.test(s)`: the regular expression is tried at each position
      from the left until one character is in the class. A character above
      U+FFFF is two surrogate code units in JavaScript; neither is
      alphanumeric, just as the character itself is not, so the tests agree. */
  predicate Matches(s: string, k: CharClass): (b: bool)
    ensures b <==> exists i :: 0 <= i < |s| && InClass(s[i], k)
  {
    if s == [] then false
    else if InClass(s[0], k) then true
    else
      var b := Matches(s[1..], k);
      assert forall i :: 1 <= i < |s| ==> s[i] == s[1..][i - 1];
      b
  }

  /** Extending a string by one character extends the match by that character. */
  lemma MatchesSnoc(s: string, c: char, k: CharClass)
    ensures Matches(s + [c], k) <==> Matches(s, k) || InClass(c, k)
  {
    var t := s + [c];
    if Matches(t, k) && !InClass(c, k) {
      var i :| 0 <= i < |t| && InClass(t[i], k);
      assert i < |s| && s[i] == t[i];
    }
    if Matches(s, k) {
      var i :| 0 <= i < |s| && InClass(s[i], k);
      assert t[i] == s[i];
    }
    if InClass(c, k) {
      assert t[|s|] == c;
    }
  }
}
