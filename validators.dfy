/** `CommonUtilities.isValid(strNumber:)` and `isValid(password:)`. The
    source hands a regular expression to `NSPredicate ... MATCHES`, which
    accepts when the whole string matches; each pattern is written here as
    a recogniser over the characters and tied to the pattern's meaning. */
module Validators {
  import opened Wrappers
  import opened Decimal

  // ---------------------------------------------------------- phone numbers

  /** Digit groups of the given lengths separated by single '-': the
      shape of `^\d{3}-\d{3}-\d{4}$` for groups `[3, 3, 4]`. */
  predicate MatchesGroups(s: string, groups: seq<nat>)
    decreases |groups|
  {
    if groups == [] then s == []
    else
      var g := groups[0];
      && |s| >= g
      && AllDigits(s[..g])
      && if |groups| == 1 then |s| == g
         else |s| > g && s[g] == '-' && MatchesGroups(s[g + 1..], groups[1..])
  }

  /** `isValid(strNumber:)`: `nil` is invalid, otherwise "ddd-ddd-dddd". */
  predicate IsValidNumber(strNumber: Option<string>)
  {
    strNumber.Some? && MatchesGroups(strNumber.value, [3, 3, 4])
  }

  /** Position by position: twelve characters, '-' at 3 and 7, digits elsewhere. */
  lemma ValidNumberShape(s: string)
    ensures IsValidNumber(Some(s))
        <==> |s| == 12 && s[3] == '-' && s[7] == '-'
             && forall i :: 0 <= i < 12 && i != 3 && i != 7 ==> IsDigit(s[i])
  {
    if |s| == 12 && s[3] == '-' && s[7] == '-' && forall i :: 0 <= i < 12 && i != 3 && i != 7 ==> IsDigit(s[i]) {
      assert AllDigits(s[..3]);
      assert s[4..][..3] == s[4..7];
      assert AllDigits(s[4..][..3]);
      assert s[4..][4..] == s[8..];
      assert AllDigits(s[8..]);
      assert MatchesGroups(s[8..], [4]);
      assert MatchesGroups(s[4..], [3, 4]);
    }
    if IsValidNumber(Some(s)) {
      assert [3, 3, 4][1..] == [3, 4];
      var t := s[4..];
      assert MatchesGroups(t, [3, 4]);
      assert [3, 4][1..] == [4];
      assert MatchesGroups(t[4..], [4]);
      forall i | 0 <= i < 12 && i != 3 && i != 7 ensures IsDigit(s[i]) {
        if i < 3 { assert s[..3][i] == s[i]; }
        else if i < 7 { assert t[..3][i - 4] == s[i]; }
        else { assert t[4..][..4][i - 8] == s[i]; }
      }
    }
  }

  /** Ten digits written as 3-3-4 with dashes always pass. */
  lemma FormattedNumberIsValid(ds: string)
    requires |ds| == 10 && AllDigits(ds)
    ensures IsValidNumber(Some(ds[..3] + "-" + ds[3..6] + "-" + ds[6..]))
  {
    var s := ds[..3] + "-" + ds[3..6] + "-" + ds[6..];
    forall i | 0 <= i < 12 && i != 3 && i != 7 ensures IsDigit(s[i]) {
      if i < 3 { assert s[i] == ds[i]; }
      else if i < 7 { assert s[i] == ds[i - 1]; }
      else { assert s[i] == ds[i - 2]; }
    }
    ValidNumberShape(s);
  }

  // -------------------------------------------------------------- passwords

  predicate IsLower(c: char) { 'a' <= c <= 'z' }

  predicate IsLetter(c: char) { 'a' <= c <= 'z' || 'A' <= c <= 'Z' }

  /** The class `[$@$#!%{}*?&]` of the second lookahead. */
  predicate IsLookaheadSpecial(c: char)
  {
    c == '$' || c == '@' || c == '#' || c == '!' || c == '%' || c == '{' || c == '}' || c == '*' || c == '?' || c == '&'
  }

  /** The class `[A-Za-z\d$@$#!%*?&]` every character must belong to. */
  predicate IsAllowed(c: char)
  {
    IsLetter(c) || IsDigit(c)
    || c == '$' || c == '@' || c == '#' || c == '!' || c == '%' || c == '*' || c == '?' || c == '&'
  }

  /** The meaning of `^(?=.*[a-z])(?=.*[$@$#!%{}*?&])[A-Za-z\d$@$#!%*?&]{6,}`
      matched against the whole string. */
  ghost predicate MatchesPasswordPattern(s: string)
  {
    && |s| >= 6
    && (forall i :: 0 <= i < |s| ==> IsAllowed(s[i]))
    && (exists i :: 0 <= i < |s| && IsLower(s[i]))
    && (exists i :: 0 <= i < |s| && IsLookaheadSpecial(s[i]))
  }

  /** What one left-to-right pass over a password has seen. */
  datatype Scan = Scan(allAllowed: bool, sawLower: bool, sawSpecial: bool)

  function ScanPassword(s: string): Scan
    decreases |s|
  {
    if s == [] then Scan(true, false, false)
    else
      var rest := ScanPassword(s[1..]);
      Scan(IsAllowed(s[0]) && rest.allAllowed,
           IsLower(s[0]) || rest.sawLower,
           IsLookaheadSpecial(s[0]) || rest.sawSpecial)
  }

  /** `isValid(password:)`: `nil` is invalid; otherwise at least six
      characters, all allowed, with a lower-case letter and a special one. */
  predicate IsValidPassword(password: Option<string>)
  {
    && password.Some?
    && |password.value| >= 6
    && var scan := ScanPassword(password.value);
       scan.allAllowed && scan.sawLower && scan.sawSpecial
  }

  lemma {:induction false} ScanPasswordMeaning(s: string)
    ensures ScanPassword(s).allAllowed <==> forall i :: 0 <= i < |s| ==> IsAllowed(s[i])
    ensures ScanPassword(s).sawLower <==> exists i :: 0 <= i < |s| && IsLower(s[i])
    ensures ScanPassword(s).sawSpecial <==> exists i :: 0 <= i < |s| && IsLookaheadSpecial(s[i])
    decreases |s|
  {
    if s != [] {
      var t := s[1..];
      ScanPasswordMeaning(t);
      assert forall i :: 0 <= i < |t| ==> t[i] == s[i + 1];
      if exists i :: 0 <= i < |s| && IsLower(s[i]) {
        var i :| 0 <= i < |s| && IsLower(s[i]);
        if i > 0 { assert IsLower(t[i - 1]); }
      }
      if exists i :: 0 <= i < |s| && IsLookaheadSpecial(s[i]) {
        var i :| 0 <= i < |s| && IsLookaheadSpecial(s[i]);
        if i > 0 { assert IsLookaheadSpecial(t[i - 1]); }
      }
      if exists i :: 0 <= i < |t| && IsLower(t[i]) {
        var i :| 0 <= i < |t| && IsLower(t[i]);
        assert IsLower(s[i + 1]);
      }
      if exists i :: 0 <= i < |t| && IsLookaheadSpecial(t[i]) {
        var i :| 0 <= i < |t| && IsLookaheadSpecial(t[i]);
        assert IsLookaheadSpecial(s[i + 1]);
      }
      if forall i :: 0 <= i < |s| ==> IsAllowed(s[i]) {
        assert forall i :: 0 <= i < |t| ==> IsAllowed(t[i]) by {
          forall i | 0 <= i < |t| ensures IsAllowed(t[i]) { assert t[i] == s[i + 1]; }
        }
      }
    }
  }

  /** The recogniser accepts exactly the strings the pattern matches. */
  lemma ValidPasswordMatchesPattern(s: string)
    ensures IsValidPassword(Some(s)) <==> MatchesPasswordPattern(s)
  {
    ScanPasswordMeaning(s);
  }

  /** The braces listed in the lookahead can never appear in an accepted
      password: the character class of the body does not allow them, so the
      special character is always one of `$@#!%*?&`. */
  lemma BracesNeverAccepted(s: string)
    requires IsValidPassword(Some(s))
    ensures '{' !in s && '}' !in s
    ensures exists i :: 0 <= i < |s| && s[i] in "$@#!%*?&"
  {
    ScanPasswordMeaning(s);
    var i :| 0 <= i < |s| && IsLookaheadSpecial(s[i]);
    assert IsAllowed(s[i]);
    assert s[i] in "$@#!%*?&";
  }
}
