/** The string helpers of `CommonUtilities.swift`: `toBool`, the nil-or-empty
    test, `getColonSeparatedID` (with `components(separatedBy:)` and its
    inverse), `concat` and the masking encoder `getEncodedString`. A Swift
    `String` is a sequence of characters here. */
module StringHelpers {
  import opened Wrappers

  // ---------------------------------------------------------------- toBool

  /** The spellings `String.toBool` accepts as true. */
  const TrueWords: set<string> := {"True", "true", "yes", "YES", "Yes", "1"}

  /** The spellings its switch lists as false; they behave like any other string. */
  const FalseWords: set<string> := {"False", "false", "no", "NO", "No", "0"}

  /** `String.toBool`: a three-armed switch whose second and default arms
      both give false. */
  predicate ToBool(s: string)
  {
    if s == "True" || s == "true" || s == "yes" || s == "YES" || s == "Yes" || s == "1" then true
    else if s == "False" || s == "false" || s == "no" || s == "NO" || s == "No" || s == "0" then false
    else false
  }

  /** True exactly for the six listed spellings; the explicit false words
      and every unlisted string give false. */
  lemma ToBoolAcceptsExactlyTrueWords(s: string)
    ensures ToBool(s) <==> s in TrueWords
    ensures s in FalseWords ==> !ToBool(s)
  {
  }

  /** `Optional<String>.toBool`: `nil` is false, otherwise the string's `toBool`. */
  predicate OptionalToBool(s: Option<string>)
  {
    s.Some? && ToBool(s.value)
  }

  lemma OptionalToBoolAcceptsExactlyTrueWords(s: Option<string>)
    ensures OptionalToBool(s) <==> s.Some? && s.value in TrueWords
  {
    if s.Some? { ToBoolAcceptsExactlyTrueWords(s.value); }
  }

  // ------------------------------------------------------- nil-or-empty test

  /** `Optional<String>.isOptionalStringNilOrEmpty`: `(self ?? "").isEmpty`. */
  predicate IsNilOrEmpty(s: Option<string>)
  {
    s.GetOr("") == ""
  }

  // ------------------------------------------------ components(separatedBy:)

  /** Index of the first `c` in `s`, or `|s|` when there is none. */
  function FirstIndex(s: string, c: char): (i: nat)
    ensures i <= |s|
    ensures c !in s[..i]
    ensures i < |s| ==> s[i] == c
    decreases |s|
  {
    if s == [] then 0
    else if s[0] == c then 0
    else
      var j := FirstIndex(s[1..], c);
      assert s[1..][..j] == s[1..j + 1];
      assert s[..j + 1] == [s[0]] + s[1..][..j];
      1 + j
  }

  /** The first occurrence of `c` is the only index holding `c` with none before it. */
  lemma FirstIndexUnique(s: string, c: char, i: nat)
    requires i < |s| && s[i] == c && c !in s[..i]
    ensures FirstIndex(s, c) == i
  {
  }

  /** Joins pieces with `sep` between consecutive pieces. */
  function Join(parts: seq<string>, sep: char): string
    requires |parts| >= 1
    decreases |parts|
  {
    if |parts| == 1 then parts[0] else parts[0] + [sep] + Join(parts[1..], sep)
  }

  /** `String.components(separatedBy:)` for a one-character separator: the
      pieces between separators, in order; the empty string gives `[""]`.
      Joining the pieces back gives the string. */
  function Split(s: string, sep: char): (parts: seq<string>)
    ensures |parts| >= 1
    ensures forall k :: 0 <= k < |parts| ==> sep !in parts[k]
    ensures Join(parts, sep) == s
    ensures sep !in s ==> parts == [s]
    decreases |s|
  {
    var i := FirstIndex(s, sep);
    if i == |s| then
      assert s[..i] == s;
      [s]
    else
      var rest := Split(s[i + 1..], sep);
      assert s == s[..i] + [sep] + s[i + 1..];
      [s[..i]] + rest
  }

  /** Splitting undoes joining when no piece holds the separator. */
  lemma {:induction false} SplitJoin(parts: seq<string>, sep: char)
    requires |parts| >= 1
    requires forall k :: 0 <= k < |parts| ==> sep !in parts[k]
    ensures Split(Join(parts, sep), sep) == parts
    decreases |parts|
  {
    if |parts| == 1 {
    } else {
      var s := Join(parts, sep);
      var p := parts[0];
      assert s == p + [sep] + Join(parts[1..], sep);
      assert s[..|p|] == p;
      FirstIndexUnique(s, sep, |p|);
      assert s[|p| + 1..] == Join(parts[1..], sep);
      SplitJoin(parts[1..], sep);
    }
  }

  // --------------------------------------------------- getColonSeparatedID

  /** `r` is the text that starts at `start` in `s` and runs up to the next
      ':' or to the end. */
  predicate IsFieldAt(s: string, start: nat, r: string)
  {
    && start + |r| <= |s|
    && s[start..start + |r|] == r
    && ':' !in r
    && (start + |r| == |s| || s[start + |r|] == ':')
  }

  /** `String.getColonSeparatedID`: the second ':'-separated component when
      there are at least two, otherwise the first (which is then the whole
      string). */
  function ColonSeparatedId(s: string): (r: string)
    ensures ':' !in s ==> r == s
    ensures forall i :: 0 <= i < |s| && s[i] == ':' && ':' !in s[..i] ==> IsFieldAt(s, i + 1, r)
  {
    var components := Split(s, ':');
    assert forall i :: 0 <= i < |s| && s[i] == ':' && ':' !in s[..i] ==> |components| >= 2 && IsFieldAt(s, i + 1, components[1]) by {
      forall i | 0 <= i < |s| && s[i] == ':' && ':' !in s[..i]
        ensures |components| >= 2 && IsFieldAt(s, i + 1, components[1])
      {
        SecondComponentAfterColon(s, i);
      }
    }
    if |components| >= 2 then components[1] else components[0]
  }

  /** The first component of a split is the text before the first separator. */
  lemma SplitAt(s: string, sep: char)
    ensures var i := FirstIndex(s, sep);
      && Split(s, sep)[0] == s[..i]
      && (i < |s| ==> Split(s, sep) == [s[..i]] + Split(s[i + 1..], sep))
  {
  }

  /** The text from `start` up to the next ':' (or the end) is a field. */
  lemma FieldFrom(s: string, start: nat)
    requires start <= |s|
    ensures var tail := s[start..]; IsFieldAt(s, start, tail[..FirstIndex(tail, ':')])
  {
    var tail := s[start..];
    var j := FirstIndex(tail, ':');
    assert s[start..start + j] == tail[..j];
    if j < |tail| { assert s[start + j] == tail[j]; }
  }

  /** After the first ':' at `i`, the second component is the field that starts at `i + 1`. */
  lemma SecondComponentAfterColon(s: string, i: nat)
    requires i < |s| && s[i] == ':' && ':' !in s[..i]
    ensures |Split(s, ':')| >= 2 && IsFieldAt(s, i + 1, Split(s, ':')[1])
  {
    FirstIndexUnique(s, ':', i);
    var tail := s[i + 1..];
    SplitAt(s, ':');
    SplitAt(tail, ':');
    assert Split(s, ':')[1] == Split(tail, ':')[0];
    FieldFrom(s, i + 1);
  }

  // ----------------------------------------------------------------- concat

  /** `CommonUtilities.concat(str1:str2:separator:)`: both present and
      non-empty gives them joined by the separator; otherwise whichever one
      is non-empty; otherwise `nil`. */
  function Concat(str1: Option<string>, str2: Option<string>, separator: string): (r: Option<string>)
    ensures !IsNilOrEmpty(str1) && !IsNilOrEmpty(str2) ==> r == Some(str1.value + separator + str2.value)
    ensures !IsNilOrEmpty(str1) && IsNilOrEmpty(str2) ==> r == str1
    ensures IsNilOrEmpty(str1) && !IsNilOrEmpty(str2) ==> r == str2
    ensures r.None? <==> IsNilOrEmpty(str1) && IsNilOrEmpty(str2)
  {
    if !IsNilOrEmpty(str1) && !IsNilOrEmpty(str2) then Some(str1.value + separator + str2.value)
    else if !IsNilOrEmpty(str1) then str1
    else if !IsNilOrEmpty(str2) then str2
    else None
  }

  /** `concat` never yields an empty string, and an empty string is treated
      exactly like `nil`. */
  lemma ConcatNilLikeEmpty(str1: Option<string>, str2: Option<string>, separator: string)
    ensures Concat(str1, str2, separator) != Some("")
    ensures Concat(str1, str2, separator) == Concat(Some(str1.GetOr("")), Some(str2.GetOr("")), separator)
  {
  }

  /** With both parts present, the result starts with the first and ends
      with the second. */
  lemma ConcatKeepsBothEnds(s1: string, s2: string, separator: string)
    requires s1 != "" && s2 != ""
    ensures var r := Concat(Some(s1), Some(s2), separator).value;
      |r| == |s1| + |separator| + |s2| && r[..|s1|] == s1 && r[|r| - |s2|..] == s2
  {
    var r := Concat(Some(s1), Some(s2), separator).value;
    assert r == s1 + separator + s2;
    assert r[..|s1|] == s1;
    assert r[|r| - |s2|..] == s2;
  }

  // ------------------------------------------------------- getEncodedString

  function Repeat(c: char, n: nat): (r: string)
    ensures |r| == n && forall i :: 0 <= i < n ==> r[i] == c
  {
    seq(n, _ => c)
  }

  /** `CommonUtilities.getEncodedString(from:)`: with `k = count / 4`, a string
      shorter than 4 is returned as it is; otherwise the characters between
      the first `k` and the last `k` are each replaced by 'X'. */
  function EncodedString(s: string): (r: string)
    ensures |r| == |s|
    ensures |s| < 4 ==> r == s
    ensures var k := |s| / 4; r[..k] == s[..k] && r[|s| - k..] == s[|s| - k..]
    ensures var k := |s| / 4; k > 0 ==> forall i :: k <= i < |s| - k ==> r[i] == 'X'
  {
    var k := |s| / 4;
    if k == 0 then s
    else
      var startLocation := k;
      var endLocation := |s| - (k + 1);
      var r := s[..startLocation] + Repeat('X', endLocation - startLocation + 1) + s[endLocation + 1..];
      assert r[..k] == s[..k];
      assert r[|s| - k..] == s[|s| - k..];
      r
  }

  /** Masking an already masked string changes nothing. */
  lemma EncodedStringIdempotent(s: string)
    ensures EncodedString(EncodedString(s)) == EncodedString(s)
  {
    var r := EncodedString(s);
    var rr := EncodedString(r);
    var k := |s| / 4;
    if k > 0 {
      forall i | 0 <= i < |s| ensures rr[i] == r[i] {
        if i < k {
          assert rr[..k][i] == r[..k][i];
        } else if i >= |s| - k {
          assert rr[|s| - k..][i - (|s| - k)] == r[|s| - k..][i - (|s| - k)];
        }
      }
    }
  }
}
