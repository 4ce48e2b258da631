/**
 * Character classes and the few `String.prototype` operations the route handlers use:
 * `trim`, `split` with a string separator, `Array.prototype.join`, `startsWith`,
 * `endsWith`, `includes`, `toLowerCase`, and the decimal rendering of a counter.
 * Character classes are the ASCII parts of the JavaScript ones.
 */
module Strings {

  /**
   * JavaScript `\s`, restricted to ASCII: space, and tab, line feed, VT, FF, carriage return
   * (the consecutive codes 9 to 13).
   */
  predicate IsSpace(c: char) {
    c == ' ' || '\t' <= c <= '\r'
  }

  /** JavaScript `\d`. */
  predicate IsDigit(c: char) {
    '0' <= c <= '9'
  }

  /** A character of JavaScript `\w`, the class `[A-Za-z0-9_]`. */
  predicate IsWordChar(c: char) {
    'a' <= c <= 'z' || 'A' <= c <= 'Z' || IsDigit(c) || c == '_'
  }

  /** The ASCII line terminators: `.` does not match them and a multiline `^` matches after them. */
  predicate IsLineTerminator(c: char) {
    c == '\n' || c == '\r'
  }

  /** True when `s` has neither leading nor trailing whitespace. */
  predicate IsTrimmed(s: string) {
    s == [] || (!IsSpace(s[0]) && !IsSpace(s[|s| - 1]))
  }

  predicate AllSpace(s: string) {
    forall i :: 0 <= i < |s| ==> IsSpace(s[i])
  }

  /** Number of whitespace characters at the start of `s`. */
  function LeadingSpace(s: string): (k: nat)
    ensures k <= |s|
    ensures forall i :: 0 <= i < k ==> IsSpace(s[i])
    ensures k < |s| ==> !IsSpace(s[k])
  {
    if s != [] && IsSpace(s[0]) then 1 + LeadingSpace(s[1..]) else 0
  }

  /** Length of `s` without the whitespace at its end. */
  function TrimmedEnd(s: string): (k: nat)
    ensures k <= |s|
    ensures forall i :: k <= i < |s| ==> IsSpace(s[i])
    ensures k > 0 ==> !IsSpace(s[k - 1])
  {
    if s != [] && IsSpace(s[|s| - 1]) then TrimmedEnd(s[..|s| - 1]) else |s|
  }

  /**
   * `String.prototype.trim`: the slice of `s` left after dropping the whitespace at both ends.
   */
  function Trim(s: string): (r: string)
    ensures IsTrimmed(r) && |r| <= |s|
  {
    var a := LeadingSpace(s);
    if a == |s| then [] else s[a..TrimmedEnd(s)]
  }

  /** What `Trim` drops on either side is whitespace, and what it keeps is one slice of `s`. */
  lemma TrimIsSlice(s: string)
    ensures var a := LeadingSpace(s); var r := Trim(s);
      a + |r| <= |s| && r == s[a..a + |r|] && AllSpace(s[..a]) && AllSpace(s[a + |r|..])
  {
    var a := LeadingSpace(s);
    var b := if a == |s| then a else TrimmedEnd(s);
    assert Trim(s) == s[a..b];
    var before, after := s[..a], s[b..];
    forall i | 0 <= i < |before| ensures IsSpace(before[i]) {
      assert before[i] == s[i];
    }
    forall i | 0 <= i < |after| ensures IsSpace(after[i]) {
      assert after[i] == s[b + i];
    }
  }

  /** A string with no whitespace at its ends is its own trim. */
  lemma TrimOfTrimmed(s: string)
    requires IsTrimmed(s)
    ensures Trim(s) == s
  {
    if s != [] {
      assert LeadingSpace(s) == 0;
      assert TrimmedEnd(s) == |s|;
    }
  }

  /** A string trims to the empty string exactly when it is made only of whitespace. */
  lemma TrimEmptyIffAllSpace(s: string)
    ensures Trim(s) == [] <==> AllSpace(s)
  {
    var a := LeadingSpace(s);
    if a < |s| {
      assert !IsSpace(s[a]);
      assert |Trim(s)| > 0;
    }
  }

  predicate StartsWith(s: string, prefix: string) {
    |prefix| <= |s| && s[..|prefix|] == prefix
  }

  predicate EndsWith(s: string, suffix: string) {
    |suffix| <= |s| && s[|s| - |suffix|..] == suffix
  }

  predicate OccursAt(s: string, sub: string, i: nat) {
    i + |sub| <= |s| && s[i..i + |sub|] == sub
  }

  /** `String.prototype.includes`: `sub` occurs somewhere in `s`. */
  predicate Contains(s: string, sub: string) {
    exists i: nat :: i <= |s| && OccursAt(s, sub, i)
  }

  /** `Array.prototype.join`: the parts with `sep` between consecutive ones; `""` for no parts. */
  function Join(parts: seq<string>, sep: string): string {
    if |parts| == 0 then ""
    else if |parts| == 1 then parts[0]
    else parts[0] + sep + Join(parts[1..], sep)
  }

  /** Where `Join(parts, sep)` places `parts[i]`: after every earlier part and its separator. */
  function JoinOffset(parts: seq<string>, sep: string, i: nat): nat
    requires i <= |parts|
  {
    if i == 0 then 0 else |parts[0]| + |sep| + JoinOffset(parts[1..], sep, i - 1)
  }

  /** Shifting an occurrence by a prefix. */
  lemma OccursAfterPrefix(p: string, t: string, sub: string, i: nat)
    requires OccursAt(t, sub, i)
    ensures OccursAt(p + t, sub, |p| + i)
  {
    assert (p + t)[|p| + i..|p| + i + |sub|] == t[i..i + |sub|];
  }

  /** `Join` puts `parts[i]` at `JoinOffset(parts, sep, i)`. */
  lemma {:induction false} JoinPlacesPart(parts: seq<string>, sep: string, i: nat)
    requires i < |parts|
    ensures OccursAt(Join(parts, sep), parts[i], JoinOffset(parts, sep, i))
  {
    var j := Join(parts, sep);
    if i == 0 {
      assert j[0..|parts[0]|] == parts[0];
    } else {
      var rest := parts[1..];
      JoinPlacesPart(rest, sep, i - 1);
      assert j == (parts[0] + sep) + Join(rest, sep);
      OccursAfterPrefix(parts[0] + sep, Join(rest, sep), rest[i - 1], JoinOffset(rest, sep, i - 1));
    }
  }

  /** The separator right after the first part. */
  lemma OccursBetween(p: string, sub: string, t: string)
    ensures OccursAt(p + sub + t, sub, |p|)
  {
    assert (p + sub + t)[|p|..|p| + |sub|] == sub;
  }

  /** Every part but the last is followed by the separator. */
  lemma {:induction false} JoinPlacesSeparator(parts: seq<string>, sep: string, i: nat)
    requires i + 1 < |parts|
    ensures OccursAt(Join(parts, sep), sep, JoinOffset(parts, sep, i) + |parts[i]|)
  {
    var rest := parts[1..];
    assert Join(parts, sep) == parts[0] + sep + Join(rest, sep);
    if i == 0 {
      OccursBetween(parts[0], sep, Join(rest, sep));
    } else {
      var k := JoinOffset(rest, sep, i - 1) + |rest[i - 1]|;
      assert OccursAt(Join(rest, sep), sep, k) by {
        JoinPlacesSeparator(rest, sep, i - 1);
      }
      OccursAfterPrefix(parts[0] + sep, Join(rest, sep), sep, k);
      assert JoinOffset(parts, sep, i) + |parts[i]| == |parts[0] + sep| + k;
    }
  }

  /** The last part ends the joined string. */
  lemma {:induction false} JoinLength(parts: seq<string>, sep: string)
    requires |parts| >= 1
    ensures |Join(parts, sep)| == JoinOffset(parts, sep, |parts| - 1) + |parts[|parts| - 1]|
  {
    if |parts| > 1 {
      var rest := parts[1..];
      JoinLength(rest, sep);
      assert Join(parts, sep) == parts[0] + sep + Join(rest, sep);
      assert JoinOffset(parts, sep, |parts| - 1) == |parts[0]| + |sep| + JoinOffset(rest, sep, |rest| - 1);
      assert parts[|parts| - 1] == rest[|rest| - 1];
    }
  }

  /**
   * `String.prototype.split` with a non-empty string separator: cuts `s` at each occurrence of
   * `sep`, found left to right without overlap. Joining the parts back gives `s`, and no part
   * contains the separator.
   */
  function Split(s: string, sep: string): (parts: seq<string>)
    requires |sep| > 0
    ensures |parts| >= 1
  {
    if |s| < |sep| then
      [s]
    else if s[..|sep|] == sep then
      [""] + Split(s[|sep|..], sep)
    else
      var rest := Split(s[1..], sep);
      [[s[0]] + rest[0]] + rest[1..]
  }

  /** Joining the parts of a split with its separator gives back the string. */
  lemma {:induction false} JoinSplit(s: string, sep: string)
    requires |sep| > 0
    ensures Join(Split(s, sep), sep) == s
  {
    if |s| < |sep| {
    } else if s[..|sep|] == sep {
      var rest := Split(s[|sep|..], sep);
      JoinSplit(s[|sep|..], sep);
      assert Split(s, sep) == [""] + rest;
      assert s == sep + s[|sep|..];
    } else {
      var rest := Split(s[1..], sep);
      JoinSplit(s[1..], sep);
      assert Split(s, sep) == [[s[0]] + rest[0]] + rest[1..];
      if |rest| > 1 {
        assert Join(rest, sep) == rest[0] + sep + Join(rest[1..], sep);
      }
    }
  }

  /** `s` with every `c` replaced by `d`. */
  function ReplaceChar(s: string, c: char, d: char): (r: string)
    ensures |r| == |s|
  {
    seq(|s|, i requires 0 <= i < |s| => if s[i] == c then d else s[i])
  }

  /** Splitting on one character and joining with another replaces the one by the other. */
  lemma {:induction false} JoinSplitReplaces(s: string, c: char, d: char)
    ensures Join(Split(s, [c]), [d]) == ReplaceChar(s, c, d)
  {
    if s != [] {
      var rest := Split(s[1..], [c]);
      SplitFirstChar(s, c);
      JoinSplitReplaces(s[1..], c, d);
      assert ReplaceChar(s, c, d) == [if s[0] == c then d else s[0]] + ReplaceChar(s[1..], c, d);
      if s[0] == c {
        assert ([""] + rest)[1..] == rest;
      } else {
        JoinExtendsFirst(s[0], rest, [d]);
      }
    }
  }

  /** Putting a character in front of the first part puts it in front of the joined string. */
  lemma JoinExtendsFirst(x: char, parts: seq<string>, sep: string)
    requires |parts| >= 1
    ensures Join([[x] + parts[0]] + parts[1..], sep) == [x] + Join(parts, sep)
  {
    assert ([[x] + parts[0]] + parts[1..])[1..] == parts[1..];
  }

  /** No part of a split contains the separator. */
  lemma {:induction false} SplitPartsLackSeparator(s: string, sep: string)
    requires |sep| > 0
    ensures forall i :: 0 <= i < |Split(s, sep)| ==> !Contains(Split(s, sep)[i], sep)
  {
    if |s| < |sep| {
      assert !Contains(s, sep);
    } else if s[..|sep|] == sep {
      SplitPartsLackSeparator(s[|sep|..], sep);
      assert !Contains("", sep);
    } else {
      SplitPartsLackSeparator(s[1..], sep);
      var rest := Split(s[1..], sep);
      JoinSplit(s[1..], sep);
      JoinStartsWithFirst(rest, sep);
      FirstPartHasNoSeparator(s, sep, rest[0]);
    }
  }

  lemma JoinStartsWithFirst(parts: seq<string>, sep: string)
    requires |parts| >= 1
    ensures |parts[0]| <= |Join(parts, sep)| && Join(parts, sep)[..|parts[0]|] == parts[0]
  {
  }

  /** A part that does not contain `sep` stays free of it when a character that does not start `sep` is put in front. */
  lemma FirstPartHasNoSeparator(s: string, sep: string, tail: string)
    requires |sep| > 0 && |s| >= |sep| && s[..|sep|] != sep
    requires !Contains(tail, sep)
    requires |tail| < |s| && tail == s[1..][..|tail|]
    ensures !Contains([s[0]] + tail, sep)
  {
    var t := [s[0]] + tail;
    forall i: nat | i <= |t| ensures !OccursAt(t, sep, i) {
      if i == 0 {
        assert |t| >= |sep| ==> t[..|sep|] == s[..|sep|];
      } else if i + |sep| <= |t| {
        assert t[i..i + |sep|] == tail[i - 1..i - 1 + |sep|];
        assert !OccursAt(tail, sep, i - 1);
      }
    }
  }

  /** `s` is split into itself alone exactly when it does not contain the separator. */
  lemma SplitSingleIffNoSeparator(s: string, sep: string)
    requires |sep| > 0
    ensures Split(s, sep) == [s] <==> !Contains(s, sep)
  {
    var parts := Split(s, sep);
    JoinSplit(s, sep);
    SplitPartsLackSeparator(s, sep);
    if |parts| > 1 {
      assert Join(parts, sep) == parts[0] + sep + Join(parts[1..], sep);
      assert OccursAt(s, sep, |parts[0]|);
    }
  }

  /** A string without the one-character separator is split into itself alone. */
  lemma SplitWithoutChar(a: string, c: char)
    requires c !in a
    ensures Split(a, [c]) == [a]
  {
    forall i: nat | i <= |a| ensures !OccursAt(a, [c], i) {
      if i + 1 <= |a| {
        assert a[i..i + 1][0] == a[i];
      }
    }
    SplitSingleIffNoSeparator(a, [c]);
  }

  /** One step of a split on a one-character separator: the first character ends the first part or joins it. */
  lemma SplitFirstChar(s: string, c: char)
    requires s != []
    ensures var rest := Split(s[1..], [c]);
      Split(s, [c]) == if s[0] == c then [""] + rest else [[s[0]] + rest[0]] + rest[1..]
  {
    assert s[..1] == [s[0]];
  }

  /** Splitting on a one-character separator cuts at its first occurrence first. */
  lemma {:induction false} SplitAtChar(a: string, c: char, b: string)
    requires c !in a
    ensures Split(a + [c] + b, [c]) == [a] + Split(b, [c])
  {
    var s := a + [c] + b;
    SplitFirstChar(s, c);
    if a == [] {
      assert s[0] == c && s[1..] == b;
    } else {
      assert s[0] == a[0] != c;
      assert s[1..] == a[1..] + [c] + b;
      SplitAtChar(a[1..], c, b);
      assert [a[0]] + a[1..] == a;
    }
  }

  /** A string without `c` does not contain `c` twice in a row. */
  lemma NoCharNoPair(s: string, c: char)
    requires c !in s
    ensures !Contains(s, [c, c])
  {
    forall i: nat | i <= |s| ensures !OccursAt(s, [c, c], i) {
      if i + 2 <= |s| {
        assert s[i..i + 2][0] == s[i];
      }
    }
  }

  /** One `c` between a non-empty run without `c` and a rest that neither starts with nor contains a pair of `c` leaves no pair. */
  lemma NoPairAcrossChar(a: string, c: char, b: string)
    requires a != [] && c !in a
    requires !Contains(b, [c, c]) && (b == [] || b[0] != c)
    ensures !Contains(a + [c] + b, [c, c])
  {
    var s := a + [c] + b;
    forall i: nat | i <= |s| ensures !OccursAt(s, [c, c], i) {
      if i + 2 <= |s| {
        assert s[i..i + 2][0] == s[i] && s[i..i + 2][1] == s[i + 1];
        if i < |a| {
          assert s[i] == a[i];
        } else if i == |a| {
          assert s[i + 1] == b[0];
        } else {
          assert s[i..i + 2] == b[i - |a| - 1..i - |a| + 1];
          assert !OccursAt(b, [c, c], i - |a| - 1);
        }
      }
    }
  }

  /** Putting a character in front keeps every suffix. */
  lemma EndsWithAfterChar(x: char, u: string, t: string)
    requires EndsWith(u, t)
    ensures EndsWith([x] + u, t)
  {
    assert ([x] + u)[|[x] + u| - |t|..] == u[|u| - |t|..];
  }

  /** The last part of a split ends with every suffix of `s` that does not hold the separator. */
  lemma {:induction false} SplitLastEndsWith(s: string, c: char, t: string)
    requires EndsWith(s, t) && c !in t
    ensures var parts := Split(s, [c]); EndsWith(parts[|parts| - 1], t)
  {
    if |t| == |s| {
      assert s == t;
      SplitWithoutChar(s, c);
    } else {
      var u := s[1..];
      assert EndsWith(u, t) by {
        assert u[|u| - |t|..] == s[|s| - |t|..];
      }
      var rest := Split(u, [c]);
      assert EndsWith(rest[|rest| - 1], t) by {
        SplitLastEndsWith(u, c, t);
      }
      SplitFirstChar(s, c);
      if s[0] != c && |rest| == 1 {
        EndsWithAfterChar(s[0], rest[0], t);
      }
    }
  }

  /** `String.prototype.toLowerCase`, for the ASCII letters. */
  function ToLower(s: string): (r: string)
    ensures |r| == |s|
    ensures forall i :: 0 <= i < |s| ==> r[i] == LowerChar(s[i])
  {
    seq(|s|, i requires 0 <= i < |s| => LowerChar(s[i]))
  }

  /** Only `A`-`Z` change, each to its lower-case letter. */
  function LowerChar(c: char): char {
    if 'A' <= c <= 'Z' then c - 'A' + 'a' else c
  }

  /** Lower-casing works character by character, so it commutes with taking a suffix. */
  lemma LowerSuffix(s: string, k: nat)
    requires k <= |s|
    ensures ToLower(s)[|s| - k..] == ToLower(s[|s| - k..])
  {
    var l := ToLower(s);
    var t := ToLower(s[|s| - k..]);
    forall i | 0 <= i < k ensures l[|s| - k..][i] == t[i] {
      assert l[|s| - k + i] == LowerChar(s[|s| - k + i]);
    }
  }

  /** The decimal rendering of a natural number, as a template literal prints it. */
  function DecimalString(n: nat): (r: string)
    ensures |r| >= 1
    ensures forall i :: 0 <= i < |r| ==> IsDigit(r[i])
  {
    if n < 10 then [DigitChar(n)] else DecimalString(n / 10) + [DigitChar(n % 10)]
  }

  function DigitChar(d: nat): (c: char)
    requires d < 10
    ensures IsDigit(c)
  {
    '0' + d as char
  }
}
