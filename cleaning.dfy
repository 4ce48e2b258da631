/**
 * The cleaning chain that `parseSubtitleFile` applies to the collected subtitle text
 * (src/app/api/upload-folder/route.js:186-198): eleven global regular-expression replacements
 * followed by `trim`, each modelled as one function on strings.
 *
 * A global `replace` scans the ORIGINAL string from left to right: at each position it tries
 * the pattern; on a match it emits the replacement and resumes after the match, otherwise it
 * copies one character. Every function below follows that scan by recursion on the rest of
 * the string. Where a pattern looks behind the current position (`\b`, a multiline `^`, a
 * non-multiline `^`), the function carries a flag computed from the previous character of the
 * original string.
 */
module Cleaning {
  import opened Wrappers
  import opened Strings
  import opened Seqs

  /** Number of leading digits of `s` (`\d+` taken greedily). */
  function DigitRun(s: string): (k: nat)
    ensures k <= |s|
    ensures forall i :: 0 <= i < k ==> IsDigit(s[i])
    ensures k < |s| ==> !IsDigit(s[k])
  {
    DigitRunFrom(s, 0)
  }

  /** End of the run of digits of `s` that starts at index `i`. */
  function DigitRunFrom(s: string, i: nat): (k: nat)
    requires i <= |s|
    ensures i <= k <= |s|
    ensures forall j :: i <= j < k ==> IsDigit(s[j])
    ensures k < |s| ==> !IsDigit(s[k])
    decreases |s| - i
  {
    if i < |s| && IsDigit(s[i]) then DigitRunFrom(s, i + 1) else i
  }

  /** Number of leading whitespace characters of `s` (`\s*` taken greedily). */
  function SpaceRun(s: string): (k: nat)
    ensures k <= |s|
    ensures forall i :: 0 <= i < k ==> IsSpace(s[i])
    ensures k < |s| ==> !IsSpace(s[k])
  {
    SpaceRunFrom(s, 0)
  }

  /** End of the run of whitespace of `s` that starts at index `i`. */
  function SpaceRunFrom(s: string, i: nat): (k: nat)
    requires i <= |s|
    ensures i <= k <= |s|
    ensures forall j :: i <= j < k ==> IsSpace(s[j])
    ensures k < |s| ==> !IsSpace(s[k])
    decreases |s| - i
  {
    if i < |s| && IsSpace(s[i]) then SpaceRunFrom(s, i + 1) else i
  }

  /**
   * Where the lazy `.*?` followed by `close` stops: the index in `s` of the first `close`, provided
   * no line terminator comes before it (`.` does not match one).
   */
  function FindClose(s: string, close: char): (r: Option<nat>)
    ensures r.Some? ==> r.value < |s| && s[r.value] == close
    ensures r.Some? ==> forall i :: 0 <= i < r.value ==> s[i] != close && !IsLineTerminator(s[i])
    ensures r.None? && !IsLineTerminator(close) ==>
      forall i :: 0 <= i < |s| && s[i] == close ==> exists j :: 0 <= j < i && IsLineTerminator(s[j])
  {
    if s == [] then None
    else if s[0] == close then Some(0)
    else if IsLineTerminator(s[0]) then None
    else
      match FindClose(s[1..], close)
      case None =>
        assert forall i :: 1 <= i < |s| && s[i] == close ==> s[1..][i - 1] == close;
        None
      case Some(k) => Some(k + 1)
  }

  /**
   * `/\[.*?\]/g` with `open == '['` and `close == ']'` (line 187), `/\(.*?\)/g` with `(` and `)`
   * (line 188), replaced by "": an `open` followed on the same line by a `close` is removed
   * together with everything up to the first such `close`.
   */
  function RemoveGroups(s: string, open: char, close: char): (r: string)
    ensures |r| <= |s|
    ensures open !in s ==> r == s
  {
    if s == [] then []
    else if s[0] == open && FindClose(s[1..], close).Some? then
      RemoveGroups(s[FindClose(s[1..], close).value + 2..], open, close)
    else
      [s[0]] + RemoveGroups(s[1..], open, close)
  }

  /**
   * `/\b\d+\s+/g` replaced by "" (line 189): a run of digits that starts at a word boundary and is
   * followed by whitespace is removed with that whitespace. `prevWord` says whether the character
   * before `s` in the original string is a word character (false at the start).
   */
  function StripBoundaryNumbers(s: string, prevWord: bool): (r: string)
    ensures |r| <= |s|
    ensures (forall i :: 0 <= i < |s| ==> !IsDigit(s[i])) ==> r == s
  {
    if s == [] then []
    else
      var k := DigitRun(s);
      if !prevWord && k > 0 && k < |s| && IsSpace(s[k]) then
        var m := SpaceRunFrom(s, k);
        StripBoundaryNumbers(s[m..], false)
      else
        [s[0]] + StripBoundaryNumbers(s[1..], IsWordChar(s[0]))
  }

  /**
   * the pattern `^\d+\s*` with flags `gm`, replaced by "" (line 190): digits at the start of a line are removed with the
   * whitespace after them. `atLineStart` says whether the position is the start of the string or
   * follows a line terminator of the original string.
   */
  function StripLineStartNumbers(s: string, atLineStart: bool): (r: string)
    ensures |r| <= |s|
    ensures (forall i :: 0 <= i < |s| ==> !IsDigit(s[i])) ==> r == s
  {
    if s == [] then []
    else
      var k := DigitRun(s);
      if atLineStart && k > 0 then
        var m := SpaceRunFrom(s, k);
        StripLineStartNumbers(s[m..], IsLineTerminator(s[m - 1]))
      else
        [s[0]] + StripLineStartNumbers(s[1..], IsLineTerminator(s[0]))
  }

  /**
   * `/\s+\d+\s+/g` replaced by " " (line 191): whitespace, digits, whitespace become one space.
   */
  function StripInnerNumbers(s: string): (r: string)
    ensures |r| <= |s|
    ensures (forall i :: 0 <= i < |s| ==> !IsDigit(s[i])) ==> r == s
  {
    if s == [] then []
    else
      var k := SpaceRun(s);
      var m := if k > 0 then DigitRunFrom(s, k) else k;
      if k > 0 && m > k && m < |s| && IsSpace(s[m]) then
        var n := SpaceRunFrom(s, m);
        " " + StripInnerNumbers(s[n..])
      else
        [s[0]] + StripInnerNumbers(s[1..])
  }

  /** `/\d+\./g` replaced by "" (line 192): digits followed by a period are removed with it. */
  function StripListNumbers(s: string): (r: string)
    ensures |r| <= |s|
    ensures (forall i :: 0 <= i < |s| ==> !IsDigit(s[i])) ==> r == s
  {
    if s == [] then []
    else
      var k := DigitRun(s);
      if k > 0 && k < |s| && s[k] == '.' then
        StripListNumbers(s[k + 1..])
      else
        [s[0]] + StripListNumbers(s[1..])
  }

  /** `/\s+/g` replaced by " " (line 193): every whitespace run becomes a single space. */
  function CollapseSpaces(s: string): (r: string)
    ensures |r| <= |s|
    ensures forall i :: 0 <= i < |r| && IsSpace(r[i]) ==> r[i] == ' ' && (i + 1 < |r| ==> !IsSpace(r[i + 1]))
  {
    if s == [] then []
    else if IsSpace(s[0]) then
      var k := SpaceRun(s);
      var rest := CollapseSpaces(s[k..]);
      assert rest != [] ==> !IsSpace(rest[0]) by {
        if k < |s| { assert s[k..][0] == s[k]; }
      }
      " " + rest
    else
      [s[0]] + CollapseSpaces(s[1..])
  }

  /** `/\s+([.!?])/g` replaced by "$1" (line 194): whitespace before `.`, `!` or `?` is dropped. */
  function TightenTerminalPunctuation(s: string): (r: string)
    ensures |r| <= |s|
    ensures ('.' !in s && '!' !in s && '?' !in s) ==> r == s
  {
    if s == [] then []
    else
      var k := SpaceRun(s);
      if k > 0 && k < |s| && s[k] in ".!?" then
        [s[k]] + TightenTerminalPunctuation(s[k + 1..])
      else
        [s[0]] + TightenTerminalPunctuation(s[1..])
  }

  /**
   * the pattern `\s*,\s*` with flag `g`, replaced by ", " (line 195) when `mark == ','`, the pattern `\s*\.\s*` replaced by ". "
   * (line 196) when `mark == '.'`: the whitespace around each `mark` becomes exactly one space after it.
   */
  function SpaceAfterMark(s: string, mark: char): (r: string)
    requires !IsSpace(mark)
    ensures mark !in s ==> r == s
  {
    if s == [] then []
    else
      var k := SpaceRun(s);
      if k < |s| && s[k] == mark then
        var m := SpaceRunFrom(s, k + 1);
        [mark, ' '] + SpaceAfterMark(s[m..], mark)
      else
        [s[0]] + SpaceAfterMark(s[1..], mark)
  }

  /**
   * `/^\s+|\s+$/g` replaced by "" (line 197): leading whitespace (only at the very start, the
   * pattern has no `m` flag) and whitespace that runs to the end of the string are removed.
   */
  function StripEnds(s: string, atStart: bool): (r: string)
    ensures |r| <= |s|
  {
    if s == [] then []
    else
      var k := SpaceRun(s);
      if k > 0 && (atStart || k == |s|) then
        StripEnds(s[k..], false)
      else
        [s[0]] + StripEnds(s[1..], false)
  }

  /** Lines 187-192: stage directions, asides and numbers removed. */
  function Scrub(text: string): string {
    var t1 := RemoveGroups(text, '[', ']');
    var t2 := RemoveGroups(t1, '(', ')');
    var t3 := StripBoundaryNumbers(t2, false);
    var t4 := StripLineStartNumbers(t3, true);
    var t5 := StripInnerNumbers(t4);
    StripListNumbers(t5)
  }

  /** Lines 193-196: whitespace collapsed and the spacing around punctuation fixed. */
  function Respace(text: string): string {
    var t7 := CollapseSpaces(text);
    var t8 := TightenTerminalPunctuation(t7);
    var t9 := SpaceAfterMark(t8, ',');
    SpaceAfterMark(t9, '.')
  }

  /** The whole chain of lines 186-198, in source order. */
  function Clean(text: string): (r: string)
    ensures IsTrimmed(r)
  {
    Trim(StripEnds(Respace(Scrub(text)), true))
  }

  // ---------------------------------------------------------------------------------------
  // What the rules do to plain text

  /** A character that no rule of the chain reacts to. */
  predicate IsPlainChar(c: char) {
    !IsSpace(c) && !IsDigit(c) && c !in "[(.,!?"
  }

  /**
   * Already clean prose: plain characters separated by single spaces, no whitespace at either end.
   */
  predicate IsProseChar(c: char) {
    c == ' ' || IsPlainChar(c)
  }

  predicate IsProse(s: string) {
    IsTrimmed(s) &&
    (forall i :: 0 <= i < |s| ==> IsProseChar(s[i])) &&
    (forall i :: 0 <= i < |s| - 1 ==> s[i] == ' ' ==> s[i + 1] != ' ')
  }

  /** Single spaces between non-whitespace characters are left alone by the collapsing rule. */
  lemma {:induction false} CollapseKeepsSingleSpaces(s: string)
    requires forall i :: 0 <= i < |s| && IsSpace(s[i]) ==> s[i] == ' ' && (i + 1 < |s| ==> !IsSpace(s[i + 1]))
    ensures CollapseSpaces(s) == s
  {
    if s != [] {
      CollapseKeepsSingleSpaces(s[1..]);
      if IsSpace(s[0]) {
        assert SpaceRun(s) == 1 by {
          if |s| > 1 { assert !IsSpace(s[1]); }
        }
      }
    }
  }

  /** Whitespace that does not run to the end is not touched by the end-stripping rule away from the start. */
  lemma {:induction false} StripEndsKeepsInnerSpace(s: string)
    requires s == [] || !IsSpace(s[|s| - 1])
    ensures StripEnds(s, false) == s
  {
    if s != [] {
      StripEndsKeepsInnerSpace(s[1..]);
    }
  }

  /** One trailing space after clean text is exactly what the end-stripping rule removes. */
  lemma {:induction false} StripEndsDropsTrailingSpace(s: string)
    requires s == [] || !IsSpace(s[|s| - 1])
    ensures StripEnds(s + " ", false) == s
  {
    if s == [] {
      assert SpaceRun(" ") == 1;
    } else {
      StripEndsDropsTrailingSpace(s[1..]);
      assert (s + " ")[1..] == s[1..] + " ";
      assert !IsSpace((s + " ")[|s| - 1]);
    }
  }

  /** Text without brackets, digits or punctuation passes the first ten rules unchanged, if its whitespace is single spaces. */
  lemma InertThroughPunctuation(t: string)
    requires forall i :: 0 <= i < |t| ==> !IsDigit(t[i]) && t[i] !in "[(,.!?"
    requires forall i :: 0 <= i < |t| && IsSpace(t[i]) ==> t[i] == ' ' && (i + 1 < |t| ==> !IsSpace(t[i + 1]))
    ensures Respace(Scrub(t)) == t
  {
    assert '[' !in t && '(' !in t && ',' !in t && '.' !in t && '!' !in t && '?' !in t by {
      forall i | 0 <= i < |t| ensures t[i] !in "[(,.!?" { }
    }
    assert RemoveGroups(t, '[', ']') == t;
    assert RemoveGroups(t, '(', ')') == t;
    assert StripBoundaryNumbers(t, false) == t;
    assert StripLineStartNumbers(t, true) == t;
    assert StripInnerNumbers(t) == t;
    assert StripListNumbers(t) == t;
    CollapseKeepsSingleSpaces(t);
    assert TightenTerminalPunctuation(t) == t;
    assert SpaceAfterMark(t, ',') == t;
  }

  /** The whole chain leaves clean prose unchanged. */
  lemma ProseIsClean(s: string)
    requires IsProse(s)
    ensures Clean(s) == s
  {
    ProsePassesRules(s);
    ProseKeepsEnds(s);
    TrimOfTrimmed(s);
  }

  /** Clean prose passes the first ten rules unchanged. */
  lemma ProsePassesRules(s: string)
    requires IsProse(s)
    ensures Respace(Scrub(s)) == s
  {
    InertThroughPunctuation(s);
  }

  /** Clean prose has no whitespace for the ends rule to remove. */
  lemma ProseKeepsEnds(s: string)
    requires IsProse(s)
    ensures StripEnds(s, true) == s
  {
    if s != [] {
      StripEndsKeepsInnerSpace(s[1..]);
      StripEndsCopiesHead(s[0], s[1..], true);
      assert [s[0]] + s[1..] == s;
    }
  }

  /**
   * Clean prose followed by the one space the readers put after each piece of text comes out
   * as the prose itself.
   */
  lemma ProseWithTrailingSpaceIsClean(s: string)
    requires IsProse(s)
    ensures Clean(s + " ") == s
  {
    var t := s + " ";
    assert Respace(Scrub(t)) == t by {
      ProseWithTrailingSpaceIsInert(s);
      InertThroughPunctuation(t);
    }
    StripEndsOfProseWithSpace(s);
    TrimOfTrimmed(s);
  }

  /** Removing the ends of clean prose plus one space leaves the prose. */
  lemma StripEndsOfProseWithSpace(s: string)
    requires IsProse(s)
    ensures StripEnds(s + " ", true) == s
  {
    var t := s + " ";
    if s == [] {
      assert SpaceRun(t) == 1;
      assert StripEnds(t, true) == StripEnds(t[1..], false);
    } else {
      StripEndsDropsTrailingSpace(s[1..]);
      assert t[1..] == s[1..] + " ";
      assert SpaceRun(t) == 0;
      assert StripEnds(t, true) == [s[0]] + StripEnds(s[1..] + " ", false);
      assert [s[0]] + s[1..] == s;
    }
  }

  lemma ProseWithTrailingSpaceIsInert(s: string)
    requires IsProse(s)
    ensures var t := s + " ";
      (forall i :: 0 <= i < |t| ==> !IsDigit(t[i]) && t[i] !in "[(,.!?") &&
      (forall i :: 0 <= i < |t| && IsSpace(t[i]) ==> t[i] == ' ' && (i + 1 < |t| ==> !IsSpace(t[i + 1])))
  {
    var t := s + " ";
    forall i | 0 <= i < |t| ensures !IsDigit(t[i]) && t[i] !in "[(,.!?" {
      if i < |s| { assert IsProseChar(s[i]); }
    }
    forall i | 0 <= i < |t| && IsSpace(t[i]) ensures t[i] == ' ' && (i + 1 < |t| ==> !IsSpace(t[i + 1])) {
      if i < |s| {
        assert IsProseChar(s[i]);
        if i + 1 < |s| { assert IsProseChar(s[i + 1]); }
      }
    }
  }

  // ---------------------------------------------------------------------------------------
  // How each rule acts on a piece of text, used to run the chain on a concrete input

  /** A character other than `open` is copied by the group-removing rule. */
  lemma RemoveGroupsCopiesHead(c: char, t: string, open: char, close: char)
    requires c != open
    ensures RemoveGroups([c] + t, open, close) == [c] + RemoveGroups(t, open, close)
  {
    assert ([c] + t)[0] == c;
    assert ([c] + t)[1..] == t;
  }

  /** A prefix without `open` is copied by the group-removing rule. */
  lemma {:induction false} RemoveGroupsCopiesPrefix(p: string, q: string, open: char, close: char)
    requires open !in p
    ensures RemoveGroups(p + q, open, close) == p + RemoveGroups(q, open, close)
  {
    if p != [] {
      var t := p[1..] + q;
      assert p + q == [p[0]] + t by {
        assert [p[0]] + p[1..] == p;
        AppendAssociative([p[0]], p[1..], q);
      }
      RemoveGroupsCopiesHead(p[0], t, open, close);
      assert RemoveGroups(t, open, close) == p[1..] + RemoveGroups(q, open, close) by {
        assert open !in p[1..];
        RemoveGroupsCopiesPrefix(p[1..], q, open, close);
      }
      assert [p[0]] + p[1..] == p;
      AppendAssociative([p[0]], p[1..], RemoveGroups(q, open, close));
    } else {
      assert p + q == q;
    }
  }

  /** The lazy match stops at the first `close` when no line terminator comes first. */
  lemma {:induction false} FindCloseStopsAtFirst(inner: string, close: char, q: string)
    requires close !in inner && forall i :: 0 <= i < |inner| ==> !IsLineTerminator(inner[i])
    ensures FindClose(inner + [close] + q, close) == Some(|inner|)
  {
    if inner != [] {
      FindCloseStopsAtFirst(inner[1..], close, q);
      assert (inner + [close] + q)[1..] == inner[1..] + [close] + q;
    }
  }

  /** A group `open inner close` on one line is removed whole. */
  lemma RemoveGroupsDropsGroup(inner: string, q: string, open: char, close: char)
    requires close !in inner && forall i :: 0 <= i < |inner| ==> !IsLineTerminator(inner[i])
    ensures RemoveGroups([open] + inner + [close] + q, open, close) == RemoveGroups(q, open, close)
  {
    var s := [open] + inner + [close] + q;
    assert s[1..] == inner + [close] + q;
    FindCloseStopsAtFirst(inner, close, q);
    assert s[|inner| + 2..] == q;
  }

  /**
   * A character that is not a digit is copied by the boundary-number rule, and so is a digit right
   * after a word character, where `\b` does not hold.
   */
  lemma StripBoundaryNumbersCopiesHead(c: char, t: string, prevWord: bool)
    requires !IsDigit(c) || prevWord
    ensures StripBoundaryNumbers([c] + t, prevWord) == [c] + StripBoundaryNumbers(t, IsWordChar(c))
  {
    assert ([c] + t)[0] == c;
    assert ([c] + t)[1..] == t;
  }

  /** A prefix without digits is copied by the boundary-number rule, which then looks behind at its last character. */
  lemma {:induction false} StripBoundaryNumbersCopiesPrefix(p: string, q: string, prevWord: bool)
    requires p != [] && forall i :: 0 <= i < |p| ==> !IsDigit(p[i])
    ensures StripBoundaryNumbers(p + q, prevWord) == p + StripBoundaryNumbers(q, IsWordChar(p[|p| - 1]))
  {
    var t := p[1..] + q;
    assert p + q == [p[0]] + t by {
      assert [p[0]] + p[1..] == p;
      AppendAssociative([p[0]], p[1..], q);
    }
    StripBoundaryNumbersCopiesHead(p[0], t, prevWord);
    if |p| > 1 {
      var rest := StripBoundaryNumbers(q, IsWordChar(p[|p| - 1]));
      assert StripBoundaryNumbers(t, IsWordChar(p[0])) == p[1..] + rest by {
        assert forall i :: 0 <= i < |p[1..]| ==> !IsDigit(p[1..][i]);
        StripBoundaryNumbersCopiesPrefix(p[1..], q, IsWordChar(p[0]));
        assert p[1..][|p| - 2] == p[|p| - 1];
      }
      assert [p[0]] + p[1..] == p;
      AppendAssociative([p[0]], p[1..], rest);
    } else {
      assert t == q;
      assert [p[0]] == p;
    }
  }

  /**
   * Digits not followed by whitespace are kept, whatever comes before them; what follows them comes
   * after a word character.
   */
  lemma {:induction false} StripBoundaryNumbersKeepsNumber(digits: string, q: string, prevWord: bool)
    requires digits != [] && forall i :: 0 <= i < |digits| ==> IsDigit(digits[i])
    requires q == [] || (!IsSpace(q[0]) && !IsDigit(q[0]))
    ensures StripBoundaryNumbers(digits + q, prevWord) == digits + StripBoundaryNumbers(q, true)
  {
    var s := digits + q;
    var t := digits[1..] + q;
    assert s == [digits[0]] + t by {
      assert [digits[0]] + digits[1..] == digits;
      AppendAssociative([digits[0]], digits[1..], q);
    }
    assert StripBoundaryNumbers(s, prevWord) == [digits[0]] + StripBoundaryNumbers(t, true) by {
      if prevWord {
        StripBoundaryNumbersCopiesHead(digits[0], t, prevWord);
      } else {
        RunOfDigits(digits, q);
        assert |digits| < |s| ==> s[|digits|] == q[0];
      }
    }
    if |digits| > 1 {
      assert StripBoundaryNumbers(t, true) == digits[1..] + StripBoundaryNumbers(q, true) by {
        StripBoundaryNumbersKeepsNumber(digits[1..], q, true);
      }
      assert [digits[0]] + digits[1..] == digits;
      AppendAssociative([digits[0]], digits[1..], StripBoundaryNumbers(q, true));
    } else {
      assert t == q && [digits[0]] == digits;
    }
  }

  /** Digits after a non-word character and followed by whitespace are removed with that whitespace. */
  lemma StripBoundaryNumbersDropsNumber(digits: string, spaces: string, q: string)
    requires digits != [] && forall i :: 0 <= i < |digits| ==> IsDigit(digits[i])
    requires spaces != [] && forall i :: 0 <= i < |spaces| ==> IsSpace(spaces[i])
    requires q == [] || !IsSpace(q[0])
    ensures StripBoundaryNumbers(digits + spaces + q, false) == StripBoundaryNumbers(q, false)
  {
    var s := digits + spaces + q;
    RunOfDigits(digits, spaces + q);
    assert s == digits + (spaces + q);
    assert s[|digits|..] == spaces + q;
    SpaceRunFromOf(s, |digits|, spaces, q);
    assert s[|digits| + |spaces|..] == q;
  }

  /**
   * A number at the start of a line is removed with the whitespace after it; the next position
   * starts a line exactly when that whitespace ends in a line terminator.
   */
  lemma StripLineStartNumbersDropsNumber(digits: string, spaces: string, q: string)
    requires digits != [] && forall i :: 0 <= i < |digits| ==> IsDigit(digits[i])
    requires forall i :: 0 <= i < |spaces| ==> IsSpace(spaces[i])
    requires q == [] || (!IsSpace(q[0]) && (spaces != [] || !IsDigit(q[0])))
    ensures StripLineStartNumbers(digits + spaces + q, true) ==
      StripLineStartNumbers(q, spaces != [] && IsLineTerminator(spaces[|spaces| - 1]))
  {
    var t := spaces + q;
    var s := digits + t;
    AppendAssociative(digits, spaces, q);
    RunOfDigits(digits, t);
    assert s[|digits|..] == t;
    SpaceRunFromOf(s, |digits|, spaces, q);
    assert t[|spaces|..] == q;
    var m := |digits| + |spaces|;
    assert s[m..] == q;
    assert s[m - 1] == if spaces != [] then spaces[|spaces| - 1] else digits[|digits| - 1];
    StripLineStartNumbersStep(s, |digits|, m);
  }

  /** One step of the line-start rule, at a number at the start of a line. */
  lemma {:induction false} StripLineStartNumbersStep(s: string, k: nat, m: nat)
    requires 0 < k == DigitRun(s) && m == SpaceRunFrom(s, k)
    ensures StripLineStartNumbers(s, true) == StripLineStartNumbers(s[m..], IsLineTerminator(s[m - 1]))
  {
  }

  /** Away from the start of a line, and for a non-digit at it, the line-start rule copies the character. */
  lemma StripLineStartNumbersCopiesHead(c: char, t: string, atLineStart: bool)
    requires !(atLineStart && IsDigit(c))
    ensures StripLineStartNumbers([c] + t, atLineStart) == [c] + StripLineStartNumbers(t, IsLineTerminator(c))
  {
    assert ([c] + t)[0] == c;
    assert ([c] + t)[1..] == t;
  }

  /** Whitespace, digits and whitespace become one space. */
  lemma StripInnerNumbersDropsNumber(before: string, digits: string, after: string, q: string)
    requires before != [] && forall i :: 0 <= i < |before| ==> IsSpace(before[i])
    requires digits != [] && forall i :: 0 <= i < |digits| ==> IsDigit(digits[i])
    requires after != [] && forall i :: 0 <= i < |after| ==> IsSpace(after[i])
    requires q == [] || !IsSpace(q[0])
    ensures StripInnerNumbers(before + digits + after + q) == " " + StripInnerNumbers(q)
  {
    var k, m := |before|, |before| + |digits|;
    InnerNumberRuns(before, digits, after, q);
    StripInnerNumbersStep(before + digits + after + q, k, m, m + |after|);
  }

  /** Where the three runs of `before + digits + after + q` end. */
  lemma InnerNumberRuns(before: string, digits: string, after: string, q: string)
    requires forall i :: 0 <= i < |before| ==> IsSpace(before[i])
    requires digits != [] && forall i :: 0 <= i < |digits| ==> IsDigit(digits[i])
    requires after != [] && forall i :: 0 <= i < |after| ==> IsSpace(after[i])
    requires q == [] || !IsSpace(q[0])
    ensures var s, k, m := before + digits + after + q, |before|, |before| + |digits|;
      SpaceRun(s) == k && DigitRunFrom(s, k) == m && IsSpace(s[m]) &&
      SpaceRunFrom(s, m) == m + |after| && s[m + |after|..] == q
  {
    var t := after + q;
    var u := digits + t;
    var s := before + u;
    assert before + digits + after + q == s by {
      AppendAssociative(before, digits, after);
      AppendAssociative(before + digits, after, q);
      AppendAssociative(before, digits, t);
    }
    var k, m := |before|, |before| + |digits|;
    assert SpaceRun(s) == k by {
      RunOfSpaces(before, u);
    }
    assert s[k..] == u;
    assert DigitRunFrom(s, k) == m by {
      DigitRunFromOf(s, k, digits, t);
    }
    assert s[m..] == t;
    assert SpaceRunFrom(s, m) == m + |after| by {
      SpaceRunFromOf(s, m, after, q);
    }
    assert t[|after|..] == q;
  }

  /** One step of the inner-number rule, at whitespace, digits and whitespace. */
  lemma {:induction false} StripInnerNumbersStep(s: string, k: nat, m: nat, n: nat)
    requires 0 < k == SpaceRun(s) && m == DigitRunFrom(s, k) && n == SpaceRunFrom(s, m)
    requires k < m < |s| && IsSpace(s[m])
    ensures StripInnerNumbers(s) == " " + StripInnerNumbers(s[n..])
  {
  }

  /** Digits followed by a period are removed with the period. */
  lemma StripListNumbersDropsNumber(digits: string, q: string)
    requires digits != [] && forall i :: 0 <= i < |digits| ==> IsDigit(digits[i])
    ensures StripListNumbers(digits + "." + q) == StripListNumbers(q)
  {
    var s := digits + "." + q;
    assert s == digits + ("." + q);
    RunOfDigits(digits, "." + q);
    assert s[|digits|] == '.';
    assert s[|digits| + 1..] == q;
  }

  /** Digits not followed by a period are kept by the list-number rule. */
  lemma {:induction false} StripListNumbersKeepsNumber(digits: string, q: string)
    requires forall i :: 0 <= i < |digits| ==> IsDigit(digits[i])
    requires q == [] || (q[0] != '.' && !IsDigit(q[0]))
    ensures StripListNumbers(digits + q) == digits + StripListNumbers(q)
  {
    if digits == [] {
      assert digits + q == q;
    } else {
      var s := digits + q;
      var t := digits[1..] + q;
      assert s == [digits[0]] + t by {
        assert [digits[0]] + digits[1..] == digits;
        AppendAssociative([digits[0]], digits[1..], q);
      }
      assert StripListNumbers(s) == [digits[0]] + StripListNumbers(t) by {
        RunOfDigits(digits, q);
        assert |digits| < |s| ==> s[|digits|] == q[0];
      }
      assert StripListNumbers(t) == digits[1..] + StripListNumbers(q) by {
        StripListNumbersKeepsNumber(digits[1..], q);
      }
      assert [digits[0]] + digits[1..] == digits;
      AppendAssociative([digits[0]], digits[1..], StripListNumbers(q));
    }
  }

  /** Whitespace before `.`, `!` or `?` is dropped and the mark kept. */
  lemma TightenTerminalPunctuationDropsSpace(spaces: string, mark: char, q: string)
    requires spaces != [] && forall i :: 0 <= i < |spaces| ==> IsSpace(spaces[i])
    requires mark in ".!?"
    ensures TightenTerminalPunctuation(spaces + [mark] + q) == [mark] + TightenTerminalPunctuation(q)
  {
    var s := spaces + [mark] + q;
    assert s == spaces + ([mark] + q);
    RunOfSpaces(spaces, [mark] + q);
    assert s[|spaces|] == mark;
    assert s[|spaces| + 1..] == q;
  }

  /** The whitespace on both sides of `mark` becomes exactly one space after it. */
  lemma SpaceAfterMarkRespaces(before: string, mark: char, after: string, q: string)
    requires !IsSpace(mark)
    requires forall i :: 0 <= i < |before| ==> IsSpace(before[i])
    requires forall i :: 0 <= i < |after| ==> IsSpace(after[i])
    requires q == [] || !IsSpace(q[0])
    ensures SpaceAfterMark(before + [mark] + after + q, mark) == [mark, ' '] + SpaceAfterMark(q, mark)
  {
    var t := after + q;
    var u := [mark] + t;
    var s := before + u;
    assert before + [mark] + after + q == s by {
      AppendAssociative(before, [mark], after);
      AppendAssociative(before + [mark], after, q);
      AppendAssociative(before, [mark], t);
    }
    var k := |before|;
    assert SpaceRun(s) == k by {
      RunOfSpaces(before, u);
    }
    assert s[k] == mark && s[k + 1..] == t by {
      assert s[k..] == u;
    }
    assert SpaceRunFrom(s, k + 1) == k + 1 + |after| by {
      SpaceRunFromOf(s, k + 1, after, q);
    }
    assert s[k + 1 + |after|..] == q by {
      assert t[|after|..] == q;
    }
    SpaceAfterMarkStep(s, mark, k, k + 1 + |after|);
  }

  /** One step of the mark rule, at a mark after the leading whitespace. */
  lemma {:induction false} SpaceAfterMarkStep(s: string, mark: char, k: nat, n: nat)
    requires !IsSpace(mark)
    requires k == SpaceRun(s) && k < |s| && s[k] == mark && n == SpaceRunFrom(s, k + 1)
    ensures SpaceAfterMark(s, mark) == [mark, ' '] + SpaceAfterMark(s[n..], mark)
  {
    assert s != [] && SpaceRunFrom(s, SpaceRun(s) + 1) == n;
  }

  /** Whitespace at the very start of the text is removed. */
  lemma StripEndsDropsLeadingSpace(spaces: string, q: string)
    requires spaces != [] && forall i :: 0 <= i < |spaces| ==> IsSpace(spaces[i])
    requires q == [] || !IsSpace(q[0])
    ensures StripEnds(spaces + q, true) == StripEnds(q, false)
  {
    RunOfSpaces(spaces, q);
    assert (spaces + q)[|spaces|..] == q;
  }

  /** A character other than whitespace is kept by the inner-number rule. */
  lemma StripInnerNumbersCopiesHead(c: char, t: string)
    requires !IsSpace(c)
    ensures StripInnerNumbers([c] + t) == [c] + StripInnerNumbers(t)
  {
    assert ([c] + t)[1..] == t;
  }

  /** A character other than a digit is kept by the list-number rule. */
  lemma StripListNumbersCopiesHead(c: char, t: string)
    requires !IsDigit(c)
    ensures StripListNumbers([c] + t) == [c] + StripListNumbers(t)
  {
    assert ([c] + t)[1..] == t;
  }

  /** A character other than whitespace is kept by the terminal-punctuation rule. */
  lemma TightenTerminalPunctuationCopiesHead(c: char, t: string)
    requires !IsSpace(c)
    ensures TightenTerminalPunctuation([c] + t) == [c] + TightenTerminalPunctuation(t)
  {
    assert ([c] + t)[1..] == t;
  }

  /** A character that is neither whitespace nor the mark is kept by the mark rule. */
  lemma SpaceAfterMarkCopiesHead(c: char, t: string, mark: char)
    requires !IsSpace(mark) && !IsSpace(c) && c != mark
    ensures SpaceAfterMark([c] + t, mark) == [c] + SpaceAfterMark(t, mark)
  {
    assert ([c] + t)[1..] == t;
  }

  /** A character other than whitespace is kept by the ends rule, which then is past the start. */
  lemma StripEndsCopiesHead(c: char, t: string, atStart: bool)
    requires !IsSpace(c)
    ensures StripEnds([c] + t, atStart) == [c] + StripEnds(t, false)
  {
    assert ([c] + t)[1..] == t;
  }

  /** The digit run from `i` covers exactly `digits` when `s` goes on from `i` with `digits + rest`. */
  lemma DigitRunFromOf(s: string, i: nat, digits: string, rest: string)
    requires i <= |s| && s[i..] == digits + rest
    requires forall j :: 0 <= j < |digits| ==> IsDigit(digits[j])
    requires rest == [] || !IsDigit(rest[0])
    ensures DigitRunFrom(s, i) == i + |digits|
  {
    forall j | i <= j < i + |digits|
      ensures IsDigit(s[j])
    {
      assert s[j] == (digits + rest)[j - i];
    }
    assert i + |digits| < |s| ==> s[i + |digits|] == (digits + rest)[|digits|];
  }

  /** The whitespace run from `i` covers exactly `spaces` when `s` goes on from `i` with `spaces + rest`. */
  lemma SpaceRunFromOf(s: string, i: nat, spaces: string, rest: string)
    requires i <= |s| && s[i..] == spaces + rest
    requires forall j :: 0 <= j < |spaces| ==> IsSpace(spaces[j])
    requires rest == [] || !IsSpace(rest[0])
    ensures SpaceRunFrom(s, i) == i + |spaces|
  {
    forall j | i <= j < i + |spaces|
      ensures IsSpace(s[j])
    {
      assert s[j] == (spaces + rest)[j - i];
    }
    assert i + |spaces| < |s| ==> s[i + |spaces|] == (spaces + rest)[|spaces|];
  }

  lemma {:induction false} RunOfDigits(digits: string, rest: string)
    requires forall i :: 0 <= i < |digits| ==> IsDigit(digits[i])
    requires rest == [] || !IsDigit(rest[0])
    ensures DigitRun(digits + rest) == |digits|
  {
    var s := digits + rest;
    assert forall i :: 0 <= i < |digits| ==> IsDigit(s[i]);
    assert |digits| < |s| ==> s[|digits|] == rest[0];
  }

  lemma {:induction false} RunOfSpaces(spaces: string, rest: string)
    requires forall i :: 0 <= i < |spaces| ==> IsSpace(spaces[i])
    requires rest == [] || !IsSpace(rest[0])
    ensures SpaceRun(spaces + rest) == |spaces|
  {
    var s := spaces + rest;
    assert forall i :: 0 <= i < |spaces| ==> IsSpace(s[i]);
    assert |spaces| < |s| ==> s[|spaces|] == rest[0];
  }

  /** A non-space character, or a single space before a non-space one, is copied by the collapsing rule. */
  lemma CollapseCopiesHead(c: char, t: string)
    requires IsSpace(c) ==> c == ' ' && t != [] && !IsSpace(t[0])
    ensures CollapseSpaces([c] + t) == [c] + CollapseSpaces(t)
  {
    assert ([c] + t)[0] == c;
    assert ([c] + t)[1..] == t;
    if IsSpace(c) {
      RunOfSpaces([c], t);
    }
  }

  /** A prefix that ends in a non-space character and has only single spaces is copied by the collapsing rule. */
  lemma {:induction false} CollapseCopiesPrefix(p: string, q: string)
    requires p != [] && !IsSpace(p[|p| - 1])
    requires forall i :: 0 <= i < |p| && IsSpace(p[i]) ==> p[i] == ' ' && !IsSpace(p[i + 1])
    ensures CollapseSpaces(p + q) == p + CollapseSpaces(q)
  {
    var t := p[1..] + q;
    assert p + q == [p[0]] + t by {
      assert [p[0]] + p[1..] == p;
      AppendAssociative([p[0]], p[1..], q);
    }
    if |p| > 1 {
      var rest := CollapseSpaces(q);
      assert CollapseSpaces(t) == p[1..] + rest by {
        assert forall i :: 0 <= i < |p[1..]| && IsSpace(p[1..][i]) ==> p[1..][i] == ' ' && !IsSpace(p[1..][i + 1]);
        CollapseCopiesPrefix(p[1..], q);
      }
      assert IsSpace(p[0]) ==> t[0] == p[1];
      CollapseCopiesHead(p[0], t);
      assert [p[0]] + p[1..] == p;
      AppendAssociative([p[0]], p[1..], rest);
    } else {
      assert t == q;
      CollapseCopiesHead(p[0], t);
      assert [p[0]] == p;
    }
  }

  /** A run of whitespace becomes one space. */
  lemma CollapseRun(spaces: string, q: string)
    requires spaces != [] && forall i :: 0 <= i < |spaces| ==> IsSpace(spaces[i])
    requires q == [] || !IsSpace(q[0])
    ensures CollapseSpaces(spaces + q) == " " + CollapseSpaces(q)
  {
    RunOfSpaces(spaces, q);
    assert (spaces + q)[|spaces|..] == q;
  }

  /** Text around one group: the prefix is copied, the group is removed, the rest is left to the rule. */
  lemma RemoveGroupsAround(p: string, inner: string, q: string, open: char, close: char)
    requires open !in p && close !in inner && forall i :: 0 <= i < |inner| ==> !IsLineTerminator(inner[i])
    ensures RemoveGroups(p + ([open] + inner + [close] + q), open, close) == p + RemoveGroups(q, open, close)
  {
    RemoveGroupsCopiesPrefix(p, [open] + inner + [close] + q, open, close);
    RemoveGroupsDropsGroup(inner, q, open, close);
  }
}
