/**
 * The cleaning chain run on the text the SRT reader collects from the block
 * "1\n00:00:01,000 --> 00:00:02,000\nHello world (laughs) [music] 3 times", one rule at a time.
 * Each step is its own lemma so that every proof handles one literal fact.
 */
module CleaningExample {
  import opened Strings
  import opened Cleaning

  const Collected := "Hello world (laughs) [music] 3 times "
  const NoStageDirection := "Hello world (laughs)  3 times "
  const NoAside := "Hello world   3 times "
  const NoNumber := "Hello world   times "
  const Collapsed := "Hello world times "
  const Cleaned := "Hello world times"

  lemma CollectedParts()
    ensures Collected == "Hello world (laughs) " + (['['] + "music" + [']'] + " 3 times ")
  {
  }

  lemma NoStageDirectionJoin()
    ensures "Hello world (laughs) " + " 3 times " == NoStageDirection
  {
  }

  lemma StageDirectionCut()
    ensures RemoveGroups(Collected, '[', ']')
         == "Hello world (laughs) " + RemoveGroups(" 3 times ", '[', ']')
  {
    CollectedParts();
    RemoveGroupsAround("Hello world (laughs) ", "music", " 3 times ", '[', ']');
  }

  lemma StageDirectionRestInert()
    ensures RemoveGroups(" 3 times ", '[', ']') == " 3 times "
  {
  }

  lemma StageDirectionRemoved()
    ensures RemoveGroups(Collected, '[', ']') == NoStageDirection
  {
    StageDirectionCut();
    StageDirectionRestInert();
    NoStageDirectionJoin();
  }

  lemma NoStageDirectionParts()
    ensures NoStageDirection == "Hello world " + (['('] + "laughs" + [')'] + "  3 times ")
  {
  }

  lemma NoAsideJoin()
    ensures "Hello world " + "  3 times " == NoAside
  {
  }

  lemma AsideCut()
    ensures RemoveGroups(NoStageDirection, '(', ')')
         == "Hello world " + RemoveGroups("  3 times ", '(', ')')
  {
    NoStageDirectionParts();
    RemoveGroupsAround("Hello world ", "laughs", "  3 times ", '(', ')');
  }

  lemma AsideRestInert()
    ensures RemoveGroups("  3 times ", '(', ')') == "  3 times "
  {
  }

  lemma AsideRemoved()
    ensures RemoveGroups(NoStageDirection, '(', ')') == NoAside
  {
    AsideCut();
    AsideRestInert();
    NoAsideJoin();
  }

  lemma NoAsideParts()
    ensures NoAside == "Hello world   " + ("3" + " " + "times ")
  {
  }

  lemma NumberPrefixHasNoDigits()
    ensures forall i :: 0 <= i < |"Hello world   "| ==> !IsDigit("Hello world   "[i])
    ensures !IsWordChar("Hello world   "[13])
  {
  }

  lemma NumberCut()
    ensures StripBoundaryNumbers(NoAside, false)
         == "Hello world   " + StripBoundaryNumbers("3" + " " + "times ", false)
  {
    NoAsideParts();
    NumberPrefixHasNoDigits();
    StripBoundaryNumbersCopiesPrefix("Hello world   ", "3" + " " + "times ", false);
  }

  lemma NumberDropped()
    ensures StripBoundaryNumbers("3" + " " + "times ", false) == "times "
  {
    StripBoundaryNumbersDropsNumber("3", " ", "times ");
    RestHasNoDigits();
  }

  lemma RestHasNoDigits()
    ensures forall i :: 0 <= i < |"times "| ==> !IsDigit("times "[i])
  {
  }

  lemma NoNumberJoin()
    ensures "Hello world   " + "times " == NoNumber
  {
  }

  lemma NumberRemoved()
    ensures StripBoundaryNumbers(NoAside, false) == NoNumber
  {
    NumberCut();
    NumberDropped();
    NoNumberJoin();
  }

  lemma NoNumberHasNoDigits()
    ensures forall i :: 0 <= i < |NoNumber| ==> !IsDigit(NoNumber[i])
  {
  }

  lemma ScrubbedExample()
    ensures Scrub(Collected) == NoNumber
  {
    StageDirectionRemoved();
    AsideRemoved();
    NumberRemoved();
    NoNumberHasNoDigits();
  }

  lemma NoNumberParts()
    ensures NoNumber == "Hello world" + ("   " + "times ")
  {
  }

  lemma SpacesCut()
    ensures CollapseSpaces(NoNumber) == "Hello world" + CollapseSpaces("   " + "times ")
  {
    NoNumberParts();
    CollapseCopiesPrefix("Hello world", "   " + "times ");
  }

  lemma SpacesRun()
    ensures CollapseSpaces("   " + "times ") == " " + CollapseSpaces("times ")
  {
    CollapseRun("   ", "times ");
  }

  lemma SpacesRestInert()
    ensures CollapseSpaces("times ") == "times "
  {
    CollapseKeepsSingleSpaces("times ");
  }

  lemma CollapsedJoin()
    ensures "Hello world" + (" " + "times ") == Collapsed
  {
  }

  lemma SpacesCollapsed()
    ensures CollapseSpaces(NoNumber) == Collapsed
  {
    SpacesCut();
    SpacesRun();
    SpacesRestInert();
    CollapsedJoin();
  }

  lemma CollapsedHasNoMarks()
    ensures '.' !in Collapsed && '!' !in Collapsed && '?' !in Collapsed && ',' !in Collapsed
  {
    assert forall i :: 0 <= i < |Collapsed| ==> IsProseChar(Collapsed[i]);
  }

  lemma CollapsedIsTight()
    ensures TightenTerminalPunctuation(Collapsed) == Collapsed
  {
    CollapsedHasNoMarks();
  }

  lemma CollapsedIsSpaced()
    ensures SpaceAfterMark(Collapsed, ',') == Collapsed
    ensures SpaceAfterMark(Collapsed, '.') == Collapsed
  {
    CollapsedHasNoMarks();
  }

  lemma RespacedExample()
    ensures Respace(NoNumber) == Collapsed
  {
    SpacesCollapsed();
    CollapsedIsTight();
    CollapsedIsSpaced();
  }

  lemma CollapsedParts()
    ensures Collapsed == ['H'] + ("ello world times" + " ") && Cleaned == ['H'] + "ello world times"
  {
  }

  lemma EndsStripped()
    ensures StripEnds(Collapsed, true) == Cleaned
  {
    CollapsedParts();
    StripEndsDropsTrailingSpace("ello world times");
    assert SpaceRun(Collapsed) == 0;
  }

  /**
   * The stage direction, the parenthetical and the standalone number are removed, whitespace is
   * normalised and the ends are trimmed: the collected text cleans to "Hello world times".
   */
  lemma CleanedExample()
    ensures Clean(Collected) == Cleaned
  {
    calc {
      Clean(Collected);
      Trim(StripEnds(Respace(Scrub(Collected)), true));
      { ScrubbedExample(); }
      Trim(StripEnds(Respace(NoNumber), true));
      { RespacedExample(); }
      Trim(StripEnds(Collapsed, true));
      { EndsStripped(); }
      Trim(Cleaned);
      { TrimOfTrimmed(Cleaned); }
      Cleaned;
    }
  }
}
