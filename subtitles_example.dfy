/**
 * `parseSubtitleFile` on small inputs: the single SRT cue whose text is cleaned step by step in
 * `CleaningExample`, and the empty file. Each step is its own lemma so that every proof handles
 * one literal fact.
 */
module SubtitleExample {
  import opened Strings
  import opened Cleaning
  import opened Subtitles
  import opened CleaningExample

  const Sequence := "1"
  const Timing := "00:00:01,000 --> 00:00:02,000"
  const Spoken := "Hello world (laughs) [music] 3 times"
  /** The block "1\n00:00:01,000 --> 00:00:02,000\nHello world (laughs) [music] 3 times". */
  const Cue := Sequence + "\n" + (Timing + "\n" + Spoken)

  lemma CueParts()
    ensures Cue == Sequence + ['\n'] + (Timing + ['\n'] + Spoken)
  {
  }

  lemma FirstLineCut()
    ensures Split(Cue, "\n") == [Sequence] + Split(Timing + ['\n'] + Spoken, "\n")
  {
    CueParts();
    CueLinesLackNewline();
    SplitAtChar(Sequence, '\n', Timing + ['\n'] + Spoken);
  }

  lemma SecondLineCut()
    ensures Split(Timing + ['\n'] + Spoken, "\n") == [Timing] + [Spoken]
  {
    CueLinesLackNewline();
    SplitAtChar(Timing, '\n', Spoken);
    SplitWithoutChar(Spoken, '\n');
  }

  lemma CueLinesSplit()
    ensures Split(Cue, "\n") == [Sequence] + ([Timing] + [Spoken])
  {
    FirstLineCut();
    SecondLineCut();
  }

  lemma SpokenIsTrimmed()
    ensures Trim(Spoken) == Spoken
  {
    assert Spoken[0] == 'H' && Spoken[|Spoken| - 1] == 's';
    TrimOfTrimmed(Spoken);
  }

  lemma SpokenCollected()
    ensures Spoken + " " == Collected
  {
  }

  lemma CueBlockText()
    ensures SrtBlockText(Cue) == Collected
  {
    CueLinesSplit();
    assert ([Sequence] + ([Timing] + [Spoken]))[2..] == [Spoken];
    SpokenIsTrimmed();
    SpokenCollected();
  }

  lemma CueLinesLackNewline()
    ensures '\n' !in Sequence && '\n' !in Timing && '\n' !in Spoken
  {
  }

  lemma CueHasNoBlankLine()
    ensures !Contains(Cue, "\n\n")
  {
    CueParts();
    CueLinesLackNewline();
    NoCharNoPair(Spoken, '\n');
    NoPairAcrossChar(Timing, '\n', Spoken);
    NoPairAcrossChar(Sequence, '\n', Timing + ['\n'] + Spoken);
  }

  lemma CueIsNotBlank()
    ensures Trim(Cue) != ""
  {
    TrimEmptyIffAllSpace(Cue);
    assert !IsSpace(Cue[0]);
  }

  lemma CueRawText()
    ensures RawText(Cue, "talk.srt") == Collected
  {
    CueHasNoBlankLine();
    CueIsNotBlank();
    FileWithoutBlankLineIsOneBlock(Cue);
    CueBlockText();
  }

  /** The one-cue SRT file yields `"Hello world times"`. */
  lemma CueNormalized()
    ensures Normalize(Cue, "talk.srt") == "Hello world times"
  {
    CueRawText();
    CleanedExample();
  }
}
