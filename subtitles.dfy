/**
 * `parseSubtitleFile` (src/app/api/upload-folder/route.js:134-203): the SRT and VTT readers that
 * collect the spoken text of a subtitle file, followed by the cleaning chain.
 */
module Subtitles {
  import opened Strings
  import opened Cleaning
  import opened Seqs

  datatype Format = Srt | Vtt | Other

  /** The reader is chosen by the lower-cased file name's extension, SRT first. */
  function FormatOf(filename: string): (f: Format)
    ensures f == Srt <==> EndsWith(ToLower(filename), ".srt")
    ensures f == Vtt <==> !EndsWith(ToLower(filename), ".srt") && EndsWith(ToLower(filename), ".vtt")
  {
    var lower := ToLower(filename);
    if EndsWith(lower, ".srt") then Srt else if EndsWith(lower, ".vtt") then Vtt else Other
  }

  /** The parts that are not blank, in order (`filter(block => block.trim())`). */
  function NonBlank(parts: seq<string>): (r: seq<string>)
    ensures |r| <= |parts|
  {
    if parts == [] then []
    else
      var init := NonBlank(parts[..|parts| - 1]);
      var last := parts[|parts| - 1];
      if Trim(last) != "" then init + [last] else init
  }

  /** `NonBlank` keeps exactly the parts that are not blank. */
  lemma {:induction false} NonBlankKeepsExactlyTheNonBlank(parts: seq<string>)
    ensures forall b :: b in NonBlank(parts) <==> b in parts && Trim(b) != ""
  {
    if parts != [] {
      var init := parts[..|parts| - 1];
      var last := parts[|parts| - 1];
      NonBlankKeepsExactlyTheNonBlank(init);
      assert parts == init + [last];
      var kept := if Trim(last) != "" then NonBlank(init) + [last] else NonBlank(init);
      assert NonBlank(parts) == kept;
      forall b ensures b in kept <==> b in parts && Trim(b) != "" {
        assert b in parts <==> b in init || b == last;
      }
    }
  }

  /** The blocks of an SRT file: the content cut at every blank line `"\n\n"`, blank blocks dropped. */
  function SrtBlocks(content: string): seq<string> {
    NonBlank(Split(content, "\n\n"))
  }

  /**
   * What one block adds to the text: nothing if it has fewer than three lines; otherwise its lines
   * after the sequence number and the timing line, joined by single spaces and trimmed, followed
   * by one space, unless that text is empty.
   */
  function SrtBlockText(block: string): string {
    var lines := Split(block, "\n");
    if |lines| >= 3 then
      var text := Trim(Join(lines[2..], " "));
      if text != "" then text + " " else ""
    else ""
  }

  /** The text the SRT reader collects from `blocks`, block after block. */
  function SrtText(blocks: seq<string>): string {
    if blocks == [] then "" else SrtText(blocks[..|blocks| - 1]) + SrtBlockText(blocks[|blocks| - 1])
  }

  /** A trimmed VTT line that is skipped outright: the header, a `NOTE` line, or a blank line. */
  predicate VttSkipped(t: string) {
    StartsWith(t, "WEBVTT") || StartsWith(t, "NOTE") || t == ""
  }

  /** A trimmed VTT line that the reader takes as a cue timing line: one that holds `-->`. */
  predicate IsTimingLine(t: string) {
    !VttSkipped(t) && Contains(t, "-->")
  }

  /**
   * The `inTextBlock` flag after `lines`: set by the first timing line and never cleared.
   */
  predicate SeenTiming(lines: seq<string>) {
    if lines == [] then false else SeenTiming(lines[..|lines| - 1]) || IsTimingLine(Trim(lines[|lines| - 1]))
  }

  /** What one VTT line adds to the text, given the flag as it stood before the line. */
  function VttLineText(line: string, inTextBlock: bool): string {
    var t := Trim(line);
    if VttSkipped(t) || Contains(t, "-->") || !inTextBlock then "" else t + " "
  }

  /** The text the VTT reader collects from `lines` when the flag starts as `start`. */
  function VttCollect(lines: seq<string>, start: bool): string {
    if lines == [] then ""
    else
      var init := lines[..|lines| - 1];
      VttCollect(init, start) + VttLineText(lines[|lines| - 1], start || SeenTiming(init))
  }

  function VttText(lines: seq<string>): string {
    VttCollect(lines, false)
  }

  /** The text collected before cleaning: the reader chosen by the extension, or `""` for any other file. */
  function RawText(content: string, filename: string): string {
    match FormatOf(filename)
    case Srt => SrtText(SrtBlocks(content))
    case Vtt => VttText(Split(content, "\n"))
    case Other => ""
  }

  /** The value `parseSubtitleFile(content, filename)` returns. */
  function Normalize(content: string, filename: string): string {
    Clean(RawText(content, filename))
  }

  /** A block of one or two lines (the counter and the timing) contributes nothing. */
  lemma SrtBlockOfFewLines(counter: string, timing: string)
    requires '\n' !in counter && '\n' !in timing
    ensures SrtBlockText(counter) == ""
    ensures SrtBlockText(counter + "\n" + timing) == ""
  {
    SplitWithoutChar(counter, '\n');
    SplitAtChar(counter, '\n', timing);
    SplitWithoutChar(timing, '\n');
  }

  /**
   * The counter and timing lines are dropped; the rest of the block, its line breaks turned into
   * spaces and trimmed, is kept with one space after it, unless it is blank.
   */
  lemma SrtBlockDropsTwoLines(counter: string, timing: string, rest: string)
    requires '\n' !in counter && '\n' !in timing
    ensures var text := Trim(ReplaceChar(rest, '\n', ' '));
      SrtBlockText(counter + "\n" + timing + "\n" + rest) == if text != "" then text + " " else ""
  {
    var block := counter + "\n" + timing + "\n" + rest;
    assert block == counter + ['\n'] + (timing + ['\n'] + rest);
    SplitAtChar(counter, '\n', timing + ['\n'] + rest);
    SplitAtChar(timing, '\n', rest);
    var lines := Split(block, "\n");
    assert lines == [counter, timing] + Split(rest, "\n");
    assert lines[2..] == Split(rest, "\n");
    JoinSplitReplaces(rest, '\n', ' ');
  }

  /** One more block adds its own text. */
  lemma SrtTextStep(blocks: seq<string>, b: nat)
    requires b < |blocks|
    ensures SrtText(blocks[..b + 1]) == SrtText(blocks[..b]) + SrtBlockText(blocks[b])
  {
    assert blocks[..b + 1][..b] == blocks[..b];
  }

  /** The SRT loop of lines 140-154: each block's text lines, joined and trimmed, then one space. */
  method ReadSrt(content: string) returns (cleanText: string)
    ensures cleanText == SrtText(SrtBlocks(content))
  {
    cleanText := "";
    var subtitleBlocks := SrtBlocks(content);
    for b := 0 to |subtitleBlocks|
      invariant cleanText == SrtText(subtitleBlocks[..b])
    {
      SrtTextStep(subtitleBlocks, b);
      ghost var added := SrtBlockText(subtitleBlocks[b]);
      var lines := Split(subtitleBlocks[b], "\n");
      if |lines| >= 3 {
        var text := Trim(Join(lines[2..], " "));
        if text != "" {
          assert added == text + " ";
          cleanText := cleanText + (text + " ");
        } else {
          assert added == "";
        }
      } else {
        assert added == "";
      }
    }
    assert subtitleBlocks[..|subtitleBlocks|] == subtitleBlocks;
  }

  /** One more line adds its own text, read with the flag as the earlier lines left it, and may set the flag. */
  lemma VttStep(lines: seq<string>, i: nat)
    requires i < |lines|
    ensures VttText(lines[..i + 1]) == VttText(lines[..i]) + VttLineText(lines[i], SeenTiming(lines[..i]))
    ensures SeenTiming(lines[..i + 1]) == (SeenTiming(lines[..i]) || IsTimingLine(Trim(lines[i])))
  {
    assert lines[..i + 1][..i] == lines[..i];
  }

  /**
   * The VTT loop of lines 157-182: skip header, `NOTE` and blank lines; a timing line sets
   * `inTextBlock`; once it is set every other line is collected, trimmed, then one space.
   */
  method ReadVtt(content: string) returns (cleanText: string)
    ensures cleanText == VttText(Split(content, "\n"))
  {
    cleanText := "";
    var lines := Split(content, "\n");
    var inTextBlock := false;
    for i := 0 to |lines|
      invariant cleanText == VttText(lines[..i])
      invariant inTextBlock == SeenTiming(lines[..i])
    {
      VttStep(lines, i);
      var trimmedLine := Trim(lines[i]);
      if StartsWith(trimmedLine, "WEBVTT") || StartsWith(trimmedLine, "NOTE") || trimmedLine == "" {
        assert VttLineText(lines[i], inTextBlock) == "";
        continue;
      }
      if Contains(trimmedLine, "-->") {
        assert VttLineText(lines[i], inTextBlock) == "";
        inTextBlock := true;
        continue;
      }
      if inTextBlock && trimmedLine != "" {
        assert VttLineText(lines[i], inTextBlock) == trimmedLine + " ";
        cleanText := cleanText + (trimmedLine + " ");
      } else {
        assert VttLineText(lines[i], inTextBlock) == "";
      }
    }
    assert lines[..|lines|] == lines;
  }

  /**
   * `parseSubtitleFile` as written: the reader chosen by the lower-cased name, then the cleaning chain.
   */
  method ParseSubtitleFile(content: string, filename: string) returns (r: string)
    ensures r == Normalize(content, filename)
    ensures IsTrimmed(r)
  {
    var cleanText := "";
    var lower := ToLower(filename);
    if EndsWith(lower, ".srt") {
      cleanText := ReadSrt(content);
    } else if EndsWith(lower, ".vtt") {
      cleanText := ReadVtt(content);
    }
    r := Clean(cleanText);
  }

  /** An empty file, or a file that is neither SRT nor VTT, yields the empty string. */
  lemma EmptyOrUnknownYieldsNothing(content: string, filename: string)
    ensures Normalize("", filename) == ""
    ensures FormatOf(filename) == Other ==> Normalize(content, filename) == ""
  {
    ProseIsClean("");
    assert Split("", "\n\n") == [""] && Split("", "\n") == [""];
    assert NonBlank([""]) == NonBlank([]);
    assert VttCollect([""], false) == VttCollect([], false) + VttLineText("", false);
  }

  // ---------------------------------------------------------------------------------------
  // Properties of the SRT reader

  /** The SRT text of consecutive runs of blocks is the concatenation of their texts: blocks are read in order. */
  lemma {:induction false} SrtTextAppend(a: seq<string>, b: seq<string>)
    ensures SrtText(a + b) == SrtText(a) + SrtText(b)
  {
    if b != [] {
      var b' := b[..|b| - 1];
      SrtTextAppend(a, b');
      AppendDropLast(a, b);
      AppendAssociative(SrtText(a), SrtText(b'), SrtBlockText(b[|b| - 1]));
    } else {
      assert a + b == a;
      assert SrtText(a) + "" == SrtText(a);
    }
  }

  lemma TalkIsSrt()
    ensures FormatOf("talk.srt") == Srt
  {
    var l := ToLower("talk.srt");
    assert l[4] == '.' && l[5] == 's' && l[6] == 'r' && l[7] == 't';
    assert l[4..] == ".srt";
  }

  /**
   * A file without a blank line `"\n\n"` (a CRLF file has `"\r\n\r\n"` instead) is a single
   * block, so everything after its first two lines, later sequence numbers and timing lines
   * included, is taken as text.
   */
  lemma FileWithoutBlankLineIsOneBlock(content: string)
    requires !Contains(content, "\n\n") && Trim(content) != ""
    ensures SrtBlocks(content) == [content]
    ensures RawText(content, "talk.srt") == SrtBlockText(content)
  {
    assert SrtBlocks(content) == [content] by {
      SplitSingleIffNoSeparator(content, "\n\n");
      assert NonBlank([content]) == NonBlank([]) + [content];
    }
    TalkIsSrt();
    assert SrtText([content]) == SrtText([]) + SrtBlockText(content) by {
      assert [content][..0] == [];
    }
  }

  // ---------------------------------------------------------------------------------------
  // Properties of the VTT reader

  lemma {:induction false} SeenTimingAppend(a: seq<string>, b: seq<string>)
    ensures SeenTiming(a + b) == (SeenTiming(a) || SeenTiming(b))
  {
    if b != [] {
      var b' := b[..|b| - 1];
      SeenTimingAppend(a, b');
      AppendDropLast(a, b);
    } else {
      assert a + b == a;
    }
  }

  /** Once a timing line has been read the flag stays set: nothing in the reader clears it. */
  lemma FlagNeverResets(a: seq<string>, b: seq<string>)
    requires SeenTiming(a)
    ensures SeenTiming(a + b)
  {
    SeenTimingAppend(a, b);
  }

  /** Reading `a + b` is reading `a`, then reading `b` with the flag as `a` left it. */
  lemma {:induction false} VttCollectAppend(a: seq<string>, b: seq<string>, start: bool)
    ensures VttCollect(a + b, start) == VttCollect(a, start) + VttCollect(b, start || SeenTiming(a))
  {
    if b != [] {
      var b' := b[..|b| - 1];
      var last := b[|b| - 1];
      var s' := start || SeenTiming(a);
      VttCollectAppend(a, b', start);
      SeenTimingAppend(a, b');
      AppendDropLast(a, b);
      var line := VttLineText(last, s' || SeenTiming(b'));
      assert VttCollect(a + b, start) == VttCollect(a + b', start) + line;
      assert VttCollect(b, s') == VttCollect(b', s') + line;
      AppendAssociative(VttCollect(a, start), VttCollect(b', s'), line);
    } else {
      assert a + b == a;
      assert VttCollect(a, start) + "" == VttCollect(a, start);
    }
  }

  /** Nothing is collected before the first timing line. */
  lemma {:induction false} NothingBeforeFirstTiming(lines: seq<string>)
    requires !SeenTiming(lines)
    ensures VttText(lines) == ""
  {
    if lines != [] {
      NothingBeforeFirstTiming(lines[..|lines| - 1]);
    }
  }

  /** After the flag is set, every line that is not skipped and holds no `-->` is collected, trimmed, with one space. */
  predicate IsCollectable(line: string) {
    !VttSkipped(Trim(line)) && !Contains(Trim(line), "-->")
  }

  lemma {:induction false} CollectedOnceInTextBlock(lines: seq<string>)
    ensures VttCollect(lines, true) == AllCollectable(lines)
  {
    if lines != [] {
      CollectedOnceInTextBlock(lines[..|lines| - 1]);
    }
  }

  /** Every collectable line's trimmed text followed by one space, in order. */
  function AllCollectable(lines: seq<string>): string {
    if lines == [] then ""
    else
      var last := lines[|lines| - 1];
      AllCollectable(lines[..|lines| - 1]) + (if IsCollectable(last) then Trim(last) + " " else "")
  }

  /**
   * The VTT text is exactly the collectable lines after the first timing line: lines before it
   * are dropped, and every later line that is not skipped is kept, whatever it is (a cue
   * identifier, or the body of a `NOTE` block that follows a cue).
   */
  lemma VttTextFromFirstTiming(before: seq<string>, timing: string, after: seq<string>)
    requires !SeenTiming(before) && IsTimingLine(Trim(timing))
    ensures VttText(before + [timing] + after) == AllCollectable(after)
  {
    VttCollectAppend(before + [timing], after, false);
    VttCollectAppend(before, [timing], false);
    NothingBeforeFirstTiming(before);
    assert VttCollect([timing], false) == "";
    SeenTimingAppend(before, [timing]);
    assert SeenTiming([timing]) by {
      assert [timing][..0] == [];
    }
    CollectedOnceInTextBlock(after);
  }
}
