/**
 * How the upload handler reads a relative path (src/app/api/upload-folder/route.js:44-89): the
 * subtitle filter, the course/chapter/file split, the sanitised document id and the document type.
 */
module Paths {
  import opened Wrappers
  import opened Strings
  import opened Seqs

  /** The filter `/\.(srt|vtt)$/i`: the path ends in `.srt` or `.vtt`, in any letter case. */
  predicate IsSubtitlePath(p: string) {
    EndsWith(ToLower(p), ".srt") || EndsWith(ToLower(p), ".vtt")
  }

  /** The parts of a split that are not empty, in order (`filter(part => part.length > 0)`). */
  function NonEmptyParts(parts: seq<string>): (r: seq<string>)
    ensures |r| <= |parts|
    ensures forall i :: 0 <= i < |r| ==> r[i] != ""
  {
    if parts == [] then []
    else
      var init := NonEmptyParts(parts[..|parts| - 1]);
      var last := parts[|parts| - 1];
      if last != "" then init + [last] else init
  }

  function PathParts(p: string): seq<string> {
    NonEmptyParts(Split(p, "/"))
  }

  /** Where a file sits in the course tree. */
  datatype Location = Location(course: string, chapter: string, filename: string)

  /**
   * Course, chapter and file name taken from a subtitle path: the first non-empty segment, the
   * second one or `"Unknown Chapter"`, and the last one. A subtitle path always has a segment, so
   * the fallback `"Unknown Course"` of line 53 is never used.
   */
  function Locate(p: string): (loc: Location)
    requires IsSubtitlePath(p)
    ensures loc.course != "" && loc.filename != ""
  {
    SubtitlePathHasSegment(p);
    var parts := PathParts(p);
    Location(parts[0], if |parts| >= 2 then parts[1] else "Unknown Chapter", parts[|parts| - 1])
  }

  /** The four-character extension a subtitle path ends with, as written. */
  function Extension(p: string): string
    requires IsSubtitlePath(p)
  {
    p[|p| - 4..]
  }

  lemma ExtensionIsSubtitleExtension(p: string)
    requires IsSubtitlePath(p)
    ensures ToLower(Extension(p)) == ".srt" || ToLower(Extension(p)) == ".vtt"
    ensures '/' !in Extension(p) && Extension(p)[0] == '.' && '.' !in Extension(p)[1..]
  {
    LowerSuffix(p, 4);
    ExtensionCharacters(Extension(p));
  }

  /** A four-character text that lower-cases to `.srt` or `.vtt` starts with its only `.` and holds no `/`. */
  lemma ExtensionCharacters(e: string)
    requires |e| == 4 && (ToLower(e) == ".srt" || ToLower(e) == ".vtt")
    ensures '/' !in e && e[0] == '.' && '.' !in e[1..]
  {
    var l := ToLower(e);
    LowerCharOfMark(e[0], l[0]);
    LowerCharOfLetter(e[1], l[1]);
    LowerCharOfLetter(e[2], l[2]);
    LowerCharOfLetter(e[3], l[3]);
    assert e == [e[0], e[1], e[2], e[3]];
    assert e[1..] == [e[1], e[2], e[3]];
  }

  lemma LowerCharOfMark(c: char, x: char)
    requires LowerChar(c) == x && x == '.'
    ensures c == '.'
  {
  }

  lemma LowerCharOfLetter(c: char, x: char)
    requires LowerChar(c) == x && 'a' <= x <= 'z'
    ensures c != '.' && c != '/'
  {
  }

  lemma {:induction false} NonEmptyKeepsNonEmptyLast(parts: seq<string>)
    requires parts != [] && parts[|parts| - 1] != ""
    ensures var r := NonEmptyParts(parts); r != [] && r[|r| - 1] == parts[|parts| - 1]
  {
  }

  /** The last segment of a subtitle path ends with the path's extension. */
  lemma SubtitlePathHasSegment(p: string)
    requires IsSubtitlePath(p)
    ensures var parts := PathParts(p); parts != [] && EndsWith(parts[|parts| - 1], Extension(p))
  {
    ExtensionIsSubtitleExtension(p);
    SplitLastEndsWith(p, '/', Extension(p));
    NonEmptyKeepsNonEmptyLast(Split(p, "/"));
  }

  /** `String.prototype.replace(/[^a-zA-Z0-9_]/g, "_")`. */
  function Sanitize(s: string): (r: string)
    ensures |r| == |s|
    ensures forall i :: 0 <= i < |r| ==> IsWordChar(r[i])
    ensures forall i :: 0 <= i < |r| ==> (IsWordChar(s[i]) ==> r[i] == s[i]) && (!IsWordChar(s[i]) ==> r[i] == '_')
  {
    if s == [] then [] else [if IsWordChar(s[0]) then s[0] else '_'] + Sanitize(s[1..])
  }

  /** The document id: `course_chapter_filename`, sanitised. */
  function DocumentId(loc: Location): string {
    Sanitize(loc.course + "_" + loc.chapter + "_" + loc.filename)
  }

  /** The index of the last `.` in `f`, if there is one. */
  function LastDot(f: string): (d: Option<nat>)
    ensures d.None? <==> '.' !in f
    ensures d.Some? ==> d.value < |f| && f[d.value] == '.' && '.' !in f[d.value + 1..]
  {
    if f == [] then None
    else if f[|f| - 1] == '.' then Some(|f| - 1)
    else
      var d := LastDot(f[..|f| - 1]);
      assert d.Some? ==> f[d.value + 1..] == f[..|f| - 1][d.value + 1..] + [f[|f| - 1]];
      d
  }

  /**
   * Node's `path.extname` on a name without `/`: from the last `.` to the end, or `""` when there
   * is no `.`, when the only candidate is a leading `.`, or for the name `".."`.
   */
  function ExtName(f: string): (r: string)
    ensures r == "" || (r[0] == '.' && EndsWith(f, r) && '.' !in r[1..] && |r| < |f|)
  {
    match LastDot(f)
    case None => ""
    case Some(d) => if d == 0 || f == ".." then "" else f[d..]
  }

  /** `path.extname(filename).toLowerCase()`. */
  function DocumentType(filename: string): string {
    ToLower(ExtName(filename))
  }

  lemma {:induction false} LastDotPastDotless(a: string, b: string)
    requires '.' !in b
    ensures LastDot(a + b) == LastDot(a)
  {
    if b != [] {
      LastDotPastDotless(a, b[..|b| - 1]);
      assert (a + b)[..|a + b| - 1] == a + b[..|b| - 1];
    } else {
      assert a + b == a;
    }
  }

  /**
   * The type recorded for a subtitle file name is its extension in lower case, `".srt"` or
   * `".vtt"`, except for a name that is only the extension (`".srt"`), whose type is empty.
   */
  lemma SubtitleDocumentType(f: string)
    requires IsSubtitlePath(f)
    ensures DocumentType(f) == if |f| == 4 then "" else ToLower(Extension(f))
  {
    ExtensionIsSubtitleExtension(f);
    var e := Extension(f);
    assert f == f[..|f| - 3] + e[1..];
    LastDotPastDotless(f[..|f| - 3], e[1..]);
    assert LastDot(f[..|f| - 3]) == Some(|f| - 4);
  }

  /**
   * The type recorded for a subtitle path's file is the path's extension in lower case, unless the
   * file name is that extension alone.
   */
  lemma FileNameType(p: string)
    requires IsSubtitlePath(p)
    ensures var f := Locate(p).filename;
      DocumentType(f) == if |f| == 4 then "" else ToLower(Extension(p))
  {
    var f := Locate(p).filename;
    var e := Extension(p);
    assert |f| >= 4 && f[|f| - 4..] == e by {
      SubtitlePathHasSegment(p);
    }
    assert IsSubtitlePath(f) by {
      LowerSuffix(f, 4);
      LowerSuffix(p, 4);
    }
    SubtitleDocumentType(f);
  }

  // ---------------------------------------------------------------------------------------
  // Properties of the path split and of the ids

  lemma {:induction false} NonEmptyPartsAppend(a: seq<string>, b: seq<string>)
    ensures NonEmptyParts(a + b) == NonEmptyParts(a) + NonEmptyParts(b)
  {
    if b != [] {
      var b' := b[..|b| - 1];
      NonEmptyPartsAppend(a, b');
      AppendDropLast(a, b);
      var last := if b[|b| - 1] != "" then [b[|b| - 1]] else [];
      AppendAssociative(NonEmptyParts(a), NonEmptyParts(b'), last);
    } else {
      assert a + b == a;
      assert NonEmptyParts(a) + [] == NonEmptyParts(a);
    }
  }

  /** A file uploaded without folders is its own course and file name, in the chapter `"Unknown Chapter"`. */
  lemma OneSegmentPath(p: string)
    requires IsSubtitlePath(p) && '/' !in p
    ensures Locate(p) == Location(p, "Unknown Chapter", p)
  {
    SplitWithoutChar(p, '/');
    assert NonEmptyParts([p]) == NonEmptyParts([]) + [p];
  }

  /** In `course/chapter/file`, the three segments are the course, the chapter and the file name. */
  lemma ThreeSegmentPath(course: string, chapter: string, filename: string)
    requires course != "" && chapter != "" && filename != ""
    requires '/' !in course && '/' !in chapter && '/' !in filename
    requires IsSubtitlePath(course + "/" + chapter + "/" + filename)
    ensures Locate(course + "/" + chapter + "/" + filename) == Location(course, chapter, filename)
  {
    var p := course + "/" + chapter + "/" + filename;
    assert Split(p, "/") == [course, chapter, filename] by {
      assert p == course + ['/'] + (chapter + ['/'] + filename);
      SplitAtChar(course, '/', chapter + ['/'] + filename);
      SplitAtChar(chapter, '/', filename);
      SplitWithoutChar(filename, '/');
    }
    assert NonEmptyParts([course, chapter, filename]) == [course, chapter, filename] by {
      assert [course, chapter, filename][..2] == [course, chapter];
      assert [course, chapter][..1] == [course];
      assert NonEmptyParts([course]) == NonEmptyParts([]) + [course];
    }
  }

  /** Empty segments are dropped, so a leading `/` does not move the course. */
  lemma LeadingSlashIgnored(p: string)
    requires IsSubtitlePath(p)
    ensures IsSubtitlePath("/" + p) && Locate("/" + p) == Locate(p)
  {
    LeadingSlashKeepsFilter(p);
    LeadingSlashKeepsParts(p);
  }

  lemma LeadingSlashKeepsFilter(p: string)
    requires IsSubtitlePath(p)
    ensures IsSubtitlePath("/" + p)
  {
    var q := "/" + p;
    LowerSuffix(q, 4);
    LowerSuffix(p, 4);
    assert q[|q| - 4..] == p[|p| - 4..];
  }

  lemma LeadingSlashKeepsParts(p: string)
    ensures PathParts("/" + p) == PathParts(p)
  {
    assert "/" + p == [] + ['/'] + p;
    SplitAtChar([], '/', p);
    NonEmptyPartsAppend([""], Split(p, "/"));
    assert NonEmptyParts([""]) == NonEmptyParts([]);
  }

  /** Sanitising cannot tell a character outside `[A-Za-z0-9_]` from `_`. */
  lemma SanitizeMergesWithUnderscore(s: string, i: nat)
    requires i < |s| && !IsWordChar(s[i])
    ensures Sanitize(s[i := '_']) == Sanitize(s)
  {
  }

  /** Two different files can receive the same id: a space in the course name and an underscore look the same. */
  lemma IdsCanCollide()
    ensures Location("Intro AI", "Week1", "a.srt") != Location("Intro_AI", "Week1", "a.srt")
    ensures DocumentId(Location("Intro AI", "Week1", "a.srt")) == DocumentId(Location("Intro_AI", "Week1", "a.srt"))
  {
    var s := "Intro AI" + "_" + "Week1" + "_" + "a.srt";
    assert "Intro_AI" + "_" + "Week1" + "_" + "a.srt" == s[5 := '_'];
    SanitizeMergesWithUnderscore(s, 5);
  }

  /** Even without sanitising, the id does not say where the course name ends and the chapter name begins. */
  lemma IdsCanCollideAcrossSegments()
    ensures Location("a_b", "c", "x.srt") != Location("a", "b_c", "x.srt")
    ensures DocumentId(Location("a_b", "c", "x.srt")) == DocumentId(Location("a", "b_c", "x.srt"))
  {
    assert "a_b" + "_" + "c" + "_" + "x.srt" == "a" + "_" + "b_c" + "_" + "x.srt";
  }
}
