/**
 * The per-file loop of the upload handler (src/app/api/upload-folder/route.js:8-131): which
 * files are read, where each file sits in the course tree, the document it yields and the course
 * structure map built alongside.
 */
module Upload {
  import opened Wrappers
  import opened Strings
  import opened Cleaning
  import opened Subtitles
  import opened Paths
  import opened Seqs

  /**
   * One uploaded file: its `name`, its entry in the parallel `paths` list (the empty string when
   * the entry is missing, which `||` treats the same way) and its content decoded as text.
   */
  datatype UploadedFile = UploadedFile(name: string, path: string, content: string)

  /** `paths[i] || file.name`. */
  function RelativePath(f: UploadedFile): string {
    if f.path != "" then f.path else f.name
  }

  /** The metadata stored with a document. */
  datatype Metadata = Metadata(course: string, chapter: string, filename: string, originalPath: string, docType: string)

  datatype Document = Document(id: string, content: string, metadata: Metadata)

  /** The document one file yields, if it is a subtitle file whose cleaned text is not blank (lines 44-91). */
  function DocumentOf(f: UploadedFile): Option<Document> {
    var p := RelativePath(f);
    if !IsSubtitlePath(p) then None
    else
      var cleaned := Normalize(f.content, p);
      if Trim(cleaned) == "" then None
      else
        var loc := Locate(p);
        Some(Document(DocumentId(loc), cleaned,
          Metadata(loc.course, loc.chapter, loc.filename, p, DocumentType(loc.filename))))
  }

  /**
   * A document comes from a subtitle file, holds cleaned text that is neither empty nor padded,
   * and has an id made only of `[A-Za-z0-9_]`, as long as `course_chapter_filename`.
   */
  lemma DocumentIsWellFormed(f: UploadedFile)
    requires DocumentOf(f).Some?
    ensures var d := DocumentOf(f).value;
      IsSubtitlePath(RelativePath(f)) && d.metadata.originalPath == RelativePath(f) &&
      d.content == Normalize(f.content, RelativePath(f)) && d.content != "" && IsTrimmed(d.content) &&
      (forall i :: 0 <= i < |d.id| ==> IsWordChar(d.id[i])) &&
      |d.id| == |d.metadata.course| + |d.metadata.chapter| + |d.metadata.filename| + 2
  {
    var d := DocumentOf(f).value;
    assert Trim(d.content) != "";
    TrimOfTrimmed(d.content);
  }

  /** `processedFiles`: the number of files that pass the extension filter. */
  function ProcessedCount(files: seq<UploadedFile>): nat {
    if files == [] then 0
    else ProcessedCount(files[..|files| - 1]) + if IsSubtitlePath(RelativePath(files[|files| - 1])) then 1 else 0
  }

  /** `parsedDocuments`: the documents of the files, in file order. */
  function DocumentsOf(files: seq<UploadedFile>): seq<Document> {
    FilterMap(DocumentOf, files)
  }

  /** `courseStructure`: course, then chapter, then the file names in upload order. */
  type CourseStructure = map<string, map<string, seq<string>>>

  /** Lines 94-100: the file name appended under its course and chapter, creating either level when missing. */
  function AddFile(s: CourseStructure, course: string, chapter: string, filename: string): CourseStructure {
    var chapters := if course in s then s[course] else map[];
    var names := if chapter in chapters then chapters[chapter] else [];
    s[course := chapters[chapter := names + [filename]]]
  }

  function StructureOf(docs: seq<Document>): CourseStructure {
    if docs == [] then map[]
    else
      var m := docs[|docs| - 1].metadata;
      AddFile(StructureOf(docs[..|docs| - 1]), m.course, m.chapter, m.filename)
  }

  /** The file names of the documents filed under `course` and `chapter`, in order. */
  function FilesUnder(docs: seq<Document>, course: string, chapter: string): seq<string> {
    if docs == [] then []
    else
      var m := docs[|docs| - 1].metadata;
      FilesUnder(docs[..|docs| - 1], course, chapter) + if m.course == course && m.chapter == chapter then [m.filename] else []
  }

  lemma OneMoreFile(files: seq<UploadedFile>, i: nat)
    requires i < |files|
    ensures ProcessedCount(files[..i + 1]) == ProcessedCount(files[..i]) + if IsSubtitlePath(RelativePath(files[i])) then 1 else 0
    ensures DocumentsOf(files[..i + 1]) == DocumentsOf(files[..i]) + if DocumentOf(files[i]).Some? then [DocumentOf(files[i]).value] else []
  {
    assert files[..i + 1][..i] == files[..i];
  }

  lemma StructureOfOneMore(docs: seq<Document>, doc: Document)
    ensures StructureOf(docs + [doc]) == AddFile(StructureOf(docs), doc.metadata.course, doc.metadata.chapter, doc.metadata.filename)
  {
    assert (docs + [doc])[..|docs|] == docs;
  }

  datatype UploadSummary = UploadSummary(filesProcessed: nat, documents: seq<Document>, courseStructure: CourseStructure)

  datatype UploadError = NoFilesUploaded

  /**
   * The handler's loop: every file is filtered, parsed and filed. An empty upload is refused
   * (status 400, lines 14-16).
   */
  method UploadFolder(files: seq<UploadedFile>) returns (r: Result<UploadSummary, UploadError>)
    ensures files == [] <==> r == Err(NoFilesUploaded)
    ensures files != [] ==> r == Ok(UploadSummary(ProcessedCount(files), DocumentsOf(files), StructureOf(DocumentsOf(files))))
  {
    if |files| == 0 {
      return Err(NoFilesUploaded);
    }
    var processedFiles := 0;
    var courseStructure: CourseStructure := map[];
    var parsedDocuments: seq<Document> := [];
    for i := 0 to |files|
      invariant processedFiles == ProcessedCount(files[..i])
      invariant parsedDocuments == DocumentsOf(files[..i])
      invariant courseStructure == StructureOf(parsedDocuments)
    {
      OneMoreFile(files, i);
      var file := files[i];
      var relativePath := if file.path != "" then file.path else file.name;
      assert relativePath == RelativePath(file);
      if !IsSubtitlePath(relativePath) {
        assert DocumentOf(file) == None;
        assert ProcessedCount(files[..i + 1]) == processedFiles;
        continue;
      }
      assert ProcessedCount(files[..i + 1]) == processedFiles + 1;
      var loc := Locate(relativePath);
      var cleanedContent := ParseSubtitleFile(file.content, relativePath);
      if Trim(cleanedContent) != "" {
        var doc := Document(DocumentId(loc), cleanedContent,
          Metadata(loc.course, loc.chapter, loc.filename, relativePath, DocumentType(loc.filename)));
        assert DocumentOf(file) == Some(doc);
        StructureOfOneMore(parsedDocuments, doc);
        parsedDocuments := parsedDocuments + [doc];
        courseStructure := AddFile(courseStructure, loc.course, loc.chapter, loc.filename);
      } else {
        assert DocumentOf(file) == None;
      }
      processedFiles := processedFiles + 1;
    }
    assert files[..|files|] == files;
    return Ok(UploadSummary(processedFiles, parsedDocuments, courseStructure));
  }

  // ---------------------------------------------------------------------------------------
  // Properties of the loop

  /** Documents come out in file order: the documents of two runs of files are those of each, in turn. */
  lemma {:induction false} DocumentsOfAppend(a: seq<UploadedFile>, b: seq<UploadedFile>)
    ensures DocumentsOf(a + b) == DocumentsOf(a) + DocumentsOf(b)
  {
    FilterMapAppend(DocumentOf, a, b);
  }

  /** `documentsGenerated <= filesProcessed`: each processed file yields at most one document. */
  lemma {:induction false} DocumentsAtMostProcessed(files: seq<UploadedFile>)
    ensures |DocumentsOf(files)| <= ProcessedCount(files)
  {
    if files != [] {
      DocumentsAtMostProcessed(files[..|files| - 1]);
    }
  }

  /** Every document was made from one of the uploaded files. */
  lemma {:induction false} DocumentsComeFromFiles(files: seq<UploadedFile>, d: Document)
    requires d in DocumentsOf(files)
    ensures exists f :: f in files && DocumentOf(f) == Some(d)
  {
    var init := files[..|files| - 1];
    var last := files[|files| - 1];
    if d in DocumentsOf(init) {
      DocumentsComeFromFiles(init, d);
      var f :| f in init && DocumentOf(f) == Some(d);
      assert f in files;
    } else {
      assert DocumentOf(last) == Some(d);
    }
  }

  /**
   * `courseStructure[course][chapter]` exists exactly when some document is filed there, and then
   * lists the file names of those documents in order.
   */
  lemma {:induction false} StructureListsFilesUnder(docs: seq<Document>, course: string, chapter: string)
    ensures var s := StructureOf(docs);
      (course in s && chapter in s[course]) <==> FilesUnder(docs, course, chapter) != []
    ensures var s := StructureOf(docs);
      course in s && chapter in s[course] ==> s[course][chapter] == FilesUnder(docs, course, chapter)
  {
    if docs != [] {
      StructureListsFilesUnder(docs[..|docs| - 1], course, chapter);
    }
  }

  /** A course appears in the structure exactly when some document belongs to it, and never without a chapter. */
  lemma {:induction false} StructureHasOnlyFiledCourses(docs: seq<Document>, course: string)
    ensures var s := StructureOf(docs);
      (course in s <==> exists d :: d in docs && d.metadata.course == course) &&
      (course in s ==> s[course] != map[])
  {
    if docs != [] {
      var init := docs[..|docs| - 1];
      StructureHasOnlyFiledCourses(init, course);
      if exists d :: d in init && d.metadata.course == course {
        var d :| d in init && d.metadata.course == course;
        assert d in docs;
      }
      if exists d :: d in docs && d.metadata.course == course {
        var d :| d in docs && d.metadata.course == course;
        assert d in init || d == docs[|docs| - 1];
      }
    }
  }
}
