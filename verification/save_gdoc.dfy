/**
 * The caching half of the command-line tool save_gdoc.py: the safe file name
 * derived from a document's title, and the layout of the text file written
 * for it.  The tool's copies of the text flattener and of the name lookup are
 * the ones in module Gdoc.
 */
module SaveGdoc {
  import opened Strings

  /** The directory the cache files are written to, relative to the working directory. */
  const OUTPUT_DIR: string := "gdocs_cache"

  /** The width of the dashed rule under the header line. */
  const RULE_WIDTH: nat := 80

  /** A character the sanitiser keeps: alphanumeric, or one of space, '-' and '_'. */
  predicate IsSafe(c: char)
  {
    IsAlnum(c) || c in " -_"
  }

  /** `"".join(c if c.isalnum() or c in " -_" else "_" for c in doc_name)` */
  function SafeName(docName: string): (safe: string)
    ensures |safe| == |docName|
    ensures forall i :: 0 <= i < |docName| ==>
      safe[i] == (if IsSafe(docName[i]) then docName[i] else '_')
  {
    if docName == [] then ""
    else [if IsSafe(docName[0]) then docName[0] else '_'] + SafeName(docName[1..])
  }

  /** The sanitised name contains only safe characters. */
  lemma SafeNameIsSafe(docName: string)
    ensures forall i :: 0 <= i < |SafeName(docName)| ==> IsSafe(SafeName(docName)[i])
  {
  }

  /** Sanitising is idempotent, and leaves exactly the already-safe names unchanged. */
  lemma SafeNameIdempotent(docName: string)
    ensures SafeName(SafeName(docName)) == SafeName(docName)
    ensures SafeName(docName) == docName <==> forall i :: 0 <= i < |docName| ==> IsSafe(docName[i])
  {
    var s := SafeName(docName);
    assert forall i :: 0 <= i < |s| ==> IsSafe(s[i]);
    if forall i :: 0 <= i < |docName| ==> IsSafe(docName[i]) {
      assert SafeName(docName) == docName;
    }
  }

  /** `os.path.join(a, b)` on POSIX: an absolute `b` replaces `a`; otherwise one '/' separates them. */
  function PathJoin(a: string, b: string): string
  {
    if |b| > 0 && b[0] == '/' then b
    else if a == "" || a[|a| - 1] == '/' then a + b
    else a + "/" + b
  }

  /** The file name `save_document_to_file` writes to: the sanitised title plus ".txt", inside OUTPUT_DIR. */
  function CacheFileName(docName: string): string
  {
    PathJoin(OUTPUT_DIR, SafeName(docName) + ".txt")
  }

  /** The header line written before the content. */
  function HeaderLine(docName: string, docId: string): string
  {
    "Document: " + docName + " (ID: " + docId + ")\n"
  }

  /** The three writes of `save_document_to_file`: header line, 80 dashes and a blank line, content. */
  function FileText(docName: string, docId: string, content: string): string
  {
    HeaderLine(docName, docId) + (Repeat('-', RULE_WIDTH) + "\n\n") + content
  }

  /** What one call of `save_document_to_file` produces: the file's name and its text. */
  datatype SavedFile = SavedFile(filename: string, text: string)

  /**
   * save_document_to_file: the file lands directly inside OUTPUT_DIR (the
   * sanitised name holds no '/'), and its text is the header line, a rule of
   * 80 dashes, an empty line, and the content verbatim.
   */
  function SaveDocumentToFile(docName: string, docId: string, content: string): (saved: SavedFile)
    ensures saved.filename == OUTPUT_DIR + "/" + SafeName(docName) + ".txt"
    ensures '/' !in saved.filename[|OUTPUT_DIR| + 1..]
    ensures |saved.text| == |HeaderLine(docName, docId)| + RULE_WIDTH + 2 + |content|
    ensures saved.text[..|HeaderLine(docName, docId)|] == HeaderLine(docName, docId)
    ensures forall i :: |HeaderLine(docName, docId)| <= i < |HeaderLine(docName, docId)| + RULE_WIDTH ==>
      saved.text[i] == '-'
    ensures saved.text[|HeaderLine(docName, docId)| + RULE_WIDTH..|HeaderLine(docName, docId)| + RULE_WIDTH + 2] == "\n\n"
    ensures saved.text[|saved.text| - |content|..] == content
  {
    CacheFileNameLayout(docName);
    FileTextLayout(HeaderLine(docName, docId), content);
    SavedFile(CacheFileName(docName), FileText(docName, docId, content))
  }

  /** The cache file sits directly inside OUTPUT_DIR, since the sanitised name holds no '/'. */
  lemma CacheFileNameLayout(docName: string)
    ensures CacheFileName(docName) == OUTPUT_DIR + "/" + SafeName(docName) + ".txt"
    ensures '/' !in CacheFileName(docName)[|OUTPUT_DIR| + 1..]
  {
    var safe := SafeName(docName);
    assert '/' !in safe by {
      forall i | 0 <= i < |safe| ensures safe[i] != '/' {
        assert IsSafe(safe[i]);
      }
    }
    var filename := CacheFileName(docName);
    assert filename == OUTPUT_DIR + "/" + (safe + ".txt");
    assert filename[|OUTPUT_DIR| + 1..] == safe + ".txt";
  }

  /** A header, the rule of dashes with its blank line, then the content: each part at its own offsets. */
  lemma FileTextLayout(header: string, content: string)
    ensures var text := header + (Repeat('-', RULE_WIDTH) + "\n\n") + content;
      |text| == |header| + RULE_WIDTH + 2 + |content| &&
      text[..|header|] == header &&
      (forall i :: |header| <= i < |header| + RULE_WIDTH ==> text[i] == '-') &&
      text[|header| + RULE_WIDTH..|header| + RULE_WIDTH + 2] == "\n\n" &&
      text[|text| - |content|..] == content
  {
    var rule := Repeat('-', RULE_WIDTH) + "\n\n";
    var text := header + rule + content;
    assert text[..|header|] == header;
    assert text[|header| + RULE_WIDTH..|header| + RULE_WIDTH + 2] == rule[RULE_WIDTH..];
    assert text[|text| - |content|..] == content;
  }

  /** The content can be read back from the file text by skipping the header line and the rule. */
  lemma ContentReadBack(docName: string, docId: string, content: string)
    ensures SaveDocumentToFile(docName, docId, content).text[|HeaderLine(docName, docId)| + RULE_WIDTH + 2..] == content
  {
    var text := SaveDocumentToFile(docName, docId, content).text;
    assert |text| - |content| == |HeaderLine(docName, docId)| + RULE_WIDTH + 2;
  }
}
