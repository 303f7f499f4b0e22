/**
 * The shaping logic of GoogleDriveClient in src/gdocs_mcp/drive.py: MIME-type
 * classification, the Drive v3 query strings, the reshaping of listings,
 * the per-type export dispatch with its fallbacks, and the guard that
 * (re)initialises the service.  The Drive API, the UTF-8 codec and the
 * markdown converter are an oracle the model is given.
 */
module Drive {
  import opened Wrappers
  import opened Strings
  import Paths
  import Auth

  // ---------------------------------------------------------------------------
  // MIME types and their classification.
  // ---------------------------------------------------------------------------

  const DOCUMENT_MIME: string := "application/vnd.google-apps.document"
  const SPREADSHEET_MIME: string := "application/vnd.google-apps.spreadsheet"
  const PRESENTATION_MIME: string := "application/vnd.google-apps.presentation"
  const FOLDER_MIME: string := "application/vnd.google-apps.folder"

  /** The keys of MIME_TYPES in the dictionary's insertion order. */
  const MIME_KEYS: seq<string> := ["document", "spreadsheet", "presentation", "folder"]

  /** The MIME_TYPES dictionary. */
  const MIME_TYPES: map<string, string> := map[
    "document" := DOCUMENT_MIME,
    "spreadsheet" := SPREADSHEET_MIME,
    "presentation" := PRESENTATION_MIME,
    "folder" := FOLDER_MIME]

  /** `MIME_TYPES.values()`, in insertion order. */
  function MimeTypeValues(): (values: seq<string>)
    ensures |values| == |MIME_KEYS|
    ensures forall i :: 0 <= i < |MIME_KEYS| ==> MIME_KEYS[i] in MIME_TYPES && values[i] == MIME_TYPES[MIME_KEYS[i]]
  {
    [MIME_TYPES["document"], MIME_TYPES["spreadsheet"], MIME_TYPES["presentation"], MIME_TYPES["folder"]]
  }

  /** `_get_file_type`: the inverted MIME_TYPES dictionary, with "file" for every other string. */
  function FileType(mimeType: string): (kind: string)
  {
    if mimeType == MIME_TYPES["document"] then "document"
    else if mimeType == MIME_TYPES["spreadsheet"] then "spreadsheet"
    else if mimeType == MIME_TYPES["presentation"] then "presentation"
    else if mimeType == MIME_TYPES["folder"] then "folder"
    else "file"
  }

  /**
   * FileType is total and inverts MIME_TYPES: a Workspace MIME type gives back
   * its key, and every other string is a plain "file".
   */
  lemma FileTypeInvertsMimeTypes(mimeType: string)
    ensures forall key :: key in MIME_TYPES ==> FileType(MIME_TYPES[key]) == key
    ensures FileType(mimeType) == "file" <==> mimeType !in MIME_TYPES.Values
    ensures FileType(mimeType) != "file" ==>
      FileType(mimeType) in MIME_TYPES && MIME_TYPES[FileType(mimeType)] == mimeType
  {
    assert MIME_TYPES.Values == {DOCUMENT_MIME, SPREADSHEET_MIME, PRESENTATION_MIME, FOLDER_MIME} by {
      assert MIME_TYPES["document"] == DOCUMENT_MIME;
      assert MIME_TYPES["spreadsheet"] == SPREADSHEET_MIME;
      assert MIME_TYPES["presentation"] == PRESENTATION_MIME;
      assert MIME_TYPES["folder"] == FOLDER_MIME;
    }
  }

  // ---------------------------------------------------------------------------
  // The `q` strings sent to files().list.
  // ---------------------------------------------------------------------------

  /** One clause of the filter: `f"mimeType='{mime}'"`. */
  function MimeClause(mime: string): string
  {
    "mimeType='" + mime + "'"
  }

  /** The comprehension `[f"mimeType='{mime}'" for mime in mimes if mime != MIME_TYPES["folder"]]`. */
  function MimeClauses(mimes: seq<string>): seq<string>
  {
    if mimes == [] then []
    else (if mimes[0] != MIME_TYPES["folder"] then [MimeClause(mimes[0])] else []) + MimeClauses(mimes[1..])
  }

  /** The MIME filter shared by the search and the listing. */
  function MimeFilter(): string
  {
    Join(" or ", MimeClauses(MimeTypeValues()))
  }

  /** The comprehension keeps the three non-folder types, in dictionary order. */
  lemma MimeClausesOfMimeTypes()
    ensures MimeClauses(MimeTypeValues()) ==
      [MimeClause(DOCUMENT_MIME), MimeClause(SPREADSHEET_MIME), MimeClause(PRESENTATION_MIME)]
  {
    var values := MimeTypeValues();
    assert values == [DOCUMENT_MIME, SPREADSHEET_MIME, PRESENTATION_MIME, FOLDER_MIME];
    assert values[1..] == [SPREADSHEET_MIME, PRESENTATION_MIME, FOLDER_MIME];
    assert values[1..][1..] == [PRESENTATION_MIME, FOLDER_MIME];
    assert values[1..][1..][1..] == [FOLDER_MIME];
    assert MimeClauses([FOLDER_MIME]) == [];
  }

  /** The filter selects documents, spreadsheets and presentations, in that order, joined by " or ". */
  lemma MimeFilterSelectsWorkspaceFiles()
    ensures MimeFilter() ==
      MimeClause(DOCUMENT_MIME) + " or " + MimeClause(SPREADSHEET_MIME) + " or " + MimeClause(PRESENTATION_MIME)
  {
    MimeClausesOfMimeTypes();
    JoinThree(" or ", MimeClause(DOCUMENT_MIME), MimeClause(SPREADSHEET_MIME), MimeClause(PRESENTATION_MIME));
  }

  /** The letter 'f' that the folder type contains appears in no clause of the filter. */
  lemma ClauseLacksF(mime: string)
    requires mime in {DOCUMENT_MIME, SPREADSHEET_MIME, PRESENTATION_MIME}
    ensures 'f' !in MimeClause(mime)
  {
    assert 'f' !in "mimeType='" && 'f' !in "'";
    if mime == DOCUMENT_MIME {
      assert 'f' !in DOCUMENT_MIME;
    } else if mime == SPREADSHEET_MIME {
      assert 'f' !in SPREADSHEET_MIME;
    } else {
      assert 'f' !in PRESENTATION_MIME;
    }
  }

  /** The filter never mentions the folder type. */
  lemma MimeFilterOmitsFolders()
    ensures !Contains(MimeFilter(), FOLDER_MIME)
  {
    MimeFilterSelectsWorkspaceFiles();
    ClauseLacksF(DOCUMENT_MIME);
    ClauseLacksF(SPREADSHEET_MIME);
    ClauseLacksF(PRESENTATION_MIME);
    assert 'f' !in " or ";
    assert FOLDER_MIME[28] == 'f';
    MissingCharNotContained(MimeFilter(), FOLDER_MIME, 28);
  }

  /** `_search_docs_sync`'s query: the filter, and the term matched against names and full text, inserted verbatim. */
  function SearchQuery(query: string): string
  {
    "(" + MimeFilter() + ") and (name contains '" + query + "' or fullText contains '" + query + "')"
  }

  /** Python truthiness of `folder_id`: neither None nor the empty string. */
  predicate Truthy(folderId: Option<string>)
  {
    folderId.Some? && folderId.value != ""
  }

  /** `_list_documents_sync`'s query: the filter, scoped to a folder only when `folder_id` is truthy. */
  function ListQuery(folderId: Option<string>): string
  {
    if Truthy(folderId) then "(" + MimeFilter() + ") and '" + folderId.value + "' in parents"
    else "(" + MimeFilter() + ")"
  }

  /**
   * The search term can be read back from the search query at two fixed
   * offsets, so different terms always give different queries.
   */
  lemma SearchQueryRecoversTerm(query: string, other: string)
    ensures var q := SearchQuery(query);
      var start := |MimeFilter()| + 23;
      var second := start + |query| + 24;
      |q| == |MimeFilter()| + 49 + 2 * |query| &&
      q[start..start + |query|] == query && q[second..second + |query|] == query
    ensures SearchQuery(query) == SearchQuery(other) ==> query == other
  {
    var head := "(" + MimeFilter() + ") and (name contains '";
    var mid := "' or fullText contains '";
    assert |head| == |MimeFilter()| + 23 && |mid| == 24 && |"')"| == 2;
    SplicedTwice(head, mid, "')", query, other);
  }

  /**
   * The listing is scoped exactly when `folder_id` is truthy: None and "" give
   * the bare filter, and a scoped query names the folder verbatim.
   */
  lemma ListQueryScope(folderId: Option<string>)
    ensures ListQuery(folderId) == "(" + MimeFilter() + ")" <==> !Truthy(folderId)
    ensures ListQuery(None) == ListQuery(Some(""))
    ensures Truthy(folderId) ==>
      var q := ListQuery(folderId);
      var start := |"(" + MimeFilter() + ") and '"|;
      q[..start] == "(" + MimeFilter() + ") and '" &&
      q[start..start + |folderId.value|] == folderId.value &&
      q[start + |folderId.value|..] == "' in parents"
  {
    var bare := "(" + MimeFilter() + ")";
    if Truthy(folderId) {
      var q := ListQuery(folderId);
      assert q == ("(" + MimeFilter() + ") and '") + folderId.value + "' in parents";
      assert |q| > |bare|;
    }
  }

  // ---------------------------------------------------------------------------
  // Reshaping a listing into descriptors.
  // ---------------------------------------------------------------------------

  /** One entry of `files` as requested: id, name and mimeType are read with `[]`, the rest with `.get`. */
  datatype FileResource = FileResource(
    id: string,
    name: string,
    mimeType: string,
    modifiedTime: Option<string>,
    description: Option<string>,
    webViewLink: Option<string>)

  /** The body of a files().list response; the "files" key may be absent. */
  datatype ListResponse = ListResponse(files: Option<seq<FileResource>>)

  /** The dictionary returned for each file by search and listing. */
  datatype Descriptor = Descriptor(id: string, name: string, kind: string, modified: string,
                                   description: string, url: string)

  /** `d.get(key, default)` for an optional value. */
  function GetOr(value: Option<string>, default: string): string
  {
    if value.Some? then value.value else default
  }

  /** `results.get("files", [])` */
  function FilesOf(response: ListResponse): seq<FileResource>
  {
    if response.files.Some? then response.files.value else []
  }

  /** The dictionary built for one file. */
  function Describe(file: FileResource): Descriptor
  {
    Descriptor(file.id, file.name, FileType(file.mimeType), GetOr(file.modifiedTime, ""),
               GetOr(file.description, ""), GetOr(file.webViewLink, ""))
  }

  /**
   * The list comprehension over `files`: one descriptor per file, in order,
   * carrying its id and name, its classified type, and "" for each missing
   * optional field.
   */
  function Reshape(files: seq<FileResource>): (descriptors: seq<Descriptor>)
    ensures |descriptors| == |files|
    ensures forall i :: 0 <= i < |files| ==>
      descriptors[i].id == files[i].id && descriptors[i].name == files[i].name &&
      descriptors[i].kind == FileType(files[i].mimeType)
    ensures forall i :: 0 <= i < |files| ==>
      (files[i].modifiedTime.None? ==> descriptors[i].modified == "") &&
      (files[i].modifiedTime.Some? ==> descriptors[i].modified == files[i].modifiedTime.value) &&
      (files[i].description.None? ==> descriptors[i].description == "") &&
      (files[i].description.Some? ==> descriptors[i].description == files[i].description.value) &&
      (files[i].webViewLink.None? ==> descriptors[i].url == "") &&
      (files[i].webViewLink.Some? ==> descriptors[i].url == files[i].webViewLink.value)
  {
    seq(|files|, i requires 0 <= i < |files| => Describe(files[i]))
  }

  /** Reshaping distributes over concatenation of listings, and a response without "files" gives []. */
  lemma ReshapeAppend(a: seq<FileResource>, b: seq<FileResource>)
    ensures Reshape(a + b) == Reshape(a) + Reshape(b)
    ensures Reshape(FilesOf(ListResponse(None))) == []
  {
  }

  // ---------------------------------------------------------------------------
  // The remote side, as an oracle.
  // ---------------------------------------------------------------------------

  /** The bytes `execute()` returns, as `.decode("utf-8")` sees them. */
  datatype Payload = Utf8(text: string) | NotUtf8

  /** The outcome of one request: a body, or an HttpError with its string form. */
  datatype Api<+T> = Served(body: T) | HttpError(reason: string)

  /** The metadata requested by `_read_document_sync`; "mimeType" and "modifiedTime" are read with `.get`. */
  datatype FileMetadata = FileMetadata(id: string, name: string, mimeType: Option<string>, modifiedTime: Option<string>)

  /** One request sent to the Drive API. */
  datatype Call =
    | ListFiles(q: string, pageSize: int)
    | GetMetadata(fileId: string)
    | Export(fileId: string, exportMime: string)
    | GetMedia(fileId: string)

  /**
   * What the outside world answers: the four Drive requests, and
   * `markdown.markdown`, which may raise.
   */
  datatype Oracle = Oracle(
    listFiles: (string, int) -> Api<ListResponse>,
    getMetadata: string -> Api<FileMetadata>,
    exportFile: (string, string) -> Api<Payload>,
    getMedia: string -> Api<Payload>,
    markdown: string -> Attempt<string>)

  /** A result together with the requests made to compute it, in order. */
  datatype Traced<+T> = Traced(value: T, calls: seq<Call>)

  /** An exception leaving a helper: an HttpError, or a UnicodeDecodeError from `.decode("utf-8")`. */
  datatype Raise = HttpRaised(reason: string) | DecodeRaised

  /** What a public operation raises. */
  datatype DriveError = RuntimeError(message: string) | UnicodeDecodeError

  const PRESENTATION_PLACEHOLDER: string :=
    "[This presentation cannot be exported as text. Please view it in Google Slides.]"
  const BINARY_PLACEHOLDER: string := "[Binary content not displayed]"
  const RETRIEVAL_PLACEHOLDER: string := "[Error retrieving file content]"

  const SEARCH_FAILED: string := "Failed to search Google Drive: "
  const READ_FAILED: string := "Failed to read document from Google Drive: "
  const LIST_FAILED: string := "Failed to list documents from Google Drive: "
  const SERVICE_UNAVAILABLE: string := "Google Drive API service not available"

  // ---------------------------------------------------------------------------
  // Exports and their fallbacks.
  // ---------------------------------------------------------------------------

  /** `files().export(fileId=id, mimeType=m).execute().decode("utf-8")`: one request. */
  function ExportText(oracle: Oracle, id: string, exportMime: string): (r: Traced<Result<string, Raise>>)
    ensures r.calls == [Export(id, exportMime)]
    ensures forall reason :: oracle.exportFile(id, exportMime) == HttpError(reason) <==> r.value == Err(HttpRaised(reason))
    ensures oracle.exportFile(id, exportMime) == Served(NotUtf8) <==> r.value == Err(DecodeRaised)
    ensures forall text :: oracle.exportFile(id, exportMime) == Served(Utf8(text)) <==> r.value == Ok(text)
  {
    var value := match oracle.exportFile(id, exportMime)
      case HttpError(reason) => Err(HttpRaised(reason))
      case Served(NotUtf8) => Err(DecodeRaised)
      case Served(Utf8(text)) => Ok(text);
    Traced(value, [Export(id, exportMime)])
  }

  /** `_html_to_markdown`: the converter's output, or the HTML unchanged when the converter raises. */
  function HtmlToMarkdown(oracle: Oracle, html: string): string
  {
    match oracle.markdown(html)
    case Returned(converted) => converted
    case Raised => html
  }

  /** The export MIME type `_export_document` requests for a format, compared case-insensitively. */
  function DocumentExportMime(format: string): string
  {
    if LowerStr(format) == "html" || LowerStr(format) == "markdown" then "text/html" else "text/plain"
  }

  /** `_export_document` */
  function ExportDocument(oracle: Oracle, id: string, format: string): Traced<Result<string, Raise>>
  {
    if LowerStr(format) == "html" then ExportText(oracle, id, "text/html")
    else if LowerStr(format) == "markdown" then
      var html := ExportText(oracle, id, "text/html");
      if html.value.Ok? then Traced(Ok(HtmlToMarkdown(oracle, html.value.value)), html.calls) else html
    else ExportText(oracle, id, "text/plain")
  }

  /** `_export_spreadsheet`: CSV, retried once as plain text when the CSV export raises HttpError. */
  function ExportSpreadsheet(oracle: Oracle, id: string): Traced<Result<string, Raise>>
  {
    var csv := ExportText(oracle, id, "text/csv");
    if csv.value.Err? && csv.value.error.HttpRaised? then
      var plain := ExportText(oracle, id, "text/plain");
      Traced(plain.value, csv.calls + plain.calls)
    else csv
  }

  /** `_export_presentation`: plain text, or the placeholder when the export raises HttpError. */
  function ExportPresentation(oracle: Oracle, id: string): Traced<Result<string, Raise>>
  {
    var plain := ExportText(oracle, id, "text/plain");
    if plain.value.Err? && plain.value.error.HttpRaised? then Traced(Ok(PRESENTATION_PLACEHOLDER), plain.calls)
    else plain
  }

  /** `_get_file_content`: the media download decoded, or a placeholder; it never raises. */
  function GetFileContent(oracle: Oracle, id: string): Traced<string>
  {
    var content := match oracle.getMedia(id)
      case HttpError(_) => RETRIEVAL_PLACEHOLDER
      case Served(NotUtf8) => BINARY_PLACEHOLDER
      case Served(Utf8(text)) => text;
    Traced(content, [GetMedia(id)])
  }

  /**
   * A document is exported once, as HTML for the formats "html" and
   * "markdown" in any letter case and as plain text otherwise; only
   * "markdown" converts, keeping the HTML when the converter raises.
   */
  lemma ExportDocumentFormats(oracle: Oracle, id: string, format: string)
    ensures ExportDocument(oracle, id, format).calls == [Export(id, DocumentExportMime(format))]
    ensures ExportDocument(oracle, id, format) == ExportDocument(oracle, id, LowerStr(format))
    ensures LowerStr(format) != "markdown" ==>
      ExportDocument(oracle, id, format) == ExportText(oracle, id, DocumentExportMime(format))
    ensures forall html :: LowerStr(format) == "markdown" && oracle.exportFile(id, "text/html") == Served(Utf8(html)) ==>
      ExportDocument(oracle, id, format).value == Ok(if oracle.markdown(html).Raised? then html else oracle.markdown(html).value)
    ensures LowerStr(format) == "markdown" && !oracle.exportFile(id, "text/html").Served? ==>
      ExportDocument(oracle, id, format).value == ExportText(oracle, id, "text/html").value
    ensures LowerStr(format) == "markdown" && oracle.exportFile(id, "text/html") == Served(NotUtf8) ==>
      ExportDocument(oracle, id, format).value == Err(DecodeRaised)
  {
    LowerStrIdempotent(format);
  }

  /**
   * A spreadsheet is exported as CSV; only an HttpError on the CSV export
   * leads to a second, plain-text export, whose failure is the result.
   */
  lemma ExportSpreadsheetFallback(oracle: Oracle, id: string)
    ensures var r := ExportSpreadsheet(oracle, id);
      (oracle.exportFile(id, "text/csv").HttpError? ==>
        r.calls == [Export(id, "text/csv"), Export(id, "text/plain")] &&
        r.value == ExportText(oracle, id, "text/plain").value) &&
      (!oracle.exportFile(id, "text/csv").HttpError? ==>
        r.calls == [Export(id, "text/csv")] && r.value == ExportText(oracle, id, "text/csv").value)
    ensures (oracle.exportFile(id, "text/csv").HttpError? && oracle.exportFile(id, "text/plain").HttpError?) ==>
      ExportSpreadsheet(oracle, id).value == Err(HttpRaised(oracle.exportFile(id, "text/plain").reason))
  {
  }

  /** A presentation export never raises HttpError: the placeholder stands in for it. */
  lemma ExportPresentationFallback(oracle: Oracle, id: string)
    ensures var r := ExportPresentation(oracle, id);
      r.calls == [Export(id, "text/plain")] &&
      !(r.value.Err? && r.value.error.HttpRaised?) &&
      (oracle.exportFile(id, "text/plain").HttpError? ==> r.value == Ok(PRESENTATION_PLACEHOLDER)) &&
      (!oracle.exportFile(id, "text/plain").HttpError? ==> r == ExportText(oracle, id, "text/plain"))
  {
  }

  /** Raw content is the decoded download, else one of the two placeholders, after exactly one request. */
  lemma GetFileContentFallback(oracle: Oracle, id: string)
    ensures var r := GetFileContent(oracle, id);
      r.calls == [GetMedia(id)] &&
      (oracle.getMedia(id).HttpError? ==> r.value == RETRIEVAL_PLACEHOLDER) &&
      (oracle.getMedia(id) == Served(NotUtf8) ==> r.value == BINARY_PLACEHOLDER) &&
      (forall text :: oracle.getMedia(id) == Served(Utf8(text)) ==> r.value == text)
  {
  }

  // ---------------------------------------------------------------------------
  // The synchronous bodies.
  // ---------------------------------------------------------------------------

  /** The document returned by `_read_document_sync`. */
  datatype DocumentContent = DocumentContent(id: string, name: string, kind: string, modified: string, content: string)

  /** The content branch `_read_document_sync` picks for a MIME type. */
  function ContentFor(oracle: Oracle, id: string, format: string, mimeType: string): Traced<Result<string, Raise>>
  {
    if mimeType == MIME_TYPES["document"] then ExportDocument(oracle, id, format)
    else if mimeType == MIME_TYPES["spreadsheet"] then ExportSpreadsheet(oracle, id)
    else if mimeType == MIME_TYPES["presentation"] then ExportPresentation(oracle, id)
    else
      var raw := GetFileContent(oracle, id);
      Traced(Ok(raw.value), raw.calls)
  }

  /** How an exception leaving a helper surfaces: HttpError becomes RuntimeError with `prefix`. */
  function Surface(prefix: string, raised: Raise): DriveError
  {
    match raised
    case HttpRaised(reason) => RuntimeError(prefix + reason)
    case DecodeRaised => UnicodeDecodeError
  }

  /** `_read_document_sync` */
  function ReadDocumentSync(oracle: Oracle, id: string, format: string): Traced<Result<DocumentContent, DriveError>>
  {
    match oracle.getMetadata(id)
    case HttpError(reason) => Traced(Err(RuntimeError(READ_FAILED + reason)), [GetMetadata(id)])
    case Served(metadata) =>
      var mimeType := GetOr(metadata.mimeType, "");
      var content := ContentFor(oracle, id, format, mimeType);
      var value := match content.value
        case Ok(text) =>
          Ok(DocumentContent(metadata.id, metadata.name, FileType(mimeType), GetOr(metadata.modifiedTime, ""), text))
        case Err(raised) => Err(Surface(READ_FAILED, raised));
      Traced(value, [GetMetadata(id)] + content.calls)
  }

  /** `_search_docs_sync` */
  function SearchDocsSync(oracle: Oracle, query: string, maxResults: int): Traced<Result<seq<Descriptor>, DriveError>>
  {
    var call := ListFiles(SearchQuery(query), maxResults);
    match oracle.listFiles(SearchQuery(query), maxResults)
    case HttpError(reason) => Traced(Err(RuntimeError(SEARCH_FAILED + reason)), [call])
    case Served(response) => Traced(Ok(Reshape(FilesOf(response))), [call])
  }

  /** `_list_documents_sync` */
  function ListDocumentsSync(oracle: Oracle, folderId: Option<string>, maxResults: int): Traced<Result<seq<Descriptor>, DriveError>>
  {
    var call := ListFiles(ListQuery(folderId), maxResults);
    match oracle.listFiles(ListQuery(folderId), maxResults)
    case HttpError(reason) => Traced(Err(RuntimeError(LIST_FAILED + reason)), [call])
    case Served(response) => Traced(Ok(Reshape(FilesOf(response))), [call])
  }

  /**
   * Every branch asks only for exports or the media of `id`, with one or two
   * requests, and its value is that of the helper the MIME type selects.
   */
  lemma ContentForCalls(oracle: Oracle, id: string, format: string, mimeType: string)
    ensures var calls := ContentFor(oracle, id, format, mimeType).calls;
      1 <= |calls| <= 2 &&
      forall k :: 0 <= k < |calls| ==> (calls[k].Export? || calls[k].GetMedia?) && calls[k].fileId == id
    ensures var c := ContentFor(oracle, id, format, mimeType).value;
      (FileType(mimeType) == "document" ==> c == ExportDocument(oracle, id, format).value) &&
      (FileType(mimeType) == "spreadsheet" ==> c == ExportSpreadsheet(oracle, id).value) &&
      (FileType(mimeType) == "presentation" ==> c == ExportPresentation(oracle, id).value) &&
      (FileType(mimeType) in {"folder", "file"} ==> c == Ok(GetFileContent(oracle, id).value))
  {
    if mimeType == MIME_TYPES["document"] {
      ExportDocumentFormats(oracle, id, format);
    }
  }

  /**
   * Reading first fetches the metadata and then asks only for exports or the
   * media of `id`; a document it returns carries the metadata's id, name and
   * modification time and the classified MIME type (a missing one counts as "").
   */
  lemma ReadDocumentDispatch(oracle: Oracle, id: string, format: string)
    ensures var r := ReadDocumentSync(oracle, id, format);
      r.calls[0] == GetMetadata(id) &&
      (oracle.getMetadata(id).HttpError? ==> |r.calls| == 1) &&
      (forall k :: 1 <= k < |r.calls| ==> r.calls[k].Export? || r.calls[k].GetMedia?) &&
      (forall k :: 0 <= k < |r.calls| ==> r.calls[k].fileId == id)
    ensures oracle.getMetadata(id).Served? ==>
      var metadata := oracle.getMetadata(id).body;
      var r := ReadDocumentSync(oracle, id, format);
      r.value.Ok? ==>
        r.value.value.kind == FileType(GetOr(metadata.mimeType, "")) && r.value.value.id == metadata.id &&
        r.value.value.name == metadata.name && r.value.value.modified == GetOr(metadata.modifiedTime, "")
  {
    if oracle.getMetadata(id).Served? {
      var metadata := oracle.getMetadata(id).body;
      ContentForCalls(oracle, id, format, GetOr(metadata.mimeType, ""));
    }
  }

  /**
   * What a read returns: an HttpError on the metadata request becomes the
   * read RuntimeError; otherwise the content branch's text, packed with the
   * metadata's id, name and modification time and the classified type, or the
   * branch's exception surfaced with the read message.
   */
  lemma ReadDocumentResult(oracle: Oracle, id: string, format: string)
    ensures oracle.getMetadata(id).HttpError? ==>
      ReadDocumentSync(oracle, id, format).value == Err(RuntimeError(READ_FAILED + oracle.getMetadata(id).reason))
    ensures oracle.getMetadata(id).Served? ==>
      var m := oracle.getMetadata(id).body;
      var mimeType := GetOr(m.mimeType, "");
      var c := ContentFor(oracle, id, format, mimeType);
      var r := ReadDocumentSync(oracle, id, format);
      (c.value.Ok? ==>
        r.value == Ok(DocumentContent(m.id, m.name, FileType(mimeType), GetOr(m.modifiedTime, ""), c.value.value))) &&
      (c.value.Err? ==> r.value == Err(Surface(READ_FAILED, c.value.error)))
  {
  }

  /**
   * After the metadata, exactly one branch runs, chosen by the MIME type:
   * the media download for folders and non-Workspace files, one export for
   * documents and presentations, and the CSV export first for spreadsheets.
   */
  lemma ReadDocumentBranches(oracle: Oracle, id: string, format: string)
    requires oracle.getMetadata(id).Served?
    ensures var mimeType := GetOr(oracle.getMetadata(id).body.mimeType, "");
      var r := ReadDocumentSync(oracle, id, format);
      (FileType(mimeType) in {"file", "folder"} <==> r.calls == [GetMetadata(id), GetMedia(id)]) &&
      (FileType(mimeType) == "document" ==> r.calls == [GetMetadata(id), Export(id, DocumentExportMime(format))]) &&
      (FileType(mimeType) == "presentation" ==> r.calls == [GetMetadata(id), Export(id, "text/plain")]) &&
      (FileType(mimeType) == "spreadsheet" ==> r.calls[1] == Export(id, "text/csv"))
  {
    var mimeType := GetOr(oracle.getMetadata(id).body.mimeType, "");
    var r := ReadDocumentSync(oracle, id, format);
    ExportDocumentFormats(oracle, id, format);
    ExportSpreadsheetFallback(oracle, id);
    if FileType(mimeType) !in {"file", "folder"} {
      assert r.calls[1].Export?;
    }
  }

  /**
   * Every HttpError that reaches `_read_document_sync` surfaces as a
   * RuntimeError naming the read; raw files and presentations never surface one.
   */
  lemma ReadDocumentErrors(oracle: Oracle, id: string, format: string)
    ensures var r := ReadDocumentSync(oracle, id, format);
      r.value.Err? && r.value.error.RuntimeError? ==>
        |READ_FAILED| <= |r.value.error.message| && r.value.error.message[..|READ_FAILED|] == READ_FAILED
    ensures oracle.getMetadata(id).Served? ==>
      var kind := FileType(GetOr(oracle.getMetadata(id).body.mimeType, ""));
      var r := ReadDocumentSync(oracle, id, format);
      kind in {"file", "folder", "presentation"} ==> !(r.value.Err? && r.value.error.RuntimeError?)
  {
  }

  /**
   * Search makes one list request with the built query and the page size as
   * given; an HttpError becomes a RuntimeError with the search message, and a
   * served listing is reshaped file by file into the result.
   */
  lemma SearchDocsRequests(oracle: Oracle, query: string, maxResults: int)
    ensures var r := SearchDocsSync(oracle, query, maxResults);
      r.calls == [ListFiles(SearchQuery(query), maxResults)] &&
      (r.value.Err? <==> oracle.listFiles(SearchQuery(query), maxResults).HttpError?) &&
      (r.value.Err? ==> r.value.error == RuntimeError(SEARCH_FAILED + oracle.listFiles(SearchQuery(query), maxResults).reason)) &&
      (r.value.Ok? ==> r.value.value == Reshape(FilesOf(oracle.listFiles(SearchQuery(query), maxResults).body)))
  {
  }

  /** The listing makes one list request in the same way, with its own query and message. */
  lemma ListDocumentsRequests(oracle: Oracle, folderId: Option<string>, maxResults: int)
    ensures var r := ListDocumentsSync(oracle, folderId, maxResults);
      r.calls == [ListFiles(ListQuery(folderId), maxResults)] &&
      (r.value.Err? <==> oracle.listFiles(ListQuery(folderId), maxResults).HttpError?) &&
      (r.value.Err? ==> r.value.error == RuntimeError(LIST_FAILED + oracle.listFiles(ListQuery(folderId), maxResults).reason)) &&
      (r.value.Ok? ==> r.value.value == Reshape(FilesOf(oracle.listFiles(ListQuery(folderId), maxResults).body)))
  {
  }

  // ---------------------------------------------------------------------------
  // The client object and its service guard.
  // ---------------------------------------------------------------------------

  /** The object `build("drive", "v3", credentials=...)` returns. */
  datatype Service = Service(credentials: Auth.Credential)

  /**
   * What one `_initialize_service` meets outside the client: the file system
   * the auth manager looks at, the outcome of its OAuth flow, and whether
   * `build` raises.
   */
  datatype InitOutcomes = InitOutcomes(fs: Paths.FileSystem, flow: Attempt<Auth.Credential>, buildRaises: bool)

  /** `_initialize_service` on values: absent credentials leave the service as it was. */
  function InitializedService(service: Option<Service>, credentials: Option<Auth.Credential>, buildRaises: bool): Option<Service>
  {
    if credentials.None? then service
    else if buildRaises then None
    else Some(Service(credentials.value))
  }

  /**
   * Started without a service, initialisation yields one exactly when the
   * credentials are present and `build` succeeds, and it is built from them.
   */
  lemma InitializedServiceNeedsCredentials(credentials: Option<Auth.Credential>, buildRaises: bool)
    ensures InitializedService(None, credentials, buildRaises).Some? <==> credentials.Some? && !buildRaises
    ensures InitializedService(None, credentials, buildRaises).Some? ==>
      InitializedService(None, credentials, buildRaises).value.credentials == credentials.value
  {
  }

  class GoogleDriveClient {
    const authManager: Auth.GoogleAuthManager
    var service: Option<Service>

    /** Every Drive request made through this client, in order. */
    ghost var Calls: seq<Call>

    /** __init__: no service yet, then one initialisation. */
    constructor (authManager: Auth.GoogleAuthManager, env: InitOutcomes)
      modifies authManager`credentials, authManager`Steps
      ensures this.authManager == authManager && Calls == []
      ensures var run := Auth.GetCredentialsRun(old(authManager.credentials),
                                                Paths.Exists(env.fs, authManager.credentialsPath), env.flow);
        authManager.credentials == run.credentials && authManager.Steps == old(authManager.Steps) + run.steps &&
        service == InitializedService(None, run.credentials, env.buildRaises)
    {
      this.authManager := authManager;
      service := None;
      Calls := [];
      new;
      InitializeService(env);
    }

    /** _initialize_service */
    method InitializeService(env: InitOutcomes)
      modifies this`service, authManager`credentials, authManager`Steps
      ensures var run := Auth.GetCredentialsRun(old(authManager.credentials),
                                                Paths.Exists(env.fs, authManager.credentialsPath), env.flow);
        authManager.credentials == run.credentials && authManager.Steps == old(authManager.Steps) + run.steps &&
        service == InitializedService(old(service), run.credentials, env.buildRaises)
    {
      var credentials := authManager.GetCredentials(env.fs, env.flow);
      if credentials.Some? {
        if env.buildRaises {
          service := None;
        } else {
          service := Some(Service(credentials.value));
        }
      }
    }

    /** The guard opening search_docs, read_document and list_documents: reinitialise once when there is no service. */
    method EnsureService(env: InitOutcomes)
      modifies this`service, authManager`credentials, authManager`Steps
      ensures old(service).Some? ==>
        service == old(service) && authManager.credentials == old(authManager.credentials) &&
        authManager.Steps == old(authManager.Steps)
      ensures old(service).None? ==>
        var run := Auth.GetCredentialsRun(old(authManager.credentials),
                                          Paths.Exists(env.fs, authManager.credentialsPath), env.flow);
        authManager.credentials == run.credentials && authManager.Steps == old(authManager.Steps) + run.steps &&
        service == InitializedService(None, run.credentials, env.buildRaises)
    {
      if service.None? {
        InitializeService(env);
      }
    }

    /** search_docs: the guard, then the search; no request is made without a service. */
    method SearchDocs(oracle: Oracle, query: string, maxResults: int, env: InitOutcomes)
      returns (r: Result<seq<Descriptor>, DriveError>)
      modifies this`service, this`Calls, authManager`credentials, authManager`Steps
      ensures old(service).Some? ==>
        service == old(service) && authManager.credentials == old(authManager.credentials) &&
        authManager.Steps == old(authManager.Steps)
      ensures old(service).None? ==>
        var run := Auth.GetCredentialsRun(old(authManager.credentials),
                                          Paths.Exists(env.fs, authManager.credentialsPath), env.flow);
        authManager.credentials == run.credentials && authManager.Steps == old(authManager.Steps) + run.steps &&
        service == InitializedService(None, run.credentials, env.buildRaises)
      ensures service.None? ==> r == Err(RuntimeError(SERVICE_UNAVAILABLE)) && Calls == old(Calls)
      ensures service.Some? ==>
        r == SearchDocsSync(oracle, query, maxResults).value &&
        Calls == old(Calls) + SearchDocsSync(oracle, query, maxResults).calls
    {
      EnsureService(env);
      if service.None? {
        return Err(RuntimeError(SERVICE_UNAVAILABLE));
      }
      var result := SearchDocsSync(oracle, query, maxResults);
      Calls := Calls + result.calls;
      r := result.value;
    }

    /** read_document: the guard, then the read; no request is made without a service. */
    method ReadDocument(oracle: Oracle, id: string, format: string, env: InitOutcomes)
      returns (r: Result<DocumentContent, DriveError>)
      modifies this`service, this`Calls, authManager`credentials, authManager`Steps
      ensures old(service).Some? ==>
        service == old(service) && authManager.credentials == old(authManager.credentials) &&
        authManager.Steps == old(authManager.Steps)
      ensures old(service).None? ==>
        var run := Auth.GetCredentialsRun(old(authManager.credentials),
                                          Paths.Exists(env.fs, authManager.credentialsPath), env.flow);
        authManager.credentials == run.credentials && authManager.Steps == old(authManager.Steps) + run.steps &&
        service == InitializedService(None, run.credentials, env.buildRaises)
      ensures service.None? ==> r == Err(RuntimeError(SERVICE_UNAVAILABLE)) && Calls == old(Calls)
      ensures service.Some? ==>
        r == ReadDocumentSync(oracle, id, format).value &&
        Calls == old(Calls) + ReadDocumentSync(oracle, id, format).calls
    {
      EnsureService(env);
      if service.None? {
        return Err(RuntimeError(SERVICE_UNAVAILABLE));
      }
      var result := ReadDocumentSync(oracle, id, format);
      Calls := Calls + result.calls;
      r := result.value;
    }

    /** list_documents: the guard, then the listing; no request is made without a service. */
    method ListDocuments(oracle: Oracle, folderId: Option<string>, maxResults: int, env: InitOutcomes)
      returns (r: Result<seq<Descriptor>, DriveError>)
      modifies this`service, this`Calls, authManager`credentials, authManager`Steps
      ensures old(service).Some? ==>
        service == old(service) && authManager.credentials == old(authManager.credentials) &&
        authManager.Steps == old(authManager.Steps)
      ensures old(service).None? ==>
        var run := Auth.GetCredentialsRun(old(authManager.credentials),
                                          Paths.Exists(env.fs, authManager.credentialsPath), env.flow);
        authManager.credentials == run.credentials && authManager.Steps == old(authManager.Steps) + run.steps &&
        service == InitializedService(None, run.credentials, env.buildRaises)
      ensures service.None? ==> r == Err(RuntimeError(SERVICE_UNAVAILABLE)) && Calls == old(Calls)
      ensures service.Some? ==>
        r == ListDocumentsSync(oracle, folderId, maxResults).value &&
        Calls == old(Calls) + ListDocumentsSync(oracle, folderId, maxResults).calls
    {
      EnsureService(env);
      if service.None? {
        return Err(RuntimeError(SERVICE_UNAVAILABLE));
      }
      var result := ListDocumentsSync(oracle, folderId, maxResults);
      Calls := Calls + result.calls;
      r := result.value;
    }
  }
}
