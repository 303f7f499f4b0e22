# gdrive-mcp in Dafny

A model of the logic of gdrive-mcp, a Python server and pair of command-line
tools that read Google Docs, Sheets and Slides through the Google Drive API.
The model covers:

- **Gdoc** (`gdoc.py`): the flattener `extract_text_from_doc_content`, which
  walks the structural elements of a Docs body (paragraph text runs, table
  cells row by row, tables of contents) in document order. Also
  `find_document_by_name`, which picks the first case-insensitive exact match
  in a listing, else the first substring match. `save_gdoc.py` holds
  character-for-character copies of both functions (save_gdoc.py:39-53 and
  70-88). They are modelled once, here, and the table cites the gdoc.py copies.
- **SaveGdoc** (`save_gdoc.py`): the file-name sanitiser and the layout of the
  cache file written by `save_document_to_file`.
- **Paths**: the part of `pathlib` that the credential manager uses.
- **Auth** (`src/gdocs_mcp/auth.py`): `GoogleAuthManager` as a class.
  - The constructor resolves the project root, the credentials path (with its
    four fallbacks) and the token path, reads the scopes, then loads the
    credentials.
  - The load, refresh, authenticate and save-token steps are methods that
    update the credentials and a ghost log of outside effects (`Steps`).
  - Each method is proved equal to a function of the outside events (`LoadRun`,
    `AuthenticateRun`, `GetCredentialsRun`); the lemmas state the properties of
    those functions.
- **Drive** (`src/gdocs_mcp/drive.py`): `GoogleDriveClient` as a class.
  - The MIME-type table and its inversion `_get_file_type`.
  - The `q` strings sent to `files().list`.
  - The reshaping of listings into descriptors.
  - The per-type export dispatch of `_read_document_sync`, with the
    spreadsheet, presentation and raw-file fallbacks.
  - The service guard in front of `search_docs`, `read_document` and
    `list_documents`.

  The Drive API, UTF-8 decoding and the markdown converter form an oracle
  (`Drive.Oracle`). Every synchronous body returns its result together with
  the requests it made (`Traced`).

Files: `wrappers.dfy` (Option, Result, Attempt), `strings.dfy` (the string
operations of Python used by the model), `gdoc.dfy`, `save_gdoc.dfy`,
`paths.dfy`, `auth.dfy`, `drive.dfy`.

## Model

| member | source | states |
|---|---|---|
| Strings.LowerStr | gdoc.py:44 | `s.lower()` keeps the length and lower-cases each character on its own |
| Strings.Split | src/gdocs_mcp/auth.py:31 | splitting on '/' yields at least one piece, and no piece holds the separator; `JoinSplit` and `SplitJoin` fix which pieces |
| Strings.SplitAfterPlainPrefix | src/gdocs_mcp/auth.py:31 | a separator-free prefix is glued to the first piece of what follows it, and the remaining pieces are unchanged |
| Strings.JoinSplit | src/gdocs_mcp/auth.py:31 | joining the pieces of a split with the separator gives back the string |
| Strings.SplitJoin | src/gdocs_mcp/auth.py:31 | splitting the join of separator-free pieces gives back the pieces |
| Paths.Parse | src/gdocs_mcp/auth.py:31 | `Path(s)` is absolute exactly when `s` starts with '/', and keeps only non-empty components other than "."; `ParseRoundTrip` fixes which components |
| Paths.ComponentsKeepsComponents | src/gdocs_mcp/auth.py:31 | pieces that are all valid components are kept, in order |
| Paths.ParseRoundTrip | src/gdocs_mcp/auth.py:31 | a well-formed path written out ("/" then its components joined by '/') parses back to itself |
| Paths.Child | src/gdocs_mcp/auth.py:46-47 | `p / c` has parent `p` and name `c` |
| Gdoc.Text | gdoc.py:69-87 | the specification of the flattener; its order, skipping and priority are stated by `TextAppend`, `TextCons`, `TextOfKeylessElements` and `ElementPriority` |
| Gdoc.ExtractTextFromDocContent | gdoc.py:69-87 | the nested loops and recursion compute exactly `Text(elements)`, the in-order concatenation of paragraph runs, table cells and table-of-contents content |
| Gdoc.ExtractTableText | gdoc.py:77-82 | the row and cell loops compute `RowsText(rows)`; missing `tableCells` or `content` keys contribute nothing |
| Gdoc.TextAppend | gdoc.py:71-87 | flattening distributes over concatenation of element lists |
| Gdoc.TextCons | gdoc.py:72 | the first element's text comes before the text of the rest |
| Gdoc.TextOfKeylessElements | gdoc.py:72-86 | elements with none of paragraph, table or tableOfContents contribute nothing |
| Gdoc.ElementPriority | gdoc.py:73-84 | only the first present key among paragraph, table, tableOfContents is read; the others are ignored whatever they hold |
| Gdoc.ParagraphAppend | gdoc.py:74-76 | paragraph text distributes over concatenation of paragraph elements |
| Gdoc.ParagraphWithoutRuns | gdoc.py:75-76 | a paragraph without text runs contributes "" |
| Gdoc.RowsAppend | gdoc.py:79-82 | table text distributes over concatenation of rows |
| Gdoc.CellsAppend | gdoc.py:80-82 | row text distributes over concatenation of cells |
| Gdoc.RowsWithoutContent | gdoc.py:79-82 | a table whose rows lack cells, or whose cells lack content, contributes "" |
| Gdoc.CellsWithoutContent | gdoc.py:81-82 | cells without a `content` key contribute "" |
| Gdoc.PartialMatches | gdoc.py:48 | the filtered list holds only listed documents that match as substrings, and is no longer than the listing |
| Gdoc.ExactIsPartial | gdoc.py:42-48 | a case-insensitive exact match is also a substring match |
| Gdoc.PartialMatchesHead | gdoc.py:48-52 | the filtered list is empty exactly when nothing matches, and otherwise starts with the first match |
| Gdoc.FindDocumentByName | gdoc.py:38-52 | the result is present exactly when some name matches as a substring; it is the first exact match when there is one, otherwise the first substring match |
| SaveGdoc.SafeName | save_gdoc.py:97 | same length; each character kept when alphanumeric or one of " -_", otherwise replaced by '_' |
| SaveGdoc.SafeNameIsSafe | save_gdoc.py:97 | every character of the sanitised name is safe |
| SaveGdoc.SafeNameIdempotent | save_gdoc.py:97 | sanitising twice equals sanitising once, and a name is left unchanged exactly when all its characters are safe |
| SaveGdoc.SaveDocumentToFile | save_gdoc.py:90-106 | the file is `gdocs_cache/<safe name>.txt` with no further '/', and the text is the header line, 80 dashes, "\n\n" and the content |
| SaveGdoc.CacheFileNameLayout | save_gdoc.py:97-98 | the file name is `gdocs_cache/`, the sanitised name and ".txt", with no '/' after the directory |
| SaveGdoc.FileTextLayout | save_gdoc.py:101-104 | the header, the 80 dashes, the blank line and the content each sit at their own offsets of the text |
| SaveGdoc.ContentReadBack | save_gdoc.py:101-104 | skipping the header line and the rule gives back the content |
| Auth.FirstExistingIsFirst | src/gdocs_mcp/auth.py:62-67 | the search finds nothing exactly when no path exists, and otherwise returns the earliest existing path |
| Auth.FirstExistingFound | src/gdocs_mcp/auth.py:62-67 | a found path is one of the candidates, exists, and has no existing candidate before it |
| Auth.ProjectRoot | src/gdocs_mcp/auth.py:30-41 | the root selection of `__init__`, characterised by `ProjectRootChoice`, `ProjectRootFromConfigFile` and `ProjectRootWithoutConfigPath` |
| Auth.ResolveProjectRoot | src/gdocs_mcp/auth.py:30-41 | the root-selection branches compute `ProjectRoot(config, fs)`, whose choice `ProjectRootChoice` states case by case |
| Auth.CredentialsPath | src/gdocs_mcp/auth.py:46-67 | the credentials path of `__init__`, characterised by `CredentialsPathChoice` |
| Auth.ResolveCredentialsPath | src/gdocs_mcp/auth.py:46-67 | the fallback loop with its `break` computes `CredentialsPath(root, fs)` |
| Auth.TokenPath | src/gdocs_mcp/auth.py:69-76 | the token path of `__init__`, characterised in both directions by `TokenPathChoice` |
| Auth.ResolveTokenPath | src/gdocs_mcp/auth.py:69-76 | the token branches compute `TokenPath(root, credentialsPath, fs)`: the primary token path, or "token.json" beside moved credentials when the primary token is missing |
| Auth.CredentialsPathChoice | src/gdocs_mcp/auth.py:53-67 | an existing primary path is kept; when it is missing, the first existing alternative is chosen, and the primary path stays when no alternative exists; any other chosen path exists and has no existing alternative before it |
| Auth.FourthAlternativeShadowed | src/gdocs_mcp/auth.py:55-60 | with an absolute working directory the first and fourth alternatives name the same file, so the fourth is never chosen |
| Auth.TokenPathChoice | src/gdocs_mcp/auth.py:69-76 | the token path stays primary when that file exists or the credentials did not move; when the primary token is missing and the credentials moved, it is "token.json" beside the credentials file |
| Auth.ProjectRootChoice | src/gdocs_mcp/auth.py:30-41 | a missing configuration path gives the package's checkout; an existing one gives the directory two levels up when "config" is among its parts and its name ends in ".json", one level up otherwise |
| Auth.ProjectRootWithoutConfigPath | src/gdocs_mcp/auth.py:31-38 | without "config_path", `Path("")` is "." and exists, so the root is "." and not the package's checkout |
| Auth.ProjectRootFromConfigFile | src/gdocs_mcp/auth.py:31-36 | an existing `.json` file with a "config" component anywhere on its path puts the root two levels up: above `config/` when the file sits directly in it, inside `config/` otherwise |
| Auth.ConstructorReadsTwoKeys | src/gdocs_mcp/auth.py:25-81 | paths and scopes depend only on "config_path" and "scopes"; the default scope is drive.readonly |
| Auth.AuthenticateRun | src/gdocs_mcp/auth.py:117-145 | the outcome of `_authenticate`, stated by `AuthenticateSteps` and `AuthenticateOutcome` |
| Auth.LoadRun | src/gdocs_mcp/auth.py:86-115 | the outcome of `_load_credentials`, stated by the `Load*` lemmas: a valid loaded or refreshed credential is kept without a flow (`LoadKeepsValidCredential`), otherwise the flow decides (`LoadFlowDecides`) |
| Auth.GetCredentialsRun | src/gdocs_mcp/auth.py:164-169 | the outcome of `get_credentials`, stated by `GetCredentialsSteps`: present credentials unchanged, absent ones replaced by the flow's result |
| Auth.AuthenticateSteps | src/gdocs_mcp/auth.py:117-145 | authenticating reads no token and never refreshes; it runs the flow at most once, and exactly when the credentials file exists; without that file nothing changes |
| Auth.AuthenticateOutcome | src/gdocs_mcp/auth.py:128-145 | with the credentials file present, a returned flow becomes the credentials and is written right after the flow; a raising flow leaves no credentials and no write |
| Auth.LoadRefreshesOnce | src/gdocs_mcp/auth.py:90-103 | a load refreshes at most once, and exactly when it read a token that is expired and has a refresh token |
| Auth.LoadFailuresAndFlow | src/gdocs_mcp/auth.py:88-115 | a token that fails to load, or a refresh that raises, leaves no credentials and starts no flow |
| Auth.ValidityCheckFlow | src/gdocs_mcp/auth.py:105-109 | the validity check runs the flow at most once, and only when the credentials file exists |
| Auth.PrefixAddsNoFlow | src/gdocs_mcp/auth.py:86-115 | steps before the validity check that hold no flow add none: membership and count of the flow step are those of the rest |
| Auth.LoadFlowAtMostOnce | src/gdocs_mcp/auth.py:86-115 | a load runs the flow at most once, and only when the credentials file exists |
| Auth.LoadFlowDecides | src/gdocs_mcp/auth.py:105-145 | when a load runs the flow, the loaded credentials are the flow's result, or none when it raises |
| Auth.LoadAuthenticatesIffInvalid | src/gdocs_mcp/auth.py:105-109 | the flow runs exactly when the token stage raised nothing, left absent or invalid credentials, and the credentials file exists; a load that raises nothing and runs no flow keeps the token stage's credentials |
| Auth.LoadKeepsValidCredential | src/gdocs_mcp/auth.py:88-109 | a valid credential read from the token file or returned by the refresh is the load's result, and no flow runs |
| Auth.LoadLeavesValidCredential | src/gdocs_mcp/auth.py:105-109 | invalid credentials survive a load only without a credentials file, or as the flow's own result |
| Auth.LoadWritesAfterObtaining | src/gdocs_mcp/auth.py:86-145 | every token write comes right after a refresh or a flow; a successful refresh is written before the validity check; a returned flow is followed by the write of its credential |
| Auth.GetCredentialsSteps | src/gdocs_mcp/auth.py:164-169 | present credentials are returned untouched; absent ones are exactly one authentication: with the credentials file the flow's result (None when it raises), without it nothing changes |
| Auth.GoogleAuthManager.constructor | src/gdocs_mcp/auth.py:25-84 | the fields hold the resolved root, credentials and token paths and the scopes; credentials and effects are those of one load starting from no credentials |
| Auth.GoogleAuthManager.LoadCredentials | src/gdocs_mcp/auth.py:86-115 | the new credentials and the appended steps are those of `LoadRun` on the old credentials |
| Auth.GoogleAuthManager.Authenticate | src/gdocs_mcp/auth.py:117-145 | the new credentials and the appended steps are those of `AuthenticateRun` |
| Auth.GoogleAuthManager.SaveToken | src/gdocs_mcp/auth.py:147-162 | one token write of the current credentials when they are present, none otherwise |
| Auth.GoogleAuthManager.GetCredentials | src/gdocs_mcp/auth.py:164-169 | returns the new credentials, which with the appended steps are those of `GetCredentialsRun` |
| Drive.MimeTypeValues | src/gdocs_mcp/drive.py:19-24 | `MIME_TYPES.values()` lists the four values in key order |
| Drive.FileType | src/gdocs_mcp/drive.py:310-319 | `_get_file_type`, characterised by `FileTypeInvertsMimeTypes` |
| Drive.FileTypeInvertsMimeTypes | src/gdocs_mcp/drive.py:310-319 | each Workspace MIME type maps back to its key; exactly the other strings map to "file" |
| Drive.MimeClausesOfMimeTypes | src/gdocs_mcp/drive.py:80-84 | the comprehension keeps the document, spreadsheet and presentation clauses, in that order |
| Drive.MimeFilterSelectsWorkspaceFiles | src/gdocs_mcp/drive.py:80-84 | the filter is those three clauses joined by " or " |
| Drive.MimeFilterOmitsFolders | src/gdocs_mcp/drive.py:273-277 | the filter never contains the folder MIME type |
| Drive.SearchQuery | src/gdocs_mcp/drive.py:80-85 | the search query, stated by `MimeFilterSelectsWorkspaceFiles` and `SearchQueryRecoversTerm` |
| Drive.ListQuery | src/gdocs_mcp/drive.py:273-283 | the listing query, stated by `ListQueryScope` |
| Drive.SearchQueryRecoversTerm | src/gdocs_mcp/drive.py:85 | the term appears verbatim at two fixed offsets of the search query, so distinct terms give distinct queries |
| Drive.ListQueryScope | src/gdocs_mcp/drive.py:280-283 | the listing query is scoped to a folder exactly when `folder_id` is truthy; None and "" give the bare filter |
| Drive.Reshape | src/gdocs_mcp/drive.py:95-106 | one descriptor per file, in order, with id, name, classified type, and "" for each missing optional key (the listing at lines 293-304 reshapes the same way) |
| Drive.ReshapeAppend | src/gdocs_mcp/drive.py:95-106 | reshaping distributes over concatenation, and a response without "files" gives [] |
| Drive.ExportText | src/gdocs_mcp/drive.py:183-185 | one export request; an HttpError, a decode failure or the decoded text as the result |
| Drive.HtmlToMarkdown | src/gdocs_mcp/drive.py:235-241 | the converter's output, or the HTML itself when it raises; stated by `ExportDocumentFormats` |
| Drive.ExportDocument | src/gdocs_mcp/drive.py:167-187 | `_export_document`, stated by `ExportDocumentFormats`, which gives its value in every case |
| Drive.ExportSpreadsheet | src/gdocs_mcp/drive.py:189-201 | `_export_spreadsheet`, stated by `ExportSpreadsheetFallback` |
| Drive.ExportPresentation | src/gdocs_mcp/drive.py:203-216 | `_export_presentation`, stated by `ExportPresentationFallback` |
| Drive.GetFileContent | src/gdocs_mcp/drive.py:218-233 | `_get_file_content`, stated by `GetFileContentFallback` |
| Drive.ExportDocumentFormats | src/gdocs_mcp/drive.py:167-187 | one export, as HTML for "html" and "markdown" in any case and plain text otherwise; only "markdown" converts, keeping the HTML when conversion raises; a failed HTML export for "markdown" is that export's HttpError or decode failure |
| Drive.ExportSpreadsheetFallback | src/gdocs_mcp/drive.py:189-201 | CSV first; a plain-text retry only after an HttpError on the CSV export, and the retry's failure is the result |
| Drive.ExportPresentationFallback | src/gdocs_mcp/drive.py:203-216 | one plain-text export that never raises HttpError: on HttpError the placeholder is the result, otherwise the export's own result |
| Drive.GetFileContentFallback | src/gdocs_mcp/drive.py:218-233 | one media request; the decoded text, or the binary or retrieval placeholder |
| Drive.ContentFor | src/gdocs_mcp/drive.py:142-153 | the content branch of `_read_document_sync`, stated by `ContentForCalls` (the export or download per type) and `ReadDocumentBranches` |
| Drive.ReadDocumentSync | src/gdocs_mcp/drive.py:134-165 | `_read_document_sync`, stated by `ReadDocumentResult` (its value), `ReadDocumentDispatch`, `ReadDocumentBranches` and `ReadDocumentErrors` |
| Drive.SearchDocsSync | src/gdocs_mcp/drive.py:76-110 | `_search_docs_sync`, stated by `SearchDocsRequests`: the reshaped files of one listing, or the search RuntimeError |
| Drive.ListDocumentsSync | src/gdocs_mcp/drive.py:267-308 | `_list_documents_sync`, stated by `ListDocumentsRequests`: the reshaped files of one listing, or the listing RuntimeError |
| Drive.ContentForCalls | src/gdocs_mcp/drive.py:144-153 | every content branch makes one or two requests, all exports or media downloads of the same id; its value is the document, spreadsheet or presentation export for those types and the media download otherwise |
| Drive.ReadDocumentDispatch | src/gdocs_mcp/drive.py:134-161 | metadata is fetched first, then only exports or media of `id`; a returned document carries the metadata's id, name and modification time and the classified type |
| Drive.ReadDocumentResult | src/gdocs_mcp/drive.py:134-165 | an HttpError on the metadata is the read RuntimeError with its reason; otherwise a content result becomes a document with the metadata's id, name, classified type and modification time, and a content error is surfaced with the read message |
| Drive.ReadDocumentBranches | src/gdocs_mcp/drive.py:142-153 | the MIME type selects exactly one branch: media for folders and plain files, one export for documents and presentations, CSV first for spreadsheets |
| Drive.ReadDocumentErrors | src/gdocs_mcp/drive.py:163-165 | every surfaced HttpError is a RuntimeError starting with the read message; raw files, folders and presentations never surface one (which errors arise is in `ReadDocumentResult`) |
| Drive.SearchDocsRequests | src/gdocs_mcp/drive.py:76-110 | search makes one list request with the built query; an HttpError becomes the search RuntimeError, and a listing gives exactly `Reshape` of its files |
| Drive.ListDocumentsRequests | src/gdocs_mcp/drive.py:267-308 | the listing makes one list request with its own query; an HttpError becomes the listing RuntimeError, and a listing gives exactly `Reshape` of its files |
| Drive.InitializedService | src/gdocs_mcp/drive.py:35-52 | the service after `_initialize_service`, stated by `InitializedServiceNeedsCredentials` |
| Drive.InitializedServiceNeedsCredentials | src/gdocs_mcp/drive.py:35-52 | starting without a service, one is built exactly when credentials are present and `build` succeeds, and from those credentials |
| Drive.GoogleDriveClient.constructor | src/gdocs_mcp/drive.py:29-33 | no requests yet; the service and the manager's credentials are those of one initialisation |
| Drive.GoogleDriveClient.InitializeService | src/gdocs_mcp/drive.py:35-52 | the manager's `get_credentials` run, then a service built from present credentials, or none when `build` raises; absent credentials leave the service as it was |
| Drive.GoogleDriveClient.EnsureService | src/gdocs_mcp/drive.py:65-68 | an existing service is kept and nothing else changes; otherwise one initialisation |
| Drive.GoogleDriveClient.SearchDocs | src/gdocs_mcp/drive.py:54-74 | an existing service leaves the manager's credentials and steps unchanged, otherwise they are one `get_credentials` run; without a service after the guard, the "not available" error and no request; otherwise the result and requests of the search body |
| Drive.GoogleDriveClient.ReadDocument | src/gdocs_mcp/drive.py:112-132 | the same guard with the same effect on the manager, then the result and requests of the read body |
| Drive.GoogleDriveClient.ListDocuments | src/gdocs_mcp/drive.py:243-265 | the same guard with the same effect on the manager, then the result and requests of the listing body |

## Left out

- `str.lower()` and `str.isalnum()` are modelled for ASCII only. Other Unicode letters and digits are not case-mapped or classified.
- Missing keys that the source reads with `[...]` and no check are required by the types, so their `KeyError` paths are not modelled. These are a file's `id`, `name` and `mimeType`; a paragraph's `elements`; a text run's `content`; the metadata's `id` and `name`; a listing entry's `id` and `name`.
- A `config_path` value that is not a string (which makes `Path(...)` raise in the constructor) is excluded by the constructor's `requires`.
- The Google API client, `Credentials.from_authorized_user_info`, `Credentials.refresh`, `InstalledAppFlow` and `build` are inputs: `LoadOutcomes`, `InitOutcomes` and `Oracle`. Each is deterministic per request.
- A credential is its token plus the three attributes the source tests (`expired`, `valid`, `refresh_token` as a boolean).
- The token file's contents, `mkdir`, `to_json` and write errors are not modelled. A save is one `WriteToken` step, since `_save_token` swallows its own errors.
- Creating `gdocs_cache` and writing the file in `save_document_to_file` are not modelled. The function returns the file name and the text that would be written.
- pathlib is modelled without the "//" anchor, ".." handling and symlinks. The home directory, the working directory and `__file__` are inputs (`Paths.FileSystem`).
- The asyncio executor, logging and the debug prints to stderr are left out.
- The server (`server.py`), the package entry points (`__main__.py`, `__init__.py`) and the command-line `main()` functions are left out. So are the tools' own `list_documents`, `read_document` and `get_credentials`, which only call the API.
- UTF-8 decoding is part of the oracle (`Payload`). The markdown converter is the oracle's `markdown` function.
- The server-side limits on `pageSize` are not modelled. `maxResults` is passed through as given.
- Exceptions other than `HttpError` raised by the client library are not modelled, except the `UnicodeDecodeError` that the read path lets escape.
- The source's `__init__` is one method. The model splits its three path-resolution stages into `ResolveProjectRoot`, `ResolveCredentialsPath` and `ResolveTokenPath`, which the constructor calls in order.
- The table branch of `extract_text_from_doc_content` is a separate method (`ExtractTableText`), so that it can carry its own loop invariants.
- The search term and the folder id are inserted into the query without escaping, as in the source. A quote in them changes the query's meaning. `SearchQueryRecoversTerm` states only that the term appears verbatim.
