# docx-meta-update core, modelled in Dafny

docx-meta-update is a small desktop tool. It reads and rewrites the creation and
modification dates of a Word `.docx` file. The dates live in the `dcterms:created`
and `dcterms:modified` elements of the archive entry `docProps/core.xml`. This
project models the three operations of `src/main.rs` that do the work, and proves
properties of them:

- `load_metadata` scans the XML events of `core.xml`. It keeps the raw text of the
  last `dcterms:created` and the last `dcterms:modified` start element, and fails
  unless both are non-empty.
- `generate_core_xml` rewrites the event stream:
  - A date start tag is written again, followed by the new date's text and its end
    tag. The original events up to the matching end tag are skipped.
  - A stray date end tag is dropped.
  - Every other event is copied unchanged.
- `save_metadata` does four things in order:
  1. It validates both dates, after replacing each `Z` by `+00:00`.
  2. It copies every entry except `core.xml` into a new archive at
     `path.with_extension("tmp")`, compressing each one with Deflate.
  3. It appends the rewritten `core.xml` and finishes the archive.
  4. It renames the temp file over the original.

Files:

- `outcomes.dfy`: `Option` and `Result`.
- `xml_events.dfy` (module `XmlEvents`): the XML event stream as the tokenizer
  delivers it. A stream is a sequence of events plus how it ends: end of file, or a
  tokenizer error. It also has a `Reader` class (`read_event_into`,
  `read_to_end_into`, `read_text`) and a `Writer` class that collects events.
  `MatchEnd` is the depth-aware search of `read_to_end`. As in `quick_xml`, that
  search counts only start and end tags of the same name.
- `metadata_scan.dfy` (module `MetadataScan`): the scan of `load_metadata`. It is
  the specification function `ScanEvents`/`LoadCore`, and the loop `ScanCoreXml`
  proved against it.
- `core_rewrite.dfy` (module `CoreRewrite`): the rewriter of `generate_core_xml`.
  It is the specification function `Rewrite`, and the loop `RewriteEvents` over a
  `Reader` and a `Writer` proved against it. The module also proves the properties
  of the rewrite and the round trip with the scan.
- `archive.dfy` (module `Archive`): archive entries, file paths, the file system as a
  map from path to file (`FileSystem`), and the `ZipWriter` that appends entries to
  the temp file.
- `docx_meta.dfy` (module `DocxMeta`): the three operations themselves. Each has a
  specification function (`Load`, `NewCoreXml`, `Save`) and a method proved against
  it (`LoadMetadata`, `GenerateCoreXml`, `SaveMetadata`).

Some behaviour is supplied from outside, through the `Env` value:

- the XML tokenizer;
- the escaping the writer applies to a new date;
- the UTF-8 encoding of the new `core.xml`;
- the RFC 3339 check.

A save also takes a set `faults`. It names the write steps that return an error:
creating the temp file, starting or writing an entry (named by its index),
starting or writing `core.xml`, finishing the archive, and the rename.

The code is followed wherever it differs from the tool's documented intent:

- The program never touches `docProps/app.xml`, so neither does the model.
- Compression is not preserved. Every entry is written Deflated.
- A temp file is not removed after a failure.
- The temp file is created, and every other entry copied, before
  `generate_core_xml` finds out that `core.xml` is missing.

## Model

| member | source | states |
|---|---|---|
| XmlEvents.MatchEndAt | src/main.rs:339 | the match found by `read_to_end` is an end tag of the element's name, inside the events searched |
| XmlEvents.MatchEndIsFirstUnderflow | src/main.rs:339 | the matching end tag is exactly the first point where the nesting of same-named tags drops below zero; no match exactly when the nesting never does |
| XmlEvents.MatchEndAtExtends | src/main.rs:339 | a match found in a prefix of the stream is found at the same place whatever follows |
| XmlEvents.MatchEndSkipsUnrelated | src/main.rs:339 | events that neither open nor close the name are skipped up to the first end tag |
| XmlEvents.Reader.constructor | src/main.rs:214 | a new reader has read nothing: every event is still to come, then the stream's end |
| XmlEvents.Reader.ReadEvent | src/main.rs:221 | the next event is read; once the events run out, the first read reports how the stream ended and every later read reports `Eof` |
| XmlEvents.Reader.ReadToEnd | src/main.rs:339 | `read_to_end_into` consumes the events through the matching end tag and returns its offset; with no match it consumes everything, including the stream's end, and fails |
| XmlEvents.Reader.ReadText | src/main.rs:224-227 | `read_text` returns the raw text between the start tag and its matching end tag and leaves the reader after it; when there is no match it fails and the next read reports `Eof` |
| XmlEvents.Writer.constructor | src/main.rs:318 | a new writer has written nothing |
| XmlEvents.Writer.WriteEvent | src/main.rs:329 | each write appends one event to the output |
| MetadataScan.Dates.With | src/main.rs:223-228 | recording a date sets that date and leaves the other one unchanged |
| MetadataScan.ScanEvents | src/main.rs:220-236 | the scan fails only with the tokenizer's error message, and never on a stream that ends cleanly |
| MetadataScan.ReadDateText | src/main.rs:224-227 | `read_text(..).unwrap_or_default()` gives the element's raw text and leaves the reader after its end tag; with no matching end tag it gives "" and the next read reports `Eof` |
| MetadataScan.ScanFailsIff | src/main.rs:220-236 | the scan fails exactly when the tokenizer fails and every date element met before the failure closes; an error inside a date element is swallowed by `read_text` |
| MetadataScan.LoadFailsOnTokenizerError | src/main.rs:233 | a tokenizer error the loop reaches makes the load fail with that error's message |
| MetadataScan.ScanOfMalformed | src/main.rs:220-236 | on a stream the tokenizer cuts off, the scan fails or leaves a date empty |
| MetadataScan.LoadFailsOnMalformed | src/main.rs:220-239 | any tokenizer error in `core.xml` makes the load fail, whether the loop reaches it or a `read_text` swallows it |
| MetadataScan.CutOffDateHidesError | src/main.rs:224-239 | a tokenizer error inside a `dcterms:created` element ends the load with "dates not found", not with the error |
| MetadataScan.LoadCore | src/main.rs:220-242 | a load succeeds exactly when the scan succeeds and both scanned dates are non-empty; the dates it returns are non-empty; a parse error carries the tokenizer's message |
| MetadataScan.ScanCoreXml | src/main.rs:214-242 | the loop over a `Reader` computes `LoadCore` |
| MetadataScan.ScanEvent | src/main.rs:222-230 | one pass of the loop body, for an event just read, reads a date's text into that date or passes the event over, and leaves the outcome of the scan unchanged |
| MetadataScan.ScanKeepsUnopened | src/main.rs:222-229 | a date whose start tag does not occur in the remaining events keeps its value |
| MetadataScan.LastOccurrenceWins | src/main.rs:223-228 | when a date element occurs several times, the text of the last one is reported |
| CoreRewrite.Rewrite | src/main.rs:321-360 | a tokenizer error never produces output |
| CoreRewrite.PanicNeedsUnclosedDate | src/main.rs:339 | the rewrite panics only at a date start tag with no matching end tag after it, and the panic names that tag |
| CoreRewrite.DatesClosedNoPanic | src/main.rs:339 | when every date start tag has a matching end tag, the rewrite does not panic |
| CoreRewrite.FirstUnclosedDatePanics | src/main.rs:339 | when the first date start tag has no matching end tag, the rewrite panics with its name |
| CoreRewrite.RewriteEvents | src/main.rs:316-360 | the loop over a `Reader` and a `Writer` computes `Rewrite` |
| CoreRewrite.WriteDateElement | src/main.rs:329-340 | start tag, new text, skip to the matching end tag, then the end tag; fails when no end tag matches |
| CoreRewrite.RewriteStartStep | src/main.rs:325-340 | a date start tag with a matching end becomes the start tag, the new date's text and the end tag, and the rewrite resumes after the original end tag |
| CoreRewrite.RewriteOtherStep | src/main.rs:341-355 | any other event is copied, except a date end tag, which is dropped |
| CoreRewrite.RewriteCopiesUnrelated | src/main.rs:341-355 | events that open or close neither date element are written unchanged and in order |
| CoreRewrite.RewriteIsIdentityWithoutDates | src/main.rs:341-355 | a document without date elements is written back unchanged |
| CoreRewrite.RewrittenDatesHoldNewValues | src/main.rs:329-340 | in the output every date start tag is followed by the new date's text and its own end tag, and every date end tag is one of those |
| CoreRewrite.RewriteIdempotent | src/main.rs:321-360 | rewriting the output again with the same dates changes nothing |
| CoreRewrite.ScanOfRewritten | src/main.rs:220-236 | scanning the output finds the new text for every date element the output holds |
| CoreRewrite.SeenDatesAreRewritten | src/main.rs:323-340 | every date start tag the scan of the input reaches, and so every date the scan sets to a new value, has a date element in the output |
| CoreRewrite.RoundTrip | src/main.rs:224-227 | when the input loads and the new date texts are non-empty, loading the output returns exactly those texts |
| Archive.Lookup | src/main.rs:206-208 | `by_name` finds nothing exactly when no entry has the name; otherwise it returns the contents of an entry with that name |
| Archive.Copied | src/main.rs:271-283 | every copied entry is Deflated and none is `core.xml`; there are no more of them than in the source |
| Archive.CopiedAppend | src/main.rs:271-283 | the copy goes entry by entry, in source order |
| Archive.CopiedLength | src/main.rs:273-276 | exactly one entry is written for each source entry other than `core.xml` |
| Archive.CopiedKeepsOthers | src/main.rs:277-282 | each source entry other than `core.xml` is written with its name and uncompressed contents, after the entries before it |
| Archive.CopiedOrigin | src/main.rs:271-283 | each written entry is the copy of a source entry other than `core.xml` |
| Archive.RebuiltHasOneCorePart | src/main.rs:286-292 | the rebuilt archive holds exactly one `core.xml`, as its last entry, with the new contents, and `by_name` finds it |
| Archive.TempPathIsNew | src/main.rs:258 | `with_extension("tmp")` returns the same path exactly when the path has no file name, or its file name already has extension `tmp` and no separator follows it |
| Archive.TempPathHasTmpExtension | src/main.rs:258 | for a path with a file name, the temp path is in the same directory, has a file name, and has extension `tmp` |
| Archive.OpenArchive | src/main.rs:262-263 | opening succeeds exactly when the path holds a complete archive |
| Archive.FileSystem.Rename | src/main.rs:298 | `fs::rename` moves the file in one update, or fails and changes nothing |
| Archive.ZipWriter.constructor | src/main.rs:265-266 | `File::create` plus `ZipWriter::new` leave an empty partial archive at the path |
| Archive.ZipWriter.StartFile | src/main.rs:277-279 | `start_file` adds an empty entry with the given compression; the file on disk reflects it |
| Archive.ZipWriter.WriteAll | src/main.rs:282 | `write_all` appends the bytes to the last entry |
| Archive.ZipWriter.Finish | src/main.rs:294 | `finish` turns the partial archive into a complete one with the same entries |
| DocxMeta.Load | src/main.rs:203-243 | a load succeeds exactly when the file opens as an archive, holds `core.xml` and its scan succeeds; both dates are then non-empty |
| DocxMeta.LoadMetadata | src/main.rs:203-243 | the method computes `Load` |
| DocxMeta.RewriteCore | src/main.rs:306-315 | the rewrite runs exactly when the file opens and holds `core.xml` |
| DocxMeta.NewCoreXml | src/main.rs:301-364 | the new `core.xml` is the rendered output of the rewrite; a panic exactly when the rewrite panics, which `CoreRewrite.PanicNeedsUnclosedDate` ties to a date element with no matching end |
| DocxMeta.GenerateCoreXml | src/main.rs:301-364 | the method computes `NewCoreXml` |
| DocxMeta.NewCoreXmlReadsOnlyPath | src/main.rs:306 | `generate_core_xml` depends only on the file at the path it is given, not on the temp file being written |
| DocxMeta.ReplaceZ | src/main.rs:251 | the replacement leaves no `Z`, and leaves a string without `Z` unchanged |
| DocxMeta.ReplaceZAppend | src/main.rs:251 | the replacement works character by character |
| DocxMeta.ValidDate | src/main.rs:251-256 | a date without `Z` passes exactly when it parses as RFC 3339 as it is |
| DocxMeta.ZuluSpellingsAgree | src/main.rs:251-256 | writing `Z` or `+00:00` at any place in a date does not change whether it passes |
| DocxMeta.CopyFrom | src/main.rs:271-283 | a copy loop that hits no fault writes exactly the copied entries; a reported failure is one of the faults |
| DocxMeta.CopyFromCompletes | src/main.rs:271-283 | when no entry's start or write fails, the copy loop completes |
| DocxMeta.CopyEntries | src/main.rs:271-283 | the loop over the source entries computes `CopyFrom` and leaves the temp file holding what it wrote |
| DocxMeta.Save | src/main.rs:245-299 | an invalid date fails before the file system changes; a failed save changes no path but the temp file; a save succeeds exactly when both dates are valid, the file opens, `core.xml` is rewritten and no step fails; success removes the temp file and leaves an archive at the path |
| DocxMeta.Commit | src/main.rs:287-298 | the end of a save succeeds exactly when no step fails, and then the path holds the copied entries plus the new `core.xml`; a failure adds only the temp file |
| DocxMeta.CommitCore | src/main.rs:287-298 | the method computes `Commit` |
| DocxMeta.RebuildArchive | src/main.rs:265-298 | from the creation of the temp file on, the copy loop, `generate_core_xml` and the commit compute `Rebuild`, the rest of `Save` |
| DocxMeta.SaveMetadata | src/main.rs:245-299 | the method's result and new file system are those of `Save` |
| DocxMeta.SaveReplacesOriginal | src/main.rs:271-298 | after a successful save, the path holds every other entry in source order, then the new `core.xml`; the temp file is gone and every other path is unchanged |
| DocxMeta.SaveThenLoad | src/main.rs:203-299 | loading a saved file returns the saved dates, when the original loads, the dates are non-empty and escape to themselves, and the tokenizer reads the written events back |

## Left out

- The iced user interface, the `rfd` file dialog, the font loading and the `async`
  wrappers. They are presentation and scheduling, not the data logic.
- The ZIP container format: local headers, Deflate, CRCs and the central directory.
  An entry holds its uncompressed bytes and a compression tag.
  - Reading an entry's bytes cannot fail in the model (src/main.rs:211-213, 280-281,
    313-315).
  - The panic of `by_index(i).unwrap()` on a corrupt entry is not modelled.
- Archive.Lookup: for an archive with two entries of the same name it returns the
  first one. Which one the `zip` crate returns is not modelled.
- XML tokenizing, attributes, escaping and UTF-8 encoding are supplied as functions
  in `Env`.
- XmlEvents.Reader.ReadEvent: every tokenizer error ends the stream, and the next
  read reports `Eof`. Errors after which `quick_xml` goes on reading (such as a
  mismatched end tag, when end names are checked) are not modelled.
- DocxMeta.SaveThenLoad: its hypothesis `ReadsBack` assumes that tokenizing the
  written document gives back the events written. The writer and tokenizer
  themselves are not modelled.
- The `String::from_utf8` check on the writer's output (src/main.rs:362-363) is not
  modelled. The rendered output is already a string.
- RFC 3339 parsing (`chrono`) is an abstract predicate in `Env`. Only the `Z`
  replacement is modelled.
- Error messages are datatype constructors, not strings. A tokenizer error keeps
  its message.
- A failed `start_file` or `write_all` writes nothing for that step. Partial writes
  are not modelled.
- When `zip_writer` is dropped after an error, the `zip` crate may write a central
  directory. The model leaves the temp file as a partial archive.
- Archive.FileName: paths follow Unix syntax. Only `/` separates components, so
  on Windows, where `\` does too, the temp path of `a.b\c` differs from the model's.
  Prefixes such as `C:` are not recognised either.
- Archive.FileName: `.` components are not skipped as `Path::components` skips them,
  so a path ending in `/.` has no file name in the model.
- Archive.FileSystem: paths are compared as strings. Two spellings of one file
  (`a/b` and `a//b`, or a link) are two keys of the map.
- DocxMeta.Save, DocxMeta.SaveMetadata, DocxMeta.SaveReplacesOriginal and
  DocxMeta.SaveThenLoad require that the temp path differs from the path.
  DocxMeta.Commit, DocxMeta.CommitCore, DocxMeta.Rebuild and DocxMeta.RebuildArchive
  are given the temp path and require the same. By `Archive.TempPathIsNew`, that
  means the path has a file name, and either its extension is not `tmp` or a
  separator follows it. Otherwise
  `File::create` truncates the archive while the copy loop still reads it. The model
  does not follow reads from a truncated file.
- The file system changes only through this program while a save runs. That is why
  `generate_core_xml` reopens the same archive the copy loop read.
