/**
 * The three operations of src/main.rs that read and rewrite a `.docx`:
 * `load_metadata` (203-243), `generate_core_xml` (301-364) and `save_metadata`
 * (245-299), over the file system of the `Archive` module.
 *
 * What the libraries do is given by `Env`: the XML tokenizer (`quick_xml::Reader`),
 * the escaping of `BytesText::new`, the UTF-8 encoding of a string and the RFC 3339
 * check of `chrono::DateTime::parse_from_rfc3339`. Which write steps fail is given
 * by the set `faults` a save runs under.
 */
module DocxMeta {
  import opened Outcomes
  import opened XmlEvents
  import opened MetadataScan
  import opened CoreRewrite
  import opened Archive

  /** The library functions the program calls. */
  datatype Env = Env(
    tokenize: Bytes -> Stream,
    escape: string -> string,
    encode: string -> Bytes,
    isRfc3339: string -> bool)

  /** Why an operation returns `Err`. */
  datatype Failure =
    | OpenFailed(reason: OpenError)   // `File::open` or `ZipArchive::new`
    | CoreNotFound                    // "docProps/core.xml not found ..."
    | ScanFailed(error: ScanError)    // load: "XML parsing error: ..." or no dates
    | XmlProcessing(msg: string)      // rewrite: "XML processing error: ..."
    | InvalidCreated                  // "Invalid 'Created Date' format ..."
    | InvalidModified                 // "Invalid 'Modified Date' format ..."
    | IoFailed(step: IoStep)          // an error of the temp file, the writer or the rename

  /** The fallible write steps of `save_metadata`; an entry is named by its index in the source. */
  datatype IoStep =
    | CreateTemp
    | StartEntry(index: nat)
    | WriteEntry(index: nat)
    | StartCore
    | WriteCore
    | FinishArchive
    | RenameTemp

  /** The result of `generate_core_xml`: the new `core.xml`, an `Err`, or the panic of
      the `unwrap` on `read_to_end_into` for a date element with no matching end tag. */
  datatype Outcome<+T> = Done(value: T) | Failed(failure: Failure) | Panic(tag: string)

  // ---------------------------------------------------------------------------
  // load_metadata

  /** `load_metadata` (src/main.rs:203-243). */
  function Load(env: Env, files: map<Path, FileState>, path: Path): (r: Result<Dates, Failure>)
    ensures r.Ok? ==> r.value.created != "" && r.value.modified != ""
    ensures r.Ok? <==> && OpenArchive(files, path).Ok?
                       && Lookup(OpenArchive(files, path).value, CorePart).Some?
                       && LoadCore(env.tokenize(Lookup(OpenArchive(files, path).value, CorePart).value)).Ok?
  {
    match OpenArchive(files, path)
    case Err(e) => Err(OpenFailed(e))
    case Ok(entries) =>
      match Lookup(entries, CorePart)
      case None => Err(CoreNotFound)
      case Some(xml) =>
        match LoadCore(env.tokenize(xml))
        case Ok(dates) => Ok(dates)
        case Err(e) => Err(ScanFailed(e))
  }

  /** `load_metadata`, opening the file, finding `core.xml` and scanning it. */
  method LoadMetadata(fs: FileSystem, env: Env, path: Path) returns (r: Result<Dates, Failure>)
    ensures r == Load(env, fs.files, path)
  {
    var archive := OpenArchive(fs.files, path);
    if archive.Err? {
      return Err(OpenFailed(archive.error));
    }
    var xml := Lookup(archive.value, CorePart);
    if xml.None? {
      return Err(CoreNotFound);
    }
    var scanned := ScanCoreXml(env.tokenize(xml.value));
    if scanned.Err? {
      return Err(ScanFailed(scanned.error));
    }
    return Ok(scanned.value);
  }

  // ---------------------------------------------------------------------------
  // generate_core_xml

  /** The raw text the writer puts out for each new date (`BytesText::new` escapes it). */
  function Texts(env: Env, created: string, modified: string): Dates {
    Dates(env.escape(created), env.escape(modified))
  }

  /** The rewrite `generate_core_xml` runs on the `core.xml` of `path`. */
  function RewriteCore(env: Env, files: map<Path, FileState>, path: Path, created: string, modified: string)
    : (r: Outcome<Rewritten>)
    ensures r.Done? <==> OpenArchive(files, path).Ok? && Lookup(OpenArchive(files, path).value, CorePart).Some?
  {
    match OpenArchive(files, path)
    case Err(e) => Failed(OpenFailed(e))
    case Ok(entries) =>
      match Lookup(entries, CorePart)
      case None => Failed(CoreNotFound)
      case Some(xml) => Done(Rewrite(env.tokenize(xml).events, env.tokenize(xml).end, Texts(env, created, modified)))
  }

  /** `generate_core_xml` (src/main.rs:301-364): the new `core.xml` as a string. */
  function NewCoreXml(env: Env, files: map<Path, FileState>, path: Path, created: string, modified: string)
    : (r: Outcome<string>)
    ensures var rw := RewriteCore(env, files, path, created, modified);
      && (r.Done? <==> rw.Done? && rw.value.Emitted?)
      && (r.Done? ==> r.value == Render(rw.value.events))
      && (r.Panic? <==> rw.Done? && rw.value.Panicked?)
  {
    match RewriteCore(env, files, path, created, modified)
    case Failed(f) => Failed(f)
    case Panic(tag) => Panic(tag)
    case Done(rw) =>
      match rw
      case Emitted(events) => Done(Render(events))
      case XmlFailed(msg) => Failed(XmlProcessing(msg))
      case Panicked(tag) => Panic(tag)
  }

  /** `generate_core_xml`, reopening the archive at `path` and rewriting its `core.xml`. */
  method GenerateCoreXml(fs: FileSystem, env: Env, path: Path, created: string, modified: string)
    returns (r: Outcome<string>)
    ensures r == NewCoreXml(env, fs.files, path, created, modified)
  {
    var archive := OpenArchive(fs.files, path);
    if archive.Err? {
      return Failed(OpenFailed(archive.error));
    }
    var xml := Lookup(archive.value, CorePart);
    if xml.None? {
      return Failed(CoreNotFound);
    }
    var rewritten := RewriteEvents(env.tokenize(xml.value), Texts(env, created, modified));
    match rewritten
    case Emitted(events) => return Done(Render(events));
    case XmlFailed(msg) => return Failed(XmlProcessing(msg));
    case Panicked(tag) => return Panic(tag);
  }

  /** `generate_core_xml` reads nothing but the file at `path`. */
  lemma NewCoreXmlReadsOnlyPath(env: Env, files: map<Path, FileState>, other: Path, f: FileState,
                                path: Path, created: string, modified: string)
    requires other != path
    ensures NewCoreXml(env, files[other := f], path, created, modified) == NewCoreXml(env, files, path, created, modified)
  {
    assert OpenArchive(files[other := f], path) == OpenArchive(files, path);
  }

  // ---------------------------------------------------------------------------
  // save_metadata

  /** `date.replace("Z", "+00:00")`. */
  function ReplaceZ(s: string): (r: string)
    ensures 'Z' !in r
    ensures 'Z' !in s ==> r == s
  {
    if s == [] then []
    else (if s[0] == 'Z' then "+00:00" else [s[0]]) + ReplaceZ(s[1..])
  }

  /** The replacement works character by character: it distributes over concatenation. */
  lemma {:induction false} ReplaceZAppend(a: string, b: string)
    ensures ReplaceZ(a + b) == ReplaceZ(a) + ReplaceZ(b)
    decreases |a|
  {
    if a == [] {
      assert a + b == b;
    } else {
      assert (a + b)[0] == a[0];
      assert (a + b)[1..] == a[1..] + b;
      ReplaceZAppend(a[1..], b);
    }
  }

  /** The date check of `save_metadata` (src/main.rs:251-256): the date, with every `Z`
      spelled `+00:00`, parses as RFC 3339. */
  predicate ValidDate(env: Env, date: string): (ok: bool)
    ensures 'Z' !in date ==> (ok <==> env.isRfc3339(date))
  {
    env.isRfc3339(ReplaceZ(date))
  }

  /** The check does not tell `Z` from `+00:00`: writing one for the other anywhere in a
      date does not change whether it passes. */
  lemma ZuluSpellingsAgree(env: Env, a: string, b: string)
    ensures ValidDate(env, a + "Z" + b) == ValidDate(env, a + "+00:00" + b)
  {
    ReplaceZAppend(a + "Z", b);
    ReplaceZAppend(a, "Z");
    ReplaceZAppend(a + "+00:00", b);
    ReplaceZAppend(a, "+00:00");
    assert ReplaceZ("Z") == "+00:00" by {
      assert "Z"[1..] == [];
    }
  }

  /** How far the copy loop got: the entries it wrote and the step that failed, if any. */
  datatype Copy = Copy(written: seq<Entry>, failed: Option<IoStep>)

  /** The copy loop of `save_metadata` (src/main.rs:271-283) from index `i` on, after
      `written` has been put out. A failed `start_file` writes nothing; a failed
      `write_all` leaves the started entry empty. */
  function CopyFrom(src: seq<Entry>, i: nat, faults: set<IoStep>, written: seq<Entry>): (r: Copy)
    requires i <= |src|
    ensures r.failed.None? ==> r.written == written + Copied(src[i..])
    ensures r.failed.Some? ==> r.failed.value in faults
    decreases |src| - i
  {
    if i == |src| then
      assert src[i..] == [];
      Copy(written, None)
    else
      assert src[i..][1..] == src[i + 1..];
      var e := src[i];
      if e.name == CorePart then CopyFrom(src, i + 1, faults, written)
      else if StartEntry(i) in faults then Copy(written, Some(StartEntry(i)))
      else if WriteEntry(i) in faults then Copy(written + [Entry(e.name, [], Deflated)], Some(WriteEntry(i)))
      else
        var r := CopyFrom(src, i + 1, faults, written + [Deflate(e)]);
        assert r.failed.None? ==> r.written == written + ([Deflate(e)] + Copied(src[i + 1..]));
        r
  }

  /** When no write of an entry fails, the copy loop completes. */
  lemma {:induction false} CopyFromCompletes(src: seq<Entry>, i: nat, faults: set<IoStep>, written: seq<Entry>)
    requires i <= |src|
    requires forall k :: i <= k < |src| ==> StartEntry(k) !in faults && WriteEntry(k) !in faults
    ensures CopyFrom(src, i, faults, written).failed.None?
    decreases |src| - i
  {
    if i < |src| {
      CopyFromCompletes(src, i + 1, faults, written + [Deflate(src[i])]);
      CopyFromCompletes(src, i + 1, faults, written);
    }
  }

  /** How `save_metadata` ends and what the file system then holds. */
  datatype SaveStatus = Saved | SaveFailed(failure: Failure) | SavePanicked(tag: string)
  datatype Saving = Saving(status: SaveStatus, files: map<Path, FileState>)

  /** `save_metadata` (src/main.rs:245-299) run under `faults`. */
  function Save(env: Env, files: map<Path, FileState>, path: Path, created: string, modified: string,
                faults: set<IoStep>): (r: Saving)
    requires TempPath(path) != path
    ensures !ValidDate(env, created) ==> r == Saving(SaveFailed(InvalidCreated), files)
    ensures ValidDate(env, created) && !ValidDate(env, modified) ==> r == Saving(SaveFailed(InvalidModified), files)
    ensures r.status != Saved ==>
      forall p :: p != TempPath(path) ==> (p in r.files <==> p in files) && (p in files ==> r.files[p] == files[p])
    ensures r.status == Saved <==> && ValidDate(env, created) && ValidDate(env, modified)
                                   && OpenArchive(files, path).Ok?
                                   && NewCoreXml(env, files, path, created, modified).Done?
                                   && CreateTemp !in faults && StartCore !in faults && WriteCore !in faults
                                   && FinishArchive !in faults && RenameTemp !in faults
                                   && CopyFrom(OpenArchive(files, path).value, 0, faults, []).failed.None?
    ensures r.status == Saved ==> TempPath(path) !in r.files && path in r.files && r.files[path].Zip?
  {
    if !ValidDate(env, created) then Saving(SaveFailed(InvalidCreated), files)
    else if !ValidDate(env, modified) then Saving(SaveFailed(InvalidModified), files)
    else
      match OpenArchive(files, path)
      case Err(e) => Saving(SaveFailed(OpenFailed(e)), files)
      case Ok(src) =>
        if CreateTemp in faults then Saving(SaveFailed(IoFailed(CreateTemp)), files)
        else Rebuild(env, files, path, TempPath(path), src, created, modified, faults)
  }

  /** The part of `save_metadata` after the temp file `temp` is created (src/main.rs:265-298):
      the copy loop over the entries `src`, then `generate_core_xml` and the commit. */
  function Rebuild(env: Env, files: map<Path, FileState>, path: Path, temp: Path, src: seq<Entry>,
                   created: string, modified: string, faults: set<IoStep>): Saving
    requires temp != path
  {
    var copy := CopyFrom(src, 0, faults, []);
    var partial := files[temp := PartialZip(copy.written)];
    if copy.failed.Some? then Saving(SaveFailed(IoFailed(copy.failed.value)), partial)
    else
      match NewCoreXml(env, files, path, created, modified)
      case Failed(f) => Saving(SaveFailed(f), partial)
      case Panic(tag) => Saving(SavePanicked(tag), partial)
      case Done(xml) => Commit(files, path, temp, copy.written, env.encode(xml), faults)
  }

  /** The end of `save_metadata` (src/main.rs:285-298), after the copy loop wrote `copied`
      into the temp file `temp`: the new `core.xml` is appended, the archive finished and
      the temp file renamed over `path`; `files` is the file system before the temp file. */
  function Commit(files: map<Path, FileState>, path: Path, temp: Path, copied: seq<Entry>, core: Bytes,
                  faults: set<IoStep>): (r: Saving)
    requires temp != path
    ensures r.status == Saved <==> StartCore !in faults && WriteCore !in faults
                                   && FinishArchive !in faults && RenameTemp !in faults
    ensures r.status == Saved ==> r.files == (files - {temp})[path := Zip(copied + [Entry(CorePart, core, Deflated)])]
    ensures r.status != Saved ==> r.files.Keys == files.Keys + {temp}
  {
    var all := copied + [Entry(CorePart, core, Deflated)];
    if StartCore in faults then Saving(SaveFailed(IoFailed(StartCore)), files[temp := PartialZip(copied)])
    else if WriteCore in faults then
      Saving(SaveFailed(IoFailed(WriteCore)), files[temp := PartialZip(copied + [Entry(CorePart, [], Deflated)])])
    else if FinishArchive in faults then Saving(SaveFailed(IoFailed(FinishArchive)), files[temp := PartialZip(all)])
    else if RenameTemp in faults then Saving(SaveFailed(IoFailed(RenameTemp)), files[temp := Zip(all)])
    else Saving(Saved, (files - {temp})[path := Zip(all)])
  }

  /** The copy loop of `save_metadata` (src/main.rs:271-283): every entry of `src` but
      `core.xml`, by index, started and written Deflated into `zip`. */
  method CopyEntries(zip: ZipWriter, src: seq<Entry>, faults: set<IoStep>) returns (failed: Option<IoStep>)
    requires zip.Valid() && zip.entries == []
    modifies zip, zip.fs
    ensures zip.Valid()
    ensures Copy(zip.entries, failed) == CopyFrom(src, 0, faults, [])
    ensures zip.fs.files == old(zip.fs.files)[zip.path := PartialZip(zip.entries)]
  {
    var i := 0;
    while i < |src|
      invariant i <= |src| && zip.Valid()
      invariant zip.fs.files == old(zip.fs.files)[zip.path := PartialZip(zip.entries)]
      invariant CopyFrom(src, i, faults, zip.entries) == CopyFrom(src, 0, faults, [])
    {
      var entry := src[i];
      ghost var written := zip.entries;
      if entry.name == CorePart {
        i := i + 1;
        continue;
      }
      var ok := zip.StartFile(entry.name, Deflated, StartEntry(i) in faults);
      if !ok {
        return Some(StartEntry(i));
      }
      ok := zip.WriteAll(entry.data, WriteEntry(i) in faults);
      if !ok {
        return Some(WriteEntry(i));
      }
      assert zip.entries == written + [Deflate(entry)] by {
        assert [] + entry.data == entry.data;
      }
      i := i + 1;
    }
    return None;
  }

  /** `save_metadata`: validates both dates, copies every entry but `core.xml` into a
      new archive at the temp path, appends the rewritten `core.xml`, finishes the
      archive and renames it over `path`. */
  method SaveMetadata(fs: FileSystem, env: Env, path: Path, created: string, modified: string,
                      faults: set<IoStep>) returns (r: SaveStatus)
    requires TempPath(path) != path
    modifies fs
    ensures Saving(r, fs.files) == Save(env, old(fs.files), path, created, modified, faults)
  {
    if !env.isRfc3339(ReplaceZ(created)) {
      return SaveFailed(InvalidCreated);
    }
    if !env.isRfc3339(ReplaceZ(modified)) {
      return SaveFailed(InvalidModified);
    }
    var archive := OpenArchive(fs.files, path);
    if archive.Err? {
      return SaveFailed(OpenFailed(archive.error));
    }
    var src := archive.value;
    if CreateTemp in faults {
      return SaveFailed(IoFailed(CreateTemp));
    }
    r := RebuildArchive(fs, env, path, TempPath(path), src, created, modified, faults);
  }

  /** `save_metadata` from `File::create` of the temp file on: the copy loop,
      `generate_core_xml`, then the commit. */
  method RebuildArchive(fs: FileSystem, env: Env, path: Path, temp: Path, src: seq<Entry>,
                        created: string, modified: string, faults: set<IoStep>) returns (r: SaveStatus)
    requires temp != path
    modifies fs
    ensures Saving(r, fs.files) == Rebuild(env, old(fs.files), path, temp, src, created, modified, faults)
  {
    var zip := new ZipWriter(fs, temp);
    var failed := CopyEntries(zip, src, faults);
    if failed.Some? {
      return SaveFailed(IoFailed(failed.value));
    }
    NewCoreXmlReadsOnlyPath(env, old(fs.files), temp, PartialZip(zip.entries), path, created, modified);
    var xml := GenerateCoreXml(fs, env, path, created, modified);
    match xml {
      case Failed(f) => return SaveFailed(f);
      case Panic(tag) => return SavePanicked(tag);
      case Done(_) =>
    }
    r := CommitCore(fs, zip, path, temp, env.encode(xml.value), faults, old(fs.files));
  }

  /** The end of `save_metadata`: `core.xml` written Deflated, the writer finished,
      the temp file renamed over `path`. */
  method CommitCore(fs: FileSystem, zip: ZipWriter, path: Path, temp: Path, core: Bytes, faults: set<IoStep>,
                     ghost files: map<Path, FileState>) returns (r: SaveStatus)
    requires temp != path
    requires zip.fs == fs && zip.path == temp && zip.Valid()
    requires fs.files == files[temp := PartialZip(zip.entries)]
    modifies fs, zip
    ensures r == Commit(files, path, temp, old(zip.entries), core, faults).status
    ensures fs.files == Commit(files, path, temp, old(zip.entries), core, faults).files
  {
    ghost var copied := zip.entries;
    ghost var all := copied + [Entry(CorePart, core, Deflated)];
    var ok := zip.StartFile(CorePart, Deflated, StartCore in faults);
    if !ok {
      return SaveFailed(IoFailed(StartCore));
    }
    ok := zip.WriteAll(core, WriteCore in faults);
    if !ok {
      return SaveFailed(IoFailed(WriteCore));
    }
    assert zip.entries == all by {
      assert [] + core == core;
    }
    ok := zip.Finish(FinishArchive in faults);
    if !ok {
      return SaveFailed(IoFailed(FinishArchive));
    }
    ok := fs.Rename(temp, path, RenameTemp in faults);
    if !ok {
      return SaveFailed(IoFailed(RenameTemp));
    }
    return Saved;
  }

  /** A save in which nothing fails replaces `path` with the rebuilt archive: every
      entry but `core.xml` in source order, then the new `core.xml`; the temp file is
      gone and every other path is unchanged. */
  lemma SaveReplacesOriginal(env: Env, files: map<Path, FileState>, path: Path, created: string, modified: string,
                             faults: set<IoStep>)
    requires TempPath(path) != path
    requires Save(env, files, path, created, modified, faults).status == Saved
    ensures OpenArchive(files, path).Ok? && NewCoreXml(env, files, path, created, modified).Done?
    ensures var src := OpenArchive(files, path).value;
      var xml := NewCoreXml(env, files, path, created, modified).value;
      Save(env, files, path, created, modified, faults).files
      == (files - {TempPath(path)})[path := Zip(Rebuilt(src, env.encode(xml)))]
  {
    var src := OpenArchive(files, path).value;
    assert src[0..] == src;
    assert [] + Copied(src) == Copied(src);
  }

  /** Whether tokenizing the encoded output of the writer gives back the events written. */
  predicate ReadsBack(env: Env, events: seq<Event>) {
    env.tokenize(env.encode(Render(events))) == Stream(events, Eof)
  }

  /** Saving and then loading gives back the saved dates, when the original `core.xml`
      loads, the dates are non-empty and hold nothing the writer escapes, and the
      tokenizer reads the written events back. */
  lemma SaveThenLoad(env: Env, files: map<Path, FileState>, path: Path, created: string, modified: string,
                     faults: set<IoStep>)
    requires TempPath(path) != path
    requires Load(env, files, path).Ok?
    requires Save(env, files, path, created, modified, faults).status == Saved
    requires created != "" && modified != ""
    requires env.escape(created) == created && env.escape(modified) == modified
    requires ReadsBack(env, RewriteCore(env, files, path, created, modified).value.events)
    ensures Load(env, Save(env, files, path, created, modified, faults).files, path) == Ok(Dates(created, modified))
  {
    var src := OpenArchive(files, path).value;
    var stream := env.tokenize(Lookup(src, CorePart).value);
    var texts := Texts(env, created, modified);
    var out := Rewrite(stream.events, stream.end, texts).events;
    var xml := NewCoreXml(env, files, path, created, modified).value;
    SaveReplacesOriginal(env, files, path, created, modified, faults);
    RebuiltHasOneCorePart(src, env.encode(xml));
    RoundTrip(stream, texts);
    assert env.tokenize(env.encode(xml)) == Stream(out, Eof);
  }
}
