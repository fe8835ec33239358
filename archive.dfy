/**
 * The ZIP side of `save_metadata` and `load_metadata` (src/main.rs:203-299): a
 * `.docx` file is an archive of named entries, the file system maps paths to files,
 * and a `ZipWriter` appends entries to a file it created.
 *
 * The container format itself (local headers, Deflate, the central directory) is
 * not modelled: an entry holds its uncompressed bytes and the name of the method it
 * is stored with, and a file is either a complete archive or the partial one a
 * writer leaves before `finish` writes the central directory.
 */
module Archive {
  import opened Outcomes

  newtype byte = x: int | 0 <= x < 256
  type Bytes = seq<byte>

  /** How an entry is stored. */
  datatype Compression = Stored | Deflated | OtherMethod(id: nat)

  /** One entry of an archive: its name, its uncompressed contents and its method. */
  datatype Entry = Entry(name: string, data: Bytes, compression: Compression)

  /** The part of a `.docx` holding the core properties. */
  const CorePart: string := "docProps/core.xml"

  /** `by_name`: the contents of the first entry called `name`. */
  function Lookup(entries: seq<Entry>, name: string): (r: Option<Bytes>)
    ensures r.None? <==> forall i :: 0 <= i < |entries| ==> entries[i].name != name
    ensures r.Some? ==> exists i :: 0 <= i < |entries| && entries[i].name == name && entries[i].data == r.value
  {
    if entries == [] then None
    else if entries[0].name == name then Some(entries[0].data)
    else
      var r := Lookup(entries[1..], name);
      assert forall i :: 1 <= i < |entries| ==> entries[i] == entries[1..][i - 1];
      r
  }

  /** An entry as `save_metadata` writes it back: same name and contents, always Deflated. */
  function Deflate(e: Entry): Entry {
    Entry(e.name, e.data, Deflated)
  }

  /** The entries the copy loop of `save_metadata` writes, in order (src/main.rs:271-283). */
  function Copied(src: seq<Entry>): (r: seq<Entry>)
    ensures |r| <= |src|
    ensures forall j :: 0 <= j < |r| ==> r[j].name != CorePart && r[j].compression == Deflated
  {
    if src == [] then []
    else (if src[0].name == CorePart then [] else [Deflate(src[0])]) + Copied(src[1..])
  }

  /** The archive `save_metadata` finishes: the copied entries and then the new core part. */
  function Rebuilt(src: seq<Entry>, core: Bytes): seq<Entry> {
    Copied(src) + [Entry(CorePart, core, Deflated)]
  }

  /** The copy works entry by entry: copying `a + b` writes the copies of `a`, then those of `b`. */
  lemma {:induction false} CopiedAppend(a: seq<Entry>, b: seq<Entry>)
    ensures Copied(a + b) == Copied(a) + Copied(b)
    decreases |a|
  {
    if a == [] {
      assert a + b == b;
    } else {
      assert (a + b)[0] == a[0];
      assert (a + b)[1..] == a[1..] + b;
      CopiedAppend(a[1..], b);
    }
  }

  /** The number of entries of `src` that are not the core part. */
  function CountOthers(src: seq<Entry>): nat {
    if src == [] then 0 else (if src[0].name == CorePart then 0 else 1) + CountOthers(src[1..])
  }

  /** One entry is written for every entry other than the core part, and none for it. */
  lemma {:induction false} CopiedLength(src: seq<Entry>)
    ensures |Copied(src)| == CountOthers(src)
    decreases |src|
  {
    if src != [] {
      CopiedLength(src[1..]);
    }
  }

  /** Every entry other than the core part is written, with its name and contents,
      after the copies of all the entries before it. */
  lemma {:induction false} CopiedKeepsOthers(src: seq<Entry>, i: nat)
    requires i < |src| && src[i].name != CorePart
    ensures var j := |Copied(src[..i])|;
      j < |Copied(src)| && Copied(src)[j] == Deflate(src[i])
  {
    assert src == src[..i] + ([src[i]] + src[i + 1..]);
    CopiedAppend(src[..i], [src[i]] + src[i + 1..]);
    assert ([src[i]] + src[i + 1..])[1..] == src[i + 1..];
  }

  /** Every written entry is the copy of an entry of the source that is not the core part. */
  lemma {:induction false} CopiedOrigin(src: seq<Entry>, j: nat) returns (i: nat)
    requires j < |Copied(src)|
    ensures i < |src| && src[i].name != CorePart && Copied(src)[j] == Deflate(src[i])
    decreases |src|
  {
    var head := if src[0].name == CorePart then [] else [Deflate(src[0])];
    if j < |head| {
      i := 0;
    } else {
      var k := CopiedOrigin(src[1..], j - |head|);
      i := k + 1;
    }
  }

  /** The rebuilt archive holds exactly one core part, the last entry, with the new contents. */
  lemma RebuiltHasOneCorePart(src: seq<Entry>, core: Bytes)
    ensures var out := Rebuilt(src, core);
      && out[|out| - 1] == Entry(CorePart, core, Deflated)
      && (forall j :: 0 <= j < |out| - 1 ==> out[j].name != CorePart)
      && Lookup(out, CorePart) == Some(core)
  {
    var out := Rebuilt(src, core);
    assert forall j :: 0 <= j < |out| - 1 ==> out[j] == Copied(src)[j];
  }

  /** A file path, as the string the program passes to the file system. */
  type Path = string

  /** The end of `p` once trailing separators are dropped, where `Path::components`
      stops. */
  function TrimEnd(p: Path): (j: nat)
    ensures j <= |p|
    ensures j == |p| <==> p == [] || p[|p| - 1] != '/'
    ensures j > 0 ==> p[j - 1] != '/'
    decreases |p|
  {
    if p != [] && p[|p| - 1] == '/' then TrimEnd(p[..|p| - 1]) else |p|
  }

  /** The start of the component of `p` that ends at `j`. */
  function ComponentStart(p: Path, j: nat): (i: nat)
    requires j <= |p|
    ensures i <= j && (i == 0 || p[i - 1] == '/')
    ensures forall k :: i <= k < j ==> p[k] != '/'
    decreases j
  {
    if j == 0 || p[j - 1] == '/' then j else ComponentStart(p, j - 1)
  }

  /** Where the last component of `p` starts and ends. */
  function LastComponent(p: Path): (r: (nat, nat))
    ensures r.0 <= r.1 <= |p|
  {
    var j := TrimEnd(p);
    (ComponentStart(p, j), j)
  }

  /** `Path::file_name`: the last component, unless it is empty, `.` or `..`. */
  function FileName(p: Path): (r: Option<string>)
    ensures r.Some? ==> r.value == p[LastComponent(p).0..LastComponent(p).1] && r.value != []
  {
    var (i, j) := LastComponent(p);
    var name := p[i..j];
    if name == "" || name == "." || name == ".." then None else Some(name)
  }

  /** The index of the last `.` in `name`. */
  function LastDot(name: string): (r: Option<nat>)
    ensures r.Some? ==> r.value < |name| && name[r.value] == '.'
                        && forall k :: r.value < k < |name| ==> name[k] != '.'
    ensures r.None? ==> forall k :: 0 <= k < |name| ==> name[k] != '.'
  {
    if name == [] then None
    else if name[|name| - 1] == '.' then Some(|name| - 1)
    else LastDot(name[..|name| - 1])
  }

  /** The length of the file stem of `name`, as `rsplit_file_at_dot` splits it: up to the
      last `.`, unless that dot is the first character or there is none. */
  function StemLength(name: string): (n: nat)
    ensures n <= |name|
    ensures n < |name| ==> n > 0 && name[n] == '.' && forall k :: n < k < |name| ==> name[k] != '.'
  {
    match LastDot(name)
    case Some(d) => if d == 0 then |name| else d
    case None => |name|
  }

  /** `Path::extension`. */
  function Extension(p: Path): (r: Option<string>)
    ensures r.Some? ==> '.' !in r.value
  {
    match FileName(p)
    case None => None
    case Some(name) =>
      var n := StemLength(name);
      if n == |name| then None
      else
        Some(name[n + 1..])
  }

  /** `path.with_extension(ext)`: the path up to the end of the file stem, then `.` and
      `ext`; a path without a file name is returned as it is. */
  function WithExtension(p: Path, ext: string): Path
    requires ext != ""
  {
    match FileName(p)
    case None => p
    case Some(name) => p[..LastComponent(p).0 + StemLength(name)] + "." + ext
  }

  /** `path.with_extension("tmp")`, where `save_metadata` writes the new archive. */
  function TempPath(p: Path): Path {
    WithExtension(p, "tmp")
  }

  /** The temp path is a different file from `p`, unless `p` has no file name or its
      file name already ends in the extension `tmp`. */
  lemma TempPathIsNew(p: Path)
    ensures TempPath(p) == p
            <==> FileName(p).None? || (Extension(p) == Some("tmp") && TrimEnd(p) == |p|)
  {
    if FileName(p).Some? {
      var i, j := LastComponent(p).0, LastComponent(p).1;
      var n := StemLength(p[i..j]);
      WithExtensionShape(p, "tmp", i, j, n);
      ReplacedStemIsSame(p, i, j, n);
    }
  }

  /** A path with a file name gets a temp path in the same directory, with the same
      file stem and the extension `tmp`. */
  lemma TempPathHasTmpExtension(p: Path)
    requires FileName(p).Some?
    ensures var i := LastComponent(p).0;
      && TempPath(p)[..i] == p[..i]
      && FileName(TempPath(p)).Some?
      && Extension(TempPath(p)) == Some("tmp")
  {
    var i, j := LastComponent(p).0, LastComponent(p).1;
    var n := StemLength(p[i..j]);
    WithExtensionShape(p, "tmp", i, j, n);
    StemThenTmp(p, i, n);
  }

  /** The stem `p[i..i + n]` of a component, followed by `.tmp`. */
  lemma StemThenTmp(p: Path, i: nat, n: nat)
    requires i + n <= |p| && n > 0 && (i == 0 || p[i - 1] == '/')
    requires forall k :: i <= k < i + n ==> p[k] != '/'
    ensures var q := p[..i + n] + "." + "tmp";
      q[..i] == p[..i] && FileName(q).Some? && Extension(q) == Some("tmp")
  {
    var q := p[..i + n] + "." + "tmp";
    assert q[i + n..] == ".tmp";
    assert forall k :: 0 <= k < i + n ==> q[k] == p[k];
    TmpFileName(q, i, n);
  }

  /** A path whose last component is a non-empty stem followed by `.tmp` has the
      extension `tmp`. */
  lemma TmpFileName(q: Path, i: nat, n: nat)
    requires i + n + 4 == |q| && n > 0 && q[i + n..] == ".tmp"
    requires i == 0 || q[i - 1] == '/'
    requires forall k :: i <= k < i + n ==> q[k] != '/'
    ensures LastComponent(q) == (i, |q|)
    ensures FileName(q).Some? && Extension(q) == Some("tmp")
  {
    forall k | i + n <= k < |q| ensures q[k] != '/' {
      assert q[k] == q[i + n..][k - i - n];
    }
    ComponentStartAt(q, |q|, i);
    var name := q[i..];
    assert name[n..] == q[i + n..];
    TmpName(name, n);
    assert TrimEnd(q) == |q| && name == q[i..|q|];
  }

  /** A file name made of a non-empty stem and `.tmp` splits into that stem and `tmp`. */
  lemma TmpName(name: string, n: nat)
    requires |name| == n + 4 && n > 0 && name[n..] == ".tmp"
    ensures StemLength(name) == n && name[n + 1..] == "tmp"
    ensures name != "" && name != "." && name != ".."
  {
    assert name[n + 1..] == name[n..][1..];
    LastDotAt(name, n);
  }

  /** `ComponentStart` finds the start `i` of a component that runs without a separator
      up to `j`. */
  lemma {:induction false} ComponentStartAt(p: Path, j: nat, i: nat)
    requires i <= j <= |p| && (i == 0 || p[i - 1] == '/')
    requires forall k :: i <= k < j ==> p[k] != '/'
    ensures ComponentStart(p, j) == i
    decreases j
  {
    if j > i {
      ComponentStartAt(p, j - 1, i);
    }
  }

  /** The last `.` of `name` is the one at `d` when none follows it. */
  lemma {:induction false} LastDotAt(name: string, d: nat)
    requires d < |name| && name[d] == '.'
    requires forall k :: d < k < |name| ==> name[k] != '.'
    ensures LastDot(name) == Some(d)
    decreases |name|
  {
    if d < |name| - 1 {
      LastDotAt(name[..|name| - 1], d);
    }
  }

  /** The pieces `WithExtension` and `Extension` are made of, for a path with a file name. */
  lemma WithExtensionShape(p: Path, ext: string, i: nat, j: nat, n: nat)
    requires ext != "" && FileName(p).Some?
    requires (i, j) == LastComponent(p) && n == StemLength(p[i..j])
    ensures i + n <= j <= |p|
    ensures WithExtension(p, ext) == p[..i + n] + "." + ext
    ensures Extension(p) == if i + n == j then None else Some(p[i + n + 1..j])
    ensures j < |p| ==> p[|p| - 1] == '/'
    ensures i + n < j ==> p[i + n] == '.'
    ensures n > 0 && (i == 0 || p[i - 1] == '/') && forall k :: i <= k < j ==> p[k] != '/'
  {
    var name := p[i..j];
    assert n < |name| ==> name[n] == p[i + n] && name[n + 1..] == p[i + n + 1..j];
  }

  /** Putting `.tmp` after the stem `p[i..i + n]` of the component `p[i..j]` gives `p`
      back exactly when the component's extension is `tmp` and nothing follows it. */
  lemma ReplacedStemIsSame(p: string, i: nat, j: nat, n: nat)
    requires i + n <= j <= |p|
    requires j < |p| ==> p[|p| - 1] == '/'
    requires i + n < j ==> p[i + n] == '.'
    ensures p[..i + n] + "." + "tmp" == p <==> i + n < j && p[i + n + 1..j] == "tmp" && j == |p|
  {
    EndsInTmp(p, i + n);
  }

  /** `p` is its first `k` characters followed by `.tmp` exactly when it has four more
      and those are `.tmp`. */
  lemma EndsInTmp(p: string, k: nat)
    requires k <= |p|
    ensures p == p[..k] + "." + "tmp" <==> |p| == k + 4 && p[k] == '.' && p[k + 1..] == "tmp"
    ensures p == p[..k] + "." + "tmp" ==> p[|p| - 1] != '/'
  {
    if |p| == k + 4 && p[k] == '.' && p[k + 1..] == "tmp" {
      assert p[k..] == "." + "tmp";
      assert p == p[..k] + p[k..];
    }
  }

  /** What a path holds: a complete archive, or the entries a writer has put out so far
      without the central directory, which no reader opens as an archive. */
  datatype FileState = Zip(entries: seq<Entry>) | PartialZip(written: seq<Entry>)

  /** Why `File::open` followed by `ZipArchive::new` fails. */
  datatype OpenError = NoSuchFile | NotAnArchive

  /** `File::open(path)` and `ZipArchive::new(file)`. */
  function OpenArchive(files: map<Path, FileState>, path: Path): (r: Result<seq<Entry>, OpenError>)
    ensures r.Ok? <==> path in files && files[path].Zip?
    ensures r.Ok? ==> r.value == files[path].entries
    ensures r == Err(NoSuchFile) <==> path !in files
  {
    if path !in files then Err(NoSuchFile)
    else if files[path].PartialZip? then Err(NotAnArchive)
    else Ok(files[path].entries)
  }

  /** The file system, as far as the program touches it. */
  class FileSystem {
    var files: map<Path, FileState>

    constructor (files: map<Path, FileState>)
      ensures this.files == files
    {
      this.files := files;
    }

    /** `fs::rename(from, to)`: one atomic update that moves the file, or an error
        (`fails`) that leaves everything as it was. */
    method Rename(from: Path, to: Path, fails: bool) returns (ok: bool)
      requires from in files
      modifies this
      ensures ok == !fails
      ensures ok ==> files == (old(files) - {from})[to := old(files)[from]]
      ensures !ok ==> files == old(files)
    {
      if fails {
        return false;
      }
      var f := files[from];
      files := (files - {from})[to := f];
      return true;
    }
  }

  /** A `ZipWriter` over the file `path` it created; what it has written so far is
      visible in `fs` as a partial archive until `finish` completes it. */
  class ZipWriter {
    const fs: FileSystem
    const path: Path
    var entries: seq<Entry>

    ghost predicate Valid()
      reads this, fs
    {
      path in fs.files && fs.files[path] == PartialZip(entries)
    }

    /** `File::create(path)` followed by `ZipWriter::new`: an empty file, replacing
        whatever `path` held. The caller checks `File::create`'s error first. */
    constructor (fs: FileSystem, path: Path)
      modifies fs
      ensures this.fs == fs && this.path == path && entries == []
      ensures fs.files == old(fs.files)[path := PartialZip([])]
      ensures Valid()
    {
      this.fs := fs;
      this.path := path;
      entries := [];
      new;
      fs.files := fs.files[path := PartialZip([])];
    }

    /** `start_file(name, options)`: opens a new, empty entry; on an error (`fails`)
        nothing is written. */
    method StartFile(name: string, compression: Compression, fails: bool) returns (ok: bool)
      requires Valid()
      modifies this, fs
      ensures Valid()
      ensures ok == !fails
      ensures entries == if ok then old(entries) + [Entry(name, [], compression)] else old(entries)
      ensures fs.files == old(fs.files)[path := PartialZip(entries)]
    {
      if fails {
        return false;
      }
      entries := entries + [Entry(name, [], compression)];
      fs.files := fs.files[path := PartialZip(entries)];
      return true;
    }

    /** `write_all(data)` into the entry opened last; on an error (`fails`) nothing is written. */
    method WriteAll(data: Bytes, fails: bool) returns (ok: bool)
      requires Valid() && entries != []
      modifies this, fs
      ensures Valid()
      ensures ok == !fails
      ensures var n := |old(entries)| - 1;
        entries == if ok then old(entries)[n := old(entries)[n].(data := old(entries)[n].data + data)]
                   else old(entries)
      ensures fs.files == old(fs.files)[path := PartialZip(entries)]
    {
      if fails {
        return false;
      }
      var n := |entries| - 1;
      entries := entries[n := entries[n].(data := entries[n].data + data)];
      fs.files := fs.files[path := PartialZip(entries)];
      return true;
    }

    /** `finish()`: writes the central directory, so the file becomes a complete archive
        of the entries written; on an error (`fails`) it stays partial. */
    method Finish(fails: bool) returns (ok: bool)
      requires Valid()
      modifies fs
      ensures ok == !fails
      ensures fs.files == if ok then old(fs.files)[path := Zip(entries)] else old(fs.files)
    {
      if fails {
        return false;
      }
      fs.files := fs.files[path := Zip(entries)];
      return true;
    }
  }
}
