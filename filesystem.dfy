/**
 * The backup directory as the service sees it through `os`: whether it
 * exists, the names `os.listdir` returns, and what `open` and `os.stat`
 * find under each full path.
 */
module FileSystem {
  import opened Wrappers
  import opened Json
  import opened DateTimes

  /** What `json.load` makes of a file: a decoded document, or a decoding error. */
  datatype FileContent = JsonText(doc: Json) | Garbled

  /** A file's content with the `os.stat` fields the catalog reads (local times). */
  datatype FileData = FileData(content: FileContent, size: nat, created: DateTime, modified: DateTime)

  /** `os.path.join(dir, name)` for a plain file name. */
  function JoinPath(dir: string, name: string): string {
    dir + "/" + name
  }

  /** `names` with `name` appended unless it is already listed. */
  function Listed(names: seq<string>, name: string): (r: seq<string>)
    ensures name in r
    ensures forall n :: n in r <==> n in names || n == name
  {
    if name in names then names else names + [name]
  }

  class Disk {
    /** The backup directory's path. */
    const dir: string
    /** Whether the backup directory exists. */
    var dirExists: bool
    /** The names in the backup directory, in the order `os.listdir` gives them. */
    var listing: seq<string>
    /** Contents and stat data by full path. */
    var files: map<string, FileData>

    constructor(dir: string, dirExists: bool, listing: seq<string>, files: map<string, FileData>)
      ensures this.dir == dir && this.dirExists == dirExists
      ensures this.listing == listing && this.files == files
    {
      this.dir := dir;
      this.dirExists := dirExists;
      this.listing := listing;
      this.files := files;
    }

    /** `os.makedirs(dir)` when `os.path.exists(dir)` is false; the directory starts empty. */
    method EnsureDirectory()
      modifies this
      ensures dirExists
      ensures old(dirExists) ==> listing == old(listing)
      ensures !old(dirExists) ==> listing == []
      ensures files == old(files)
    {
      if !dirExists {
        dirExists := true;
        listing := [];
      }
    }

    /**
     * `open(JoinPath(dir, name), 'w')` followed by `json.dump(doc, ...)`.
     * The open fails, changing nothing, when the directory is missing or
     * the OS refuses it (`openOk` false). Once open, the file exists and
     * is truncated; when the dump then fails (`dumpOk` false) it keeps the
     * part of the text written so far, which `json.load` rejects. A file
     * written at `when` has `when` as both its change and its modification
     * time; `size` is the length of the text that reached it.
     */
    method WriteJson(name: string, doc: Json, size: nat, when: DateTime, openOk: bool, dumpOk: bool) returns (ok: bool)
      modifies this
      ensures ok <==> old(dirExists) && openOk && dumpOk
      ensures old(dirExists) && openOk ==>
        && files == old(files)[JoinPath(dir, name) := FileData(if dumpOk then JsonText(doc) else Garbled, size, when, when)]
        && listing == Listed(old(listing), name)
      ensures !(old(dirExists) && openOk) ==> files == old(files) && listing == old(listing)
      ensures dirExists == old(dirExists)
    {
      if !(dirExists && openOk) {
        return false;
      }
      files := files[JoinPath(dir, name) := FileData(Garbled, size, when, when)];
      listing := Listed(listing, name);
      if !dumpOk {
        return false;
      }
      files := files[JoinPath(dir, name) := FileData(JsonText(doc), size, when, when)];
      ok := true;
    }

    /** `open(path)` then `json.load`: what the file decodes to, `None` when there is no such file. */
    function Read(path: string): (r: Option<FileContent>)
      reads this
      ensures r.None? <==> path !in files
      ensures r.Some? ==> r.value == files[path].content
    {
      if path in files then Some(files[path].content) else None
    }
  }
}
