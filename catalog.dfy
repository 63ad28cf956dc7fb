/**
 * The catalog of backup files: the `.json` entries of the backup directory
 * with their size and change/modification times as ISO text, newest
 * modification first.
 */
module Catalog {
  import opened Wrappers
  import opened DateTimes
  import opened FileSystem

  /** One catalog entry, the dict `list_backup_files` builds per file. */
  datatype BackupFile = BackupFile(filename: string, filepath: string, size: nat, created: string, modified: string)

  /** Python's `s.endswith(suffix)`. */
  predicate EndsWith(s: string, suffix: string) {
    |suffix| <= |s| && s[|s| - |suffix|..] == suffix
  }

  /** The entry for the file `name` of `dir` whose stat data is `d`. */
  function EntryFor(dir: string, name: string, d: FileData): (e: BackupFile)
    requires Valid(d.created) && Valid(d.modified)
  {
    BackupFile(name, JoinPath(dir, name), d.size, IsoFormat(d.created), IsoFormat(d.modified))
  }

  /** Every stat time on the disk is one Python can represent. */
  predicate TimesValid(files: map<string, FileData>) {
    forall p :: p in files ==> Valid(files[p].created) && Valid(files[p].modified)
  }

  /**
   * The loop over the directory's names: entries for the `.json` names,
   * in listing order; `None` once `os.stat` fails on one of them.
   */
  function Collect(dir: string, names: seq<string>, files: map<string, FileData>): Option<seq<BackupFile>>
    requires TimesValid(files)
    decreases |names|
  {
    if names == [] then Some([])
    else
      match Collect(dir, names[..|names| - 1], files)
      case None => None
      case Some(prev) =>
        var name := names[|names| - 1];
        if !EndsWith(name, ".json") then Some(prev)
        else if JoinPath(dir, name) in files then Some(prev + [EntryFor(dir, name, files[JoinPath(dir, name)])])
        else None
  }

  /** Python's `<` on strings: lexicographic by code point. */
  predicate StrLt(a: string, b: string) {
    if a == [] then b != []
    else if b == [] then false
    else if a[0] != b[0] then a[0] < b[0]
    else StrLt(a[1..], b[1..])
  }

  /** Newest modification first: no entry is modified earlier (as text) than one after it. */
  predicate NewestFirst(s: seq<BackupFile>) {
    forall i, j :: 0 <= i < j < |s| ==> !StrLt(s[i].modified, s[j].modified)
  }

  /** Places `x` before the first entry that is not newer than it. */
  function Insert(x: BackupFile, s: seq<BackupFile>): (r: seq<BackupFile>)
    ensures multiset(r) == multiset(s) + multiset{x}
  {
    if s == [] || !StrLt(x.modified, s[0].modified) then [x] + s
    else
      assert s == [s[0]] + s[1..];
      [s[0]] + Insert(x, s[1..])
  }

  /** `sort(key=modified, reverse=True)`: a stable sort, newest first. */
  function SortNewestFirst(xs: seq<BackupFile>): (r: seq<BackupFile>)
    ensures multiset(r) == multiset(xs)
  {
    if xs == [] then []
    else
      assert xs == [xs[0]] + xs[1..];
      Insert(xs[0], SortNewestFirst(xs[1..]))
  }

  /** The entries of `s` whose modification text is `k`, in order. */
  function WithKey(s: seq<BackupFile>, k: string): seq<BackupFile> {
    if s == [] then []
    else (if s[0].modified == k then [s[0]] else []) + WithKey(s[1..], k)
  }

  /** `list_backup_files()`: the sorted entries, or `[]` when the directory or a stat fails. */
  function Listing(dir: string, dirExists: bool, names: seq<string>, files: map<string, FileData>): seq<BackupFile>
    requires TimesValid(files)
  {
    if !dirExists then []
    else
      match Collect(dir, names, files)
      case None => []
      case Some(entries) => SortNewestFirst(entries)
  }

  lemma {:induction false} StrLtIrreflexive(a: string)
    ensures !StrLt(a, a)
  {
    if a != [] {
      StrLtIrreflexive(a[1..]);
    }
  }

  lemma {:induction false} StrLtAsymmetric(a: string, b: string)
    requires StrLt(a, b)
    ensures !StrLt(b, a)
  {
    if a != [] && b != [] && a[0] == b[0] {
      StrLtAsymmetric(a[1..], b[1..]);
    }
  }

  lemma {:induction false} StrLtTransitive(a: string, b: string, c: string)
    requires StrLt(a, b) && StrLt(b, c)
    ensures StrLt(a, c)
  {
    if a != [] && a[0] == b[0] && b[0] == c[0] {
      StrLtTransitive(a[1..], b[1..], c[1..]);
    }
  }

  lemma {:induction false} StrLtTotal(a: string, b: string)
    requires a != b
    ensures StrLt(a, b) || StrLt(b, a)
  {
    if a != [] && b != [] && a[0] == b[0] {
      assert a == [a[0]] + a[1..] && b == [b[0]] + b[1..];
      StrLtTotal(a[1..], b[1..]);
    }
  }

  /** "Not newer than" is transitive. */
  lemma NotNewerTransitive(a: string, b: string, c: string)
    requires !StrLt(a, b) && !StrLt(b, c)
    ensures !StrLt(a, c)
  {
    if StrLt(a, c) {
      if a == b {
      } else if b == c {
      } else {
        StrLtTotal(a, b);
        StrLtTotal(b, c);
        StrLtTransitive(b, a, c);
        StrLtAsymmetric(b, c);
      }
    }
  }

  /** An entry not newer than none of a sorted list may go in front of it. */
  lemma PrependSorted(h: BackupFile, rest: seq<BackupFile>)
    requires NewestFirst(rest)
    requires forall j :: 0 <= j < |rest| ==> !StrLt(h.modified, rest[j].modified)
    ensures NewestFirst([h] + rest)
  {
    var r := [h] + rest;
    forall i, j | 0 <= i < j < |r| ensures !StrLt(r[i].modified, r[j].modified) {
      if i == 0 {
        assert r[j] == rest[j - 1];
      } else {
        assert r[i] == rest[i - 1] && r[j] == rest[j - 1];
      }
    }
  }

  lemma {:induction false} InsertSorted(x: BackupFile, s: seq<BackupFile>)
    requires NewestFirst(s)
    ensures NewestFirst(Insert(x, s))
  {
    if s == [] || !StrLt(x.modified, s[0].modified) {
      forall j | 0 <= j < |s| ensures !StrLt(x.modified, s[j].modified) {
        if j > 0 {
          NotNewerTransitive(x.modified, s[0].modified, s[j].modified);
        }
      }
      PrependSorted(x, s);
    } else {
      var rest := Insert(x, s[1..]);
      InsertSorted(x, s[1..]);
      StrLtAsymmetric(x.modified, s[0].modified);
      forall j | 0 <= j < |rest| ensures !StrLt(s[0].modified, rest[j].modified) {
        var y := rest[j];
        assert y in multiset(rest);
        if y != x {
          assert y in multiset(s[1..]);
          var m :| 0 <= m < |s[1..]| && s[1..][m] == y;
          assert s[m + 1] == y;
        }
      }
      PrependSorted(s[0], rest);
    }
  }

  /** The sorted catalog lists newest modification first. */
  lemma {:induction false} SortNewestFirstSorted(xs: seq<BackupFile>)
    ensures NewestFirst(SortNewestFirst(xs))
  {
    if xs != [] {
      SortNewestFirstSorted(xs[1..]);
      InsertSorted(xs[0], SortNewestFirst(xs[1..]));
    }
  }

  lemma WithKeyCons(h: BackupFile, r: seq<BackupFile>, k: string)
    ensures WithKey([h] + r, k) == (if h.modified == k then [h] else []) + WithKey(r, k)
  {
    assert ([h] + r)[1..] == r;
  }

  lemma NewestFirstTail(s: seq<BackupFile>)
    requires NewestFirst(s) && s != []
    ensures NewestFirst(s[1..])
  {
    forall i, j | 0 <= i < j < |s| - 1 ensures !StrLt(s[1..][i].modified, s[1..][j].modified) {
      assert s[1..][i] == s[i + 1] && s[1..][j] == s[j + 1];
    }
  }

  lemma {:induction false} InsertStable(x: BackupFile, s: seq<BackupFile>, k: string)
    requires NewestFirst(s)
    ensures WithKey(Insert(x, s), k) == (if x.modified == k then [x] else []) + WithKey(s, k)
  {
    if s == [] || !StrLt(x.modified, s[0].modified) {
      WithKeyCons(x, s, k);
    } else {
      NewestFirstTail(s);
      InsertStable(x, s[1..], k);
      if x.modified == k && s[0].modified == k {
        StrLtIrreflexive(k);
      }
      assert s == [s[0]] + s[1..];
      PastHead(s[0], x, Insert(x, s[1..]), s[1..], k);
    }
  }

  /** Entries with different keys can trade places without changing what each key selects. */
  lemma PastHead(h: BackupFile, x: BackupFile, rest: seq<BackupFile>, tail: seq<BackupFile>, k: string)
    requires !(x.modified == k && h.modified == k)
    requires WithKey(rest, k) == (if x.modified == k then [x] else []) + WithKey(tail, k)
    ensures WithKey([h] + rest, k) == (if x.modified == k then [x] else []) + WithKey([h] + tail, k)
  {
    WithKeyCons(h, rest, k);
    WithKeyCons(h, tail, k);
  }




  /**
   * The sort is stable: entries with the same modification text keep the
   * order the directory listing gave them.
   */
  lemma {:induction false} SortNewestFirstStable(xs: seq<BackupFile>, k: string)
    ensures WithKey(SortNewestFirst(xs), k) == WithKey(xs, k)
  {
    if xs != [] {
      SortNewestFirstStable(xs[1..], k);
      SortNewestFirstSorted(xs[1..]);
      InsertStable(xs[0], SortNewestFirst(xs[1..]), k);
    }
  }

  /**
   * A failed stat stops the loop: then the whole listing is `[]`. A
   * successful loop has one entry per `.json` name, each under its full
   * path; other names are left out.
   */
  lemma {:induction false} CollectExact(dir: string, names: seq<string>, files: map<string, FileData>)
    requires TimesValid(files)
    ensures Collect(dir, names, files).Some? <==>
      forall i :: 0 <= i < |names| && EndsWith(names[i], ".json") ==> JoinPath(dir, names[i]) in files
    ensures Collect(dir, names, files).Some? ==>
      var entries := Collect(dir, names, files).value;
      && (forall e :: e in entries ==> EndsWith(e.filename, ".json") && e.filepath == JoinPath(dir, e.filename))
      && (forall i :: 0 <= i < |names| && EndsWith(names[i], ".json") ==>
            exists e :: e in entries && e.filename == names[i])
  {
    CollectSucceeds(dir, names, files);
    if Collect(dir, names, files).Some? {
      CollectEntries(dir, names, files);
    }
  }

  /** The loop gets through exactly when every `.json` name has a file. */
  lemma {:induction false} CollectSucceeds(dir: string, names: seq<string>, files: map<string, FileData>)
    requires TimesValid(files)
    ensures Collect(dir, names, files).Some? <==>
      forall i :: 0 <= i < |names| && EndsWith(names[i], ".json") ==> JoinPath(dir, names[i]) in files
  {
    if names != [] {
      var init := names[..|names| - 1];
      CollectSucceeds(dir, init, files);
      assert forall i :: 0 <= i < |init| ==> init[i] == names[i];
    }
  }

  /** A loop that got through has an entry, under its full path, for each `.json` name and for no other. */
  lemma {:induction false} CollectEntries(dir: string, names: seq<string>, files: map<string, FileData>)
    requires TimesValid(files) && Collect(dir, names, files).Some?
    ensures var entries := Collect(dir, names, files).value;
      && (forall e :: e in entries ==> EndsWith(e.filename, ".json") && e.filepath == JoinPath(dir, e.filename))
      && (forall i :: 0 <= i < |names| && EndsWith(names[i], ".json") ==>
            exists e :: e in entries && e.filename == names[i])
  {
    if names != [] {
      var init := names[..|names| - 1];
      var prev := Collect(dir, init, files).value;
      CollectEntries(dir, init, files);
      var entries := Collect(dir, names, files).value;
      var name := names[|names| - 1];
      forall i | 0 <= i < |names| && EndsWith(names[i], ".json") ensures exists e :: e in entries && e.filename == names[i] {
        if i < |init| {
          assert init[i] == names[i];
          var e :| e in prev && e.filename == names[i];
          assert e in entries;
        } else {
          assert entries[|entries| - 1].filename == name;
        }
      }
    }
  }


  /**
   * What the catalog promises: newest modification first, only `.json`
   * files of the directory, each under its full path, and (unless a stat
   * failed) every `.json` file of the listing.
   */
  lemma ListingProperties(dir: string, dirExists: bool, names: seq<string>, files: map<string, FileData>)
    requires TimesValid(files)
    ensures NewestFirst(Listing(dir, dirExists, names, files))
    ensures forall e :: e in Listing(dir, dirExists, names, files) ==>
      EndsWith(e.filename, ".json") && e.filepath == JoinPath(dir, e.filename) && e.filename in names
    ensures dirExists && (forall i :: 0 <= i < |names| && EndsWith(names[i], ".json") ==> JoinPath(dir, names[i]) in files) ==>
      forall i :: 0 <= i < |names| && EndsWith(names[i], ".json") ==>
        exists e :: e in Listing(dir, dirExists, names, files) && e.filename == names[i]
  {
    CollectExact(dir, names, files);
    CollectNames(dir, names, files);
    var c := Collect(dir, names, files);
    if dirExists && c.Some? {
      SortNewestFirstSorted(c.value);
      forall e | e in SortNewestFirst(c.value) ensures e in c.value {
        assert e in multiset(SortNewestFirst(c.value));
      }
      forall e | e in c.value ensures e in SortNewestFirst(c.value) {
        assert e in multiset(c.value);
      }
    }
  }

  /** Every collected entry names a file of the listing. */
  lemma {:induction false} CollectNames(dir: string, names: seq<string>, files: map<string, FileData>)
    requires TimesValid(files)
    ensures Collect(dir, names, files).Some? ==>
      forall e :: e in Collect(dir, names, files).value ==> e.filename in names
  {
    if names != [] {
      var init := names[..|names| - 1];
      CollectNames(dir, init, files);
      assert forall n :: n in init ==> n in names;
    }
  }

  /** Once a stat has failed on a prefix of the names, the whole loop has failed. */
  lemma {:induction false} CollectNoneSticky(dir: string, names: seq<string>, files: map<string, FileData>, k: nat)
    requires TimesValid(files)
    requires k <= |names| && Collect(dir, names[..k], files).None?
    ensures Collect(dir, names, files).None?
    decreases |names| - k
  {
    if k < |names| {
      var init := names[..|names| - 1];
      assert init[..k] == names[..k];
      CollectNoneSticky(dir, init, files, k);
    } else {
      assert names[..k] == names;
    }
  }
}
