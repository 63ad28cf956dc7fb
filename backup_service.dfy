/**
 * The backup service: full and "latest" JSON exports of the record store,
 * committing a backup file to git, the export-then-commit job, restoring
 * from a backup file, and the catalog of backup files.
 */
module BackupServiceModel {
  import opened Wrappers
  import opened Json
  import opened DateTimes
  import opened CobrancaModel
  import opened RecordStore
  import opened Snapshot
  import opened FileSystem
  import opened Restore
  import opened Catalog
  import opened Git

  /** Why an export failed (the source re-raises each with its own message prefix). */
  datatype ExportError =
    | DateOverflow   // `utcnow() - timedelta(hours=24)` falls before year 1
    | QueryFailed    // the database query raised
    | WriteFailed    // opening or writing the file raised

  /**
   * The readings one export takes from its environment: the UTC clock for
   * the cutoff and for `export_date`, the local clock for the file name,
   * the file's modification time, the size of the text written, and
   * whether the query, the `open` and the `json.dump` succeed.
   */
  datatype ExportEnv = ExportEnv(
    queryUtc: DateTime, stampUtc: DateTime, localNow: DateTime, fileTime: DateTime,
    size: nat, queryOk: bool, openOk: bool, dumpOk: bool)

  predicate EnvValid(env: ExportEnv) {
    Valid(env.queryUtc) && Valid(env.stampUtc) && Valid(env.localNow) && Valid(env.fileTime)
  }

  /** The path an export returns, or why it raised, for `latest` or the full export. */
  function ExportPath(latest: bool, dir: string, dirExists: bool, env: ExportEnv): (r: Result<string, ExportError>)
    requires EnvValid(env)
    ensures r.Ok? <==> (latest ==> MinusDay(env.queryUtc).Some?) && env.queryOk && dirExists && env.openOk && env.dumpOk
    ensures r.Ok? ==> r.value == JoinPath(dir, if latest then LatestFileName else FullBackupName(env.localNow))
    ensures Opens(latest, dirExists, env) && !env.dumpOk ==> r == Err(WriteFailed)
  {
    if latest && MinusDay(env.queryUtc).None? then Err(DateOverflow)
    else if !env.queryOk then Err(QueryFailed)
    else if !(dirExists && env.openOk && env.dumpOk) then Err(WriteFailed)
    else Ok(JoinPath(dir, if latest then LatestFileName else FullBackupName(env.localNow)))
  }

  /**
   * Whether an export gets as far as opening, and so truncating, its file:
   * the cutoff is representable, the query succeeds and the open does.
   */
  predicate Opens(latest: bool, dirExists: bool, env: ExportEnv)
    requires EnvValid(env)
  {
    (latest ==> MinusDay(env.queryUtc).Some?) && env.queryOk && dirExists && env.openOk
  }

  /** Why committing to git failed. */
  datatype GitError = NotARepository | GitFailed(command: string)

  const NotARepositoryMessage := "Não é um repositório Git. Execute git init primeiro."
  const CommittedMessage := "Backup commitado com sucesso"

  /** The message `commit_to_git` uses: the given one unless it is empty or absent. */
  function CommitMessageFor(message: Option<string>, clock: DateTime): (m: string)
    requires Valid(clock)
    ensures message.Some? && message.value != "" ==> m == message.value
    ensures message.None? || message.value == "" ==> m == "Backup automático de cobranças - " + ReadableStamp(clock)
  {
    if message.Some? && message.value != "" then message.value
    else "Backup automático de cobranças - " + ReadableStamp(clock)
  }

  /** The outcome of `commit_to_git`: the commit message on success. */
  function GitOutcome(present: bool, message: Option<string>, clock: DateTime, addOk: bool, commitOk: bool): (r: Result<string, GitError>)
    requires Valid(clock)
    ensures r.Ok? <==> present && addOk && commitOk
    ensures r.Ok? ==> r.value == CommitMessageFor(message, clock)
    ensures !present ==> r == Err(NotARepository)
  {
    if !present then Err(NotARepository)
    else if !addOk then Err(GitFailed("add"))
    else if !commitOk then Err(GitFailed("commit"))
    else Ok(CommitMessageFor(message, clock))
  }

  /** `backup_and_commit`'s result: the file and the git outcome, or the export's failure. */
  datatype BackupOutcome =
    | BackupDone(backupFile: string, gitResult: Result<string, GitError>, backupType: string)
    | BackupFailed(error: ExportError)

  /** The commit message of the export-then-commit job. */
  function BackupMessage(backupType: string, clock: DateTime): string
    requires Valid(clock)
  {
    (if backupType == "latest" then "Backup incremental - " else "Backup completo - ") + ReadableStamp(clock)
  }

  /**
   * One new record of a restore: the `Cobranca(...)` object, then
   * `set_dados_mercadopago` on it when the entry's value is truthy.
   */
  method BuildRecord(fields: map<string, Json>, ref: string) returns (c: Result<Cobranca, RestoreError>)
    ensures c == NewRecord(fields, ref)
  {
    var made := Constructed(fields, ref);
    if made.Err? {
      return Err(made.error);
    }
    var record := new Entity(made.value);
    var dados := GetOrNull(fields, "dados_mercadopago");
    if Truthy(dados) {
      record.SetDadosMercadopago(dados);
    }
    c := Ok(record.row);
  }

  /**
   * One iteration of the loop of `restore_from_json`, with `st` the loop's
   * counters and the session's pending rows: an entry whose reference the
   * session already finds is skipped, any other is built and staged.
   */
  method StageEntry(store: Store, ghost existing: set<string>, st: MergeState, entry: Json)
    returns (next: Result<MergeState, RestoreError>)
    requires store.records.Keys == existing && store.staged == st.staged
    modifies store
    ensures next == Step(existing, st, entry)
    ensures store.records == old(store.records) && store.order == old(store.order) && store.nextId == old(store.nextId)
    ensures next.Ok? ==> store.staged == next.value.staged
  {
    var ref := EntryRef(entry);
    if ref.Err? {
      return Err(ref.error);
    }
    if store.Find(ref.value).Some? {
      StepSkips(existing, st, entry, ref.value);
      next := Ok(st.(skipped := st.skipped + 1));
    } else {
      StepStages(existing, st, entry, ref.value);
      var c := BuildRecord(entry.fields, ref.value);
      if c.Err? {
        return Err(c.error);
      }
      store.Add(c.value);
      next := Ok(MergeState(st.staged + [c.value], st.restored + 1, st.skipped));
    }
  }

  /**
   * The loop of `restore_from_json`: stages every new entry and counts the
   * skipped ones; it stops at the first entry that raises, leaving what it
   * staged for the caller to roll back.
   */
  method StageEntries(store: Store, es: seq<Json>) returns (m: Result<MergeState, RestoreError>)
    requires store.staged == []
    modifies store
    ensures m == Merge(old(store.records.Keys), es)
    ensures store.records == old(store.records) && store.order == old(store.order) && store.nextId == old(store.nextId)
    ensures m.Ok? ==> store.staged == m.value.staged
  {
    ghost var existing := store.records.Keys;
    var st := MergeState([], 0, 0);
    for i := 0 to |es|
      invariant store.records == old(store.records) && store.order == old(store.order) && store.nextId == old(store.nextId)
      invariant store.staged == st.staged
      invariant Merge(existing, es[..i]) == Ok(st)
    {
      MergeExtend(existing, es, i, st);
      var next := StageEntry(store, existing, st, es[i]);
      if next.Err? {
        MergeErrSticky(existing, es, i + 1);
        return Err(next.error);
      }
      st := next.value;
    }
    assert es[..|es|] == es;
    m := Ok(st);
  }

  /** The loop turning queried records into their `to_dict()` objects. */
  method CollectDicts(rows: seq<Cobranca>) returns (data: seq<Json>)
    requires forall i :: 0 <= i < |rows| ==> DatesValid(rows[i])
    ensures data == DictRows(rows)
  {
    data := [];
    for i := 0 to |rows|
      invariant |data| == i
      invariant forall k :: 0 <= k < i ==> data[k] == JObj(ToDict(rows[k]))
    {
      data := data + [JObj(ToDict(rows[i]))];
    }
  }

  class BackupService {
    const store: Store
    const disk: Disk
    const repo: GitRepo

    /** The store is consistent with no pending rows, and every stat time on disk is representable. */
    ghost predicate Valid()
      reads this, store, disk
    {
      store.Valid() && store.staged == [] && TimesValid(disk.files)
    }

    /** `__init__`: takes the backup directory and makes sure it exists. */
    constructor(store: Store, disk: Disk, repo: GitRepo)
      modifies disk
      ensures this.store == store && this.disk == disk && this.repo == repo
      ensures disk.dirExists && disk.files == old(disk.files)
      ensures old(disk.dirExists) ==> disk.listing == old(disk.listing)
    {
      this.store := store;
      this.disk := disk;
      this.repo := repo;
      new;
      disk.EnsureDirectory();
    }

    /** `export_cobrancas_to_json`: every record, in query order, to a time-stamped file. */
    method ExportFull(env: ExportEnv) returns (r: Result<string, ExportError>)
      requires Valid() && EnvValid(env)
      modifies disk
      ensures Valid()
      ensures r == ExportPath(false, disk.dir, old(disk.dirExists), env)
      ensures Opens(false, old(disk.dirExists), env) ==>
        && disk.files == old(disk.files)[JoinPath(disk.dir, FullBackupName(env.localNow)) :=
             FileData(if env.dumpOk then JsonText(FullDocument(DictRows(store.Rows()), env.stampUtc)) else Garbled,
                      env.size, env.fileTime, env.fileTime)]
        && disk.listing == Listed(old(disk.listing), FullBackupName(env.localNow))
      ensures !Opens(false, old(disk.dirExists), env) ==> disk.files == old(disk.files) && disk.listing == old(disk.listing)
    {
      if !env.queryOk {
        return Err(QueryFailed);
      }
      var rows := store.Rows();
      var data := CollectDicts(rows);
      var doc := FullDocument(data, env.stampUtc);
      var name := FullBackupName(env.localNow);
      var ok := disk.WriteJson(name, doc, env.size, env.fileTime, env.openOk, env.dumpOk);
      if !ok {
        return Err(WriteFailed);
      }
      r := Ok(JoinPath(disk.dir, name));
    }

    /** `export_latest_cobrancas`: the records updated in the last 24 hours, to `cobrancas_latest.json`. */
    method ExportLatest(env: ExportEnv) returns (r: Result<string, ExportError>)
      requires Valid() && EnvValid(env)
      modifies disk
      ensures Valid()
      ensures r == ExportPath(true, disk.dir, old(disk.dirExists), env)
      ensures Opens(true, old(disk.dirExists), env) ==>
        && disk.files == old(disk.files)[JoinPath(disk.dir, LatestFileName) :=
             FileData(if env.dumpOk then JsonText(LatestDocument(DictRows(store.UpdatedSince(MinusDay(env.queryUtc).value)), env.stampUtc))
                      else Garbled, env.size, env.fileTime, env.fileTime)]
        && disk.listing == Listed(old(disk.listing), LatestFileName)
      ensures !Opens(true, old(disk.dirExists), env) ==> disk.files == old(disk.files) && disk.listing == old(disk.listing)
    {
      var cutoff := MinusDay(env.queryUtc);
      if cutoff.None? {
        return Err(DateOverflow);
      }
      if !env.queryOk {
        return Err(QueryFailed);
      }
      var rows := store.UpdatedSince(cutoff.value);
      var data := CollectDicts(rows);
      var doc := LatestDocument(data, env.stampUtc);
      var ok := disk.WriteJson(LatestFileName, doc, env.size, env.fileTime, env.openOk, env.dumpOk);
      if !ok {
        return Err(WriteFailed);
      }
      r := Ok(JoinPath(disk.dir, LatestFileName));
    }

    /** `commit_to_git`: stage the file and commit it, with a default message when none is given. */
    method CommitToGit(filepath: string, message: Option<string>, clock: DateTime, addOk: bool, commitOk: bool)
      returns (r: Result<string, GitError>)
      requires DateTimes.Valid(clock)
      modifies repo
      ensures r == GitOutcome(old(repo.present), message, clock, addOk, commitOk)
      ensures repo.present == old(repo.present)
      ensures r.Ok? ==> repo.history == old(repo.history) + [CommitEntry(r.value, old(repo.index) + {filepath})] && repo.index == {}
      ensures r.Err? ==> repo.history == old(repo.history)
      ensures r.Err? && (!old(repo.present) || !addOk) ==> repo.index == old(repo.index)
      ensures r.Err? && old(repo.present) && addOk ==> repo.index == old(repo.index) + {filepath}
    {
      if !repo.present {
        return Err(NotARepository);
      }
      var added := repo.Add(filepath, addOk);
      if !added {
        return Err(GitFailed("add"));
      }
      var msg := CommitMessageFor(message, clock);
      var committed := repo.Commit(msg, commitOk);
      if !committed {
        return Err(GitFailed("commit"));
      }
      r := Ok(msg);
    }

    /**
     * `backup_and_commit`: `"latest"` runs the incremental export, anything
     * else the full one; the file is then committed. The job succeeds
     * exactly when the export does, whatever git reports.
     */
    method BackupAndCommit(backupType: string, env: ExportEnv, clock: DateTime, addOk: bool, commitOk: bool)
      returns (r: BackupOutcome)
      requires Valid() && EnvValid(env) && DateTimes.Valid(clock)
      modifies disk, repo
      ensures Valid()
      ensures var outcome := ExportPath(backupType == "latest", disk.dir, old(disk.dirExists), env);
        && (r.BackupDone? <==> outcome.Ok?)
        && (r.BackupFailed? ==> r.error == outcome.error)
        && (r.BackupDone? ==> r.backupFile == outcome.value && r.backupType == backupType)
      ensures r.BackupDone? ==>
        r.gitResult == GitOutcome(old(repo.present), Some(BackupMessage(backupType, clock)), clock, addOk, commitOk)
      ensures backupType == "latest" && Opens(true, old(disk.dirExists), env) ==>
        && disk.files == old(disk.files)[JoinPath(disk.dir, LatestFileName) :=
             FileData(if env.dumpOk then JsonText(LatestDocument(DictRows(store.UpdatedSince(MinusDay(env.queryUtc).value)), env.stampUtc))
                      else Garbled, env.size, env.fileTime, env.fileTime)]
        && disk.listing == Listed(old(disk.listing), LatestFileName)
      ensures backupType != "latest" && Opens(false, old(disk.dirExists), env) ==>
        && disk.files == old(disk.files)[JoinPath(disk.dir, FullBackupName(env.localNow)) :=
             FileData(if env.dumpOk then JsonText(FullDocument(DictRows(store.Rows()), env.stampUtc)) else Garbled,
                      env.size, env.fileTime, env.fileTime)]
        && disk.listing == Listed(old(disk.listing), FullBackupName(env.localNow))
      ensures !Opens(backupType == "latest", old(disk.dirExists), env) ==>
        disk.files == old(disk.files) && disk.listing == old(disk.listing)
      ensures repo.present == old(repo.present)
      ensures r.BackupFailed? ==> repo.history == old(repo.history) && repo.index == old(repo.index)
      ensures r.BackupDone? && r.gitResult.Ok? ==>
        repo.history == old(repo.history) + [CommitEntry(r.gitResult.value, old(repo.index) + {r.backupFile})] && repo.index == {}
      ensures r.BackupDone? && r.gitResult.Err? ==> repo.history == old(repo.history)
      ensures r.BackupDone? && r.gitResult.Err? ==>
        repo.index == if old(repo.present) && addOk then old(repo.index) + {r.backupFile} else old(repo.index)
    {
      var exported;
      if backupType == "latest" {
        exported := ExportLatest(env);
      } else {
        exported := ExportFull(env);
      }
      if exported.Err? {
        return BackupFailed(exported.error);
      }
      var msg := BackupMessage(backupType, clock);
      var git := CommitToGit(exported.value, Some(msg), clock, addOk, commitOk);
      r := BackupDone(exported.value, git, backupType);
    }

    /**
     * `restore_from_json`: walk the file's entries, skipping known
     * references and staging new records, then commit; every failure
     * rolls the session back, so the table is restored entirely or not at all.
     */
    method RestoreFromJson(filepath: string, now: DateTime, dbOk: bool) returns (r: Result<Counts, RestoreError>)
      requires Valid() && DateTimes.Valid(now)
      modifies store
      ensures Valid()
      ensures var run := RestoreOutcome(Table(old(store.records), old(store.order), old(store.nextId)),
                                        disk.Read(filepath), now, dbOk);
        && r == run.result
        && store.records == run.table.records && store.order == run.table.order && store.nextId == run.table.nextId
    {
      var content := disk.Read(filepath);
      if content.None? {
        store.Rollback();
        return Err(FileMissing);
      }
      if content.value.Garbled? {
        store.Rollback();
        return Err(NotJson);
      }
      var data := CobrancasOf(content.value.doc);
      if data.Err? {
        if data.error != InvalidStructure {
          store.Rollback();
        }
        return Err(data.error);
      }
      var entries := EntriesOf(data.value);
      if entries.Err? {
        store.Rollback();
        return Err(entries.error);
      }
      var es := entries.value;
      var staging := StageEntries(store, es);
      if staging.Err? {
        store.Rollback();
        return Err(staging.error);
      }
      MergeFresh(old(store.records.Keys), es);
      var ok := store.Commit(now, dbOk);
      if !ok {
        store.Rollback();
        return Err(CommitFailed);
      }
      r := Ok(Counts(staging.value.restored, staging.value.skipped, |es|));
    }

    /** `list_backup_files`: the `.json` files of the backup directory, newest modification first. */
    method ListBackupFiles() returns (files: seq<BackupFile>)
      requires Valid()
      ensures files == Listing(disk.dir, disk.dirExists, disk.listing, disk.files)
    {
      if !disk.dirExists {
        return [];
      }
      var names := disk.listing;
      var collected: seq<BackupFile> := [];
      for i := 0 to |names|
        invariant Collect(disk.dir, names[..i], disk.files) == Some(collected)
      {
        assert names[..i + 1][..i] == names[..i];
        var name := names[i];
        if EndsWith(name, ".json") {
          var path := JoinPath(disk.dir, name);
          if path !in disk.files {
            CollectNoneSticky(disk.dir, names, disk.files, i + 1);
            return [];
          }
          collected := collected + [EntryFor(disk.dir, name, disk.files[path])];
        }
      }
      assert names[..|names|] == names;
      files := SortNewestFirst(collected);
    }
  }
}
