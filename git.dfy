/**
 * The git working copy the backups are committed to. `git add` and `git
 * commit` run as subprocesses whose exit status the model takes as
 * parameters.
 */
module Git {
  import opened Wrappers

  /** One commit: its message and the paths it recorded. */
  datatype CommitEntry = CommitEntry(message: string, paths: set<string>)

  class GitRepo {
    /** Whether `.git` exists in the working directory. */
    var present: bool
    /** Paths staged by `git add` and not yet committed. */
    var index: set<string>
    /** The commits made so far, oldest first. */
    var history: seq<CommitEntry>

    constructor(present: bool)
      ensures this.present == present && index == {} && history == []
    {
      this.present := present;
      index := {};
      history := [];
    }

    /** `git add path`; `ok` is whether the command exits with status 0. */
    method Add(path: string, ok: bool) returns (success: bool)
      modifies this
      ensures success == ok
      ensures success ==> index == old(index) + {path}
      ensures !success ==> index == old(index)
      ensures history == old(history) && present == old(present)
    {
      success := ok;
      if ok {
        index := index + {path};
      }
    }

    /** `git commit -m message`: records the staged paths under `message`. */
    method Commit(message: string, ok: bool) returns (success: bool)
      modifies this
      ensures success == ok
      ensures success ==> history == old(history) + [CommitEntry(message, old(index))] && index == {}
      ensures !success ==> history == old(history) && index == old(index)
      ensures present == old(present)
    {
      success := ok;
      if ok {
        history := history + [CommitEntry(message, index)];
        index := {};
      }
    }
  }
}
