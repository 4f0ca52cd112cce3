/** The `logs:clean-old` command: it deletes the log files of the logs
    directory that carry the configured extension and were last modified
    strictly before `now - days`, and reports how many it tried to delete. */
module OldLogs {
  import opened Text

  const SecondsPerDay := 86400
  const DefaultDays := "30"
  const DefaultExtension := ".gz"

  /** The glob of `<logsPath>` for `*<extension>`, on one path: a name directly inside
      the directory, not starting with a dot, ending with the extension. */
  predicate IsCandidate(logsPath: string, extension: string, path: string) {
    var dir := logsPath + "/";
    StartsWith(path, dir)
    && (var name := path[|dir|..];
        name != [] && name[0] != '.' && '/' !in name && EndsWith(name, extension))
  }

  /** The time before which a file counts as old, in seconds:
      `Carbon::now()->subDays($days)`, with every day 86400 seconds long. */
  function Cutoff(now: int, days: int): int {
    now - days * SecondsPerDay
  }

  /** The candidates modified strictly before the cutoff. */
  function Expired(files: map<string, int>, logsPath: string, extension: string, cutoff: int): (r: set<string>)
    ensures r <= files.Keys
    ensures forall p :: p in r <==> p in files && IsCandidate(logsPath, extension, p) && files[p] < cutoff
  {
    set p | p in files && IsCandidate(logsPath, extension, p) && files[p] < cutoff
  }

  /** The candidates, whatever their age. */
  function Candidates(files: map<string, int>, logsPath: string, extension: string): (r: set<string>)
    ensures r <= files.Keys
    ensures forall p :: p in r <==> p in files && IsCandidate(logsPath, extension, p)
  {
    set p | p in files && IsCandidate(logsPath, extension, p)
  }

  /** What a run prints with `info` or `error`, in order; the per-file
      "Deleted: …" lines are not part of it. */
  datatype Outcome = Outcome(exitCode: int, deletedCount: nat, messages: seq<string>)

  function CleaningMessage(days: int, logsPath: string): string {
    "Cleaning .gz log files older than " + IntToString(days) + " days from " + logsPath
  }

  function MissingDirectoryMessage(logsPath: string): string {
    "Logs directory does not exist: " + logsPath
  }

  function NoFilesMessage(extension: string, logsPath: string): string {
    "No " + extension + " log files found in " + logsPath
  }

  function DeletedMessage(count: nat): string {
    "Deleted " + IntToString(count) + " old .gz log files"
  }

  /** The filesystem as the command sees it: the modification time of each
      file, the directories that exist, and the files whose `unlink` fails. */
  class LogStore {
    var files: map<string, int>
    var directories: set<string>
    const undeletable: set<string>

    constructor(files: map<string, int>, directories: set<string>, undeletable: set<string>)
      ensures this.files == files && this.directories == directories
      ensures this.undeletable == undeletable
    {
      this.files := files;
      this.directories := directories;
      this.undeletable := undeletable;
    }

    /** `Filesystem::delete`: a file whose `unlink` fails stays, and the
        `false` it then returns is not an exception. */
    method Delete(path: string) returns (success: bool)
      modifies this
      ensures success <==> path !in undeletable
      ensures files == old(files) - ({path} - undeletable) && directories == old(directories)
    {
      success := path !in undeletable;
      if success {
        files := files - {path};
      }
    }

    /** The loop over the candidates: each one modified before the cutoff is
        deleted and counted, whether or not the delete succeeded. */
    method DeleteOlderThan(candidates: set<string>, cutoff: int) returns (count: nat)
      requires candidates <= files.Keys
      modifies this
      ensures files == old(files) - (OlderThan(old(files), candidates, cutoff) - undeletable)
      ensures count == |OlderThan(old(files), candidates, cutoff)|
      ensures directories == old(directories)
    {
      ghost var expired := OlderThan(files, candidates, cutoff);
      var remaining := candidates;
      ghost var deleted: set<string> := {};
      count := 0;
      while remaining != {}
        invariant remaining <= candidates
        invariant deleted == expired - remaining
        invariant files == old(files) - (deleted - undeletable)
        invariant count == |deleted|
        invariant directories == old(directories)
        decreases |remaining|
      {
        var file :| file in remaining;
        var modified := files[file];
        if modified < cutoff {
          assert file in expired;
          var _ := Delete(file);
          deleted := deleted + {file};
          count := count + 1;
        } else {
          assert file !in expired;
        }
        remaining := remaining - {file};
      }
    }
  }

  /** The files among `candidates` modified before `cutoff`. */
  function OlderThan(files: map<string, int>, candidates: set<string>, cutoff: int): (r: set<string>)
    requires candidates <= files.Keys
    ensures r <= candidates
    ensures forall p :: p in candidates && files[p] < cutoff ==> p in r
    ensures forall p :: p in r ==> files[p] < cutoff
  {
    set p | p in candidates && files[p] < cutoff
  }

  /** `CleanOldLogFilesCommand::handle`: `daysOption` is the text of
      `--days`, `now` the current time in seconds. */
  method CleanOldLogs(store: LogStore, logsPath: string, extension: string, daysOption: string, now: int)
    returns (outcome: Outcome)
    modifies store
    ensures store.directories == old(store.directories)
    ensures var days := IntCast(daysOption);
      var first := CleaningMessage(days, logsPath);
      if logsPath !in old(store.directories) then
        outcome == Outcome(1, 0, [first, MissingDirectoryMessage(logsPath)])
        && store.files == old(store.files)
      else if Candidates(old(store.files), logsPath, extension) == {} then
        outcome == Outcome(0, 0, [first, NoFilesMessage(extension, logsPath)])
        && store.files == old(store.files)
      else
        var expired := Expired(old(store.files), logsPath, extension, Cutoff(now, days));
        store.files == old(store.files) - (expired - store.undeletable)
        && outcome == Outcome(0, |expired|, [first, DeletedMessage(|expired|)])
  {
    var days := IntCast(daysOption);
    var cutoff := Cutoff(now, days);
    var first := CleaningMessage(days, logsPath);
    if logsPath !in store.directories {
      return Outcome(1, 0, [first, MissingDirectoryMessage(logsPath)]);
    }
    var candidates := Candidates(store.files, logsPath, extension);
    if candidates == {} {
      return Outcome(0, 0, [first, NoFilesMessage(extension, logsPath)]);
    }
    ghost var files := store.files;
    var count := store.DeleteOlderThan(candidates, cutoff);
    assert OlderThan(files, candidates, cutoff) == Expired(files, logsPath, extension, cutoff);
    outcome := Outcome(0, count, [first, DeletedMessage(count)]);
  }

  /** Pruning removes exactly the old candidates and leaves every other
      file, and every kept file's time, as it was. */
  lemma PruneExactly(files: map<string, int>, logsPath: string, extension: string, cutoff: int)
    ensures var kept := files - Expired(files, logsPath, extension, cutoff);
      (forall p :: p in kept <==> p in files && !(IsCandidate(logsPath, extension, p) && files[p] < cutoff))
      && (forall p :: p in kept ==> kept[p] == files[p])
  {
  }

  /** A longer retention deletes a subset of what a shorter one deletes. */
  lemma LongerRetentionDeletesLess(files: map<string, int>, logsPath: string, extension: string, now: int, shorter: int, longer: int)
    requires shorter <= longer
    ensures Expired(files, logsPath, extension, Cutoff(now, longer)) <= Expired(files, logsPath, extension, Cutoff(now, shorter))
  {
    assert Cutoff(now, longer) <= Cutoff(now, shorter) by {
      assert longer * SecondsPerDay >= shorter * SecondsPerDay;
    }
  }

  /** A file last modified exactly `age` days ago is deleted iff `age`
      exceeds the retention: 16 days old goes with `--days=15` and stays with
      the default 30. */
  lemma AgeAgainstRetention(now: int, age: int, days: int)
    ensures now - age * SecondsPerDay < Cutoff(now, days) <==> age > days
  {
    assert now - age * SecondsPerDay < now - days * SecondsPerDay <==> age * SecondsPerDay > days * SecondsPerDay;
  }

  /** A candidate last modified 16 days ago is deleted with `--days=15`
      and kept with `--days=30`. */
  lemma SixteenDaysOld(files: map<string, int>, logsPath: string, extension: string, path: string, now: int)
    requires path in files && IsCandidate(logsPath, extension, path)
    requires files[path] == now - 16 * SecondsPerDay
    ensures path in Expired(files, logsPath, extension, Cutoff(now, 15))
    ensures path !in Expired(files, logsPath, extension, Cutoff(now, 30))
  {
    AgeAgainstRetention(now, 16, 15);
    AgeAgainstRetention(now, 16, 30);
  }

  /** The default `--days=30` is read as 30. */
  lemma DefaultRetention(option: string)
    requires option == DefaultDays
    ensures IntCast(option) == 30
  {
    assert option == [DigitChar(3), DigitChar(0)];
    TwoDigitCast(option, 3, 0);
  }

  /** Two decimal digits cast to the number they spell. */
  lemma TwoDigitCast(s: string, tens: nat, units: nat)
    requires tens < 10 && units < 10 && s == [DigitChar(tens), DigitChar(units)]
    ensures IntCast(s) == 10 * tens + units
  {
    var a, b := DigitChar(tens), DigitChar(units);
    assert IsDigit(a) && IsDigit(b);
    assert IsDigits(s) by {
      assert s == [a, b];
    }
    IntCastOfDigits(s);
    TwoDigitsValue(a, b);
    assert DigitValue(a) == tens && DigitValue(b) == units;
  }
}
