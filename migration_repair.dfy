/** The `migration:repair` command: every file of the migrations folder
    whose name has no row in the `migrations` table gets one, in a new batch
    one past the latest batch read before the run. */
module MigrationRepair {
  import opened Text

  /** A row of the `migrations` table. */
  datatype Row = Row(migration: string, batch: int)

  /** How a run ends: with an exit code; with the `ErrorException` Laravel's
      error handler makes of the warning `scandir` raises on a missing
      migrations folder; or with the TypeError raised when
      `getLatestMigrationBatch`, declared to return an object, gets the null
      that `first()` returns on an empty table. */
  datatype Outcome = ExitCode(code: int) | ScandirFailed | TypeError

  const PhpSuffix := ".php"

  /** `basename($filename, '.php')` on a bare file name: the suffix is cut
      unless it is the whole name. */
  function MigrationName(filename: string): (name: string)
    ensures EndsWith(filename, PhpSuffix) && filename != PhpSuffix ==> name + PhpSuffix == filename
    ensures !EndsWith(filename, PhpSuffix) || filename == PhpSuffix ==> name == filename
  {
    if EndsWith(filename, PhpSuffix) && filename != PhpSuffix then filename[..|filename| - |PhpSuffix|] else filename
  }

  /** A migration file name gives back the name it was made from. */
  lemma MigrationNameOfFile(name: string)
    requires name != []
    ensures MigrationName(name + PhpSuffix) == name
  {
    assert (name + PhpSuffix)[|name|..] == PhpSuffix;
    assert (name + PhpSuffix)[..|name|] == name;
  }

  /** The entries `scandir` lists that are not files: `.` and `..`. */
  predicate IsDirectoryEntry(filename: string) {
    filename == "." || filename == ".."
  }

  predicate HasRow(rows: seq<Row>, name: string) {
    exists i :: 0 <= i < |rows| && rows[i].migration == name
  }

  /** The largest batch in the table, none for an empty table. */
  function MaxBatch(rows: seq<Row>): (r: Option<int>)
    ensures r.None? <==> rows == []
  {
    if rows == [] then None
    else
      var last := rows[|rows| - 1].batch;
      match MaxBatch(rows[..|rows| - 1])
      case None => Some(last)
      case Some(m) => Some(if m < last then last else m)
  }

  /** MaxBatch is the batch of some row and no row has a later one. */
  lemma {:induction false} MaxBatchIsMaximum(rows: seq<Row>)
    requires rows != []
    ensures forall i :: 0 <= i < |rows| ==> rows[i].batch <= MaxBatch(rows).value
    ensures exists i :: 0 <= i < |rows| && rows[i].batch == MaxBatch(rows).value
  {
    var init := rows[..|rows| - 1];
    if init != [] {
      MaxBatchIsMaximum(init);
      var i :| 0 <= i < |init| && init[i].batch == MaxBatch(init).value;
      assert rows[i] == init[i];
      assert forall j :: 0 <= j < |init| ==> rows[j] == init[j];
    }
  }

  /** The table after processing `files` in order, each new row getting
      `batch`; each lookup sees the rows inserted before it. */
  function Repaired(rows: seq<Row>, files: seq<string>, batch: int): seq<Row> {
    if files == [] then rows
    else
      var before := Repaired(rows, files[..|files| - 1], batch);
      var file := files[|files| - 1];
      var name := MigrationName(file);
      if IsDirectoryEntry(file) || HasRow(before, name) then before else before + [Row(name, batch)]
  }

  /** Existing rows are neither changed nor removed, and every new row is a
      listed file's name, in the new batch, not already in the table. */
  lemma {:induction false} RepairedOnlyInserts(rows: seq<Row>, files: seq<string>, batch: int)
    ensures var r := Repaired(rows, files, batch);
      |r| >= |rows| && r[..|rows|] == rows
      && forall i :: |rows| <= i < |r| ==>
        r[i].batch == batch && !HasRow(r[..i], r[i].migration)
        && exists f :: 0 <= f < |files| && !IsDirectoryEntry(files[f]) && MigrationName(files[f]) == r[i].migration
  {
    if files != [] {
      var init := files[..|files| - 1];
      var file := files[|files| - 1];
      RepairedOnlyInserts(rows, init, batch);
      var before := Repaired(rows, init, batch);
      var r := Repaired(rows, files, batch);
      var name := MigrationName(file);
      if IsDirectoryEntry(file) || HasRow(before, name) {
        assert r == before;
        forall i | |rows| <= i < |r|
          ensures exists f :: 0 <= f < |files| && !IsDirectoryEntry(files[f]) && MigrationName(files[f]) == r[i].migration
        {
          var f :| 0 <= f < |init| && !IsDirectoryEntry(init[f]) && MigrationName(init[f]) == before[i].migration;
          assert files[f] == init[f];
        }
      } else {
        assert r == before + [Row(name, batch)];
        assert r[..|rows|] == before[..|rows|];
        forall i | |rows| <= i < |r|
          ensures r[i].batch == batch && !HasRow(r[..i], r[i].migration)
          ensures exists f :: 0 <= f < |files| && !IsDirectoryEntry(files[f]) && MigrationName(files[f]) == r[i].migration
        {
          if i < |before| {
            assert r[i] == before[i] && r[..i] == before[..i];
            var f :| 0 <= f < |init| && !IsDirectoryEntry(init[f]) && MigrationName(init[f]) == before[i].migration;
            assert files[f] == init[f];
          } else {
            assert r[..i] == before;
            assert files[|files| - 1] == file;
          }
        }
      }
    }
  }

  /** After the run every listed file other than `.` and `..` has a row. */
  lemma {:induction false} RepairedCovers(rows: seq<Row>, files: seq<string>, batch: int)
    ensures forall f :: 0 <= f < |files| && !IsDirectoryEntry(files[f]) ==>
      HasRow(Repaired(rows, files, batch), MigrationName(files[f]))
  {
    if files != [] {
      var init := files[..|files| - 1];
      RepairedCovers(rows, init, batch);
      var before := Repaired(rows, init, batch);
      var r := Repaired(rows, files, batch);
      assert r[..|before|] == before;
      forall f | 0 <= f < |files| && !IsDirectoryEntry(files[f])
        ensures HasRow(r, MigrationName(files[f]))
      {
        if f < |init| {
          assert files[f] == init[f];
          var i :| 0 <= i < |before| && before[i].migration == MigrationName(files[f]);
          assert r[i] == before[i];
        } else if !HasRow(before, MigrationName(files[f])) {
          assert r[|before|].migration == MigrationName(files[f]);
        }
      }
    }
  }

  /** The directory entries change nothing. */
  lemma DirectoryEntriesIgnored(rows: seq<Row>, files: seq<string>, batch: int)
    ensures Repaired(rows, files + ["."], batch) == Repaired(rows, files, batch)
    ensures Repaired(rows, files + [".."], batch) == Repaired(rows, files, batch)
  {
    assert (files + ["."])[..|files|] == files;
    assert (files + [".."])[..|files|] == files;
  }

  /** The migrations table. */
  class MigrationsTable {
    var rows: seq<Row>

    constructor(initial: seq<Row>)
      ensures rows == initial
    {
      rows := initial;
    }

    /** `getLatestMigrationBatch`: the row with the largest batch, read as
        its batch. */
    method LatestBatch() returns (latest: Option<int>)
      ensures latest == MaxBatch(rows)
    {
      latest := None;
      for i := 0 to |rows|
        invariant latest == MaxBatch(rows[..i])
      {
        assert rows[..i + 1][..i] == rows[..i];
        var b := rows[i].batch;
        if latest.None? || latest.value < b {
          latest := Some(b);
        }
      }
      assert rows[..|rows|] == rows;
    }

    /** The `where('migration', '=', …)->first()` lookup. */
    method HasMigration(name: string) returns (found: bool)
      ensures found <==> HasRow(rows, name)
    {
      for i := 0 to |rows|
        invariant !HasRow(rows[..i], name)
      {
        assert rows[..i + 1][..i] == rows[..i];
        if rows[i].migration == name {
          assert rows[..i + 1][i].migration == name;
          return true;
        }
      }
      assert rows[..|rows|] == rows;
      return false;
    }

    /** `insertMigration`. */
    method Insert(name: string, batch: int)
      modifies this
      ensures rows == old(rows) + [Row(name, batch)]
    {
      rows := rows + [Row(name, batch)];
    }

    /** `processMigrationFile`: inserts the file's migration name unless a
        row already has it. */
    method ProcessMigrationFile(filename: string, latestBatch: int)
      modifies this
      ensures var name := MigrationName(filename);
        rows == if HasRow(old(rows), name) then old(rows) else old(rows) + [Row(name, latestBatch + 1)]
    {
      var name := MigrationName(filename);
      var existing := HasMigration(name);
      if !existing {
        Insert(name, latestBatch + 1);
      }
    }

    /** `handle` over what `scandir` returns: the names it lists, or `None`
        when the migrations folder cannot be read. The folder is read
        before the latest batch is queried. */
    method Handle(listing: Option<seq<string>>) returns (outcome: Outcome)
      modifies this
      ensures listing.None? ==> outcome == ScandirFailed && rows == old(rows)
      ensures listing.Some? && old(rows) == [] ==> outcome == TypeError && rows == old(rows)
      ensures listing.Some? && old(rows) != [] ==>
        outcome == ExitCode(0) && rows == Repaired(old(rows), listing.value, MaxBatch(old(rows)).value + 1)
    {
      if listing.None? {
        return ScandirFailed;
      }
      var files := listing.value;
      var latest := LatestBatch();
      if latest.None? {
        return TypeError;
      }
      for i := 0 to |files|
        invariant rows == Repaired(old(rows), files[..i], latest.value + 1)
      {
        assert files[..i + 1][..i] == files[..i];
        if !(files[i] == "." || files[i] == "..") {
          ProcessMigrationFile(files[i], latest.value);
        }
      }
      assert files[..|files|] == files;
      return ExitCode(0);
    }
  }

  /** A table holding one migration in batch 1 and a folder holding that
      migration and another: the other is inserted in batch 2. */
  lemma OneMissingMigration(users: string, posts: string)
    requires users != [] && posts != [] && users != posts
    ensures Repaired([Row(users, 1)], [".", "..", users + PhpSuffix, posts + PhpSuffix], MaxBatch([Row(users, 1)]).value + 1)
      == [Row(users, 1), Row(posts, 2)]
  {
    var rows := [Row(users, 1)];
    var files := [".", "..", users + PhpSuffix, posts + PhpSuffix];
    MigrationNameOfFile(users);
    MigrationNameOfFile(posts);
    assert files[..1][..0] == [];
    assert Repaired(rows, files[..1], 2) == rows;
    assert files[..2][..1] == files[..1];
    assert Repaired(rows, files[..2], 2) == rows;
    assert rows[0].migration == users;
    assert files[..3][..2] == files[..2];
    assert Repaired(rows, files[..3], 2) == rows;
    assert files[..4][..3] == files[..3];
    assert files[..4] == files;
    assert !HasRow(rows, posts);
  }
}
