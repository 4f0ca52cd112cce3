/** The `clean:tempfiles` command: every configured temporary directory
    that exists is emptied, and the run fails when one is missing or still
    holds files afterwards. */
module TempFiles {

  /** One line the command prints, in order. */
  datatype Message =
    | Cleaned(dir: string)
    | NotRemoved(dir: string)
    | MissingDirectory(dir: string)
    | Complete

  function MessageText(m: Message): string {
    match m
    case Cleaned(dir) => "Temp files cleaned from : " + dir
    case NotRemoved(dir) => "Temp files not removed from directory: " + dir
    case MissingDirectory(dir) => "cleanup not complete: missing directory: " + dir
    case Complete => "Clean up process complete"
  }

  /** The lines printed with `error`, which set the status to 1. */
  predicate IsError(m: Message) {
    m.NotRemoved? || m.MissingDirectory?
  }

  /** The files a directory keeps after `cleanDirectory`: the ones that
      could not be removed. */
  function Leftover(files: set<string>, stubborn: set<string>): (r: set<string>)
    ensures r <= files && r <= stubborn
    ensures forall f :: f in files && f in stubborn ==> f in r
  {
    files * stubborn
  }

  /** Cleaning a directory a second time leaves what the first left. */
  lemma LeftoverIdempotent(files: set<string>, stubborn: set<string>)
    ensures Leftover(Leftover(files, stubborn), stubborn) == Leftover(files, stubborn)
  {
  }

  /** The message for one configured directory, judged on the directories
      as they were before the run. */
  function DirMessage(contents: map<string, set<string>>, stubborn: set<string>, dir: string): Message {
    if dir !in contents then MissingDirectory(dir)
    else if Leftover(contents[dir], stubborn) != {} then NotRemoved(dir)
    else Cleaned(dir)
  }

  /** The per-directory messages of a run over `dirs`, in order. */
  function Messages(contents: map<string, set<string>>, stubborn: set<string>, dirs: seq<string>): seq<Message> {
    if dirs == [] then []
    else Messages(contents, stubborn, dirs[..|dirs| - 1]) + [DirMessage(contents, stubborn, dirs[|dirs| - 1])]
  }

  /** The i-th message is about the i-th directory, and it is an error
      exactly when that directory is missing or not emptied. */
  lemma {:induction false} MessagesAt(contents: map<string, set<string>>, stubborn: set<string>, dirs: seq<string>)
    ensures |Messages(contents, stubborn, dirs)| == |dirs|
    ensures forall i :: 0 <= i < |dirs| ==> Messages(contents, stubborn, dirs)[i] == DirMessage(contents, stubborn, dirs[i])
    ensures forall i :: 0 <= i < |dirs| ==> !Messages(contents, stubborn, dirs)[i].Complete? && Messages(contents, stubborn, dirs)[i].dir == dirs[i]
    ensures forall i :: 0 <= i < |dirs| ==>
      (IsError(Messages(contents, stubborn, dirs)[i]) <==> dirs[i] !in contents || Leftover(contents[dirs[i]], stubborn) != {})
  {
    if dirs != [] {
      var init := dirs[..|dirs| - 1];
      MessagesAt(contents, stubborn, init);
      assert forall i :: 0 <= i < |init| ==> init[i] == dirs[i];
    }
  }

  /** Some configured directory is missing or keeps files. */
  predicate Fails(contents: map<string, set<string>>, stubborn: set<string>, dirs: seq<string>) {
    exists i :: 0 <= i < |dirs| && (dirs[i] !in contents || Leftover(contents[dirs[i]], stubborn) != {})
  }

  /** The directories after cleaning each configured one that exists. */
  function CleanedAll(contents: map<string, set<string>>, stubborn: set<string>, dirs: seq<string>): (r: map<string, set<string>>)
    ensures r.Keys == contents.Keys
    ensures forall d :: d in r ==> r[d] == if d in dirs then Leftover(contents[d], stubborn) else contents[d]
  {
    map d | d in contents :: if d in dirs then Leftover(contents[d], stubborn) else contents[d]
  }

  /** A second run finds every existing directory as the first left it and
      changes nothing more. */
  lemma SecondRunChangesNothing(contents: map<string, set<string>>, stubborn: set<string>, dirs: seq<string>)
    ensures CleanedAll(CleanedAll(contents, stubborn, dirs), stubborn, dirs) == CleanedAll(contents, stubborn, dirs)
  {
    var once := CleanedAll(contents, stubborn, dirs);
    forall d | d in once
      ensures CleanedAll(once, stubborn, dirs)[d] == once[d]
    {
      if d in dirs {
        LeftoverIdempotent(contents[d], stubborn);
      }
    }
  }

  /** The filesystem as the command sees it: the files of each existing
      directory, and the files no cleaning can remove. */
  class TempStore {
    var directories: map<string, set<string>>
    const stubborn: set<string>

    constructor(directories: map<string, set<string>>, stubborn: set<string>)
      ensures this.directories == directories && this.stubborn == stubborn
    {
      this.directories := directories;
      this.stubborn := stubborn;
    }

    /** `Filesystem::cleanDirectory`. */
    method CleanDirectory(dir: string)
      requires dir in directories
      modifies this
      ensures directories == old(directories)[dir := Leftover(old(directories)[dir], stubborn)]
    {
      directories := directories[dir := Leftover(directories[dir], stubborn)];
    }

    /** `CleanTemporaryFilesCommand::handle` over the configured `dirs`:
        the status, and the lines printed in order. */
    method CleanTempFiles(dirs: seq<string>) returns (status: int, messages: seq<Message>)
      modifies this
      ensures directories == CleanedAll(old(directories), stubborn, dirs)
      ensures messages == Messages(old(directories), stubborn, dirs) + [Complete]
      ensures status == if Fails(old(directories), stubborn, dirs) then 1 else 0
    {
      ghost var original := directories;
      status := 0;
      messages := [];
      for i := 0 to |dirs|
        invariant directories == CleanedAll(original, stubborn, dirs[..i])
        invariant messages == Messages(original, stubborn, dirs[..i])
        invariant status == if Fails(original, stubborn, dirs[..i]) then 1 else 0
      {
        var dir := dirs[i];
        assert dirs[..i + 1][..i] == dirs[..i];
        assert dirs[..i + 1][i] == dir;
        CleanedAllStep(original, stubborn, dirs[..i + 1]);
        FailsStep(original, stubborn, dirs[..i + 1]);
        if dir in directories {
          CleanDirectory(dir);
          var files := directories[dir];
          if files != {} {
            messages := messages + [NotRemoved(dir)];
            status := 1;
          } else {
            messages := messages + [Cleaned(dir)];
          }
        } else {
          messages := messages + [MissingDirectory(dir)];
          status := 1;
        }
      }
      assert dirs[..|dirs|] == dirs;
      messages := messages + [Complete];
    }
  }

  /** Cleaning one more directory updates only that directory, to what
      cleaning it once leaves. */
  lemma CleanedAllStep(contents: map<string, set<string>>, stubborn: set<string>, dirs: seq<string>)
    requires dirs != []
    ensures var last := dirs[|dirs| - 1];
      var before := CleanedAll(contents, stubborn, dirs[..|dirs| - 1]);
      (last in before <==> last in contents)
      && (last in contents ==> Leftover(before[last], stubborn) == Leftover(contents[last], stubborn))
      && CleanedAll(contents, stubborn, dirs)
         == if last in contents then before[last := Leftover(contents[last], stubborn)] else before
  {
    var last := dirs[|dirs| - 1];
    var init := dirs[..|dirs| - 1];
    assert forall d :: d in dirs <==> d in init || d == last;
    if last in contents {
      LeftoverIdempotent(contents[last], stubborn);
    }
  }

  /** Fails over a listing is Fails over all but its last directory, or the
      last directory failing. */
  lemma FailsStep(contents: map<string, set<string>>, stubborn: set<string>, dirs: seq<string>)
    requires dirs != []
    ensures var last := dirs[|dirs| - 1];
      Fails(contents, stubborn, dirs) <==>
        Fails(contents, stubborn, dirs[..|dirs| - 1]) || last !in contents || Leftover(contents[last], stubborn) != {}
  {
    var init := dirs[..|dirs| - 1];
    assert forall i :: 0 <= i < |init| ==> init[i] == dirs[i];
  }

  /** The status is 1 exactly when some printed line is an error. */
  lemma StatusIffErrorLine(contents: map<string, set<string>>, stubborn: set<string>, dirs: seq<string>)
    ensures var messages := Messages(contents, stubborn, dirs) + [Complete];
      Fails(contents, stubborn, dirs) <==> exists i :: 0 <= i < |messages| && IsError(messages[i])
  {
    var messages := Messages(contents, stubborn, dirs) + [Complete];
    MessagesAt(contents, stubborn, dirs);
    if Fails(contents, stubborn, dirs) {
      var i :| 0 <= i < |dirs| && (dirs[i] !in contents || Leftover(contents[dirs[i]], stubborn) != {});
      assert IsError(messages[i]);
    }
    if exists i :: 0 <= i < |messages| && IsError(messages[i]) {
      var i :| 0 <= i < |messages| && IsError(messages[i]);
      assert i < |dirs|;
      assert messages[i] == Messages(contents, stubborn, dirs)[i];
    }
  }
}
