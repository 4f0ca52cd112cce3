/** The `scan:nonTestMethods` command: for every `.php` file under `tests/`
    it runs a small state machine over the file's tokens, collecting the
    public methods marked `@test` in their doc comment although their name
    does not start with `test`, and writes one report section per file to
    the next numbered `non_test_methods_<N>.log`. */
module NonTestMethods {
  import opened Text
  import opened LogIndex

  /** The token kinds the scanner tests for; every other kind is `Other`. */
  datatype Kind =
    | Class        // T_CLASS
    | Identifier   // T_STRING
    | DocComment   // T_DOC_COMMENT
    | Function     // T_FUNCTION
    | Public
    | Protected
    | Private
    | Static
    | Abstract
    | Final
    | Var
    | Other

  /** A token as the PHP tokenizer returns it: a kind with its text, or a
      bare one-character string such as `{`. */
  datatype Token = Tok(kind: Kind, text: string) | Char(c: char)

  predicate IsKind(t: Token, k: Kind) {
    t.Tok? && t.kind == k
  }

  /** The tokens that end the backward search for `public` without finding it. */
  predicate Stops(t: Token) {
    (t.Tok? && t.kind in {Protected, Private, Static, Abstract, Final, Var})
    || t == Char('{') || t == Char('}')
  }

  /** The scanner's variables for one file. */
  datatype ScanState = ScanState(className: Option<string>, docComment: Option<string>, methods: seq<string>)

  const Initial := ScanState(None, None, [])

  /** The text of the first T_STRING at or after `from`, if any. */
  function ClassNameAfter(tokens: seq<Token>, from: nat): (r: Option<string>)
    ensures r.Some? ==> exists j :: (from <= j < |tokens| && tokens[j] == Tok(Identifier, r.value)
      && forall q :: from <= q < j ==> !IsKind(tokens[q], Identifier))
    ensures r.None? ==> forall j :: from <= j < |tokens| ==> !IsKind(tokens[j], Identifier)
    decreases |tokens| - from
  {
    if from >= |tokens| then None
    else if IsKind(tokens[from], Identifier) then Some(tokens[from].text)
    else ClassNameAfter(tokens, from + 1)
  }

  /** The backward search for `public` over positions k, k - 1, …, 1. */
  function PublicScan(tokens: seq<Token>, k: int): bool
    requires k < |tokens|
    decreases k
  {
    if k <= 0 then false
    else if IsKind(tokens[k], Public) then true
    else if Stops(tokens[k]) then false
    else PublicScan(tokens, k - 1)
  }

  /** `$tokens[$i + 2][1] ?? null`: a bare character has no index 1. */
  function FunctionName(tokens: seq<Token>, i: nat): (r: Option<string>)
    ensures r.Some? <==> i + 2 < |tokens| && tokens[i + 2].Tok?
  {
    if i + 2 < |tokens| && tokens[i + 2].Tok? then Some(tokens[i + 2].text) else None
  }

  /** The filter applied to the function at `i` with the pending doc comment. */
  predicate Qualifies(tokens: seq<Token>, i: nat, doc: Option<string>)
    requires i < |tokens|
  {
    var name := FunctionName(tokens, i);
    PublicScan(tokens, i - 1)
    && name.Some? && Truthy(name.value)
    && !StartsWith(name.value, "test")
    && name.value != "setUp"
    && doc.Some? && Truthy(doc.value)
    && Contains(doc.value, "@test")
  }

  /** One turn of the loop over the tokens. */
  function Step(tokens: seq<Token>, i: nat, st: ScanState): ScanState
    requires i < |tokens|
  {
    var t := tokens[i];
    if IsKind(t, Class) then
      var name := ClassNameAfter(tokens, i + 1);
      if name.Some? then st.(className := name) else st
    else if IsKind(t, DocComment) then st.(docComment := Some(t.text))
    else if IsKind(t, Function) then
      var found := if Qualifies(tokens, i, st.docComment) then [FunctionName(tokens, i).value] else [];
      st.(methods := st.methods + found, docComment := None)
    else st
  }

  /** The variables after the loop has handled tokens 0 … n - 1. */
  function ScanUpTo(tokens: seq<Token>, n: nat): ScanState
    requires n <= |tokens|
  {
    if n == 0 then Initial else Step(tokens, n - 1, ScanUpTo(tokens, n - 1))
  }

  /** Reference definition: the doc comment pending before position `n` is
      that of the latest doc comment before `n`, unless a `function` comes
      after it. */
  function PendingDoc(tokens: seq<Token>, n: nat): Option<string>
    requires n <= |tokens|
  {
    if n == 0 then None
    else if IsKind(tokens[n - 1], DocComment) then Some(tokens[n - 1].text)
    else if IsKind(tokens[n - 1], Function) then None
    else PendingDoc(tokens, n - 1)
  }

  /** Reference definition: the class name in force before position `n` is
      the first T_STRING after the latest `class` token that has one. */
  function LatestClassName(tokens: seq<Token>, n: nat): Option<string>
    requires n <= |tokens|
  {
    if n == 0 then None
    else if IsKind(tokens[n - 1], Class) && ClassNameAfter(tokens, n).Some? then ClassNameAfter(tokens, n)
    else LatestClassName(tokens, n - 1)
  }

  /** Reference definition: the names of the qualifying functions before
      position `n`, in source order. */
  function QualifyingNames(tokens: seq<Token>, n: nat): seq<string>
    requires n <= |tokens|
  {
    if n == 0 then []
    else
      var i := n - 1;
      QualifyingNames(tokens, i)
      + if IsKind(tokens[i], Function) && Qualifies(tokens, i, PendingDoc(tokens, i))
        then [FunctionName(tokens, i).value] else []
  }

  /** The state machine computes the reference definitions: the class name,
      the pending doc comment and the collected methods. */
  lemma {:induction false} ScanUpToIsReference(tokens: seq<Token>, n: nat)
    requires n <= |tokens|
    ensures ScanUpTo(tokens, n) == ScanState(LatestClassName(tokens, n), PendingDoc(tokens, n), QualifyingNames(tokens, n))
  {
    if n > 0 {
      ScanUpToIsReference(tokens, n - 1);
    }
  }

  /** Every collected method passes the filter: public, a truthy name not
      starting with `test` and other than `setUp`, under a doc comment
      containing `@test`. */
  lemma {:induction false} QualifyingNamesPassFilter(tokens: seq<Token>, n: nat)
    requires n <= |tokens|
    ensures forall m :: m in QualifyingNames(tokens, n) ==>
      Truthy(m) && !StartsWith(m, "test") && m != "setUp"
    ensures forall m :: m in QualifyingNames(tokens, n) ==>
      exists i :: 0 <= i < n && IsKind(tokens[i], Function) && FunctionName(tokens, i) == Some(m)
        && PublicScan(tokens, i - 1) && PendingDoc(tokens, i).Some? && Contains(PendingDoc(tokens, i).value, "@test")
  {
    if n > 0 {
      QualifyingNamesPassFilter(tokens, n - 1);
    }
  }

  /** A function at `i` that passes the filter is collected. */
  lemma {:induction false} QualifyingFunctionIsCollected(tokens: seq<Token>, n: nat, i: nat)
    requires i < n <= |tokens|
    requires IsKind(tokens[i], Function) && Qualifies(tokens, i, PendingDoc(tokens, i))
    ensures FunctionName(tokens, i).value in QualifyingNames(tokens, n)
  {
    if i < n - 1 {
      QualifyingFunctionIsCollected(tokens, n - 1, i);
    }
  }

  /** The pending doc comment is cleared by every `function`: a function
      with no doc comment between it and an earlier function has none. */
  lemma {:induction false} DocCommentUsedOnce(tokens: seq<Token>, i: nat, j: nat)
    requires i < j <= |tokens| && IsKind(tokens[i], Function)
    requires forall q :: i < q < j ==> !IsKind(tokens[q], DocComment)
    ensures PendingDoc(tokens, j) == None
    decreases j
  {
    if j - 1 > i && !IsKind(tokens[j - 1], Function) {
      DocCommentUsedOnce(tokens, i, j - 1);
    }
  }

  /** `public` at position p >= 1, with no stopping token and no other
      `public` between p and k. */
  predicate PublicAt(tokens: seq<Token>, p: int, k: int) {
    1 <= p <= k < |tokens| && IsKind(tokens[p], Public)
    && forall q :: p < q <= k ==> !IsKind(tokens[q], Public) && !Stops(tokens[q])
  }

  /** Reference definition of the backward search: it succeeds iff some
      position holds `public` with nothing in between that stops it. */
  lemma {:induction false} PublicScanIsSearch(tokens: seq<Token>, k: int)
    requires k < |tokens|
    ensures PublicScan(tokens, k) <==> exists p :: PublicAt(tokens, p, k)
    decreases k
  {
    if k > 0 {
      if IsKind(tokens[k], Public) {
        assert PublicAt(tokens, k, k);
      } else if !Stops(tokens[k]) {
        PublicScanIsSearch(tokens, k - 1);
        if PublicScan(tokens, k - 1) {
          var p :| PublicAt(tokens, p, k - 1);
          assert PublicAt(tokens, p, k);
        }
        if exists p :: PublicAt(tokens, p, k) {
          var p :| PublicAt(tokens, p, k);
          assert PublicAt(tokens, p, k - 1);
        }
      }
    }
  }

  /** The search never looks at token 0: `public` as the first token of a
      file does not make a function public. */
  lemma {:induction false} PublicScanSkipsFirstToken(tokens: seq<Token>, k: int, t: Token)
    requires 0 < |tokens| && k < |tokens|
    ensures PublicScan(tokens[0 := t], k) == PublicScan(tokens, k)
    decreases k
  {
    if k > 0 {
      PublicScanSkipsFirstToken(tokens, k - 1, t);
    }
  }

  /** `public static function f` is not public to the scanner: the search
      meets `static` before `public`. */
  lemma PublicStaticIsNotPublic(tokens: seq<Token>, i: nat)
    requires 2 <= i < |tokens| && IsKind(tokens[i - 1], Static) && IsKind(tokens[i - 2], Public)
    ensures !PublicScan(tokens, i - 1)
  {
  }

  /** `public function f` with white space between is public. */
  lemma PublicFunctionIsPublic(tokens: seq<Token>, i: nat)
    requires 3 <= i < |tokens| && IsKind(tokens[i - 1], Other) && IsKind(tokens[i - 2], Public)
    ensures PublicScan(tokens, i - 1)
  {
  }

  /** The class name found after a `class` token is the first T_STRING
      after it, and later `class` tokens override it. */
  lemma ClassNameAfterClassToken(tokens: seq<Token>, c: nat, n: nat)
    requires c < n <= |tokens| && IsKind(tokens[c], Class) && ClassNameAfter(tokens, c + 1).Some?
    requires forall q :: c < q < n ==> !IsKind(tokens[q], Class)
    ensures ScanUpTo(tokens, n).className == ClassNameAfter(tokens, c + 1)
  {
    ScanUpToIsReference(tokens, n);
    LatestClassNameAt(tokens, c, n);
  }

  lemma {:induction false} LatestClassNameAt(tokens: seq<Token>, c: nat, n: nat)
    requires c < n <= |tokens| && IsKind(tokens[c], Class) && ClassNameAfter(tokens, c + 1).Some?
    requires forall q :: c < q < n ==> !IsKind(tokens[q], Class)
    ensures LatestClassName(tokens, n) == ClassNameAfter(tokens, c + 1)
  {
    if n - 1 > c {
      LatestClassNameAt(tokens, c, n - 1);
    }
  }

  /** `ScanNonTestMethods::handle`, the `j` loop after a `class` token. */
  method FindClassName(tokens: seq<Token>, from: nat) returns (name: Option<string>)
    ensures name == ClassNameAfter(tokens, from)
  {
    var j := from;
    while j < |tokens|
      invariant from <= j
      invariant ClassNameAfter(tokens, from) == ClassNameAfter(tokens, j)
    {
      if tokens[j].Tok? && tokens[j].kind == Identifier {
        return Some(tokens[j].text);
      }
      j := j + 1;
    }
    return None;
  }

  /** The `k` loop: from the token before `function` back to token 1. */
  method IsPublic(tokens: seq<Token>, i: nat) returns (isPublic: bool)
    requires i < |tokens|
    ensures isPublic == PublicScan(tokens, i - 1)
  {
    var k := i - 1;
    while k > 0
      invariant k <= i - 1
      invariant PublicScan(tokens, i - 1) == PublicScan(tokens, k)
      decreases k
    {
      if tokens[k].Tok? && tokens[k].kind == Public {
        return true;
      }
      if tokens[k].Tok? && tokens[k].kind in {Protected, Private, Static, Abstract, Final, Var} {
        return false;
      }
      if tokens[k] == Char('{') || tokens[k] == Char('}') {
        return false;
      }
      k := k - 1;
    }
    return false;
  }

  /** The `i` loop over one file's tokens. */
  method ScanFile(tokens: seq<Token>) returns (st: ScanState)
    ensures st == ScanUpTo(tokens, |tokens|)
    ensures st.className == LatestClassName(tokens, |tokens|)
    ensures st.methods == QualifyingNames(tokens, |tokens|)
  {
    var className: Option<string> := None;
    var methods: seq<string> := [];
    var docComment: Option<string> := None;
    for i := 0 to |tokens|
      invariant ScanState(className, docComment, methods) == ScanUpTo(tokens, i)
    {
      var t := tokens[i];
      if t.Tok? && t.kind == Class {
        var name := FindClassName(tokens, i + 1);
        if name.Some? {
          className := name;
        }
      }
      if t.Tok? && t.kind == DocComment {
        docComment := Some(t.text);
      }
      if t.Tok? && t.kind == Function {
        var fnName := FunctionName(tokens, i);
        var isPublic := IsPublic(tokens, i);
        if isPublic && fnName.Some? && Truthy(fnName.value) && !StartsWith(fnName.value, "test")
          && fnName.value != "setUp" && docComment.Some? && Truthy(docComment.value)
          && Contains(docComment.value, "@test")
        {
          methods := methods + [fnName.value];
        }
        docComment := None;
      }
    }
    st := ScanState(className, docComment, methods);
    ScanUpToIsReference(tokens, |tokens|);
  }

  /** The line naming one method. */
  function MethodLine(m: string): string {
    "  - " + m + "\n"
  }

  /** The method lines of a section, in order. */
  function MethodLines(methods: seq<string>): string {
    if methods == [] then ""
    else MethodLines(methods[..|methods| - 1]) + MethodLine(methods[|methods| - 1])
  }

  /** The first line of a file's section. */
  function SectionHeading(className: string, path: string): string {
    "Class: " + className + " in " + path + "\n"
  }

  /** What one file contributes to the log. */
  function FileReport(path: string, st: ScanState): string {
    if st.className.Some? && Truthy(st.className.value) && st.methods != [] then
      SectionHeading(st.className.value, path) + MethodLines(st.methods)
    else ""
  }

  /** A file contributes a section iff it has a class name and at least one
      method; the section names every method. */
  lemma FileReportContents(path: string, st: ScanState)
    ensures FileReport(path, st) != "" <==> st.className.Some? && Truthy(st.className.value) && st.methods != []
    ensures FileReport(path, st) != "" ==>
      StartsWith(FileReport(path, st), SectionHeading(st.className.value, path))
      && forall k :: 0 <= k < |st.methods| ==> Contains(FileReport(path, st), MethodLine(st.methods[k]))
  {
    if FileReport(path, st) != "" {
      var head := SectionHeading(st.className.value, path);
      assert FileReport(path, st) == head + MethodLines(st.methods);
      assert (head + MethodLines(st.methods))[..|head|] == head;
      forall k | 0 <= k < |st.methods|
        ensures Contains(FileReport(path, st), MethodLine(st.methods[k]))
      {
        MethodLinesList(st.methods, k);
        ContainsAppendRight(head, MethodLines(st.methods), MethodLine(st.methods[k]));
      }
    }
  }

  lemma {:induction false} MethodLinesList(methods: seq<string>, k: int)
    requires 0 <= k < |methods|
    ensures Contains(MethodLines(methods), MethodLine(methods[k]))
  {
    var init := methods[..|methods| - 1];
    var line := MethodLine(methods[|methods| - 1]);
    assert MethodLines(methods) == MethodLines(init) + line;
    if k < |init| {
      MethodLinesList(init, k);
      assert init[k] == methods[k];
      ContainsAppendLeft(MethodLines(init), line, MethodLine(methods[k]));
    } else {
      ContainsSelf(line);
      ContainsAppendRight(MethodLines(init), line, line);
    }
  }

  /** The report lines for one file, as the loop builds them with `.=`. */
  method ReportFile(path: string, st: ScanState) returns (output: string)
    ensures output == FileReport(path, st)
  {
    output := "";
    if st.className.Some? && Truthy(st.className.value) && st.methods != [] {
      var head := SectionHeading(st.className.value, path);
      output := head;
      for k := 0 to |st.methods|
        invariant output == head + MethodLines(st.methods[..k])
      {
        var line := MethodLine(st.methods[k]);
        assert st.methods[..k + 1][..k] == st.methods[..k];
        assert MethodLines(st.methods[..k + 1]) == MethodLines(st.methods[..k]) + line;
        output := output + line;
      }
      assert st.methods[..|st.methods|] == st.methods;
    }
  }

  /** `/^.+\.php$/i`: at least one character other than a newline, then
      `.php` in any case; `$` also matches before one final newline. */
  predicate PhpPathMatch(path: string) {
    var p := MatchedText(path);
    |p| > 4 && ToLower(p[|p| - 4..]) == ".php" && '\n' !in p[..|p| - 4]
  }

  /** The text of the whole match, `$file[0]`. */
  function MatchedText(path: string): (m: string)
    ensures m <= path
  {
    if path != [] && path[|path| - 1] == '\n' then path[..|path| - 1] else path
  }

  /** One file of the walk under `tests/`, with its tokens. */
  datatype SourceFile = SourceFile(path: string, tokens: seq<Token>)

  /** The log content for the files of the walk, in walk order. */
  function Output(files: seq<SourceFile>): string {
    if files == [] then ""
    else
      var f := files[|files| - 1];
      Output(files[..|files| - 1])
      + if PhpPathMatch(f.path) then FileReport(MatchedText(f.path), ScanUpTo(f.tokens, |f.tokens|)) else ""
  }

  /** The log file the command writes. */
  datatype LogFile = LogFile(path: string, content: string)

  /** `ScanNonTestMethods::handle`: the next numbered log name, then every
      matching file's section; `logDir` is `storage_path('logs')` and
      `logNames` its listing. */
  method Handle(logDir: string, logNames: seq<string>, files: seq<SourceFile>)
    returns (log: LogFile, message: string)
    ensures log.path == LogPath(logDir, NonTestMethodsPrefix, MaxIndex(logDir, NonTestMethodsPrefix, logNames) + 1)
    ensures log.content == Output(files)
    ensures message == "Scan complete. Results written to: " + log.path
  {
    var next := NextNonTestLogIndex(logDir, logNames);
    var logPath := LogPath(logDir, NonTestMethodsPrefix, next);
    var output := "";
    for n := 0 to |files|
      invariant output == Output(files[..n])
    {
      assert files[..n + 1][..n] == files[..n];
      var file := files[n];
      if PhpPathMatch(file.path) {
        var st := ScanFile(file.tokens);
        var section := ReportFile(MatchedText(file.path), st);
        output := output + section;
      }
    }
    assert files[..|files|] == files;
    log := LogFile(logPath, output);
    message := "Scan complete. Results written to: " + logPath;
  }
}
