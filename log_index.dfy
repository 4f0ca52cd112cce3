/** The numbering of the scanners' log files: each run writes
    `<logs>/<prefix><N>.log` with N one more than the largest index already
    present in the logs directory, or 1 when there is none. The duplicate
    scanner and the non-test-method scanner each carry their own copy of the
    loop. */
module LogIndex {
  import opened Text

  const LogExtension := ".log"
  const DuplicateScanPrefix := "duplicate_scan_"
  const NonTestMethodsPrefix := "non_test_methods_"

  /** `glob("<dir>/<prefix>*.log")` on one name listed in the directory: the
      star matches any run of characters, the empty one included. */
  predicate MatchesGlob(prefix: string, name: string) {
    |name| >= |prefix| + |LogExtension| && StartsWith(name, prefix) && EndsWith(name, LogExtension)
  }

  /** The pattern `/<prefix>(\d+)\.log$/` matches `path` at position `k`. */
  predicate RegexMatchAt(prefix: string, path: string, k: int) {
    EndsWith(path, LogExtension)
    && 0 <= k && k + |prefix| < |path| - |LogExtension|
    && path[k..k + |prefix|] == prefix
    && IsDigits(path[k + |prefix|..|path| - |LogExtension|])
  }

  /** The digits group `(\d+)` of a match at `k`. */
  function Capture(prefix: string, path: string, k: int): (d: string)
    requires RegexMatchAt(prefix, path, k)
    ensures d != [] && IsDigits(d)
  {
    path[k + |prefix|..|path| - |LogExtension|]
  }

  /** A prefix whose last character is not a digit, as both scanners' are:
      the digits of a match can then only be the whole run of digits in
      front of `.log`. */
  predicate Delimited(prefix: string) {
    prefix != [] && !IsDigit(prefix[|prefix| - 1])
  }

  /** `(int) $matches[1]` when the pattern matches `path`, else nothing. The
      digits are the run of digits in front of `.log`, and the text before
      them must end with the prefix. */
  function LogIndexOf(prefix: string, path: string): (r: Option<nat>)
    ensures r.Some? ==> EndsWith(path, LogExtension)
  {
    if !EndsWith(path, LogExtension) then None
    else
      var stem := path[..|path| - |LogExtension|];
      var digits := TrailingDigits(stem);
      if digits != [] && EndsWith(stem[..|stem| - |digits|], prefix) then Some(DigitsValue(digits)) else None
  }

  /** A run of digits that starts the string or follows a non-digit, and ends
      it, is the trailing digits of that string. */
  lemma TrailingDigitsIs(s: string, j: int)
    requires 0 <= j <= |s| && IsDigits(s[j..])
    requires j == 0 || !IsDigit(s[j - 1])
    ensures TrailingDigits(s) == s[j..]
  {
  }

  /** LogIndexOf is the regular expression search: it finds a value exactly
      when the pattern matches somewhere, and then the value is the one the
      match captures. */
  lemma LogIndexOfIsRegex(prefix: string, path: string)
    requires Delimited(prefix)
    ensures LogIndexOf(prefix, path).Some? <==> exists k :: RegexMatchAt(prefix, path, k)
    ensures forall k :: RegexMatchAt(prefix, path, k) ==> LogIndexOf(prefix, path) == Some(DigitsValue(Capture(prefix, path, k)))
  {
    forall k | RegexMatchAt(prefix, path, k)
      ensures LogIndexOf(prefix, path) == Some(DigitsValue(Capture(prefix, path, k)))
    {
      RegexMatchIsFound(prefix, path, k);
    }
    if LogIndexOf(prefix, path).Some? {
      var k := FoundIsRegexMatch(prefix, path);
    }
  }

  /** A match of the pattern is what LogIndexOf finds. */
  lemma RegexMatchIsFound(prefix: string, path: string, k: int)
    requires Delimited(prefix) && RegexMatchAt(prefix, path, k)
    ensures LogIndexOf(prefix, path) == Some(DigitsValue(Capture(prefix, path, k)))
  {
    var stem := path[..|path| - |LogExtension|];
    var j := k + |prefix|;
    assert stem[j..] == Capture(prefix, path, k);
    assert stem[j - 1] == prefix[|prefix| - 1];
    TrailingDigitsIs(stem, j);
    assert stem[..|stem| - |TrailingDigits(stem)|] == stem[..j];
    assert stem[..j][j - |prefix|..] == prefix;
  }

  /** What LogIndexOf finds is a match of the pattern, at the position where
      the prefix ends just before the trailing digits. */
  lemma FoundIsRegexMatch(prefix: string, path: string) returns (k: int)
    requires LogIndexOf(prefix, path).Some?
    ensures RegexMatchAt(prefix, path, k)
  {
    var stem := path[..|path| - |LogExtension|];
    var digits := TrailingDigits(stem);
    var m := |stem| - |digits|;
    k := m - |prefix|;
    assert EndsWith(stem[..m], prefix);
    assert stem[..m][m - |prefix|..] == prefix;
    assert path[k..k + |prefix|] == stem[..m][m - |prefix|..];
    assert path[k + |prefix|..|path| - |LogExtension|] == digits;
  }

  /** The file named with index `n` yields `n` back. */
  lemma LogIndexOfLogName(prefix: string, dir: string, n: nat)
    requires Delimited(prefix)
    ensures LogIndexOf(prefix, dir + "/" + prefix + NatToString(n) + LogExtension) == Some(n)
  {
    var path := dir + "/" + prefix + NatToString(n) + LogExtension;
    var k := |dir| + 1;
    assert path[k..k + |prefix|] == prefix;
    assert path[k + |prefix|..|path| - |LogExtension|] == NatToString(n);
    assert RegexMatchAt(prefix, path, k);
    LogIndexOfIsRegex(prefix, path);
    NatToStringRoundTrip(n);
  }

  /** The index a directory entry contributes: its glob must match, then the
      pattern is run on the full path `<dir>/<name>` as glob returns it. */
  function FileIndex(dir: string, prefix: string, name: string): (r: Option<nat>)
    ensures r.Some? ==> MatchesGlob(prefix, name)
  {
    if MatchesGlob(prefix, name) then LogIndexOf(prefix, dir + "/" + name) else None
  }

  function Max(a: nat, b: nat): nat {
    if a < b then b else a
  }

  /** The largest index over a directory listing, 0 when none has one. */
  function MaxIndex(dir: string, prefix: string, names: seq<string>): nat {
    if names == [] then 0
    else
      var m := MaxIndex(dir, prefix, names[..|names| - 1]);
      var last := FileIndex(dir, prefix, names[|names| - 1]);
      if last.Some? then Max(m, last.value) else m
  }

  /** MaxIndex bounds every index in the listing, and is 0 or one of them. */
  lemma MaxIndexIsMaximum(dir: string, prefix: string, names: seq<string>)
    ensures forall i :: 0 <= i < |names| && FileIndex(dir, prefix, names[i]).Some? ==>
      FileIndex(dir, prefix, names[i]).value <= MaxIndex(dir, prefix, names)
    ensures MaxIndex(dir, prefix, names) == 0
      || exists i :: 0 <= i < |names| && FileIndex(dir, prefix, names[i]) == Some(MaxIndex(dir, prefix, names))
  {
    forall i | 0 <= i < |names| && FileIndex(dir, prefix, names[i]).Some?
      ensures FileIndex(dir, prefix, names[i]).value <= MaxIndex(dir, prefix, names)
    {
      MaxIndexBounds(dir, prefix, names, i);
    }
    MaxIndexAttained(dir, prefix, names);
  }

  /** The index of the i-th name is at most MaxIndex. */
  lemma {:induction false} MaxIndexBounds(dir: string, prefix: string, names: seq<string>, i: int)
    requires 0 <= i < |names| && FileIndex(dir, prefix, names[i]).Some?
    ensures FileIndex(dir, prefix, names[i]).value <= MaxIndex(dir, prefix, names)
  {
    var init := names[..|names| - 1];
    if i < |init| {
      assert init[i] == names[i];
      MaxIndexBounds(dir, prefix, init, i);
    }
  }

  /** A MaxIndex other than 0 is the index of some name. */
  lemma {:induction false} MaxIndexAttained(dir: string, prefix: string, names: seq<string>)
    ensures MaxIndex(dir, prefix, names) == 0
      || exists i :: 0 <= i < |names| && FileIndex(dir, prefix, names[i]) == Some(MaxIndex(dir, prefix, names))
  {
    if names != [] {
      var init := names[..|names| - 1];
      var last := FileIndex(dir, prefix, names[|names| - 1]);
      var m := MaxIndex(dir, prefix, names);
      if last.Some? && m == last.value {
        assert FileIndex(dir, prefix, names[|names| - 1]) == Some(m);
      } else {
        assert m == MaxIndex(dir, prefix, init);
        MaxIndexAttained(dir, prefix, init);
        if m != 0 {
          var i :| 0 <= i < |init| && FileIndex(dir, prefix, init[i]) == Some(m);
          assert init[i] == names[i];
          assert FileIndex(dir, prefix, names[i]) == Some(m);
        }
      }
    }
  }

  /** A listing with no indexed file starts the numbering at 1. */
  lemma {:induction false} NoIndexedFiles(dir: string, prefix: string, names: seq<string>)
    requires forall i :: 0 <= i < |names| ==> FileIndex(dir, prefix, names[i]).None?
    ensures MaxIndex(dir, prefix, names) == 0
  {
    if names != [] {
      NoIndexedFiles(dir, prefix, names[..|names| - 1]);
    }
  }

  /** `getNextLogFileIndex` of the duplicate scanner: `max($maxIndex, (int) …)`. */
  method NextLogFileIndex(dir: string, prefix: string, names: seq<string>) returns (next: nat)
    ensures next == MaxIndex(dir, prefix, names) + 1
    ensures next >= 1
    ensures forall i :: 0 <= i < |names| && FileIndex(dir, prefix, names[i]).Some? ==>
      FileIndex(dir, prefix, names[i]).value < next
  {
    var maxIndex := 0;
    for i := 0 to |names|
      invariant maxIndex == MaxIndex(dir, prefix, names[..i])
    {
      assert names[..i + 1][..i] == names[..i];
      if MatchesGlob(prefix, names[i]) {
        var found := LogIndexOf(prefix, dir + "/" + names[i]);
        if found.Some? {
          maxIndex := Max(maxIndex, found.value);
        }
      }
    }
    assert names[..|names|] == names;
    MaxIndexIsMaximum(dir, prefix, names);
    next := maxIndex + 1;
  }

  /** The same loop inlined in the non-test-method scanner, written with
      `if ($idx > $maxIndex)`. */
  method NextNonTestLogIndex(dir: string, names: seq<string>) returns (next: nat)
    ensures next == MaxIndex(dir, NonTestMethodsPrefix, names) + 1
    ensures next >= 1
    ensures forall i :: 0 <= i < |names| && FileIndex(dir, NonTestMethodsPrefix, names[i]).Some? ==>
      FileIndex(dir, NonTestMethodsPrefix, names[i]).value < next
  {
    var maxIndex := 0;
    for i := 0 to |names|
      invariant maxIndex == MaxIndex(dir, NonTestMethodsPrefix, names[..i])
    {
      assert names[..i + 1][..i] == names[..i];
      if MatchesGlob(NonTestMethodsPrefix, names[i]) {
        var found := LogIndexOf(NonTestMethodsPrefix, dir + "/" + names[i]);
        if found.Some? {
          var idx := found.value;
          if idx > maxIndex {
            maxIndex := idx;
          }
        }
      }
    }
    assert names[..|names|] == names;
    MaxIndexIsMaximum(dir, NonTestMethodsPrefix, names);
    next := maxIndex + 1;
  }

  /** `<dir>/<prefix><N>.log`. */
  function LogPath(dir: string, prefix: string, index: nat): (path: string)
    ensures EndsWith(path, LogExtension)
  {
    dir + "/" + prefix + NatToString(index) + LogExtension
  }

  /** The new log file never overwrites an existing one: its name is not in
      the listing. */
  lemma NewLogNameIsFresh(dir: string, prefix: string, names: seq<string>)
    requires Delimited(prefix)
    ensures prefix + NatToString(MaxIndex(dir, prefix, names) + 1) + LogExtension !in names
  {
    var n := MaxIndex(dir, prefix, names) + 1;
    var name := prefix + NatToString(n) + LogExtension;
    FileIndexOfLogName(dir, prefix, n);
    forall i | 0 <= i < |names|
      ensures names[i] != name
    {
      if FileIndex(dir, prefix, names[i]).Some? {
        MaxIndexBounds(dir, prefix, names, i);
      }
    }
  }

  /** The name written for index `n` matches the glob and yields `n`. */
  lemma FileIndexOfLogName(dir: string, prefix: string, n: nat)
    requires Delimited(prefix)
    ensures FileIndex(dir, prefix, prefix + NatToString(n) + LogExtension) == Some(n)
  {
    var name := prefix + NatToString(n) + LogExtension;
    assert name[..|prefix|] == prefix;
    assert name[|name| - |LogExtension|..] == LogExtension;
    assert MatchesGlob(prefix, name);
    assert dir + "/" + name == dir + "/" + prefix + NatToString(n) + LogExtension;
    LogIndexOfLogName(prefix, dir, n);
  }

  /** Both scanners' prefixes end with `_`. */
  lemma PrefixesAreDelimited()
    ensures Delimited(DuplicateScanPrefix) && Delimited(NonTestMethodsPrefix)
  {
  }
}
