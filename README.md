# laravel-maintenance-tools, modelled in Dafny

A Dafny model of the core of the Laravel package
`longestdrive/laravel-maintenance-tools`. The package has five artisan
commands and a service provider that schedules two of them:

- `clean:tempfiles` (`temp_files.dfy`). For each configured temp directory
  that exists, it empties the directory and then checks that no file is
  left. It reports an error line for a directory that is missing or still
  holds files, and exits with 1 when any directory failed.
- `logs:clean-old` (`old_logs.dfy`). It deletes the `*<extension>` files
  directly inside the logs directory that were last modified strictly
  before `now - days`. `--days` defaults to 30 and is read with PHP's
  `(int)` cast. It reports the number of old files it tried to delete: a
  file whose delete fails stays in place but is still counted.
- `scan:duplicates` (`duplicates.dfy`). It walks a folder and groups the
  paths of its `.php` files by file name and by the first class name that
  `/class\s+([A-Za-z0-9_]+)/` finds. It keeps the groups holding more than
  one path and writes a text report.
- `scan:nonTestMethods` (`non_test_methods.dfy`). It runs a token-level
  state machine over every `.php` file under `tests/` and lists the public
  methods that are marked `@test` in a doc comment but are not named
  `test…`.
- `migration:repair` (`migration_repair.dfy`). For every file of the
  migrations folder other than `.` and `..`, it inserts a row into the
  `migrations` table, in the batch after the latest, unless a row already
  has that migration name.
- The two scanners write their report to `<logs>/<prefix><N>.log`, with N
  one more than the largest index already in the logs directory
  (`log_index.dfy`).
- The service provider turns the `schedule` configuration into scheduled
  events (`schedule.dfy`): a command plus the expression that `dailyAt`,
  `weeklyOn`, `cron`, … leave on it.
- `text.dfy` holds the PHP string and number semantics the commands rely
  on:
  - the `(int)` cast and integer interpolation;
  - `strtolower`;
  - `strpos`-style searches and truthiness.

Stateful parts are classes whose methods update fields, in the order the
PHP updates them:
- the duplicate finder's arrays;
- the migrations table;
- the file stores of the two cleaning commands.

Each method is proved against a function on the old state. The properties
the commands promise are lemmas about those functions. The filesystem, the
database, the clock, the tokenizer and the directory walk are parameters.

Where the code and the package description differ, the model follows the
code:
- An entry of the `schedule` map with no `enabled` key is not scheduled.
  `&&` binds tighter than `??` on lines 63 and 68 of the service provider,
  so the `?? true` default never applies. Reading the missing key raises a
  warning, which Laravel's error handler turns into an exception that
  escapes the booted callback: the events registered so far stay and the
  rest of the call is skipped (see Findings).
- A `custom` frequency without a `cron` value, or an unknown frequency,
  leaves the scheduler's initial expression in place.
- `logs:clean-old` ignores the configuration's `log_retention_days`. Only
  `--days` (default 30) counts.

## Model

| member | source | states |
|---|---|---|
| Text.IntCastOfDigits | src/Commands/CleanOldLogFilesCommand.php:53 | `(int)` of a string of decimal digits is the number those digits spell |
| Text.NatToStringRoundTrip | src/Commands/CleanOldLogFilesCommand.php:58 | the decimal text an integer is interpolated as reads back as that integer |
| Text.NatToStringInjective | src/Commands/FindDuplicateClassesAndFiles.php:150 | different indices interpolate to different texts |
| Text.LeadingDigitsOfDigits | src/Commands/CleanOldLogFilesCommand.php:53 | the cast reads every digit of an all-digit string |
| Text.ToLowerIdempotent | src/LaravelMaintenanceToolsServiceProvider.php:135 | `strtolower` applied twice is `strtolower` applied once |
| Text.ToLowerToUpper | src/LaravelMaintenanceToolsServiceProvider.php:135 | lower-casing an upper-cased lower-case name gives the name back |
| Text.IndexOf | src/Commands/ScanNonTestMethods.php:80 | the result is the leftmost occurrence at or after `from`, or none exists |
| Text.IndexOfFromStart | src/Commands/ScanNonTestMethods.php:77-80 | `strpos(...) !== false` holds iff the needle occurs, and `strpos(...) === 0` iff the text starts with it |
| Text.ContainsAppendLeft | src/Commands/FindDuplicateClassesAndFiles.php:109-121 | text found in a part of the output is still found after more is appended |
| Text.ContainsAppendRight | src/Commands/FindDuplicateClassesAndFiles.php:109-121 | text found in a later part of the output is found in the whole |
| Schedule.DayNumber | src/LaravelMaintenanceToolsServiceProvider.php:123-136 | a known weekday name (in any case) maps to its index in sunday..saturday; any other name maps to 1 |
| Schedule.DayNumberIgnoresCase | src/LaravelMaintenanceToolsServiceProvider.php:135 | the day number depends only on the lower-cased name |
| Schedule.DayNumberOfName | src/LaravelMaintenanceToolsServiceProvider.php:125-135 | each table name, lower or upper case, maps to its own number |
| Schedule.DayNamesDistinct | src/LaravelMaintenanceToolsServiceProvider.php:125-133 | the seven weekday keys are distinct, so the lookup is a function |
| Schedule.DayNamesAreLowerCase | src/LaravelMaintenanceToolsServiceProvider.php:125-133 | every key is already lower case, so `strtolower` input can reach it |
| Schedule.UnknownDayIsMonday | src/LaravelMaintenanceToolsServiceProvider.php:135 | an unknown day name falls back to Monday (1) |
| Schedule.BeforeColon | src/LaravelMaintenanceToolsServiceProvider.php:89 | the hour field of `HH:MM` is the longest colon-free prefix of the time |
| Schedule.ScheduleCommand | src/LaravelMaintenanceToolsServiceProvider.php:84 | every call yields one event for the given command, whatever the frequency |
| Schedule.RegisteredEvents | src/LaravelMaintenanceToolsServiceProvider.php:57-71 | at most two events, only the two commands, temp files first; the call raises iff a present entry lacks `enabled`; temp files are scheduled iff their entry has a truthy `enabled`, old logs iff theirs does and the temp-files gate did not raise first |
| Schedule.OnlyTaskKeysAreRead | src/LaravelMaintenanceToolsServiceProvider.php:60-70 | configurations that agree on the two task keys schedule the same events |
| Schedule.DisabledIsNotScheduled | tests/ScheduleTest.php:150-176 | an entry whose `enabled` is false or missing schedules nothing, and a missing one raises |
| Schedule.MissingFieldsDefault | src/LaravelMaintenanceToolsServiceProvider.php:80-98 | no frequency, time or day means weekly on Monday at 00:00 |
| Schedule.DefaultTimeIsMidnight | src/LaravelMaintenanceToolsServiceProvider.php:81 | the default time `00:00` is hour 0, minute 0 |
| Schedule.DefaultDayIsMonday | src/LaravelMaintenanceToolsServiceProvider.php:93 | the default day `monday` is day 1 |
| Schedule.DigitsTime | src/LaravelMaintenanceToolsServiceProvider.php:89 | an `HH:MM` time of digits splits into the hour and minute those digits spell |
| Schedule.TwoDigitTime | src/LaravelMaintenanceToolsServiceProvider.php:89 | a two-digit `HH:MM` time gives hour and minute from its digit pairs |
| Text.TwoDigitsValue | src/LaravelMaintenanceToolsServiceProvider.php:89 | a two-digit field is ten times its first digit plus its second |
| Schedule.NoColonInDigits | src/LaravelMaintenanceToolsServiceProvider.php:89 | a digit field has no colon, so the split stops at the separator |
| Schedule.BeforeColonOf | src/LaravelMaintenanceToolsServiceProvider.php:89 | the hour field of `a:b` is `a` when `a` has no colon |
| Schedule.DailyExpression | src/LaravelMaintenanceToolsServiceProvider.php:88-90 | a daily `HH:MM` task gets the cron line `MM HH * * *` |
| Schedule.WeeklyExpression | src/LaravelMaintenanceToolsServiceProvider.php:92-98 | a weekly `HH:MM` task gets `MM HH * * D` with D the day number |
| Schedule.CustomKeepsCron | src/LaravelMaintenanceToolsServiceProvider.php:112-116 | `custom` with a `cron` value uses that value verbatim |
| Schedule.FallThroughKeepsDefault | src/LaravelMaintenanceToolsServiceProvider.php:84-117 | for any command and entry, an unknown frequency, or `custom` without `cron`, yields that command's event with the initial expression |
| Schedule.TimeFields | src/LaravelMaintenanceToolsServiceProvider.php:89 | a zero-padded `HH:MM` gives back the hour and minute it was written from |
| Schedule.ShippedConfiguration | config/maintenance-tools.php:45-64 | the shipped configuration schedules temp files at `0 1 * * 1` and old logs at `0 2 * * 1`, in that order |
| Schedule.ShippedWeekly | config/maintenance-tools.php:46-59 | a weekly Monday `01:00` or `02:00` entry becomes `weeklyOn(1, hour, 0)` |
| Schedule.WeeklyAtHour | tests/ScheduleTest.php:58-98 | `weeklyOn(1, 1 or 2, 0)` has the cron text `0 1 * * 1` or `0 2 * * 1` |
| Schedule.OClock | config/maintenance-tools.php:50 | `01:00` and `02:00` are 1 and 2 o'clock |
| Schedule.DailyExample | tests/ScheduleTest.php:100-120 | daily at `03:30` gives `dailyAt(3, 30)`, whose cron text is `30 3 * * *` |
| Schedule.HalfPastThree | tests/ScheduleTest.php:107 | `03:30` is hour 3, minute 30 |
| Schedule.DailyAtHalfPastThree | tests/ScheduleTest.php:118-119 | `dailyAt(3, 30)` has the cron text `30 3 * * *` |
| Schedule.CronTextParts | src/LaravelMaintenanceToolsServiceProvider.php:89-97 | the cron text of a daily or weekly expression is minute, hour, `* *` and weekday (or `*`) |
| Schedule.CustomExample | tests/ScheduleTest.php:125-145 | a custom `0 4 * * 1,4` task keeps that expression |
| Schedule.MissingEnabledRaises | src/LaravelMaintenanceToolsServiceProvider.php:63-71 | as written, a temp-files entry without `enabled` raises before anything is scheduled, losing the enabled old-logs task too; the intended gate schedules both |
| Schedule.IntendedGate | src/LaravelMaintenanceToolsServiceProvider.php:63-69 | with the intended gate, a missing `enabled` schedules and an explicit one decides; when every task entry states `enabled`, the code as written raises nothing and registers what the intended gate does |
| LogIndex.Capture | src/Commands/FindDuplicateClassesAndFiles.php:160 | the `(\d+)` group of a match is a non-empty run of digits |
| LogIndex.LogIndexOf | src/Commands/FindDuplicateClassesAndFiles.php:160-161 | only a path ending in `.log` has an index |
| LogIndex.LogIndexOfIsRegex | src/Commands/FindDuplicateClassesAndFiles.php:160-161 | a path has an index iff `<prefix>(\d+)\.log$` matches it, and the index is the captured number |
| LogIndex.RegexMatchIsFound | src/Commands/FindDuplicateClassesAndFiles.php:160-161 | every regex match is found, with its captured number |
| LogIndex.FoundIsRegexMatch | src/Commands/FindDuplicateClassesAndFiles.php:160 | every index found comes from a regex match |
| LogIndex.TrailingDigitsIs | src/Commands/FindDuplicateClassesAndFiles.php:160 | the digit run before `.log` is the maximal one |
| LogIndex.LogIndexOfLogName | src/Commands/FindDuplicateClassesAndFiles.php:150 | the path `generateLogPath` builds for N reads back as index N |
| LogIndex.FileIndex | src/Commands/FindDuplicateClassesAndFiles.php:155-156 | only names the glob lists can carry an index |
| LogIndex.FileIndexOfLogName | src/Commands/FindDuplicateClassesAndFiles.php:150-160 | a written log name is listed by the glob and reads back as its index |
| LogIndex.MaxIndexIsMaximum | src/Commands/FindDuplicateClassesAndFiles.php:158-163 | the max index bounds every indexed file and is 0 or attained |
| LogIndex.MaxIndexBounds | src/Commands/FindDuplicateClassesAndFiles.php:159-162 | every indexed file's index is at most the max |
| LogIndex.MaxIndexAttained | src/Commands/FindDuplicateClassesAndFiles.php:158-162 | the max is 0 or the index of some listed file |
| LogIndex.NoIndexedFiles | src/Commands/FindDuplicateClassesAndFiles.php:158 | with no indexed file the max is 0, so the first log is number 1 |
| LogIndex.NextLogFileIndex | src/Commands/FindDuplicateClassesAndFiles.php:153-166 | the loop returns max+1, at least 1 and above every existing index |
| LogIndex.NextNonTestLogIndex | src/Commands/ScanNonTestMethods.php:19-30 | the same for the non-test scanner's `if ($idx > $maxIndex)` loop |
| LogIndex.LogPath | src/Commands/FindDuplicateClassesAndFiles.php:150 | a log path ends with `.log` |
| LogIndex.NewLogNameIsFresh | src/Commands/FindDuplicateClassesAndFiles.php:145-151 | the next log name is not already in the logs directory, so no report is overwritten |
| LogIndex.PrefixesAreDelimited | src/Commands/ScanNonTestMethods.php:16 | both prefixes end in `_`, so a digit run after them is the whole capture |
| DuplicateScan.Lookup | src/Commands/FindDuplicateClassesAndFiles.php:80 | a name with no group has no paths |
| DuplicateScan.Replace | src/Commands/FindDuplicateClassesAndFiles.php:80 | replacing a group's paths keeps the key order |
| DuplicateScan.Put | src/Commands/FindDuplicateClassesAndFiles.php:80 | appending to an array key adds exactly that key |
| DuplicateScan.LookupReplace | src/Commands/FindDuplicateClassesAndFiles.php:80 | after a replace, the replaced key has the new paths and every other key keeps its own |
| DuplicateScan.LookupPut | src/Commands/FindDuplicateClassesAndFiles.php:80 | after a put, the key has the new paths and every other key keeps its own |
| DuplicateScan.PutKeepsUnique | src/Commands/FindDuplicateClassesAndFiles.php:80 | array keys stay distinct |
| DuplicateScan.Extension | src/Commands/FindDuplicateClassesAndFiles.php:69 | `getExtension` is the text after the last dot, or empty without one |
| DuplicateScan.IdentRun | src/Commands/FindDuplicateClassesAndFiles.php:83 | `[A-Za-z0-9_]+` takes the longest run of identifier characters |
| DuplicateScan.FirstClassMatch | src/Commands/FindDuplicateClassesAndFiles.php:83 | a result is a position where `class\s+[A-Za-z0-9_]` matches |
| DuplicateScan.FirstClassMatchIsLeftmost | src/Commands/FindDuplicateClassesAndFiles.php:83 | the search finds the leftmost match |
| DuplicateScan.ClassName | src/Commands/FindDuplicateClassesAndFiles.php:83-84 | the captured class name is a non-empty identifier taken from a match |
| DuplicateScan.ClassNameIffMatch | src/Commands/FindDuplicateClassesAndFiles.php:83 | a class name is recorded iff the regex matches somewhere |
| DuplicateScan.ClassNameOfDeclaration | tests/FindDuplicateClassesAndFilesTest.php:65-81 | `class Name…` yields `Name` |
| DuplicateScan.DeclarationAt | src/Commands/FindDuplicateClassesAndFiles.php:83 | a match at the start captures the identifier after the blanks |
| DuplicateScan.DeclarationMatches | src/Commands/FindDuplicateClassesAndFiles.php:83 | `class ` followed by an identifier matches at position 0 |
| DuplicateScan.IdentRunOf | src/Commands/FindDuplicateClassesAndFiles.php:83 | the capture stops exactly at the first non-identifier character |
| DuplicateScan.RecordedGroupsByKey | src/Commands/FindDuplicateClassesAndFiles.php:62-86 | after the walk, each name's group is its old paths followed by the walked `.php` paths with that name, in walk order |
| DuplicateScan.RecordedUnique | src/Commands/FindDuplicateClassesAndFiles.php:80-84 | the walk keeps the array keys distinct |
| DuplicateScan.Duplicates | src/Commands/FindDuplicateClassesAndFiles.php:88-101 | every kept group has more than one path |
| DuplicateScan.DuplicatesNames | src/Commands/FindDuplicateClassesAndFiles.php:90-99 | kept names come from the scanned names |
| DuplicateScan.DuplicatesLookup | src/Commands/FindDuplicateClassesAndFiles.php:90-99 | a name is kept iff it has more than one path, and it keeps all of them |
| DuplicateScan.NotInInit | src/Commands/FindDuplicateClassesAndFiles.php:90 | the last key does not reappear earlier |
| DuplicateScan.LookupHasName | src/Commands/FindDuplicateClassesAndFiles.php:90-99 | among kept groups, a name is present iff it has more than one path |
| DuplicateScan.KeepDuplicatesIsFilter | src/Commands/FindDuplicateClassesAndFiles.php:88-101 | the `findDuplicates` loop equals the filter on count > 1 |
| DuplicateScan.ReportIsEmptyMessageIff | src/Commands/FindDuplicateClassesAndFiles.php:105-107 | the report is the no-duplicates message iff both lists are empty |
| DuplicateScan.FormatPathsLists | src/Commands/FindDuplicateClassesAndFiles.php:129-131 | every path appears as a `    - path` line |
| DuplicateScan.GroupBlockLists | src/Commands/FindDuplicateClassesAndFiles.php:126-131 | a group's block opens with its `  name:` line and lists each of its own paths |
| DuplicateScan.FormatListHasGroup | src/Commands/FindDuplicateClassesAndFiles.php:124-135 | every group's whole block, its name line followed by exactly its paths, is in the formatted list |
| DuplicateScan.ReportListsEveryDuplicate | src/Commands/FindDuplicateClassesAndFiles.php:103-122 | the report starts with the class heading when there are class duplicates and holds every duplicate's block, its name with its own paths |
| DuplicateScan.SectionLists | src/Commands/FindDuplicateClassesAndFiles.php:111-119 | a headed section holds each of its groups' blocks |
| DuplicateScan.DuplicateFinder.ProcessPhpFile | src/Commands/FindDuplicateClassesAndFiles.php:75-86 | the file's path is appended under its file name and, when the regex matches, under its class name |
| DuplicateScan.DuplicateFinder.ScanDirectory | src/Commands/FindDuplicateClassesAndFiles.php:62-73 | both arrays become the walk's `.php` files grouped by key |
| DuplicateScan.DuplicateFinder.FindDuplicates | src/Commands/FindDuplicateClassesAndFiles.php:88-101 | the duplicate lists become the groups with more than one path |
| DuplicateScan.DuplicateFinder.FormatDuplicatesList | src/Commands/FindDuplicateClassesAndFiles.php:124-135 | the loop builds the formatted list |
| DuplicateScan.DuplicateFinder.GenerateOutput | src/Commands/FindDuplicateClassesAndFiles.php:103-122 | the output is the report of the two duplicate lists |
| DuplicateScan.DuplicateFinder.Handle | src/Commands/FindDuplicateClassesAndFiles.php:32-60 | a missing folder gives exit 1, the not-found error and no change; otherwise the report goes to the next numbered log and the run ends with 0 |
| DuplicateScan.DuplicateFinder.ScanAndFind | src/Commands/FindDuplicateClassesAndFiles.php:39-40 | scanning then filtering leaves the grouped and the duplicate arrays |
| DuplicateScan.DuplicateFinder.ScanAndReport | src/Commands/FindDuplicateClassesAndFiles.php:39-47 | the report of the scan is written to `duplicate_scan_<max+1>.log` |
| DuplicateScan.FreshRunDuplicates | tests/FindDuplicateClassesAndFilesTest.php:65-100 | in a fresh run a name is reported iff more than one `.php` file has it, with those paths in walk order |
| NonTestMethods.ClassNameAfter | src/Commands/ScanNonTestMethods.php:49-54 | the result is the first T_STRING at or after the position, or none exists |
| NonTestMethods.FunctionName | src/Commands/ScanNonTestMethods.php:60 | a name is read iff the token two after `function` is a token with text |
| NonTestMethods.ScanUpToIsReference | src/Commands/ScanNonTestMethods.php:47-86 | the token loop's state is the latest class name, the pending doc comment and the qualifying methods |
| NonTestMethods.QualifyingNamesPassFilter | src/Commands/ScanNonTestMethods.php:74-83 | every collected name is public, not `test…`, not `setUp`, with an `@test` doc comment |
| NonTestMethods.QualifyingFunctionIsCollected | src/Commands/ScanNonTestMethods.php:74-83 | every function that passes the filter is collected |
| NonTestMethods.DocCommentUsedOnce | src/Commands/ScanNonTestMethods.php:84 | a doc comment applies to one function only |
| NonTestMethods.PublicScanIsSearch | src/Commands/ScanNonTestMethods.php:61-73 | the backward search finds `public` iff one occurs before any stopping token, above index 0 |
| NonTestMethods.PublicScanSkipsFirstToken | src/Commands/ScanNonTestMethods.php:62 | the search never looks at token 0 |
| NonTestMethods.PublicStaticIsNotPublic | src/Commands/ScanNonTestMethods.php:67 | `public static function` is not counted as public |
| NonTestMethods.PublicFunctionIsPublic | src/Commands/ScanNonTestMethods.php:63-65 | `public function` (whitespace between) is public |
| NonTestMethods.ClassNameAfterClassToken | src/Commands/ScanNonTestMethods.php:48-55 | the class name is the identifier after the latest `class` token |
| NonTestMethods.LatestClassNameAt | src/Commands/ScanNonTestMethods.php:48-55 | the same for the reference function |
| NonTestMethods.FindClassName | src/Commands/ScanNonTestMethods.php:49-54 | the `$j` loop returns the first T_STRING |
| NonTestMethods.IsPublic | src/Commands/ScanNonTestMethods.php:61-73 | the `$k` loop decides `public` as the backward search does |
| NonTestMethods.ScanFile | src/Commands/ScanNonTestMethods.php:42-86 | the `$i` loop ends with the latest class name and exactly the qualifying methods |
| NonTestMethods.FileReportContents | src/Commands/ScanNonTestMethods.php:88-93 | a file has a section iff it has a truthy class name and some method; the section names the class, the file and every method |
| NonTestMethods.MethodLinesList | src/Commands/ScanNonTestMethods.php:90-92 | every method appears as a `  - name` line |
| NonTestMethods.ReportFile | src/Commands/ScanNonTestMethods.php:88-93 | the loop builds the file's section |
| NonTestMethods.MatchedText | src/Commands/ScanNonTestMethods.php:36-39 | the matched text is a prefix of the path |
| NonTestMethods.Handle | src/Commands/ScanNonTestMethods.php:13-98 | the log goes to `non_test_methods_<max+1>.log`, holds the sections of the matching files in walk order, and the message names it |
| MigrationRepair.MigrationName | src/Commands/RepairMigrationTableCommand.php:73 | `basename($f, '.php')` strips a `.php` suffix unless that is the whole name |
| MigrationRepair.MigrationNameOfFile | src/Commands/RepairMigrationTableCommand.php:73 | `name.php` becomes `name` |
| MigrationRepair.MaxBatch | src/Commands/RepairMigrationTableCommand.php:64-69 | there is no latest batch iff the table is empty |
| MigrationRepair.MaxBatchIsMaximum | src/Commands/RepairMigrationTableCommand.php:66-68 | the latest batch bounds every row's batch and is some row's batch |
| MigrationRepair.RepairedOnlyInserts | src/Commands/RepairMigrationTableCommand.php:71-90 | existing rows stay; each new row is a listed file's name, in the new batch, not already present |
| MigrationRepair.RepairedCovers | src/Commands/RepairMigrationTableCommand.php:52-54 | afterwards every listed file other than `.` and `..` has a row |
| MigrationRepair.DirectoryEntriesIgnored | src/Commands/RepairMigrationTableCommand.php:45-53 | `.` and `..` change nothing |
| MigrationRepair.MigrationsTable.LatestBatch | src/Commands/RepairMigrationTableCommand.php:64-69 | the query returns the largest batch, or nothing on an empty table |
| MigrationRepair.MigrationsTable.HasMigration | src/Commands/RepairMigrationTableCommand.php:75-77 | the lookup finds a row iff one has that name |
| MigrationRepair.MigrationsTable.ProcessMigrationFile | src/Commands/RepairMigrationTableCommand.php:71-82 | a row is inserted in batch latest+1 iff none has the name |
| MigrationRepair.MigrationsTable.Handle | src/Commands/RepairMigrationTableCommand.php:45-62 | an unreadable migrations folder raises first; then an empty table is a TypeError; neither writes anything; otherwise exit 0 and the table is the repaired table |
| MigrationRepair.OneMissingMigration | tests/RepairMigrationTableCommandTest.php:41-80 | one migration in batch 1 plus a missing one: the missing one is inserted in batch 2 |
| OldLogs.Expired | src/Commands/CleanOldLogFilesCommand.php:69-88 | a file is deleted iff the glob lists it and it was modified before the cutoff |
| OldLogs.Candidates | src/Commands/CleanOldLogFilesCommand.php:69 | the glob lists exactly the non-hidden names directly in the directory with the extension |
| OldLogs.OlderThan | src/Commands/CleanOldLogFilesCommand.php:83 | exactly the candidates modified before the cutoff |
| OldLogs.LogStore.Delete | src/Commands/CleanOldLogFilesCommand.php:84 | `delete` removes the file unless its unlink fails, and reports which |
| OldLogs.LogStore.DeleteOlderThan | src/Commands/CleanOldLogFilesCommand.php:77-88 | the loop removes the old candidates that can be deleted and counts every old candidate |
| OldLogs.CleanOldLogs | src/Commands/CleanOldLogFilesCommand.php:51-94 | a missing directory gives exit 1 and no change; no candidates gives the no-files message; otherwise the deletable old files are removed and every old file is counted |
| OldLogs.PruneExactly | src/Commands/CleanOldLogFilesCommand.php:79-88 | every file that is not an old candidate is kept with its time |
| OldLogs.LongerRetentionDeletesLess | src/Commands/CleanOldLogFilesCommand.php:55 | a longer retention deletes a subset |
| OldLogs.AgeAgainstRetention | src/Commands/CleanOldLogFilesCommand.php:83 | a file `age` days old is deleted iff `age > days` |
| OldLogs.SixteenDaysOld | tests/CleanOldLogFilesCommandTest.php:153-186 | a 16-day-old file goes with `--days=15` and stays with 30 |
| OldLogs.DefaultRetention | src/Commands/CleanOldLogFilesCommand.php:23 | the default `--days=30` reads as 30 |
| OldLogs.TwoDigitCast | src/Commands/CleanOldLogFilesCommand.php:53 | a two-digit option casts to the number it spells |
| TempFiles.Leftover | src/Commands/CleanTemporaryFilesCommand.php:53-55 | what remains after cleaning is a subset of the files and holds every file that could not be removed |
| TempFiles.LeftoverIdempotent | src/Commands/CleanTemporaryFilesCommand.php:53 | cleaning twice leaves what cleaning once leaves |
| TempFiles.MessagesAt | src/Commands/CleanTemporaryFilesCommand.php:49-70 | one line per configured directory, in order, naming it; it is an error line iff the directory is missing or not emptied |
| TempFiles.CleanedAll | src/Commands/CleanTemporaryFilesCommand.php:49-70 | only the configured directories are cleaned and nothing is created |
| TempFiles.SecondRunChangesNothing | src/Commands/CleanTemporaryFilesCommand.php:45-76 | running the command again changes no directory |
| TempFiles.TempStore.CleanDirectory | src/Commands/CleanTemporaryFilesCommand.php:53 | `cleanDirectory` leaves only what cannot be removed |
| TempFiles.TempStore.CleanTempFiles | src/Commands/CleanTemporaryFilesCommand.php:45-76 | every configured directory is cleaned, the lines are printed in order ending with the completion line, and the status is 1 iff some directory failed |
| TempFiles.CleanedAllStep | src/Commands/CleanTemporaryFilesCommand.php:49-53 | each loop iteration cleans only its own directory |
| TempFiles.FailsStep | src/Commands/CleanTemporaryFilesCommand.php:57-68 | the status after an iteration is 1 iff it was 1 or this directory failed |
| TempFiles.StatusIffErrorLine | src/Commands/CleanTemporaryFilesCommand.php:57-75 | the status is 1 iff some printed line is an error |

## Left out

- The filesystem, the database, `Carbon::now()`, PHP's tokenizer and the
  recursive directory walk are inputs. The model takes file listings,
  modification times, table rows and token sequences as parameters, in the
  order the walk or the query yields them.
- PHP integers are unbounded here. In PHP, `(int)` of a numeric string
  beyond the 64-bit range saturates at `PHP_INT_MAX`, and `$maxIndex + 1`
  then becomes a float, so the log name would read `…_9.2233720368548E+18.log`.
  Neither is modelled.
- Text.IntCast: reads an optional sign and the leading decimal digits only.
  PHP 8's cast also reads a fraction and an exponent: `(int)"1e2"` is 100
  where the model gives 1.
- Timestamps are whole seconds and a day is 86400 seconds. Daylight-saving
  shifts in `subDays` and Carbon's sub-second precision are not modelled.
- OldLogs.CleanOldLogs: the per-file `Deleted: <name> (Created: Y-m-d)`
  lines are left out, and so is the order of deletions, because the
  candidates are a set. Date formatting needs a calendar, which is not
  part of this model.
- The `Log::info` / `Log::error` facade calls duplicate the console lines
  into the application log and are left out.
- `exists` on a logs path that is a file rather than a directory is not
  modelled: the logs path is either a directory or missing.
- The glob of `logs:clean-old` may also list directories whose names end
  with the extension. The model lists only files.
- The migrations table is compared by exact string equality. The
  database's collation is not modelled.
- Schedule.ScheduleCommand: `monthlyOn`, `quarterlyOn` and `yearlyOn` are
  kept as the arguments they are called with, and the scheduler's initial
  expression is a constant. Their cron text belongs to the framework's
  scheduler, which is not part of this model.
- Schedule.RegisterScheduledTasks: the exception a missing `enabled`
  raises is an outcome flag; what Laravel's boot does with it afterwards is
  not modelled.
- TempFiles.TempStore.CleanTempFiles: the configured directories are
  independent entries, assumed disjoint. Cleaning a directory does not
  remove another configured directory nested inside it, which the source
  deletes and then reports as missing with status 1. A directory's
  contents are the entries `files()` lists, the non-hidden regular files at
  its top level; hidden files and subdirectories that survive cleaning are
  not modelled.
- The package facade, `configurePackage` and the `boot` hook only wire the
  commands into Laravel and are left out.
- `log_retention_days` in the configuration is never read by the commands
  and has no model.
- The non-test scanner's handling of files that cannot be read
  (`file_get_contents` returning false) is not modelled: each file comes
  with its tokens.

## Findings

| source | as written | input that shows it | evidently intended | confidence | as-written member | corrected member |
|---|---|---|---|---|---|---|
| src/LaravelMaintenanceToolsServiceProvider.php:63 | `isset($c['k']) && $c['k']['enabled'] ?? true` parses as `(isset(..) && $c['k']['enabled']) ?? true`, so the `??` does not guard the read: a missing `enabled` raises an undefined-array-key warning, which Laravel turns into an `ErrorException` in the booted callback (line 68 likewise) | `schedule => ['clean_temp_files' => ['frequency' => 'daily'], 'clean_old_logs' => ['enabled' => true]]` raises and schedules nothing, not even the enabled old-logs task | an entry without `enabled` is scheduled, `enabled => false` is not | high, not executed | Schedule.MissingEnabledRaises | Schedule.IntendedGate |
