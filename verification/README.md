# robo-db-dumper, modelled in Dafny

robo-db-dumper is a set of Robo commands for copying a production MySQL
database into a development one. An abstract `RoboFile` holds the settings a
project declares:

- host, database, DSN, user and password;
- the dump directory and file names;
- the accounts whose grants are copied;
- the per-table data filters and the excluded tables.

From these it builds four dump commands:

- `db:dump-schema`;
- `db:dump-data-full`;
- `db:dump-data-partial`, which keeps only rows between two dates;
- `db:dump-grants`.

`db:initialize-dev` runs the four in order and stops at the first failure.

The grants dump is handled by the `DumpGrants` task. It reads `SHOW GRANTS`
for an account and rewrites each line. The source account can become a
destination account. The redacted MySQL 5.6 password clause is cut out, and
`GRANT USAGE` lines can be given a new password. The source database can be
renamed. Each line then ends with `;`.

The project has five modules:

- `Php` (`php.dfy`): the PHP value semantics the code relies on.
  - `null` is an `Option`.
  - `empty()` is true for `null`, `""` and `"0"`.
  - `null` reads as `""` in string context.
  - Ordered string-keyed arrays are association lists.
- `Text` (`text.dfy`): `explode`, `implode` and literal replace-all. It also
  holds the lemmas about them, among them that replace-all equals
  `implode(rep, explode(pat, s))`.
- `DumpGrants` (`dump_grants.dfy`): the Robo task's setters, its three line
  rewrites, the line terminator, and the guards and row loop of `run`.
- `GrantExamples` (`grant_examples.dfy`): the `DumpGrants` task applied to the MySQL 5.6
  usage grant of `'bob'@'%'`.
- `RoboFile` (`robo_file.dfy`), which models:
  - construction and the derived DSN;
  - password caching;
  - the settings each dump command hands to its dump task;
  - the grants collection run end to end;
  - the `db:initialize-dev` sequence.

Some behaviour of the code is worth stating up front:

- `replaceUser` replaces every occurrence of the source account, not only the
  first.
- `replacePassword` never puts the password in place of `<secret>`. It cuts
  the whole ` IDENTIFIED BY PASSWORD <secret>` clause, and only for a
  `GRANT USAGE ON` line does it append ` IDENTIFIED BY '<pw>'`.
  `GrantExamples.BobGetsPassword` shows the result.
- Rewriting a line twice is not a no-op: a second pass appends a second `;`.
  With no destination configured the line then ends in `;;`
  (`DumpGrants.PrepareTwiceDoublesTerminator`).
- `db:dump-data-full` accepts `--exclude-tables` but never reads it.
- The constructor derives a DSN whose last parameter is spelled `chartset`
  (see Findings). `RoboFile.Construct` keeps that spelling;
  `RoboFile.ConstructCorrected` is the same constructor with `charset`.

## Model

| member | source | states |
|---|---|---|
| DumpGrants.New | src/Task/Mysql/DumpGrants.php:60-65 | a new task keeps the three connection values, and every other property is null |
| DumpGrants.SourceUser | src/Task/Mysql/DumpGrants.php:67-73 | sets source user and host together; every other property is left as it was |
| DumpGrants.SourceDatabase | src/Task/Mysql/DumpGrants.php:75-80 | sets the source database only |
| DumpGrants.DestinationUser | src/Task/Mysql/DumpGrants.php:82-88 | sets destination user and host together; nothing else changes |
| DumpGrants.DestinationPassword | src/Task/Mysql/DumpGrants.php:91-96 | sets the destination password only |
| DumpGrants.DestinationDatabase | src/Task/Mysql/DumpGrants.php:98-103 | sets the destination database only |
| DumpGrants.ToFile | src/Task/Mysql/DumpGrants.php:105-110 | sets the output file only |
| DumpGrants.Append | src/Task/Mysql/DumpGrants.php:112-117 | sets the append flag only |
| DumpGrants.ReplaceUser | src/Task/Mysql/DumpGrants.php:119-128 | without a destination user the line is returned as is; otherwise every `'user'@'host'` of the source becomes the destination account and the text between occurrences is kept; a line without the source account is unchanged |
| DumpGrants.ReplacePassword | src/Task/Mysql/DumpGrants.php:130-141 | the result starts with the line minus every redacted clause; something is appended exactly when a destination password is set and the cut line starts with `GRANT USAGE ON`; what is appended is the password clause; with no password and no redacted clause the line is unchanged |
| DumpGrants.ReplaceDatabase | src/Task/Mysql/DumpGrants.php:143-150 | without a destination database the line is returned as is; otherwise every backtick-quoted source database becomes the destination one and the text between is kept |
| DumpGrants.PrepareLineForOutput | src/Task/Mysql/DumpGrants.php:152-158 | every output line ends in `;`, and without it is the user, password and database rewrites applied in that order |
| DumpGrants.Stripped | src/Task/Mysql/DumpGrants.php:132-133 | cutting the redacted clause is a replace-all by the empty text, and a line without the clause is unchanged |
| DumpGrants.PrepareLines | src/Task/Mysql/DumpGrants.php:190-192 | one output line per row, in row order, each the rewrite of its row |
| DumpGrants.Run | src/Task/Mysql/DumpGrants.php:160-195 | guards in order: PDO extension, source user and host, file, at least one row, each with its own error; succeeds exactly when all pass; then writes to the task's file with its append flag one rewritten line per row in row order |
| DumpGrants.GuardsPrecedeQuery | src/Task/Mysql/DumpGrants.php:160-184 | a failing configuration guard gives the same error whatever rows the query would return |
| DumpGrants.NoDestinationOnlyStrips | src/Task/Mysql/DumpGrants.php:130-158 | with no destination configured a line only loses its redacted clauses and gains `;`; a line without the clause just gains `;` |
| DumpGrants.StrippedAppendTerminator | src/Task/Mysql/DumpGrants.php:133 | cutting the redacted clause commutes with appending `;` |
| DumpGrants.PrepareTwiceStripsTwice | src/Task/Mysql/DumpGrants.php:152-158 | with no destination configured, rewriting the output again strips again and appends a second terminator |
| DumpGrants.PrepareTwiceDoublesTerminator | src/Task/Mysql/DumpGrants.php:152-158 | with no destination user, password or database configured, a second pass over an output line strips again and ends in `;;` (the line itself followed by `;;` when it had no redacted clause), so rewriting is not idempotent |
| DumpGrants.PasswordOnlyForUsageLines | src/Task/Mysql/DumpGrants.php:130-158 | with only a destination password set, every line first loses its redacted clauses; if what is left starts with `GRANT USAGE ON` it gets the password clause and then `;`, otherwise only `;`; a line without the redacted clause is left as it was before that |
| DumpGrants.UsageSecretBecomesPassword | src/Task/Mysql/DumpGrants.php:130-141 | with only a destination password configured, a usage grant whose text before the trailing redacted clause holds no `>` comes out with that clause replaced by the clause setting the destination password |
| DumpGrants.SameAccountUnchanged | src/Task/Mysql/DumpGrants.php:119-128 | mapping an account onto itself leaves every line unchanged |
| DumpGrants.PrepareLinesAppend | src/Task/Mysql/DumpGrants.php:190-192 | rows are rewritten one by one: the lines for two batches are the first batch's lines followed by the second's |
| GrantExamples.MoveBobToAlice | src/Task/Mysql/DumpGrants.php:152-158 | Bob's redacted usage grant moved to `'alice'@'10.0.0.1'` comes out as `GRANT USAGE ON *.* TO 'alice'@'10.0.0.1';` |
| GrantExamples.BobGetsPassword | src/Task/Mysql/DumpGrants.php:130-141 | with destination password `s3cret`, Bob's usage grant comes out with `IDENTIFIED BY 's3cret'` in place of the whole redacted clause |
| Text.ReplaceAll | src/Task/Mysql/DumpGrants.php:124 | a replacement as long as the pattern keeps the length, and a shorter one never lengthens the text |
| Text.Split | src/RoboFile.php:89 | `explode` gives at least one piece, and imploding the pieces with the separator gives the text back |
| Text.ReplaceAllIsImplodeExplode | src/Task/Mysql/DumpGrants.php:124 | literal replace-all equals imploding the exploded pieces with the replacement |
| Text.ReplaceAllRemovesAll | src/RoboFile.php:195-196 | when the replacement is non-empty and shares no character with the pattern, no occurrence of the pattern survives a replace-all, not even one formed across a replacement; with the empty replacement this fails (`"aabb"` with pattern `ab` leaves `ab`) |
| Text.SplitJoinRoundTrip | src/RoboFile.php:89 | `explode` on a one-character separator gives back exactly the pieces that were imploded, when none holds the separator |
| Php.Lookup | src/RoboFile.php:53-57 | the filter stored under a table, or none exactly when the table has no filter |
| Php.RemoveKey | src/RoboFile.php:197 | removing a key keeps every other key's value, keeps keys distinct and adds no entry |
| RoboFile.Subclass | src/RoboFile.php:22-30 | the base class defaults: user `root`, files `00-Schema.sql`, `05-FullTables.sql` and `9999-Grants.sql`, no password and no DSN |
| RoboFile.Construct | src/RoboFile.php:32-47 | fails exactly when hostname, database or dumpDir is null, reporting the first null one in that order; otherwise keeps every property and, when no DSN is declared, derives `mysql:host=<host>;dbname=<database>;chartset=utf8` as written |
| RoboFile.DefaultDsnAsWritten | src/RoboFile.php:44-46 | the derived DSN as written: `mysql:host=`, the host, `;dbname=`, the database, `;chartset=utf8` |
| RoboFile.DefaultDsn | src/RoboFile.php:44-46 | the intended derived DSN, ending in `;charset=utf8` |
| RoboFile.ConstructCorrected | src/RoboFile.php:32-47 | fails exactly when `Construct` fails, with the same error; otherwise differs from it only in the DSN, which is the declared one or else the corrected derived one |
| RoboFile.ConstructLosesCharset | src/RoboFile.php:44-46 | with no DSN declared and no `;` in host or database, the constructor as written succeeds and its DSN gives back host and database but no character set |
| RoboFile.ConstructCorrectedKeepsCharset | src/RoboFile.php:44-46 | with no DSN declared and no `;` in host or database, the corrected constructor's DSN gives back host, database and `utf8` |
| RoboFile.FindParameter | src/RoboFile.php:45 | a DSN parameter is found exactly when some piece starts with `key=` |
| RoboFile.DsnPieces | src/RoboFile.php:45 | when host, database and key hold no `;`, a derived DSN splits into exactly the host, database and character-set parameters |
| RoboFile.ReadDerivedPieces | src/RoboFile.php:45 | those parameters give back host and database, and a character set only when the key is spelled `charset` |
| RoboFile.DefaultDsnReadsBack | src/RoboFile.php:44-46 | the corrected DSN gives the driver back the host, the database and `utf8` |
| RoboFile.DsnAsWrittenLosesCharset | src/RoboFile.php:44-46 | when host and database hold no `;`, the DSN as written gives back host and database but no character set |
| RoboFile.GetPassword | src/RoboFile.php:60-71 | a truthy given password wins; otherwise the cached one; the user is asked exactly when neither exists; the result is cached |
| RoboFile.PasswordAskedAtMostOnce | src/RoboFile.php:60-71 | after one call no later call asks again, and without a new password it returns the same value |
| RoboFile.FileOrDefault | src/RoboFile.php:81 | the `--file` option when given, otherwise the default name inside the dump directory |
| RoboFile.TableList | src/RoboFile.php:88-94 | an empty option gives no tables; otherwise comma-free names that rejoin with `,` to the option |
| RoboFile.TableListRoundTrip | src/RoboFile.php:88-94 | at least one comma-free table name, whose joined option is not empty in PHP's sense (not `""` or `"0"`), comes back unchanged |
| RoboFile.DumpSchema | src/RoboFile.php:73-109 | a schema-only, non-locking dump with the command file's DSN, user and password, to `--file` or the schema file; the include and exclude lists are empty without their option and otherwise are comma-free names that rejoin with `,` to the option |
| RoboFile.DumpSchemaKeepsTableLists | src/RoboFile.php:88-94 | at least one comma-free table name for each of the include and exclude options, neither option empty in PHP's sense (not `""` or `"0"`), reaches the schema task unchanged and in order |
| RoboFile.DumpDataFull | src/RoboFile.php:111-149 | a data-only, non-locking dump to `--file` or the full-tables file; the include list is the comma-free split of `--include-tables`; excludes are the default excludes followed by the filtered tables in filter order, or none when default excludes are ignored |
| RoboFile.FullDumpIgnoresExcludeOption | src/RoboFile.php:124-134 | the full-data dump is the same whatever `--exclude-tables` says |
| RoboFile.Without | src/RoboFile.php:184-186 | `array_diff`: a table is kept exactly when it is listed and not excluded |
| RoboFile.WithoutNothing | src/RoboFile.php:184-186 | excluding no table keeps the list as it is |
| RoboFile.WithoutAppend | src/RoboFile.php:184-186 | `array_diff` keeps the order of the remaining tables |
| RoboFile.DefaultPartialOptions | src/RoboFile.php:155-162 | no directory, no append, no table lists, starting sequence `10` |
| RoboFile.PartialTables | src/RoboFile.php:178-186 | the covered tables are `--include-tables` split on commas, or the filtered tables without that option, with every table of `--exclude-tables` removed and the order of the rest kept; by default they are the filtered tables in order |
| RoboFile.Substitute | src/RoboFile.php:195-196 | the `:startDate` occurrences are replaced first and the `:endDate` ones in that result, each as implode of the explode; a filter without placeholders is unchanged |
| RoboFile.DateAvoidsPlaceholders | src/RoboFile.php:195-196 | a quoted `Y-m-d` date shares no character with either placeholder |
| RoboFile.SubstituteFillsPlaceholders | src/RoboFile.php:195-196 | with well-formed dates no placeholder is left, and no new text appears except what the dates supply |
| RoboFile.FirstMissingShifts | src/RoboFile.php:189-193 | the first table without a filter in the tail is the first in the whole list when the head has one |
| RoboFile.FirstOccurrences | src/RoboFile.php:188-198 | the tables in the order they first appear, each once; it holds exactly the listed tables |
| RoboFile.FirstOccurrencesCons | src/RoboFile.php:188-198 | seen from the front, the first table comes first and the first occurrences of the rest follow without it |
| RoboFile.KeysRemoveKey | src/RoboFile.php:197 | removing a key from an ordered array keeps the other keys in order |
| RoboFile.PrependKeepsFirstOccurrences | src/RoboFile.php:188-198 | the head table's entry in front of the tail's result without that table lists the keys in first-occurrence order |
| RoboFile.ExtendCover | src/RoboFile.php:188-198 | adding the head table's filled filter keeps each listed table mapped once to its filled filter and adds no other key |
| RoboFile.ExtendFilters | src/RoboFile.php:188-198 | adding the head table's filled filter keeps each listed table mapped once to its filled filter, with the keys in first-occurrence order |
| RoboFile.PartialFilters | src/RoboFile.php:188-198 | succeeds exactly when every listed table has a filter; otherwise reports the first table without one; on success maps every listed table, once, to its filter with both dates filled in, the keys being the tables in order of first occurrence (assigning an existing key of a PHP array keeps its position) |
| RoboFile.FiltersFilled | src/RoboFile.php:195-197 | filters filled with well-formed dates have no placeholder left |
| RoboFile.DumpDataPartial | src/RoboFile.php:152-215 | an ill-formed start date, then an ill-formed end date, is reported; then it succeeds exactly when every covered table has a filter, else names one without; on success the task gets the directory, sequence, append flag and the filled filters of exactly the covered tables, keyed in order of their first occurrence |
| RoboFile.DefaultPartialDumpSucceeds | src/RoboFile.php:178-198 | with default options and well-formed dates the partial dump succeeds and covers exactly the filtered tables |
| RoboFile.DefaultDumpsAreDisjoint | src/RoboFile.php:131-134 | by default the full-data dump excludes every table whose filter a successful partial dump carries |
| RoboFile.GrantTasks | src/RoboFile.php:231-245 | one task per grant user in order, on that user's account with their password only when they carry one; the first appends as `appendFile` says, every later one appends |
| RoboFile.DumpGrantsCommand | src/RoboFile.php:217-248 | the queued tasks write to `--file` or the grants file with the cached password, and every task's patterns are literal |
| RoboFile.Written | src/Task/Mysql/DumpGrants.php:186-194 | a write appends to the file's lines or replaces them, as its flag says |
| RoboFile.RunWrites | src/RoboFile.php:247 | the collection fails exactly when some task fails, and then with the first failing task's error |
| RoboFile.Outcomes | src/RoboFile.php:229-247 | each queued task's result is its own run against the grants of its account |
| RoboFile.RunGrantTasks | src/RoboFile.php:229-247 | running the collection fails exactly when some queued task's own run fails, and then with the error of the first failing task, all before it having succeeded |
| RoboFile.RunWritesCollects | src/RoboFile.php:243-247 | when every write succeeds and all after the first append, the file holds every write's lines in order |
| RoboFile.DumpGrantsWritesEveryUser | src/RoboFile.php:217-248 | with at least one grant user, the PDO extension loaded, a non-empty grants file name, and a non-empty user and host with at least one grant row for every user, the grants file holds each user's rewritten grants in user order, after the old content only with `--appendFile` |
| RoboFile.CommandArguments | src/RoboFile.php:263-268 | every command is run as `vendor/bin/robo <name>` ending in `--password <pass>`, and only the partial dump gets the two dates in between |
| RoboFile.FirstFailure | src/RoboFile.php:263-277 | the index of the first step with a non-zero status, all before it having succeeded |
| RoboFile.RunSequence | src/RoboFile.php:263-277 | steps run in order until one fails; all steps run exactly when none fails; a failure names the failed command |
| RoboFile.InitializeDevSteps | src/RoboFile.php:254-268 | the four dump commands in order, each with its argument vector |
| RoboFile.InitializeDev | src/RoboFile.php:250-278 | the password is fetched without a command-line value; schema, full, partial and grants dumps run in that order, stopping at the first non-zero status, whose command the error names |
| RoboFile.OnlyPartialDumpGetsDates | src/RoboFile.php:264-268 | only the third command gets the dates, and every command ends with the password |
| RoboFile.FailedStepStopsSequence | src/RoboFile.php:269-276 | when the full-data dump fails, the partial and grants dumps never start and the error is `Command db:dump-data-full failed` |

## Left out

- The PDO connection and the `SHOW GRANTS FOR ?@?` query. They become a parameter: the rows the query returns for an account (`grantsOf`, or `rows` for a single task). Whether the PDO extension is loaded is a boolean parameter.
- The message of `Result::errorMissingExtension`. It belongs to the Robo framework, which is not part of this model, so its text is an assumption.
- `say` output, `askHidden` and the terminal. The typed password is the `answer` parameter.
- RoboFile.GetPassword: `askHidden` can return null when nothing is typed. The model's `answer` is always a string, so a null answer and the caching of it are not represented; `RoboFile.PasswordAskedAtMostOnce` relies on the answer being cached as a string.
- The dump tasks (`taskDumpSchema`, `taskDumpData`, `taskDumpDataPartial`) and `taskWriteToFile` are not run. Each command is modelled by the settings it hands to its task. The grants writer is modelled as appending or replacing the file's lines.
- `Robo::run` runs each command in-process. It is modelled as an oracle from argument vector to exit status. The call also passes `self::class`, which is always the abstract base class `DiabloMedia\Robo\RoboFile` and never the subclass holding the settings; the oracle treats that argument as a fixed constant. Whether Robo can run the configured commands through an abstract class depends on Robo, which is not part of this model.
- `DirectorySeparator` is `/`, PHP's `DIRECTORY_SEPARATOR` on POSIX systems. Windows' `\` is not modelled.
- Each command caches the password it fetched. The model does not thread that cache from one command to the next. `RoboFile.PasswordAskedAtMostOnce` states the caching on its own.
- `DumpDataPartial`: a valid date is the `Y-m-d` text shape. `DateTime::createFromFormat` also accepts some other texts and rolls out-of-range days over; neither is modelled.
- `DumpDataPartial`: the error case only says that the reported table lacks a filter. `RoboFile.PartialFilters` states that it is the first such table.
- `DumpGrants.ReplaceUser`: the model requires the user, host and database used as patterns to hold no PCRE metacharacter or `/`, and their replacements to hold no back-reference. With such characters the unescaped patterns of the code behave differently, and that is not modelled.
- `RoboFile.DefaultDsnReadsBack`: proved only for a host and database without `;`. A `;` would split the DSN into other parameters.
- `RoboFile.FindParameter`: when a key appears twice, the first occurrence wins. The MySQL driver's behaviour for duplicates is not modelled.
- PHP turns numeric-string array keys into integers. Tables are plain strings here.
- `getDefaultDataFilters`, `getDefaultDataExcludes` and `getGrantUsers` are treated as pure functions of the subclass. They are stored as values.
- The `require_once` lines with hard-coded paths are not modelled.
- `src/Task/Mysql/Import.php` and the factory trait `src/Task/Mysql/Tasks.php` are not part of this model.
- PrepareTwiceDoublesTerminator: proved only with no destination configured. With a destination password, a usage line's second pass appends a second password clause before the second `;`, so it does not end in `;;`.
- UsageSecretBecomesPassword: proved only when the text before the trailing clause holds no `>`. Without a `>` the text before can neither hold a clause of its own nor overlap the trailing one; the lines where it does are not covered.
- ReplaceAllRemovesAll: the replacement must be non-empty. With the empty replacement that `Stripped` uses, cutting one clause can join the text around it into a new clause, and `preg_replace` does not cut it again.
- DsnPieces: holds only without `;` in host, database and key. A `;` splits the DSN into other parameters.
- DsnAsWrittenLosesCharset: proved only without `;` in host and database. A host such as `h;charset=latin1` does carry a character set.
- ConstructLosesCharset: proved only without `;` in host and database, as for `DsnAsWrittenLosesCharset`.
- ConstructCorrectedKeepsCharset: proved only without `;` in host and database, as for `DefaultDsnReadsBack`.
- TableListRoundTrip: excluded when the joined option is `""` or `"0"`. `empty()` discards such an option, so a lone table named `0` gives no tables.
- DumpSchemaKeepsTableLists: the same exclusion as `TableListRoundTrip`, for both options.
- DumpGrantsWritesEveryUser: needs at least one grant user, PDO loaded, a non-empty file name and grants for every user. With no users the collection writes nothing, so the file keeps its old content even without `--appendFile`.

## Findings

| source | as written | input that shows it | evidently intended | confidence | as-written member | corrected member |
|---|---|---|---|---|---|---|
| src/RoboFile.php:45 | the derived DSN ends in `;chartset=utf8` | hostname `db`, database `app`: the DSN `mysql:host=db;dbname=app;chartset=utf8` carries no `charset` parameter, so the connection uses the server's default character set | `;charset=utf8` | high; not executed | RoboFile.DefaultDsnAsWritten, RoboFile.Construct, RoboFile.ConstructLosesCharset | RoboFile.DefaultDsn, RoboFile.ConstructCorrected, RoboFile.ConstructCorrectedKeepsCharset |
