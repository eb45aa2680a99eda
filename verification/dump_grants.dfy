/** The DumpGrants task: reads the `SHOW GRANTS` lines of one MySQL account
    and hands them to a file writer, each rewritten for a destination account,
    password and database and terminated by `;`. The database connection and
    the query are replaced by the rows they return. */
module DumpGrants {
  import opened Php
  import opened Text

  /** The task's properties. Apart from the three connection values given to
      the constructor, every property is `null` until its setter is called. */
  datatype Task = Task(
    dsn: string,
    user: string,
    pass: string,
    file: Option<string>,
    sourceUser: Option<string>,
    sourceHost: Option<string>,
    sourceDatabase: Option<string>,
    destinationUser: Option<string>,
    destinationHost: Option<string>,
    destinationPassword: Option<string>,
    destinationDatabase: Option<string>,
    append: Option<bool>)

  /** A freshly constructed task: connection values only. */
  function New(dsn: string, user: string, pass: string): (t: Task)
    ensures t.dsn == dsn && t.user == user && t.pass == pass
    ensures t.file.None? && t.append.None?
    ensures t.sourceUser.None? && t.sourceHost.None? && t.sourceDatabase.None?
    ensures t.destinationUser.None? && t.destinationHost.None?
    ensures t.destinationPassword.None? && t.destinationDatabase.None?
  {
    Task(dsn, user, pass, None, None, None, None, None, None, None, None, None)
  }

  // The fluent setters. Each returns the task with its own properties set and
  // every other property as it was.

  function SourceUser(t: Task, grantUser: string, grantHost: string): (t': Task)
    ensures t'.sourceUser == Some(grantUser) && t'.sourceHost == Some(grantHost)
    ensures t'.(sourceUser := t.sourceUser, sourceHost := t.sourceHost) == t
  {
    t.(sourceUser := Some(grantUser), sourceHost := Some(grantHost))
  }

  function SourceDatabase(t: Task, database: string): (t': Task)
    ensures t'.sourceDatabase == Some(database)
    ensures t'.(sourceDatabase := t.sourceDatabase) == t
  {
    t.(sourceDatabase := Some(database))
  }

  function DestinationUser(t: Task, grantUser: string, grantHost: string): (t': Task)
    ensures t'.destinationUser == Some(grantUser) && t'.destinationHost == Some(grantHost)
    ensures t'.(destinationUser := t.destinationUser, destinationHost := t.destinationHost) == t
  {
    t.(destinationUser := Some(grantUser), destinationHost := Some(grantHost))
  }

  function DestinationPassword(t: Task, password: string): (t': Task)
    ensures t'.destinationPassword == Some(password)
    ensures t'.(destinationPassword := t.destinationPassword) == t
  {
    t.(destinationPassword := Some(password))
  }

  function DestinationDatabase(t: Task, database: string): (t': Task)
    ensures t'.destinationDatabase == Some(database)
    ensures t'.(destinationDatabase := t.destinationDatabase) == t
  {
    t.(destinationDatabase := Some(database))
  }

  function ToFile(t: Task, file: string): (t': Task)
    ensures t'.file == Some(file)
    ensures t'.(file := t.file) == t
  {
    t.(file := Some(file))
  }

  /** `append(bool $append = true)`. The default is not modelled: every
      caller passes a value. */
  function Append(t: Task, append: bool): (t': Task)
    ensures t'.append == Some(append)
    ensures t'.(append := t.append) == t
  {
    t.(append := Some(append))
  }

  /** Characters PCRE treats specially outside a character class, and the
      `/` that delimits the task's patterns. */
  const RegexMeta: string := "\\^$.[]|()?*+{}/"

  /** Characters that start a back-reference in a `preg_replace` replacement. */
  const ReplacementMeta: string := "\\$"

  /** The task builds its user and database patterns from raw property values
      without escaping them. They behave as literal text only when the values
      used as patterns have no metacharacters and the values used as
      replacements have no back-references; the model assumes exactly that,
      and only for a rewrite that is switched on. */
  predicate PatternsLiteral(t: Task)
  {
    && (!Empty(t.destinationUser) ==>
          && NoneOf(Str(t.sourceUser), RegexMeta)
          && NoneOf(Str(t.sourceHost), RegexMeta)
          && NoneOf(Str(t.destinationUser), ReplacementMeta)
          && NoneOf(Str(t.destinationHost), ReplacementMeta))
    && (!Empty(t.destinationDatabase) ==>
          && NoneOf(Str(t.sourceDatabase), RegexMeta)
          && NoneOf(Str(t.destinationDatabase), ReplacementMeta))
  }

  /** An account as it appears in a grant statement: `'user'@'host'`. */
  function AccountToken(user: string, host: string): string
  {
    "'" + user + "'@'" + host + "'"
  }

  /** A database as it appears in a grant statement: `` `name` ``. */
  function DatabaseToken(database: string): string
  {
    "`" + database + "`"
  }

  /** The redacted password clause of MySQL 5.6 `SHOW GRANTS` output. */
  const SecretClause: string := " IDENTIFIED BY PASSWORD <secret>"

  /** Only lines starting with this receive the destination password. */
  const UsagePrefix: string := "GRANT USAGE ON"

  /** The clause that gives an account its password. */
  function PasswordClause(password: string): string
  {
    " IDENTIFIED BY '" + password + "'"
  }

  /** The line with every redacted password clause cut out: the pieces
      between the clauses, concatenated. */
  function Stripped(line: string): (r: string)
    ensures r == ReplaceAll(line, SecretClause, "")
    ensures !Contains(line, SecretClause) ==> r == line
  {
    ReplaceAllIsImplodeExplode(line, SecretClause, "");
    ReplaceAllAbsent(line, SecretClause, "");
    Join(Split(line, SecretClause), "")
  }

  /** With no destination user the line is returned as is. Otherwise every
      occurrence of the source account becomes the destination account and
      the text between occurrences is kept. */
  function ReplaceUser(t: Task, line: string): (r: string)
    requires PatternsLiteral(t)
    ensures Empty(t.destinationUser) ==> r == line
    ensures !Empty(t.destinationUser) ==>
      r == Join(Split(line, AccountToken(Str(t.sourceUser), Str(t.sourceHost))),
                AccountToken(Str(t.destinationUser), Str(t.destinationHost)))
    ensures !Contains(line, AccountToken(Str(t.sourceUser), Str(t.sourceHost))) ==> r == line
  {
    var from := AccountToken(Str(t.sourceUser), Str(t.sourceHost));
    var to := AccountToken(Str(t.destinationUser), Str(t.destinationHost));
    ReplaceAllAbsent(line, from, to);
    ReplaceAllIsImplodeExplode(line, from, to);
    if !Empty(t.destinationUser) then ReplaceAll(line, from, to) else line
  }

  /** Every redacted password clause is cut out. Then, when a destination
      password is set and the cut line starts with `GRANT USAGE ON`, the
      clause giving that password is appended; nothing else is ever added. */
  function ReplacePassword(t: Task, line: string): (r: string)
    ensures StartsWith(r, Stripped(line))
    ensures r == Stripped(line) <==>
      Empty(t.destinationPassword) || !StartsWith(Stripped(line), UsagePrefix)
    ensures r != Stripped(line) ==>
      r == Stripped(line) + PasswordClause(t.destinationPassword.value)
    ensures Empty(t.destinationPassword) && !Contains(line, SecretClause) ==> r == line
  {
    ReplaceAllAbsent(line, SecretClause, "");
    ReplaceAllIsImplodeExplode(line, SecretClause, "");
    var cut := ReplaceAll(line, SecretClause, "");
    if !Empty(t.destinationPassword) && StartsWith(cut, UsagePrefix) then
      cut + PasswordClause(t.destinationPassword.value)
    else
      cut
  }

  /** With no destination database the line is returned as is. Otherwise
      every backtick-quoted source database becomes the backtick-quoted
      destination database and the text between occurrences is kept. */
  function ReplaceDatabase(t: Task, line: string): (r: string)
    requires PatternsLiteral(t)
    ensures Empty(t.destinationDatabase) ==> r == line
    ensures !Empty(t.destinationDatabase) ==>
      r == Join(Split(line, DatabaseToken(Str(t.sourceDatabase))),
                DatabaseToken(Str(t.destinationDatabase)))
    ensures !Contains(line, DatabaseToken(Str(t.sourceDatabase))) ==> r == line
  {
    var from := DatabaseToken(Str(t.sourceDatabase));
    var to := DatabaseToken(Str(t.destinationDatabase));
    ReplaceAllAbsent(line, from, to);
    ReplaceAllIsImplodeExplode(line, from, to);
    if !Empty(t.destinationDatabase) then ReplaceAll(line, from, to) else line
  }

  /** One output line: the user, password and database rewrites in that
      order, followed by exactly one `;`. */
  function PrepareLineForOutput(t: Task, line: string): (r: string)
    requires PatternsLiteral(t)
    ensures |r| >= 1 && r[|r| - 1] == ';'
    ensures r[..|r| - 1] == ReplaceDatabase(t, ReplacePassword(t, ReplaceUser(t, line)))
  {
    var line1 := ReplaceUser(t, line);
    var line2 := ReplacePassword(t, line1);
    var line3 := ReplaceDatabase(t, line2);
    line3 + ";"
  }

  /** Every row rewritten, in row order. */
  function PrepareLines(t: Task, rows: seq<string>): (lines: seq<string>)
    requires PatternsLiteral(t)
    ensures |lines| == |rows|
    ensures forall i | 0 <= i < |rows| :: lines[i] == PrepareLineForOutput(t, rows[i])
  {
    if rows == [] then []
    else [PrepareLineForOutput(t, rows[0])] + PrepareLines(t, rows[1..])
  }

  /** The ways `run` fails. */
  datatype Failure =
    | MissingExtension
    | SourceUserNotCalled
    | FileNotSpecified
    | NoGrantsFound(user: string, host: string)

  /** The message `run` reports for each failure. */
  function Message(f: Failure): string
  {
    match f
    case MissingExtension => "PHP extension required for database connectivity. Please enable PDO"
    case SourceUserNotCalled => "sourceUser must be called"
    case FileNotSpecified => "Filename must be specified with toFile method"
    case NoGrantsFound(user, host) => "No GRANTs found for " + user + "@" + host
  }

  /** What a successful `run` hands to the file writer. */
  datatype Write = Write(file: string, append: Option<bool>, lines: seq<string>)

  /** The guards that `run` checks before it queries anything. */
  predicate Configured(t: Task)
  {
    !Empty(t.sourceUser) && !Empty(t.sourceHost) && !Empty(t.file)
  }

  /** `run`, given whether the PDO extension is loaded and the rows the
      `SHOW GRANTS FOR sourceUser@sourceHost` query returns. The guards are
      checked in order: extension, source account, file, then at least one
      row. On success the writer gets the task's file and append flag and one
      rewritten line per row, in row order. */
  function Run(t: Task, pdoLoaded: bool, rows: seq<string>): (r: Result<Write, Failure>)
    requires PatternsLiteral(t)
    ensures !pdoLoaded ==> r == Err(MissingExtension)
    ensures pdoLoaded && (Empty(t.sourceUser) || Empty(t.sourceHost)) ==>
      r == Err(SourceUserNotCalled)
    ensures pdoLoaded && !Empty(t.sourceUser) && !Empty(t.sourceHost) && Empty(t.file) ==>
      r == Err(FileNotSpecified)
    ensures pdoLoaded && Configured(t) && rows == [] ==>
      r == Err(NoGrantsFound(t.sourceUser.value, t.sourceHost.value))
    ensures r.Ok? <==> pdoLoaded && Configured(t) && rows != []
    ensures r.Ok? ==>
      && r.value.file == t.file.value
      && r.value.append == t.append
      && |r.value.lines| == |rows|
      && forall i | 0 <= i < |rows| :: r.value.lines[i] == PrepareLineForOutput(t, rows[i])
  {
    if !pdoLoaded then Err(MissingExtension)
    else if Empty(t.sourceUser) || Empty(t.sourceHost) then Err(SourceUserNotCalled)
    else if Empty(t.file) then Err(FileNotSpecified)
    else if |rows| == 0 then Err(NoGrantsFound(t.sourceUser.value, t.sourceHost.value))
    else Ok(Write(t.file.value, t.append, PrepareLines(t, rows)))
  }

  /** With no destination configured, a line loses its redacted password
      clauses and gains a `;`, and nothing else happens to it. */
  lemma NoDestinationOnlyStrips(t: Task, line: string)
    requires Empty(t.destinationUser) && Empty(t.destinationPassword) && Empty(t.destinationDatabase)
    ensures PrepareLineForOutput(t, line) == Stripped(line) + ";"
    ensures !Contains(line, SecretClause) ==> PrepareLineForOutput(t, line) == line + ";"
  {
    SplitSingletonIffAbsent(line, SecretClause);
  }

  /** Cutting out redacted clauses commutes with appending a `;`. */
  lemma StrippedAppendTerminator(s: string)
    ensures Stripped(s + ";") + ";" == Stripped(s) + ";;"
  {
    assert ';' !in SecretClause;
    ReplaceAllAppendChar(s, ';', SecretClause, "");
    ReplaceAllIsImplodeExplode(s + ";", SecretClause, "");
    ReplaceAllIsImplodeExplode(s, SecretClause, "");
  }

  /** With no destination configured, two passes strip twice. */
  lemma PrepareTwiceStripsTwice(t: Task, line: string)
    requires Empty(t.destinationUser) && Empty(t.destinationPassword) && Empty(t.destinationDatabase)
    ensures PrepareLineForOutput(t, PrepareLineForOutput(t, line)) == Stripped(Stripped(line) + ";") + ";"
  {
    NoDestinationOnlyStrips(t, line);
    NoDestinationOnlyStrips(t, Stripped(line) + ";");
  }

  /** Rewriting an already rewritten line is not a no-op: with no destination
      configured, a second pass adds a second `;`. */
  lemma PrepareTwiceDoublesTerminator(t: Task, line: string)
    requires Empty(t.destinationUser) && Empty(t.destinationPassword) && Empty(t.destinationDatabase)
    ensures PrepareLineForOutput(t, PrepareLineForOutput(t, line)) == Stripped(Stripped(line)) + ";;"
    ensures !Contains(line, SecretClause) ==>
      PrepareLineForOutput(t, PrepareLineForOutput(t, line)) == line + ";;"
  {
    PrepareTwiceStripsTwice(t, line);
    StrippedAppendTerminator(Stripped(line));
    if !Contains(line, SecretClause) {
      SplitSingletonIffAbsent(line, SecretClause);
      assert Stripped(line) == line;
    }
  }

  /** With a destination password and nothing else to rewrite, every line
      loses its redacted clauses; when what is left starts with `GRANT USAGE
      ON`, the clause setting the password follows it, and any other line only
      gets the terminator. A line without a redacted clause keeps its text. */
  lemma PasswordOnlyForUsageLines(t: Task, line: string)
    requires Empty(t.destinationUser) && Empty(t.destinationDatabase)
    requires !Empty(t.destinationPassword)
    ensures StartsWith(Stripped(line), UsagePrefix) ==>
      PrepareLineForOutput(t, line) == Stripped(line) + PasswordClause(t.destinationPassword.value) + ";"
    ensures !StartsWith(Stripped(line), UsagePrefix) ==> PrepareLineForOutput(t, line) == Stripped(line) + ";"
    ensures !Contains(line, SecretClause) ==> Stripped(line) == line
  {
    SplitSingletonIffAbsent(line, SecretClause);
  }

  /** Mapping an account onto itself leaves every line as it was. */
  lemma SameAccountUnchanged(t: Task, line: string)
    requires PatternsLiteral(t)
    requires Str(t.destinationUser) == Str(t.sourceUser)
    requires Str(t.destinationHost) == Str(t.sourceHost)
    ensures ReplaceUser(t, line) == line
  {
    ReplaceAllSelf(line, AccountToken(Str(t.sourceUser), Str(t.sourceHost)));
  }

  /** Everything but the rows is checked before the query: a failing guard
      gives the same failure whatever the query would have returned. */
  lemma GuardsPrecedeQuery(t: Task, pdoLoaded: bool, rows1: seq<string>, rows2: seq<string>)
    requires PatternsLiteral(t)
    requires !(pdoLoaded && Configured(t))
    ensures Run(t, pdoLoaded, rows1) == Run(t, pdoLoaded, rows2)
    ensures Run(t, pdoLoaded, rows1).Err?
  {
  }

  /** The rows are rewritten one by one: the lines for two batches of rows are
      the lines for the first batch followed by the lines for the second. */
  lemma {:induction false} PrepareLinesAppend(t: Task, rows1: seq<string>, rows2: seq<string>)
    requires PatternsLiteral(t)
    ensures PrepareLines(t, rows1 + rows2) == PrepareLines(t, rows1) + PrepareLines(t, rows2)
    decreases |rows1|
  {
    if rows1 == [] {
      assert rows1 + rows2 == rows2;
    } else {
      var head := [PrepareLineForOutput(t, rows1[0])];
      assert (rows1 + rows2)[0] == rows1[0];
      assert (rows1 + rows2)[1..] == rows1[1..] + rows2;
      assert PrepareLines(t, rows1 + rows2) == head + PrepareLines(t, rows1[1..] + rows2);
      PrepareLinesAppend(t, rows1[1..], rows2);
      ConcatAssociative(head, PrepareLines(t, rows1[1..]), PrepareLines(t, rows2));
    }
  }

  /** A `GRANT USAGE ON` line that ends in the redacted clause, given a
      destination password and nothing else to rewrite, comes out with the
      redacted clause swapped for the clause that sets the password. */
  lemma UsageSecretBecomesPassword(t: Task, prefix: string)
    requires Empty(t.destinationUser) && Empty(t.destinationDatabase)
    requires !Empty(t.destinationPassword)
    requires StartsWith(prefix, UsagePrefix) && '>' !in prefix
    ensures PrepareLineForOutput(t, prefix + SecretClause) ==
            prefix + PasswordClause(t.destinationPassword.value) + ";"
  {
    ReplaceAllTrailing(prefix, SecretClause, "");
    ReplaceAllIsImplodeExplode(prefix + SecretClause, SecretClause, "");
    assert Stripped(prefix + SecretClause) == prefix;
    assert ReplaceUser(t, prefix + SecretClause) == prefix + SecretClause;
    assert ReplacePassword(t, prefix + SecretClause) == prefix + PasswordClause(t.destinationPassword.value);
  }
}
