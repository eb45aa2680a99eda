/** The abstract Robo command file a project extends: it checks the
    connection properties a subclass declares, derives the DSN, caches the
    password, and builds the schema, full-data, partial-data and grants dumps
    plus the `db:initialize-dev` sequence that runs them in turn. Dump tasks
    are modelled by the settings they are given; writing the dumps is not
    part of this model. */
module RoboFile {
  import opened Php
  import opened Text
  import DumpGrants

  /** One entry of `getGrantUsers()`: an account and, when `pass` is set,
      the password its copied grants should carry. */
  datatype GrantUser = GrantUser(user: string, host: string, pass: Option<string>)

  /** The properties and hook results a concrete subclass provides. The three
      hooks (`getGrantUsers`, `getDefaultDataFilters`,
      `getDefaultDataExcludes`) are pure in every subclass the command file
      expects, so their results are stored here. */
  datatype Declared = Declared(
    hostname: Option<string>,
    database: Option<string>,
    password: Option<string>,
    dsn: Option<string>,
    username: string,
    dumpDir: Option<string>,
    dumpSchemaFile: string,
    dumpFullFile: string,
    dumpGrantsFile: string,
    grantUsers: seq<GrantUser>,
    dataFilters: Assoc,
    dataExcludes: seq<string>)

  /** A subclass that declares only what it must and keeps every other
      default of the base class. */
  function Subclass(hostname: string, database: string, dumpDir: string,
                    grantUsers: seq<GrantUser>, dataFilters: Assoc,
                    dataExcludes: seq<string>): (d: Declared)
    ensures d.hostname == Some(hostname) && d.database == Some(database)
    ensures d.dumpDir == Some(dumpDir)
    ensures d.password.None? && d.dsn.None?
    ensures d.username == "root"
    ensures d.dumpSchemaFile == "00-Schema.sql"
    ensures d.dumpFullFile == "05-FullTables.sql"
    ensures d.dumpGrantsFile == "9999-Grants.sql"
    ensures d.grantUsers == grantUsers && d.dataFilters == dataFilters
    ensures d.dataExcludes == dataExcludes
  {
    Declared(Some(hostname), Some(database), None, None, "root", Some(dumpDir),
             "00-Schema.sql", "05-FullTables.sql", "9999-Grants.sql",
             grantUsers, dataFilters, dataExcludes)
  }

  /** A constructed command file: the required properties are present and
      the DSN is known. */
  datatype Robo = Robo(
    hostname: string,
    database: string,
    password: Option<string>,
    dsn: string,
    username: string,
    dumpDir: string,
    dumpSchemaFile: string,
    dumpFullFile: string,
    dumpGrantsFile: string,
    grantUsers: seq<GrantUser>,
    dataFilters: Assoc,
    dataExcludes: seq<string>)

  // ---------------------------------------------------------------------
  // Construction and the DSN
  // ---------------------------------------------------------------------

  /** The exception message for a required property left `null`. */
  function MissingProperty(property: string): string
  {
    "Property " + property + " must have a value declared"
  }

  /** The DSN the constructor derives from host and database, with the
      character-set parameter key spelled `charsetKey`. */
  function DerivedDsn(hostname: string, database: string, charsetKey: string): string
  {
    "mysql:" + "host=" + hostname + ";" + "dbname=" + database + ";" + charsetKey + "=utf8"
  }

  /** The DSN the constructor derives, with the parameter key as the source
      spells it: `chartset`, which the MySQL driver does not know. */
  function DefaultDsnAsWritten(hostname: string, database: string): (dsn: string)
    ensures dsn == "mysql:host=" + hostname + ";dbname=" + database + ";chartset=utf8"
  {
    assert "mysql:host=" == "mysql:" + "host=" && ";dbname=" == ";" + "dbname=";
    assert ";chartset=utf8" == ";" + "chartset" + "=utf8";
    DerivedDsn(hostname, database, "chartset")
  }

  /** The DSN the constructor evidently means to derive: `charset=utf8`. */
  function DefaultDsn(hostname: string, database: string): (dsn: string)
    ensures dsn == "mysql:host=" + hostname + ";dbname=" + database + ";charset=utf8"
  {
    assert "mysql:host=" == "mysql:" + "host=" && ";dbname=" == ";" + "dbname=";
    assert ";charset=utf8" == ";" + "charset" + "=utf8";
    DerivedDsn(hostname, database, "charset")
  }

  /** The constructor: `hostname`, `database` and `dumpDir` are checked in
      that order and the first `null` one is reported; a missing DSN is
      derived from host and database as written, with the `chartset` key;
      every other property is kept. */
  function Construct(d: Declared): (r: Result<Robo, string>)
    ensures r.Err? <==> d.hostname.None? || d.database.None? || d.dumpDir.None?
    ensures d.hostname.None? ==> r == Err(MissingProperty("hostname"))
    ensures d.hostname.Some? && d.database.None? ==> r == Err(MissingProperty("database"))
    ensures d.hostname.Some? && d.database.Some? && d.dumpDir.None? ==>
      r == Err(MissingProperty("dumpDir"))
    ensures r.Ok? ==>
      && r.value.hostname == d.hostname.value
      && r.value.database == d.database.value
      && r.value.dumpDir == d.dumpDir.value
      && (d.dsn.Some? ==> r.value.dsn == d.dsn.value)
      && (d.dsn.None? ==> r.value.dsn == DefaultDsnAsWritten(d.hostname.value, d.database.value))
      && r.value.password == d.password
      && r.value.username == d.username
      && r.value.dumpSchemaFile == d.dumpSchemaFile
      && r.value.dumpFullFile == d.dumpFullFile
      && r.value.dumpGrantsFile == d.dumpGrantsFile
      && r.value.grantUsers == d.grantUsers
      && r.value.dataFilters == d.dataFilters
      && r.value.dataExcludes == d.dataExcludes
  {
    if d.hostname.None? then Err(MissingProperty("hostname"))
    else if d.database.None? then Err(MissingProperty("database"))
    else if d.dumpDir.None? then Err(MissingProperty("dumpDir"))
    else
      var dsn := if d.dsn.Some? then d.dsn.value else DefaultDsnAsWritten(d.hostname.value, d.database.value);
      Ok(Robo(d.hostname.value, d.database.value, d.password, dsn, d.username,
              d.dumpDir.value, d.dumpSchemaFile, d.dumpFullFile, d.dumpGrantsFile,
              d.grantUsers, d.dataFilters, d.dataExcludes))
  }

  /** The constructor as evidently intended: the same checks and properties,
      but a missing DSN is derived with the `charset` key. */
  function ConstructCorrected(d: Declared): (r: Result<Robo, string>)
    ensures r.Err? <==> Construct(d).Err?
    ensures r.Err? ==> r == Construct(d)
    ensures r.Ok? ==> r.value.(dsn := Construct(d).value.dsn) == Construct(d).value
    ensures r.Ok? && d.dsn.Some? ==> r.value.dsn == d.dsn.value
    ensures r.Ok? && d.dsn.None? ==> r.value.dsn == DefaultDsn(d.hostname.value, d.database.value)
  {
    match Construct(d)
    case Err(e) => Err(e)
    case Ok(robo) =>
      if d.dsn.Some? then Ok(robo) else Ok(robo.(dsn := DefaultDsn(robo.hostname, robo.database)))
  }

  /** The value of the first `key=value` parameter among `;`-separated
      pieces, the value being everything after the first `=`. */
  function FindParameter(pieces: seq<string>, key: string): (v: Option<string>)
    ensures v.Some? <==> exists i | 0 <= i < |pieces| :: StartsWith(pieces[i], key + "=")
  {
    if pieces == [] then None
    else if StartsWith(pieces[0], key + "=") then Some(pieces[0][|key| + 1..])
    else
      var v := FindParameter(pieces[1..], key);
      assert forall i | 1 <= i < |pieces| :: pieces[i] == pieces[1..][i - 1];
      v
  }

  /** How the MySQL driver reads a DSN parameter: after the `mysql:` prefix
      the DSN is a `;`-separated list of `key=value` pairs. */
  function DsnValue(dsn: string, key: string): Option<string>
  {
    if StartsWith(dsn, "mysql:") then FindParameter(Split(dsn[6..], ";"), key) else None
  }

  /** The three `key=value` parameters of a derived DSN. */
  function DsnParameters(hostname: string, database: string, charsetKey: string): seq<string>
  {
    ["host=" + hostname, "dbname=" + database, charsetKey + "=utf8"]
  }

  /** The parameter list of a derived DSN, split at its two `;`. */
  lemma {:induction false} DsnPieces(hostname: string, database: string, charsetKey: string)
    requires ';' !in hostname && ';' !in database && ';' !in charsetKey
    ensures StartsWith(DerivedDsn(hostname, database, charsetKey), "mysql:")
    ensures Split(DerivedDsn(hostname, database, charsetKey)[6..], ";")
      == DsnParameters(hostname, database, charsetKey)
  {
    var pieces := DsnParameters(hostname, database, charsetKey);
    var dsn := DerivedDsn(hostname, database, charsetKey);
    JoinThree(pieces[0], pieces[1], pieces[2], ";");
    assert pieces == [pieces[0], pieces[1], pieces[2]];
    assert dsn == "mysql:" + Join(pieces, ";");
    assert dsn[6..] == Join(pieces, ";");
    forall i | 0 <= i < 3 ensures ';' !in pieces[i] {
      assert ';' !in "host=" && ';' !in "dbname=" && ';' !in "=utf8";
    }
    SplitJoinRoundTrip(pieces, ';');
  }

  /** The parameters the driver finds among the three pieces of a derived
      DSN, for a character-set key spelled `charsetKey`. */
  lemma {:induction false} ReadDerivedPieces(hostname: string, database: string, charsetKey: string)
    requires charsetKey == "charset" || charsetKey == "chartset"
    ensures var pieces := DsnParameters(hostname, database, charsetKey);
      && FindParameter(pieces, "host") == Some(hostname)
      && FindParameter(pieces, "dbname") == Some(database)
      && FindParameter(pieces, "charset") == (if charsetKey == "charset" then Some("utf8") else None)
  {
    var pieces := DsnParameters(hostname, database, charsetKey);
    assert pieces[1..] == [pieces[1], pieces[2]] && pieces[1..][1..] == [pieces[2]];
    assert pieces[1..][1..][1..] == [];
    assert pieces[0][0] == 'h' && pieces[1][0] == 'd';
    assert StartsWith(pieces[0], "host=") && pieces[0][5..] == hostname;
    assert !StartsWith(pieces[0], "dbname=") && !StartsWith(pieces[0], "charset=");
    assert StartsWith(pieces[1], "dbname=") && pieces[1][7..] == database;
    assert !StartsWith(pieces[1], "charset=");
    if charsetKey == "charset" {
      assert pieces[2] == "charset=" + "utf8";
      assert StartsWith(pieces[2], "charset=") && pieces[2][8..] == "utf8";
      assert FindParameter(pieces[1..][1..], "charset") == Some("utf8");
    } else {
      assert pieces[2][4] == 't';
      assert !StartsWith(pieces[2], "charset=");
      assert FindParameter(pieces[1..][1..], "charset") == FindParameter([], "charset");
    }
  }

  /** The corrected DSN gives the driver back exactly the host, database and
      character set it was built from. */
  lemma DefaultDsnReadsBack(hostname: string, database: string)
    requires ';' !in hostname && ';' !in database
    ensures DsnValue(DefaultDsn(hostname, database), "host") == Some(hostname)
    ensures DsnValue(DefaultDsn(hostname, database), "dbname") == Some(database)
    ensures DsnValue(DefaultDsn(hostname, database), "charset") == Some("utf8")
  {
    var key := "charset";
    assert ';' !in key;
    DsnPieces(hostname, database, key);
    ReadDerivedPieces(hostname, database, key);
  }

  /** The DSN as written carries host and database, but the driver finds no
      character set in it: the `chartset` parameter is never read. */
  lemma DsnAsWrittenLosesCharset(hostname: string, database: string)
    requires ';' !in hostname && ';' !in database
    ensures DsnValue(DefaultDsnAsWritten(hostname, database), "host") == Some(hostname)
    ensures DsnValue(DefaultDsnAsWritten(hostname, database), "dbname") == Some(database)
    ensures DsnValue(DefaultDsnAsWritten(hostname, database), "charset") == None
  {
    var key := "chartset";
    assert ';' !in key;
    DsnPieces(hostname, database, key);
    ReadDerivedPieces(hostname, database, key);
  }

  /** A command file that declares no DSN connects without a character set:
      the constructor's DSN names none the driver reads. */
  lemma ConstructLosesCharset(d: Declared)
    requires d.hostname.Some? && d.database.Some? && d.dumpDir.Some? && d.dsn.None?
    requires ';' !in d.hostname.value && ';' !in d.database.value
    ensures Construct(d).Ok?
    ensures DsnValue(Construct(d).value.dsn, "host") == Some(d.hostname.value)
    ensures DsnValue(Construct(d).value.dsn, "dbname") == Some(d.database.value)
    ensures DsnValue(Construct(d).value.dsn, "charset") == None
  {
    DsnAsWrittenLosesCharset(d.hostname.value, d.database.value);
  }

  /** The corrected constructor's derived DSN selects `utf8`. */
  lemma ConstructCorrectedKeepsCharset(d: Declared)
    requires d.hostname.Some? && d.database.Some? && d.dumpDir.Some? && d.dsn.None?
    requires ';' !in d.hostname.value && ';' !in d.database.value
    ensures ConstructCorrected(d).Ok?
    ensures DsnValue(ConstructCorrected(d).value.dsn, "host") == Some(d.hostname.value)
    ensures DsnValue(ConstructCorrected(d).value.dsn, "dbname") == Some(d.database.value)
    ensures DsnValue(ConstructCorrected(d).value.dsn, "charset") == Some("utf8")
  {
    DefaultDsnReadsBack(d.hostname.value, d.database.value);
  }

  // ---------------------------------------------------------------------
  // Options shared by the commands
  // ---------------------------------------------------------------------

  /** The result of `getPassword`, with the cached password afterwards and
      whether the user was asked for it. */
  datatype Password = Password(value: string, cache: Option<string>, prompted: bool)

  /** `getPassword`: a truthy password given on the command line replaces the
      cached one; when nothing is cached the user is asked, and `answer` is
      what they type. A cached empty password is returned as is. */
  function GetPassword(cached: Option<string>, given: Option<string>, answer: string): (p: Password)
    ensures !Empty(given) ==> p.value == given.value && !p.prompted
    ensures Empty(given) && cached.Some? ==> p.value == cached.value && !p.prompted
    ensures p.prompted <==> Empty(given) && cached.None?
    ensures p.prompted ==> p.value == answer
    ensures p.cache == Some(p.value)
  {
    var current := if !Empty(given) then given else cached;
    if current.None? then Password(answer, Some(answer), true)
    else Password(current.value, current, false)
  }

  /** Once `getPassword` has run, later calls never ask again, and without a
      new password on the command line they return the same value. */
  lemma PasswordAskedAtMostOnce(cached: Option<string>, given1: Option<string>, answer1: string,
                                given2: Option<string>, answer2: string)
    ensures !GetPassword(GetPassword(cached, given1, answer1).cache, given2, answer2).prompted
    ensures Empty(given2) ==>
      GetPassword(GetPassword(cached, given1, answer1).cache, given2, answer2).value
        == GetPassword(cached, given1, answer1).value
  {
  }

  /** A `--file`-style option or, when it is absent, `name` inside the dump
      directory. */
  function FileOrDefault(option: Option<string>, dumpDir: string, name: string): (file: string)
    ensures option.Some? ==> file == option.value
    ensures option.None? ==> StartsWith(file, dumpDir + DirectorySeparator)
    ensures option.None? ==> file[|dumpDir| + |DirectorySeparator|..] == name
  {
    if option.Some? then option.value else dumpDir + DirectorySeparator + name
  }

  /** A comma-separated table option: no tables when the option is empty,
      otherwise the comma-free pieces that rejoin to the option's text. */
  function TableList(option: Option<string>): (tables: seq<string>)
    ensures Empty(option) ==> tables == []
    ensures !Empty(option) ==> |tables| >= 1 && Join(tables, ",") == option.value
    ensures forall i | 0 <= i < |tables| :: ',' !in tables[i]
  {
    if Empty(option) then []
    else
      SplitPiecesAvoidChar(option.value, ',');
      Split(option.value, ",")
  }

  /** A list of comma-free table names written as one option comes back
      unchanged. */
  lemma TableListRoundTrip(tables: seq<string>)
    requires |tables| >= 1
    requires forall i | 0 <= i < |tables| :: ',' !in tables[i]
    requires !Empty(Some(Join(tables, ",")))
    ensures TableList(Some(Join(tables, ","))) == tables
  {
    SplitJoinRoundTrip(tables, ',');
  }

  // ---------------------------------------------------------------------
  // Schema and full-data dumps
  // ---------------------------------------------------------------------

  /** What a dump task is configured to do. */
  datatype DumpKind = SchemaOnly | DataOnly

  /** A configured `mysqldump-php` task for a whole-table dump. Empty
      include and exclude lists mean every table and no table. */
  datatype TableDump = TableDump(
    kind: DumpKind,
    dsn: string,
    username: string,
    pass: string,
    file: string,
    includeTables: seq<string>,
    excludeTables: seq<string>,
    lockTables: bool)

  /** The options of `db:dump-schema`. */
  datatype SchemaOptions = SchemaOptions(
    file: Option<string>,
    password: Option<string>,
    includeTables: Option<string>,
    excludeTables: Option<string>)

  /** The options of `db:dump-data-full`. */
  datatype FullOptions = FullOptions(
    file: Option<string>,
    password: Option<string>,
    includeTables: Option<string>,
    excludeTables: Option<string>,
    ignoreDefaultExcludes: bool)

  /** `db:dump-schema`: the schema of the chosen tables, without data and
      without locking, to `--file` or the schema file in the dump directory. */
  function DumpSchema(r: Robo, o: SchemaOptions, answer: string): (d: TableDump)
    ensures d.kind == SchemaOnly && !d.lockTables
    ensures d.dsn == r.dsn && d.username == r.username
    ensures d.pass == GetPassword(r.password, o.password, answer).value
    ensures o.file.Some? ==> d.file == o.file.value
    ensures o.file.None? ==> d.file == r.dumpDir + DirectorySeparator + r.dumpSchemaFile
    ensures Empty(o.includeTables) <==> d.includeTables == []
    ensures !Empty(o.includeTables) ==> Join(d.includeTables, ",") == o.includeTables.value
    ensures Empty(o.excludeTables) <==> d.excludeTables == []
    ensures !Empty(o.excludeTables) ==> Join(d.excludeTables, ",") == o.excludeTables.value
    ensures forall i | 0 <= i < |d.includeTables| :: ',' !in d.includeTables[i]
    ensures forall i | 0 <= i < |d.excludeTables| :: ',' !in d.excludeTables[i]
  {
    TableDump(SchemaOnly, r.dsn, r.username, GetPassword(r.password, o.password, answer).value,
              FileOrDefault(o.file, r.dumpDir, r.dumpSchemaFile),
              TableList(o.includeTables), TableList(o.excludeTables), false)
  }

  /** Table lists written out as options reach the schema dump unchanged,
      as long as no name holds a comma. */
  lemma DumpSchemaKeepsTableLists(r: Robo, o: SchemaOptions, answer: string,
                                  included: seq<string>, excluded: seq<string>)
    requires |included| >= 1 && |excluded| >= 1
    requires forall i | 0 <= i < |included| :: ',' !in included[i]
    requires forall i | 0 <= i < |excluded| :: ',' !in excluded[i]
    requires o.includeTables == Some(Join(included, ",")) && !Empty(o.includeTables)
    requires o.excludeTables == Some(Join(excluded, ",")) && !Empty(o.excludeTables)
    ensures DumpSchema(r, o, answer).includeTables == included
    ensures DumpSchema(r, o, answer).excludeTables == excluded
  {
    var d := DumpSchema(r, o, answer);
    SplitJoinRoundTrip(included, ',');
    SplitJoinRoundTrip(d.includeTables, ',');
    SplitJoinRoundTrip(excluded, ',');
    SplitJoinRoundTrip(d.excludeTables, ',');
  }

  /** `db:dump-data-full`: the data of the chosen tables, without locking.
      Unless default excludes are ignored, the subclass's excluded tables and
      then every partially dumped table are left out; the `--exclude-tables`
      option is accepted but never read. */
  function DumpDataFull(r: Robo, o: FullOptions, answer: string): (d: TableDump)
    ensures d.kind == DataOnly && !d.lockTables
    ensures d.dsn == r.dsn && d.username == r.username
    ensures d.pass == GetPassword(r.password, o.password, answer).value
    ensures o.file.Some? ==> d.file == o.file.value
    ensures o.file.None? ==> d.file == r.dumpDir + DirectorySeparator + r.dumpFullFile
    ensures Empty(o.includeTables) <==> d.includeTables == []
    ensures !Empty(o.includeTables) ==> Join(d.includeTables, ",") == o.includeTables.value
    ensures forall i | 0 <= i < |d.includeTables| :: ',' !in d.includeTables[i]
    ensures o.ignoreDefaultExcludes ==> d.excludeTables == []
    ensures !o.ignoreDefaultExcludes ==>
      && |d.excludeTables| == |r.dataExcludes| + |r.dataFilters|
      && d.excludeTables[..|r.dataExcludes|] == r.dataExcludes
      && d.excludeTables[|r.dataExcludes|..] == Keys(r.dataFilters)
      && forall t :: t in d.excludeTables <==> t in r.dataExcludes || t in Keys(r.dataFilters)
  {
    var excludes := if o.ignoreDefaultExcludes then [] else r.dataExcludes + Keys(r.dataFilters);
    TableDump(DataOnly, r.dsn, r.username, GetPassword(r.password, o.password, answer).value,
              FileOrDefault(o.file, r.dumpDir, r.dumpFullFile),
              TableList(o.includeTables), excludes, false)
  }

  /** The full-data dump does not depend on its `--exclude-tables` option. */
  lemma FullDumpIgnoresExcludeOption(r: Robo, o: FullOptions, other: Option<string>, answer: string)
    ensures DumpDataFull(r, o.(excludeTables := other), answer) == DumpDataFull(r, o, answer)
  {
  }

  // ---------------------------------------------------------------------
  // Partial-data dump
  // ---------------------------------------------------------------------

  /** `array_diff($xs, $ex)`: the entries of `xs` not in `ex`, order kept. */
  function Without(xs: seq<string>, ex: seq<string>): (ys: seq<string>)
    ensures forall t :: t in ys <==> t in xs && t !in ex
    ensures |ys| <= |xs|
  {
    if xs == [] then []
    else (if xs[0] in ex then [] else [xs[0]]) + Without(xs[1..], ex)
  }

  /** Removing tables works piece by piece: the order of the rest is kept. */
  lemma {:induction false} WithoutAppend(a: seq<string>, b: seq<string>, ex: seq<string>)
    ensures Without(a + b, ex) == Without(a, ex) + Without(b, ex)
    decreases |a|
  {
    if a != [] {
      assert (a + b)[1..] == a[1..] + b;
      WithoutAppend(a[1..], b, ex);
    } else {
      assert a + b == b;
    }
  }

  /** Excluding nothing keeps the list as it is. */
  lemma {:induction false} WithoutNothing(xs: seq<string>)
    ensures Without(xs, []) == xs
    decreases |xs|
  {
    if xs != [] {
      WithoutNothing(xs[1..]);
      assert xs == [xs[0]] + xs[1..];
    }
  }

  /** The tables in list order, each at the position where it first
      appears: a table is added the first time the loop meets it. */
  function FirstOccurrences(tables: seq<string>): (firsts: seq<string>)
    ensures forall t :: t in firsts <==> t in tables
    decreases |tables|
  {
    if tables == [] then []
    else
      var init := tables[..|tables| - 1];
      var last := tables[|tables| - 1];
      assert tables == init + [last];
      FirstOccurrences(init) + (if last in init then [] else [last])
  }

  /** One more table at the end adds it when it is new. */
  lemma FirstOccurrencesSnoc(init: seq<string>, last: string)
    ensures FirstOccurrences(init + [last]) == FirstOccurrences(init) + (if last in init then [] else [last])
  {
    var s := init + [last];
    assert s[..|s| - 1] == init && s[|s| - 1] == last;
  }

  /** Excluding `[t]` from a one-element list. */
  lemma WithoutSingle(l: string, t: string)
    ensures Without([l], [t]) == (if l == t then [] else [l])
  {
    assert [l][1..] == [];
  }

  /** Seen from the front: the first table, then the first occurrences of
      the rest with that table left out. */
  lemma {:induction false} FirstOccurrencesCons(t: string, xs: seq<string>)
    ensures FirstOccurrences([t] + xs) == [t] + Without(FirstOccurrences(xs), [t])
    decreases |xs|
  {
    if xs == [] {
      FirstOccurrencesSnoc([], t);
      assert [t] + xs == [] + [t];
    } else {
      var ys := xs[..|xs| - 1];
      var l := xs[|xs| - 1];
      var firsts := FirstOccurrences(ys);
      var tail := if l in ys then [] else [l];
      assert xs == ys + [l];
      assert [t] + xs == ([t] + ys) + [l];
      FirstOccurrencesSnoc([t] + ys, l);
      FirstOccurrencesSnoc(ys, l);
      FirstOccurrencesCons(t, ys);
      WithoutAppend(firsts, tail, [t]);
      if l !in ys {
        WithoutSingle(l, t);
      }
      assert Without(tail, [t]) == (if l in [t] + ys then [] else [l]);
      ConcatAssociative([t], Without(firsts, [t]), Without(tail, [t]));
    }
  }

  /** Dropping the later entry of a key removes that key from
      `array_keys($a)` as `array_diff` would. */
  lemma {:induction false} KeysRemoveKey(a: Assoc, key: string)
    ensures Keys(RemoveKey(a, key)) == Without(Keys(a), [key])
    decreases |a|
  {
    if a != [] {
      KeysRemoveKey(a[1..], key);
      assert Keys(a) == [a[0].0] + Keys(a[1..]);
      assert Keys(a)[1..] == Keys(a[1..]);
      if a[0].0 != key {
        var rest := RemoveKey(a[1..], key);
        assert ([a[0]] + rest)[1..] == rest;
        assert Keys([a[0]] + rest) == [a[0].0] + Keys(rest);
      }
    }
  }

  /** `DateTime::createFromFormat('Y-m-d', …)` succeeding, read as the text
      shape it accepts: four digits, `-`, two digits, `-`, two digits. The
      parser's leniency about out-of-range days and months is not modelled. */
  predicate ValidDate(s: string)
  {
    |s| == 10 && forall i | 0 <= i < 10 :: if i == 4 || i == 7 then s[i] == '-' else '0' <= s[i] <= '9'
  }

  /** A date formatted as `'Y-m-d'`: the SQL string literal put into filters. */
  function Quoted(date: string): string
  {
    "'" + date + "'"
  }

  const StartPlaceholder: string := ":startDate"
  const EndPlaceholder: string := ":endDate"

  /** The two `str_replace` calls on a filter: first `:startDate`, then
      `:endDate`, each by its quoted date. */
  function Substitute(filter: string, startDate: string, endDate: string): (r: string)
    ensures var once := Join(Split(filter, StartPlaceholder), Quoted(startDate));
      r == Join(Split(once, EndPlaceholder), Quoted(endDate))
    ensures !Contains(filter, StartPlaceholder) && !Contains(filter, EndPlaceholder) ==> r == filter
  {
    var once := ReplaceAll(filter, StartPlaceholder, Quoted(startDate));
    ReplaceAllIsImplodeExplode(filter, StartPlaceholder, Quoted(startDate));
    ReplaceAllIsImplodeExplode(once, EndPlaceholder, Quoted(endDate));
    ReplaceAllAbsent(filter, StartPlaceholder, Quoted(startDate));
    ReplaceAllAbsent(once, EndPlaceholder, Quoted(endDate));
    ReplaceAll(once, EndPlaceholder, Quoted(endDate))
  }

  /** A well-formed date holds none of the characters that begin the
      placeholders. */
  lemma DateAvoidsPlaceholders(date: string)
    requires ValidDate(date)
    ensures NoneOf(Quoted(date), StartPlaceholder) && NoneOf(Quoted(date), EndPlaceholder)
    ensures NoneOf(StartPlaceholder, Quoted(date)) && NoneOf(EndPlaceholder, Quoted(date))
  {
    var q := Quoted(date);
    forall k | 0 <= k < |q| ensures q[k] !in StartPlaceholder && q[k] !in EndPlaceholder {
      if 1 <= k <= 10 {
        assert q[k] == date[k - 1];
      }
    }
    NoneOfSymmetric(q, StartPlaceholder);
    NoneOfSymmetric(q, EndPlaceholder);
  }

  /** With well-formed dates, a substituted filter has no placeholder left,
      and whatever text it holds that neither date could have supplied was
      already in the filter. */
  lemma SubstituteFillsPlaceholders(filter: string, startDate: string, endDate: string, w: string)
    requires ValidDate(startDate) && ValidDate(endDate)
    ensures !Contains(Substitute(filter, startDate, endDate), StartPlaceholder)
    ensures !Contains(Substitute(filter, startDate, endDate), EndPlaceholder)
    ensures NoneOf(w, Quoted(startDate)) && NoneOf(w, Quoted(endDate)) ==>
      (Contains(Substitute(filter, startDate, endDate), w) ==> Contains(filter, w))
  {
    DateAvoidsPlaceholders(startDate);
    DateAvoidsPlaceholders(endDate);
    var once := ReplaceAll(filter, StartPlaceholder, Quoted(startDate));
    ReplaceAllRemovesAll(filter, StartPlaceholder, Quoted(startDate));
    ReplaceAllRemovesAll(once, EndPlaceholder, Quoted(endDate));
    ReplaceAllKeepsAbsent(once, EndPlaceholder, Quoted(endDate), StartPlaceholder);
    if NoneOf(w, Quoted(startDate)) && NoneOf(w, Quoted(endDate)) {
      ReplaceAllKeepsAbsent(once, EndPlaceholder, Quoted(endDate), w);
      ReplaceAllKeepsAbsent(filter, StartPlaceholder, Quoted(startDate), w);
    }
  }

  /** The exception message for an included table with no filter. */
  function NoFilterMessage(table: string): string
  {
    "Table does not have partial filtering enabled: " + table
  }

  /** Every table in the list has a filter. */
  predicate AllFiltered(filters: Assoc, tables: seq<string>)
  {
    forall i | 0 <= i < |tables| :: tables[i] in Keys(filters)
  }

  /** Every table has a filter exactly when the first one has and the rest all have. */
  lemma AllFilteredCons(filters: Assoc, tables: seq<string>)
    requires tables != []
    ensures AllFiltered(filters, tables) <==> tables[0] in Keys(filters) && AllFiltered(filters, tables[1..])
  {
    assert forall i | 1 <= i < |tables| :: tables[i] == tables[1..][i - 1];
  }

  /** A table reported missing in the tail of a list whose head has a
      filter is the first missing table of the whole list. */
  lemma FirstMissingShifts(filters: Assoc, tables: seq<string>, message: string)
    requires tables != [] && tables[0] in Keys(filters)
    requires exists j | 0 <= j < |tables[1..]| ::
      && tables[1..][j] !in Keys(filters)
      && AllFiltered(filters, tables[1..][..j])
      && message == NoFilterMessage(tables[1..][j])
    ensures exists i | 0 <= i < |tables| ::
      && tables[i] !in Keys(filters)
      && AllFiltered(filters, tables[..i])
      && message == NoFilterMessage(tables[i])
  {
    var j :| 0 <= j < |tables[1..]|
      && tables[1..][j] !in Keys(filters)
      && AllFiltered(filters, tables[1..][..j])
      && message == NoFilterMessage(tables[1..][j]);
    assert tables[..j + 1] == [tables[0]] + tables[1..][..j];
    assert AllFiltered(filters, tables[..j + 1]);
  }

  /** `result` maps each listed table, once and in the order the tables
      first appear, to its filter with both dates filled in. */
  predicate FiltersFor(filters: Assoc, tables: seq<string>, startDate: string, endDate: string, result: Assoc)
  {
    && FiltersCover(filters, tables, startDate, endDate, result)
    && Keys(result) == FirstOccurrences(tables)
  }

  /** Every table is a key of `result`, every key is one of the tables, no
      key repeats, and each value is the table's filter with both dates filled in. */
  predicate FiltersCover(filters: Assoc, tables: seq<string>, startDate: string, endDate: string, result: Assoc)
  {
    && DistinctKeys(result)
    && (forall p | p in result :: p.0 in tables)
    && (forall t | t in tables :: t in Keys(result))
    && forall p | p in result ::
      && Lookup(filters, p.0).Some?
      && p.1 == Substitute(Lookup(filters, p.0).value, startDate, endDate)
  }

  /** Putting the head table in front of the tail's result, without its
      later entry, lists the tables in first-occurrence order. */
  lemma PrependKeepsFirstOccurrences(entry: (string, string), rest: Assoc, tables: seq<string>)
    requires tables != [] && entry.0 == tables[0]
    requires Keys(rest) == FirstOccurrences(tables[1..])
    ensures Keys([entry] + RemoveKey(rest, entry.0)) == FirstOccurrences(tables)
  {
    var others := RemoveKey(rest, entry.0);
    assert ([entry] + others)[1..] == others;
    assert Keys([entry] + others) == [entry.0] + Keys(others);
    KeysRemoveKey(rest, entry.0);
    FirstOccurrencesCons(tables[0], tables[1..]);
    assert tables == [tables[0]] + tables[1..];
  }

  /** Putting the head table's filter in front of the tail's result. */
  lemma ExtendFilters(filters: Assoc, tables: seq<string>, startDate: string, endDate: string, rest: Assoc)
    requires tables != [] && Lookup(filters, tables[0]).Some?
    requires FiltersFor(filters, tables[1..], startDate, endDate, rest)
    ensures FiltersFor(filters, tables, startDate, endDate,
      [(tables[0], Substitute(Lookup(filters, tables[0]).value, startDate, endDate))]
        + RemoveKey(rest, tables[0]))
  {
    var entry := (tables[0], Substitute(Lookup(filters, tables[0]).value, startDate, endDate));
    ExtendCover(filters, tables, startDate, endDate, rest);
    PrependKeepsFirstOccurrences(entry, rest, tables);
  }

  /** The coverage half of `ExtendFilters`. */
  lemma ExtendCover(filters: Assoc, tables: seq<string>, startDate: string, endDate: string, rest: Assoc)
    requires tables != [] && Lookup(filters, tables[0]).Some?
    requires FiltersCover(filters, tables[1..], startDate, endDate, rest)
    ensures FiltersCover(filters, tables, startDate, endDate,
      [(tables[0], Substitute(Lookup(filters, tables[0]).value, startDate, endDate))]
        + RemoveKey(rest, tables[0]))
  {
    var entry := (tables[0], Substitute(Lookup(filters, tables[0]).value, startDate, endDate));
    var others := RemoveKey(rest, tables[0]);
    var result := [entry] + others;
    PrependNewKey(entry, others);
    forall p | p in result
      ensures p.0 in tables && Lookup(filters, p.0).Some?
      ensures p.1 == Substitute(Lookup(filters, p.0).value, startDate, endDate)
    {
      if p != entry {
        assert p in others;
        assert p in rest;
        assert p.0 in tables[1..];
      }
    }
    forall t | t in tables ensures t in Keys(result) {
      if t != tables[0] {
        assert t in tables[1..] by {
          var i :| 0 <= i < |tables| && tables[i] == t;
          assert tables[1..][i - 1] == t;
        }
      }
    }
  }

  /** The filter loop of `db:dump-data-partial`: every listed table must have
      a filter, the first one without is reported, and each table is mapped
      (once, at its first position) to its filter with both dates filled in. */
  function PartialFilters(filters: Assoc, tables: seq<string>, startDate: string, endDate: string)
    : (res: Result<Assoc, string>)
    ensures res.Ok? <==> AllFiltered(filters, tables)
    ensures res.Err? ==> exists i | 0 <= i < |tables| ::
      && tables[i] !in Keys(filters)
      && AllFiltered(filters, tables[..i])
      && res.error == NoFilterMessage(tables[i])
    ensures res.Ok? ==> FiltersFor(filters, tables, startDate, endDate, res.value)
    ensures res.Ok? ==> Keys(res.value) == FirstOccurrences(tables)
    decreases |tables|
  {
    if tables == [] then Ok([])
    else
      var table := tables[0];
      match Lookup(filters, table)
      case None =>
        assert tables[..0] == [];
        Err(NoFilterMessage(table))
      case Some(where) =>
        var rest := PartialFilters(filters, tables[1..], startDate, endDate);
        AllFilteredCons(filters, tables);
        if rest.Err? then
          FirstMissingShifts(filters, tables, rest.error);
          rest
        else
          ExtendFilters(filters, tables, startDate, endDate, rest.value);
          Ok([(table, Substitute(where, startDate, endDate))] + RemoveKey(rest.value, table))
  }

  /** The options of `db:dump-data-partial`. */
  datatype PartialOptions = PartialOptions(
    dir: Option<string>,
    append: bool,
    includeTables: Option<string>,
    excludeTables: Option<string>,
    startingSequence: string,
    password: Option<string>)

  /** The options when none is given on the command line. */
  function DefaultPartialOptions(): (o: PartialOptions)
    ensures o.dir.None? && !o.append && o.password.None?
    ensures Empty(o.includeTables) && Empty(o.excludeTables)
    ensures o.startingSequence == "10"
  {
    PartialOptions(None, false, None, None, "10", None)
  }

  /** The tables a partial dump covers: the `--include-tables` list, or every
      table with a filter, less the `--exclude-tables` list. */
  function PartialTables(r: Robo, o: PartialOptions): (tables: seq<string>)
    ensures forall t :: t in tables <==>
      && (if Empty(o.includeTables) then t in Keys(r.dataFilters) else t in TableList(o.includeTables))
      && t !in TableList(o.excludeTables)
    ensures Empty(o.includeTables) && Empty(o.excludeTables) ==> tables == Keys(r.dataFilters)
    ensures tables == Without(if Empty(o.includeTables) then Keys(r.dataFilters) else TableList(o.includeTables),
                              TableList(o.excludeTables))
  {
    var base := if !Empty(o.includeTables) then TableList(o.includeTables) else Keys(r.dataFilters);
    if !Empty(o.excludeTables) then Without(base, TableList(o.excludeTables))
    else
      WithoutNothing(base);
      base
  }

  /** A configured partial-data task: it writes numbered files into `dir`,
      starting at `startingSequence`, one per filtered table. */
  datatype PartialDump = PartialDump(
    dsn: string,
    username: string,
    pass: string,
    dir: string,
    filters: Assoc,
    startingSequence: string,
    append: bool,
    lockTables: bool)

  const StartDateMessage: string := "Start Date provided is not in the correct format"
  const EndDateMessage: string := "End Date provided is not in the correct format"

  /** No filter has a date placeholder left. */
  predicate PlaceholdersFilled(filters: Assoc)
  {
    forall p | p in filters :: !Contains(p.1, StartPlaceholder) && !Contains(p.1, EndPlaceholder)
  }

  /** Filters filled in with well-formed dates have no placeholder left. */
  lemma FiltersFilled(filters: Assoc, tables: seq<string>, startDate: string, endDate: string, result: Assoc)
    requires ValidDate(startDate) && ValidDate(endDate)
    requires FiltersFor(filters, tables, startDate, endDate, result)
    ensures PlaceholdersFilled(result)
  {
    forall p | p in result
      ensures !Contains(p.1, StartPlaceholder) && !Contains(p.1, EndPlaceholder)
    {
      SubstituteFillsPlaceholders(Lookup(filters, p.0).value, startDate, endDate, []);
    }
  }

  /** `db:dump-data-partial`: both dates must be well formed (the start date
      is checked first), every covered table must have a filter, and the task
      gets each covered table's filter with the dates filled in. */
  function DumpDataPartial(r: Robo, startDate: string, endDate: string, o: PartialOptions, answer: string)
    : (res: Result<PartialDump, string>)
    ensures !ValidDate(startDate) ==> res == Err(StartDateMessage)
    ensures ValidDate(startDate) && !ValidDate(endDate) ==> res == Err(EndDateMessage)
    ensures ValidDate(startDate) && ValidDate(endDate) ==>
      (res.Ok? <==> AllFiltered(r.dataFilters, PartialTables(r, o)))
    ensures res.Err? && ValidDate(startDate) && ValidDate(endDate) ==>
      exists t | t in PartialTables(r, o) :: t !in Keys(r.dataFilters) && res.error == NoFilterMessage(t)
    ensures res.Ok? ==>
      && res.value.dsn == r.dsn && res.value.username == r.username
      && res.value.pass == GetPassword(r.password, o.password, answer).value
      && res.value.dir == (if o.dir.Some? then o.dir.value else r.dumpDir)
      && res.value.startingSequence == o.startingSequence
      && res.value.append == o.append
      && !res.value.lockTables
    ensures res.Ok? ==> FiltersFor(r.dataFilters, PartialTables(r, o), startDate, endDate, res.value.filters)
    ensures res.Ok? ==> Keys(res.value.filters) == FirstOccurrences(PartialTables(r, o))
    ensures res.Ok? ==> PlaceholdersFilled(res.value.filters)
  {
    var pass := GetPassword(r.password, o.password, answer).value;
    if !ValidDate(startDate) then Err(StartDateMessage)
    else if !ValidDate(endDate) then Err(EndDateMessage)
    else
      var tables := PartialTables(r, o);
      match PartialFilters(r.dataFilters, tables, startDate, endDate)
      case Err(e) =>
        assert exists t | t in tables :: t !in Keys(r.dataFilters) && e == NoFilterMessage(t) by {
          var i :| 0 <= i < |tables| && tables[i] !in Keys(r.dataFilters) && e == NoFilterMessage(tables[i]);
          assert tables[i] in tables;
        }
        Err(e)
      case Ok(filters) =>
        FiltersFilled(r.dataFilters, tables, startDate, endDate, filters);
        Ok(PartialDump(r.dsn, r.username, pass, if o.dir.Some? then o.dir.value else r.dumpDir,
                       filters, o.startingSequence, o.append, false))
  }

  /** With default options every table with a filter is dumped, so a partial
      dump with well-formed dates cannot fail for a missing filter. */
  lemma DefaultPartialDumpSucceeds(r: Robo, startDate: string, endDate: string, answer: string)
    requires ValidDate(startDate) && ValidDate(endDate)
    ensures DumpDataPartial(r, startDate, endDate, DefaultPartialOptions(), answer).Ok?
    ensures var filters := DumpDataPartial(r, startDate, endDate, DefaultPartialOptions(), answer).value.filters;
      forall t :: t in Keys(filters) <==> t in Keys(r.dataFilters)
  {
    var tables := PartialTables(r, DefaultPartialOptions());
    assert tables == Keys(r.dataFilters);
  }

  /** By default the full-data dump leaves out every table the partial dump
      covers, so the two never dump the same table's data. */
  lemma DefaultDumpsAreDisjoint(r: Robo, fo: FullOptions, po: PartialOptions,
                                startDate: string, endDate: string, answer: string)
    requires !fo.ignoreDefaultExcludes
    ensures var partial := DumpDataPartial(r, startDate, endDate, po, answer);
      partial.Ok? ==> forall t | t in Keys(partial.value.filters) ::
        t in DumpDataFull(r, fo, answer).excludeTables
  {
    var partial := DumpDataPartial(r, startDate, endDate, po, answer);
    if partial.Ok? {
      var tables := PartialTables(r, po);
      forall t | t in Keys(partial.value.filters)
        ensures t in DumpDataFull(r, fo, answer).excludeTables
      {
        var i :| 0 <= i < |partial.value.filters| && partial.value.filters[i].0 == t;
        assert partial.value.filters[i] in partial.value.filters;
        assert Lookup(r.dataFilters, t).Some?;
      }
    }
  }

  // ---------------------------------------------------------------------
  // Grants dump
  // ---------------------------------------------------------------------

  /** The options of `db:dump-grants`. */
  datatype GrantsOptions = GrantsOptions(file: Option<string>, password: Option<string>, appendFile: bool)

  /** The grants task built for one grant user. */
  predicate GrantTaskFor(t: DumpGrants.Task, r: Robo, u: GrantUser, file: string, pass: string)
  {
    && t.dsn == r.dsn && t.user == r.username && t.pass == pass
    && t.sourceUser == Some(u.user) && t.sourceHost == Some(u.host)
    && t.sourceDatabase.None?
    && t.destinationUser.None? && t.destinationHost.None? && t.destinationDatabase.None?
    && t.destinationPassword == u.pass
    && t.file == Some(file)
  }

  /** The tasks `db:dump-grants` queues, one per grant user in order: the
      first appends only when `appendFile` is set, every later one appends. */
  function GrantTasks(r: Robo, users: seq<GrantUser>, file: string, pass: string, appendFile: bool)
    : (tasks: seq<DumpGrants.Task>)
    ensures |tasks| == |users|
    ensures forall i | 0 <= i < |users| :: GrantTaskFor(tasks[i], r, users[i], file, pass)
    ensures forall i | 0 <= i < |users| :: tasks[i].append == Some(if i == 0 then appendFile else true)
  {
    if users == [] then []
    else
      var u := users[0];
      var t := DumpGrants.ToFile(DumpGrants.Append(
                 DumpGrants.SourceUser(DumpGrants.New(r.dsn, r.username, pass), u.user, u.host),
                 appendFile), file);
      var t' := if u.pass.Some? then DumpGrants.DestinationPassword(t, u.pass.value) else t;
      [t'] + GrantTasks(r, users[1..], file, pass, true)
  }

  /** `db:dump-grants`: the queued tasks, writing to `--file` or the grants
      file in the dump directory. */
  function DumpGrantsCommand(r: Robo, o: GrantsOptions, answer: string): (tasks: seq<DumpGrants.Task>)
    ensures |tasks| == |r.grantUsers|
    ensures forall i | 0 <= i < |tasks| ::
      GrantTaskFor(tasks[i], r, r.grantUsers[i],
                   FileOrDefault(o.file, r.dumpDir, r.dumpGrantsFile),
                   GetPassword(r.password, o.password, answer).value)
    ensures forall i | 0 <= i < |tasks| :: tasks[i].append == Some(i == 0 ==> o.appendFile)
    ensures forall i | 0 <= i < |tasks| :: DumpGrants.PatternsLiteral(tasks[i])
  {
    GrantTasks(r, r.grantUsers, FileOrDefault(o.file, r.dumpDir, r.dumpGrantsFile),
               GetPassword(r.password, o.password, answer).value, o.appendFile)
  }

  /** The file contents after one task's write: appended or replaced. */
  function Written(before: seq<string>, w: DumpGrants.Write): (after: seq<string>)
    ensures w.append == Some(true) ==> after == before + w.lines
    ensures w.append != Some(true) ==> after == w.lines
  {
    if w.append == Some(true) then before + w.lines else w.lines
  }

  /** Running the outcomes of a collection's tasks in order: each write is
      applied to the file, and the first failure stops the collection. */
  function RunWrites(outcomes: seq<Result<DumpGrants.Write, DumpGrants.Failure>>, before: seq<string>)
    : (res: Result<seq<string>, DumpGrants.Failure>)
    ensures res.Err? <==> exists i | 0 <= i < |outcomes| :: outcomes[i].Err?
    ensures res.Err? ==> exists i | 0 <= i < |outcomes| ::
      && outcomes[i].Err? && res.error == outcomes[i].error
      && forall j | 0 <= j < i :: outcomes[j].Ok?
    decreases |outcomes|
  {
    if outcomes == [] then Ok(before)
    else
      assert forall i | 1 <= i < |outcomes| :: outcomes[i] == outcomes[1..][i - 1];
      match outcomes[0]
      case Err(f) => Err(f)
      case Ok(w) =>
        var res := RunWrites(outcomes[1..], Written(before, w));
        assert res.Err? ==> exists i | 1 <= i < |outcomes| ::
          && outcomes[i].Err? && res.error == outcomes[i].error
          && forall j | 0 <= j < i :: outcomes[j].Ok? by {
          if res.Err? {
            var k :| 0 <= k < |outcomes[1..]| && outcomes[1..][k].Err? && res.error == outcomes[1..][k].error
              && forall j | 0 <= j < k :: outcomes[1..][j].Ok?;
            assert forall j | 1 <= j < k + 1 :: outcomes[j] == outcomes[1..][j - 1];
          }
        }
        res
  }

  /** What each task of a collection does when run on its own: tasks only
      read from the server, so one task's outcome does not depend on
      another's. */
  function Outcomes(tasks: seq<DumpGrants.Task>, pdoLoaded: bool, grantsOf: (string, string) -> seq<string>)
    : (outcomes: seq<Result<DumpGrants.Write, DumpGrants.Failure>>)
    requires forall i | 0 <= i < |tasks| :: DumpGrants.PatternsLiteral(tasks[i])
    ensures |outcomes| == |tasks|
    ensures forall i | 0 <= i < |tasks| ::
      outcomes[i] == DumpGrants.Run(tasks[i], pdoLoaded, grantsOf(Str(tasks[i].sourceUser), Str(tasks[i].sourceHost)))
  {
    seq(|tasks|, i requires 0 <= i < |tasks| =>
      DumpGrants.Run(tasks[i], pdoLoaded, grantsOf(Str(tasks[i].sourceUser), Str(tasks[i].sourceHost))))
  }

  /** Running the queued grants tasks as a collection against the grants the
      server reports for each source account (`grantsOf`); `before` is the
      grants file's content. */
  function RunGrantTasks(tasks: seq<DumpGrants.Task>, pdoLoaded: bool,
                         grantsOf: (string, string) -> seq<string>, before: seq<string>)
    : (res: Result<seq<string>, DumpGrants.Failure>)
    requires forall i | 0 <= i < |tasks| :: DumpGrants.PatternsLiteral(tasks[i])
    ensures res.Err? <==> exists i | 0 <= i < |tasks| ::
      DumpGrants.Run(tasks[i], pdoLoaded, grantsOf(Str(tasks[i].sourceUser), Str(tasks[i].sourceHost))).Err?
    ensures res.Err? ==> exists i | 0 <= i < |tasks| ::
      && DumpGrants.Run(tasks[i], pdoLoaded, grantsOf(Str(tasks[i].sourceUser), Str(tasks[i].sourceHost)))
           == Err(res.error)
      && forall j | 0 <= j < i ::
           DumpGrants.Run(tasks[j], pdoLoaded, grantsOf(Str(tasks[j].sourceUser), Str(tasks[j].sourceHost))).Ok?
  {
    RunWrites(Outcomes(tasks, pdoLoaded, grantsOf), before)
  }

  /** The lines of successful writes, one write after another. */
  function Flatten(lines: seq<seq<string>>): seq<string>
  {
    if lines == [] then [] else lines[0] + Flatten(lines[1..])
  }

  /** The lines each successful write carries. */
  function WriteLines(outcomes: seq<Result<DumpGrants.Write, DumpGrants.Failure>>): (lines: seq<seq<string>>)
    requires forall i | 0 <= i < |outcomes| :: outcomes[i].Ok?
    ensures |lines| == |outcomes|
    ensures forall i | 0 <= i < |outcomes| :: lines[i] == outcomes[i].value.lines
  {
    seq(|outcomes|, i requires 0 <= i < |outcomes| => outcomes[i].value.lines)
  }

  /** When every write succeeds and every write after the first appends,
      the file ends up as what the first write keeps followed by every
      write's lines in order. */
  lemma {:induction false} RunWritesCollects(outcomes: seq<Result<DumpGrants.Write, DumpGrants.Failure>>,
                                             before: seq<string>)
    requires outcomes != []
    requires forall i | 0 <= i < |outcomes| :: outcomes[i].Ok?
    requires forall i | 1 <= i < |outcomes| :: outcomes[i].value.append == Some(true)
    ensures RunWrites(outcomes, before)
      == Ok((if outcomes[0].value.append == Some(true) then before else [])
            + Flatten(WriteLines(outcomes)))
    decreases |outcomes|
  {
    var w := outcomes[0].value;
    var start := if w.append == Some(true) then before else [];
    var rest := outcomes[1..];
    assert forall i | 0 <= i < |rest| :: rest[i] == outcomes[i + 1];
    assert WriteLines(outcomes) == [w.lines] + WriteLines(rest);
    assert Flatten(WriteLines(outcomes)) == w.lines + Flatten(WriteLines(rest));
    ConcatAssociative(start, w.lines, Flatten(WriteLines(rest)));
    assert outcomes[0] == Ok(w);
    assert Written(before, w) == start + w.lines;
    assert RunWrites(outcomes, before) == RunWrites(rest, Written(before, w));
    if rest == [] {
      assert Flatten(WriteLines(rest)) == [];
      ConcatAssociative(w.lines, [], []);
    } else {
      RunWritesCollects(rest, start + w.lines);
    }
  }

  /** `db:dump-grants` end to end: with the extension loaded, sensible
      account names and grants for every user, the grants file holds every
      grant user's rewritten grants in user order, after the old content
      only when `--appendFile` is given. */
  lemma DumpGrantsWritesEveryUser(r: Robo, o: GrantsOptions, answer: string,
                                  grantsOf: (string, string) -> seq<string>, before: seq<string>)
    requires r.grantUsers != []
    requires !Empty(Some(FileOrDefault(o.file, r.dumpDir, r.dumpGrantsFile)))
    requires forall i | 0 <= i < |r.grantUsers| ::
      && !Empty(Some(r.grantUsers[i].user)) && !Empty(Some(r.grantUsers[i].host))
      && grantsOf(r.grantUsers[i].user, r.grantUsers[i].host) != []
    ensures var tasks := DumpGrantsCommand(r, o, answer);
      RunGrantTasks(tasks, true, grantsOf, before)
        == Ok((if o.appendFile then before else [])
              + Flatten(seq(|tasks|, i requires 0 <= i < |tasks| =>
                  DumpGrants.PrepareLines(tasks[i], grantsOf(r.grantUsers[i].user, r.grantUsers[i].host)))))
  {
    var tasks := DumpGrantsCommand(r, o, answer);
    var outcomes := Outcomes(tasks, true, grantsOf);
    forall i | 0 <= i < |tasks|
      ensures outcomes[i] == Ok(DumpGrants.Write(tasks[i].file.value, tasks[i].append,
                DumpGrants.PrepareLines(tasks[i], grantsOf(r.grantUsers[i].user, r.grantUsers[i].host))))
    {
      assert DumpGrants.Configured(tasks[i]);
    }
    RunWritesCollects(outcomes, before);
    var perUser := seq(|tasks|, i requires 0 <= i < |tasks| =>
      DumpGrants.PrepareLines(tasks[i], grantsOf(r.grantUsers[i].user, r.grantUsers[i].host)));
    EqualPointwise(WriteLines(outcomes), perUser);
  }

  // ---------------------------------------------------------------------
  // db:initialize-dev
  // ---------------------------------------------------------------------

  /** The dump commands `db:initialize-dev` runs. */
  datatype DevCommand = SchemaDump | FullDataDump | PartialDataDump | GrantsDump

  /** The name a command is invoked by. */
  function Name(c: DevCommand): string
  {
    match c
    case SchemaDump => "db:dump-schema"
    case FullDataDump => "db:dump-data-full"
    case PartialDataDump => "db:dump-data-partial"
    case GrantsDump => "db:dump-grants"
  }

  /** The commands `db:initialize-dev` runs, in order. */
  const InitializeDevCommands: seq<DevCommand> := [SchemaDump, FullDataDump, PartialDataDump, GrantsDump]

  /** The argument vector handed to the Robo runner for one command: the
      dates go only to the partial dump, the password to every command. */
  function CommandArguments(c: DevCommand, startDate: string, endDate: string, pass: string)
    : (args: seq<string>)
    ensures |args| == (if c == PartialDataDump then 6 else 4)
    ensures args[..2] == ["vendor/bin/robo", Name(c)]
    ensures args[|args| - 2..] == ["--password", pass]
    ensures c == PartialDataDump ==> args[2..4] == [startDate, endDate]
  {
    if c == PartialDataDump then ["vendor/bin/robo", Name(c), startDate, endDate, "--password", pass]
    else ["vendor/bin/robo", Name(c), "--password", pass]
  }

  /** One sub-command to run. */
  datatype Step = Step(command: DevCommand, arguments: seq<string>)

  /** What a run of sub-commands did: the argument vectors it started, in
      order, and the exception message if one failed. */
  datatype RunLog = RunLog(invoked: seq<seq<string>>, failure: Option<string>)

  function CommandFailed(command: string): string
  {
    "Command " + command + " failed"
  }

  /** The index of the first step whose exit status is non-zero, or the
      number of steps when every one succeeds. */
  function FirstFailure(steps: seq<Step>, run: seq<string> -> int): (k: nat)
    ensures k <= |steps|
    ensures forall i | 0 <= i < k :: run(steps[i].arguments) == 0
    ensures k < |steps| ==> run(steps[k].arguments) != 0
    decreases |steps|
  {
    if steps == [] || run(steps[0].arguments) != 0 then 0
    else
      var k := FirstFailure(steps[1..], run);
      forall i | 1 <= i < k + 1 ensures run(steps[i].arguments) == 0 {
        assert steps[i] == steps[1..][i - 1];
      }
      assert k < |steps| - 1 ==> steps[k + 1] == steps[1..][k];
      k + 1
  }

  /** Runs steps in order with `run` giving each one's exit status, and
      stops at the first non-zero status, which becomes the failure. */
  function RunSequence(steps: seq<Step>, run: seq<string> -> int): (log: RunLog)
    ensures |log.invoked| <= |steps|
    ensures forall i | 0 <= i < |log.invoked| :: log.invoked[i] == steps[i].arguments
    ensures forall i | 0 <= i < |log.invoked| - 1 :: run(steps[i].arguments) == 0
    ensures log.failure.None? ==> |log.invoked| == |steps|
    ensures log.failure.None? <==> forall i | 0 <= i < |steps| :: run(steps[i].arguments) == 0
    ensures log.failure.Some? ==>
      && |log.invoked| >= 1
      && run(steps[|log.invoked| - 1].arguments) != 0
      && log.failure.value == CommandFailed(Name(steps[|log.invoked| - 1].command))
  {
    var k := FirstFailure(steps, run);
    if k == |steps| then
      RunLog(seq(|steps|, i requires 0 <= i < |steps| => steps[i].arguments), None)
    else
      RunLog(seq(k + 1, i requires 0 <= i < k + 1 => steps[i].arguments),
             Some(CommandFailed(Name(steps[k].command))))
  }

  /** The steps of `db:initialize-dev`. */
  function InitializeDevSteps(startDate: string, endDate: string, pass: string): (steps: seq<Step>)
    ensures |steps| == |InitializeDevCommands|
    ensures forall i | 0 <= i < |steps| ::
      steps[i] == Step(InitializeDevCommands[i], CommandArguments(InitializeDevCommands[i], startDate, endDate, pass))
  {
    seq(|InitializeDevCommands|, i requires 0 <= i < |InitializeDevCommands| =>
      Step(InitializeDevCommands[i], CommandArguments(InitializeDevCommands[i], startDate, endDate, pass)))
  }

  /** `db:initialize-dev`: the password is fetched once (asking if needed)
      and the four dumps run in order, each as a separate Robo invocation,
      until one fails. */
  function InitializeDev(r: Robo, startDate: string, endDate: string, answer: string,
                         run: seq<string> -> int): (log: RunLog)
    ensures 1 <= |log.invoked| <= 4
    ensures forall i | 0 <= i < |log.invoked| ::
      log.invoked[i] == CommandArguments(InitializeDevCommands[i], startDate, endDate,
                                         GetPassword(r.password, None, answer).value)
    ensures forall i | 0 <= i < |log.invoked| - 1 :: run(log.invoked[i]) == 0
    ensures log.failure.None? ==> |log.invoked| == 4 && run(log.invoked[3]) == 0
    ensures log.failure.Some? ==>
      && run(log.invoked[|log.invoked| - 1]) != 0
      && log.failure.value == CommandFailed(Name(InitializeDevCommands[|log.invoked| - 1]))
  {
    var pass := GetPassword(r.password, None, answer).value;
    var steps := InitializeDevSteps(startDate, endDate, pass);
    var log := RunSequence(steps, run);
    forall i | 0 <= i < |log.invoked|
      ensures log.invoked[i] == CommandArguments(InitializeDevCommands[i], startDate, endDate, pass)
    {
      assert log.invoked[i] == steps[i].arguments;
    }
    log
  }

  /** Only the partial dump receives the dates, and every step receives the
      password last. */
  lemma OnlyPartialDumpGetsDates(startDate: string, endDate: string, pass: string, i: int)
    requires 0 <= i < |InitializeDevCommands|
    ensures var args := CommandArguments(InitializeDevCommands[i], startDate, endDate, pass);
      && (i == 2 <==> |args| == 6)
      && (i == 2 ==> args[2..4] == [startDate, endDate])
      && args[|args| - 2..] == ["--password", pass]
  {
  }

  /** When the full-data dump fails, the partial and grants dumps are never
      started and the error names the full-data dump. */
  lemma FailedStepStopsSequence(r: Robo, startDate: string, endDate: string, answer: string,
                                run: seq<string> -> int)
    requires var pass := GetPassword(r.password, None, answer).value;
      && run(CommandArguments(SchemaDump, startDate, endDate, pass)) == 0
      && run(CommandArguments(FullDataDump, startDate, endDate, pass)) != 0
    ensures InitializeDev(r, startDate, endDate, answer, run).failure
      == Some("Command db:dump-data-full failed")
    ensures |InitializeDev(r, startDate, endDate, answer, run).invoked| == 2
  {
    var log := InitializeDev(r, startDate, endDate, answer, run);
    assert InitializeDevCommands[0] == SchemaDump && InitializeDevCommands[1] == FullDataDump;
    assert |log.invoked| == 2;
    FullDataDumpFailure();
  }

  lemma FullDataDumpFailure()
    ensures CommandFailed(Name(FullDataDump)) == "Command db:dump-data-full failed"
  {
  }
}
