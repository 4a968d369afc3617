/**
 * The connection set-up logic of modules/dbmodule/gorm.go: defaults for a
 * database entry, the DSN timeout, the choice of driver by name, and the
 * log level handed to the ORM's logger.
 *
 * Opening the connection and building the logger's writer are I/O and are
 * not part of this model; the dialector chosen and the settings computed
 * for it are the result.
 */
module GormSetup {
  import opened Wrappers
  import opened StringHelpers
  import Sequences

  /** The driver names of modules/dbmodule/db.go. */
  const DbTypeMysql := "mysql"
  const DbTypePostgresql := "postgresql"
  const DbTypeSqlite := "sqlite"
  const DbTypeSqlserver := "sqlserver"

  datatype Dialector = Mysql | Sqlite | Postgres | Sqlserver

  /** `logger.LogLevel` */
  datatype LogMode = ErrorLevel | WarnLevel | InfoLevel

  /** What `newGormDB` hands to `gorm.Open` and to the pool. */
  datatype Setup = Setup(dialector: Dialector, dsn: string, logMode: LogMode, slowThresholdMs: int,
                         colorful: bool, maxIdleConns: int, maxOpenConns: int)

  /** `dbConfig`, whose numeric settings `newGormDB` defaults in place. */
  class DbConfig {
    var name: string
    var dsn: string
    var driver: string
    var logLevel: int
    var enableLogWriter: bool
    var maxIdleConn: int
    var maxConn: int
    var slowThreshold: int

    constructor (name: string, dsn: string, driver: string, logLevel: int, enableLogWriter: bool,
                 maxIdleConn: int, maxConn: int, slowThreshold: int)
      ensures this.name == name && this.dsn == dsn && this.driver == driver && this.logLevel == logLevel
      ensures this.enableLogWriter == enableLogWriter && this.maxIdleConn == maxIdleConn
      ensures this.maxConn == maxConn && this.slowThreshold == slowThreshold
    {
      this.name, this.dsn, this.driver, this.logLevel := name, dsn, driver, logLevel;
      this.enableLogWriter, this.maxIdleConn, this.maxConn, this.slowThreshold := enableLogWriter, maxIdleConn, maxConn, slowThreshold;
    }

    /** The zero-value defaults: each numeric setting left at 0 takes its default, any other is kept. */
    method ApplyDefaults()
      modifies this
      ensures logLevel == Defaulted(old(logLevel), 3)
      ensures maxIdleConn == Defaulted(old(maxIdleConn), 10)
      ensures maxConn == Defaulted(old(maxConn), 200)
      ensures slowThreshold == Defaulted(old(slowThreshold), 200)
      ensures name == old(name) && dsn == old(dsn) && driver == old(driver) && enableLogWriter == old(enableLogWriter)
    {
      if logLevel == 0 {
        logLevel := 3;
      }
      if maxIdleConn == 0 {
        maxIdleConn := 10;
      }
      if maxConn == 0 {
        maxConn := 200;
      }
      if slowThreshold == 0 {
        slowThreshold := 200;
      }
    }

    /**
     * `newGormDB(conf)` up to `gorm.Open`: defaults applied, the DSN given a
     * timeout, the dialector picked by the lower-cased driver name before
     * its first "_", or an error naming the unsupported driver.
     */
    method NewGormDB() returns (r: Result<Setup>)
      modifies this
      ensures logLevel == Defaulted(old(logLevel), 3) && maxIdleConn == Defaulted(old(maxIdleConn), 10)
      ensures maxConn == Defaulted(old(maxConn), 200) && slowThreshold == Defaulted(old(slowThreshold), 200)
      ensures dsn == old(dsn) && driver == old(driver) && name == old(name) && enableLogWriter == old(enableLogWriter)
      ensures DialectorFor(driver).None? <==> r.Err?
      ensures r.Err? ==> r.msg == "不支持的数据库类型: " + driver
      ensures r.Ok? ==> r.value == Setup(DialectorFor(driver).value, EnsureTimeout(dsn, "5s"), GetLogMode(logLevel),
                                          slowThreshold, !enableLogWriter, maxIdleConn, maxConn)
    {
      ApplyDefaults();
      var timeoutDsn := EnsureTimeout(dsn, "5s");
      var dialector := DialectorFor(driver);
      if dialector.None? {
        return Err("不支持的数据库类型: " + driver);
      }
      return Ok(Setup(dialector.value, timeoutDsn, GetLogMode(logLevel), slowThreshold, !enableLogWriter, maxIdleConn, maxConn));
    }
  }

  /** A setting defaulted when zero. */
  function Defaulted(value: int, default: int): (r: int)
    ensures value == 0 ==> r == default
    ensures value != 0 ==> r == value
  {
    if value == 0 then default else value
  }

  /** The `switch` of `newGormDB` on the lower-cased driver kind. */
  function DialectorNamed(kind: string): (d: Option<Dialector>)
    ensures d.Some? <==> kind == DbTypeMysql || kind == DbTypeSqlite || kind == DbTypePostgresql || kind == DbTypeSqlserver
  {
    if kind == DbTypeMysql then Some(Mysql)
    else if kind == DbTypeSqlite then Some(Sqlite)
    else if kind == DbTypePostgresql then Some(Postgres)
    else if kind == DbTypeSqlserver then Some(Sqlserver)
    else None
  }

  /** The dialector for a configured driver name: its text before the first "_", lower-cased. */
  function DialectorFor(driver: string): Option<Dialector>
  {
    DialectorNamed(ToLower(Split(driver, '_')[0]))
  }

  /** Only the text before the first "_" names the driver: "mysql_main" picks what "mysql" picks. */
  lemma DialectorByPrefix(kind: string, suffix: string)
    requires '_' !in kind
    ensures DialectorFor(kind + "_" + suffix) == DialectorFor(kind) == DialectorNamed(ToLower(kind))
  {
    SplitFirst(kind, '_', suffix);
  }

  /** The case of the driver name does not matter: "MySQL" picks what "mysql" picks. */
  lemma DialectorIgnoresCase(driver: string)
    ensures DialectorFor(ToLower(driver)) == DialectorFor(driver)
  {
    LowerFirstPart(driver);
    ToLowerIdempotent(Split(driver, '_')[0]);
  }

  /** The text before the first "_" of the lower-cased name is the lower-cased text before the first "_". */
  lemma LowerFirstPart(driver: string)
    ensures Split(ToLower(driver), '_')[0] == ToLower(Split(driver, '_')[0])
  {
    var i := SplitPrefix(driver, '_');
    var kind, rest := driver[..i], driver[i..];
    assert driver == kind + rest;
    ToLowerAppend(kind, rest);
    LowerKeepsOut(kind, '_');
    if i == |driver| {
      assert rest == [];
      SplitFirst(ToLower(kind), '_', "");
    } else {
      var tail := ToLower(rest[1..]);
      assert ToLower(rest) == ['_'] + tail;
      Sequences.AppendAssocOne(ToLower(kind), '_', tail);
      SplitFirst(ToLower(kind), '_', tail);
    }
  }

  /** Lower-casing introduces no character that is not a lower-case letter. */
  lemma LowerKeepsOut(s: string, c: char)
    requires c !in s && !IsLower(c)
    ensures c !in ToLower(s)
  {
    forall j | 0 <= j < |s|
      ensures ToLower(s)[j] != c
    {
      assert ToLower(s)[j] == ToLowerChar(s[j]);
    }
  }

  /** `getLogger`'s level switch: 1 is errors, 2 warnings, anything else everything. */
  function GetLogMode(logLevel: int): (m: LogMode)
    ensures m == ErrorLevel <==> logLevel == 1
    ensures m == WarnLevel <==> logLevel == 2
  {
    match logLevel
    case 1 => ErrorLevel
    case 2 => WarnLevel
    case 3 => InfoLevel
    case _ => InfoLevel
  }

  /**
   * `ensureTimeout(dsn, defaultTimeout)`: a DSN that names a timeout is
   * kept; otherwise the timeout parameter is appended, joined with `&` to
   * a DSN that already has a query string and with `?` to one that has not.
   */
  function EnsureTimeout(dsn: string, defaultTimeout: string): (r: string)
    ensures Contains(r, "timeout=")
    ensures Contains(dsn, "timeout=") ==> r == dsn
    ensures !Contains(dsn, "timeout=") ==>
      r == dsn + [if Contains(dsn, "?") then '&' else '?'] + "timeout=" + defaultTimeout
  {
    if Contains(dsn, "timeout=") then dsn
    else if Contains(dsn, "?") then
      TimeoutParam(dsn, '&', defaultTimeout);
      assert ['&'] + "timeout=" == "&timeout=";
      dsn + "&timeout=" + defaultTimeout
    else
      TimeoutParam(dsn, '?', defaultTimeout);
      assert ['?'] + "timeout=" == "?timeout=";
      dsn + "?timeout=" + defaultTimeout
  }

  /** A timeout parameter appended after `sep` is there to be found. */
  lemma TimeoutParam(dsn: string, sep: char, defaultTimeout: string)
    ensures Contains(dsn + ([sep] + "timeout=") + defaultTimeout, "timeout=")
  {
    ContainsInfix(dsn + [sep], "timeout=", defaultTimeout);
    Sequences.AppendAssoc(dsn, [sep], "timeout=");
  }

  /**
   * A DSN with a timeout is kept; the DSN is always a prefix of the
   * result, and a second call changes nothing.
   */
  lemma EnsureTimeoutKeepsDsn(dsn: string, defaultTimeout: string)
    ensures Contains(dsn, "timeout=") ==> EnsureTimeout(dsn, defaultTimeout) == dsn
    ensures HasPrefix(EnsureTimeout(dsn, defaultTimeout), dsn)
    ensures EnsureTimeout(EnsureTimeout(dsn, defaultTimeout), defaultTimeout) == EnsureTimeout(dsn, defaultTimeout)
    ensures !Contains(dsn, "timeout=") ==> Contains(EnsureTimeout(dsn, defaultTimeout), "?")
  {
    var r := EnsureTimeout(dsn, defaultTimeout);
    assert r[..|dsn|] == dsn;
    if !Contains(dsn, "timeout=") && !Contains(dsn, "?") {
      assert r == dsn + "?" + ("timeout=" + defaultTimeout);
      ContainsInfix(dsn, "?", "timeout=" + defaultTimeout);
    } else if !Contains(dsn, "timeout=") {
      ContainsExtend(dsn, "?", ['&'] + "timeout=" + defaultTimeout);
      assert r == dsn + (['&'] + "timeout=" + defaultTimeout);
    }
  }
}
