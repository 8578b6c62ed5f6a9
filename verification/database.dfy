/** The driver rewrite at the top of backend/app/core/database.py: a synchronous
    SQLite or PostgreSQL URL is turned into the URL of the matching async driver
    before the engine is created. */
module Database {
  import opened Wrappers
  import opened Strings
  import Config

  const SqliteMarker: string := "sqlite:///"
  const SqliteAsyncMarker: string := "sqlite+aiosqlite:///"
  const PostgresMarker: string := "postgresql://"
  const PostgresAsyncMarker: string := "postgresql+asyncpg://"

  /** The rewrite as the module performs it: a prefix test on the dialect name, then
      `str.replace` of every occurrence of the synchronous scheme marker. */
  function AsyncDatabaseUrl(url: string): (r: string)
    ensures !StartsWith(url, "sqlite") && !StartsWith(url, "postgresql") ==> r == url
    ensures StartsWith(url, "sqlite") && !Contains(url, SqliteMarker) ==> r == url
    ensures !StartsWith(url, "sqlite") && StartsWith(url, "postgresql") && !Contains(url, PostgresMarker) ==> r == url
    ensures StartsWith(url, "sqlite") && Contains(url, SqliteMarker) ==>
              var k := Find(url, SqliteMarker).value;
              r == url[..k] + SqliteAsyncMarker + ReplaceAll(url[k + |SqliteMarker|..], SqliteMarker, SqliteAsyncMarker)
    ensures !StartsWith(url, "sqlite") && StartsWith(url, "postgresql") && Contains(url, PostgresMarker) ==>
              var k := Find(url, PostgresMarker).value;
              r == url[..k] + PostgresAsyncMarker + ReplaceAll(url[k + |PostgresMarker|..], PostgresMarker, PostgresAsyncMarker)
  {
    if StartsWith(url, "sqlite") then
      ReplaceAllLeftmost(url, SqliteMarker, SqliteAsyncMarker);
      ReplaceAll(url, SqliteMarker, SqliteAsyncMarker)
    else if StartsWith(url, "postgresql") then
      ReplaceAllLeftmost(url, PostgresMarker, PostgresAsyncMarker);
      ReplaceAll(url, PostgresMarker, PostgresAsyncMarker)
    else url
  }

  /** A string with no colon cannot contain either scheme marker. */
  lemma NoColonNoMarker(s: string, marker: string, j: nat)
    requires ':' !in s
    requires j < |marker| && marker[j] == ':'
    ensures !Contains(s, marker)
  {
  }

  /** Replacing a marker that starts the string and occurs nowhere else swaps the prefix. */
  lemma ReplaceLeadingMarker(marker: string, replacement: string, rest: string)
    requires |marker| > 0
    requires !Contains(rest, marker)
    ensures ReplaceAll(marker + rest, marker, replacement) == replacement + rest
  {
    var s := marker + rest;
    assert OccursAt(s, marker, 0) by {
      assert s[0..|marker|] == marker;
    }
    assert s[..|marker|] == marker;
    assert Find(s, marker) == Some(0);
    assert s[|marker|..] == rest;
    assert Split(rest, marker) == [rest];
    assert Split(s, marker) == ["", rest];
    assert Join(["", rest], replacement) == "" + replacement + rest;
  }

  /** A plain synchronous SQLite URL gets the aiosqlite driver and nothing else changes. */
  lemma SqliteUrlGetsAsyncDriver(rest: string)
    requires !Contains(rest, SqliteMarker)
    ensures AsyncDatabaseUrl(SqliteMarker + rest) == SqliteAsyncMarker + rest
  {
    assert StartsWith(SqliteMarker + rest, "sqlite");
    ReplaceLeadingMarker(SqliteMarker, SqliteAsyncMarker, rest);
  }

  /** A plain synchronous PostgreSQL URL gets the asyncpg driver and nothing else changes. */
  lemma PostgresUrlGetsAsyncDriver(rest: string)
    requires !Contains(rest, PostgresMarker)
    ensures AsyncDatabaseUrl(PostgresMarker + rest) == PostgresAsyncMarker + rest
  {
    var url := PostgresMarker + rest;
    assert !StartsWith(url, "sqlite") by {
      assert url[1] == 'o';
    }
    assert StartsWith(url, "postgresql");
    ReplaceLeadingMarker(PostgresMarker, PostgresAsyncMarker, rest);
  }

  /** The configured default URL becomes the aiosqlite URL of the same file. */
  lemma DefaultDatabaseUrl(url: string)
    requires url == Config.DatabaseUrl
    ensures AsyncDatabaseUrl(url) == SqliteAsyncMarker + "./ai_learning_assistant.db"
  {
    var rest := "./ai_learning_assistant.db";
    DefaultUrlParts(rest);
    NoColonNoMarker(rest, SqliteMarker, 6);
    SqliteUrlGetsAsyncDriver(rest);
  }

  /** The configured default is the synchronous SQLite marker followed by a path with no colon. */
  lemma DefaultUrlParts(rest: string)
    requires rest == "./ai_learning_assistant.db"
    ensures Config.DatabaseUrl == SqliteMarker + rest
    ensures ':' !in rest
  {
    DefaultUrlSplits(rest);
    DefaultPathHasNoColon(rest);
  }

  lemma DefaultUrlSplits(rest: string)
    requires rest == "./ai_learning_assistant.db"
    ensures Config.DatabaseUrl == SqliteMarker + rest
  {
    var u := Config.DatabaseUrl;
    assert u[..|SqliteMarker|] == SqliteMarker;
    assert u[|SqliteMarker|..] == rest;
    assert u == u[..|SqliteMarker|] + u[|SqliteMarker|..];
  }

  lemma DefaultPathHasNoColon(rest: string)
    requires rest == "./ai_learning_assistant.db"
    ensures ':' !in rest
  {
  }

  /** As written, a URL that already names the aiosqlite driver is rewritten a second
      time, because "sqlite+aiosqlite:///" contains "sqlite:///" at offset 10: for
      example "sqlite+aiosqlite:///./app.db" becomes "sqlite+aiosqlite+aiosqlite:///./app.db". */
  lemma AsyncSqliteUrlIsRewrittenAgain(rest: string)
    requires ':' !in rest
    ensures AsyncDatabaseUrl(SqliteAsyncMarker + rest) == "sqlite+aio" + SqliteAsyncMarker + rest
    ensures AsyncDatabaseUrl(SqliteAsyncMarker + rest) != SqliteAsyncMarker + rest
  {
    var url := SqliteAsyncMarker + rest;
    assert StartsWith(url, "sqlite");
    forall k | 0 <= k < 10
      ensures !OccursAt(url, SqliteMarker, k)
    {
      assert url[k + 6] == SqliteAsyncMarker[k + 6] != ':';
      assert url[k..k + 10][6] == url[k + 6];
    }
    assert OccursAt(url, SqliteMarker, 10) by {
      assert url[10..20] == SqliteMarker;
    }
    assert Find(url, SqliteMarker) == Some(10);
    assert url[..10] == "sqlite+aio";
    assert url[20..] == rest;
    NoColonNoMarker(rest, SqliteMarker, 6);
    assert Split(rest, SqliteMarker) == [rest];
    assert Split(url, SqliteMarker) == ["sqlite+aio", rest];
    assert Join(["sqlite+aio", rest], SqliteAsyncMarker) == "sqlite+aio" + SqliteAsyncMarker + rest;
    assert AsyncDatabaseUrl(url) == ReplaceAll(url, SqliteMarker, SqliteAsyncMarker);
    assert |AsyncDatabaseUrl(url)| == |url| + 10;
  }

  /** The rewrite the module evidently intends: swap a leading synchronous scheme for
      its async driver, and leave every other URL, an async one included, alone. */
  function AsyncDatabaseUrlOnce(url: string): (r: string)
    ensures !StartsWith(url, SqliteMarker) && !StartsWith(url, PostgresMarker) ==> r == url
    ensures StartsWith(url, SqliteMarker) ==> r == SqliteAsyncMarker + url[|SqliteMarker|..]
    ensures StartsWith(url, PostgresMarker) ==> r == PostgresAsyncMarker + url[|PostgresMarker|..]
  {
    if StartsWith(url, SqliteMarker) then
      assert url[0] == 's';
      SqliteAsyncMarker + url[|SqliteMarker|..]
    else if StartsWith(url, PostgresMarker) then PostgresAsyncMarker + url[|PostgresMarker|..]
    else url
  }

  /** The intended rewrite is idempotent: an already converted URL is left unchanged. */
  lemma AsyncDatabaseUrlOnceIdempotent(url: string)
    ensures AsyncDatabaseUrlOnce(AsyncDatabaseUrlOnce(url)) == AsyncDatabaseUrlOnce(url)
  {
    var r := AsyncDatabaseUrlOnce(url);
    if StartsWith(url, SqliteMarker) {
      assert r[6] == '+' && r[0] == 's';
    } else if StartsWith(url, PostgresMarker) {
      assert r[10] == '+' && r[0] == 'p';
    }
    assert !StartsWith(r, SqliteMarker) && !StartsWith(r, PostgresMarker);
  }

  /** On the plain synchronous URLs the module is meant for, the intended rewrite agrees
      with the one as written. */
  lemma AsyncDatabaseUrlOnceAgrees(rest: string)
    requires !Contains(rest, SqliteMarker) && !Contains(rest, PostgresMarker)
    ensures AsyncDatabaseUrlOnce(SqliteMarker + rest) == AsyncDatabaseUrl(SqliteMarker + rest)
    ensures AsyncDatabaseUrlOnce(PostgresMarker + rest) == AsyncDatabaseUrl(PostgresMarker + rest)
  {
    SqliteUrlGetsAsyncDriver(rest);
    PostgresUrlGetsAsyncDriver(rest);
    assert (SqliteMarker + rest)[|SqliteMarker|..] == rest;
    assert (PostgresMarker + rest)[|PostgresMarker|..] == rest;
  }
}
