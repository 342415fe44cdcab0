/**
  The PostgreSQL connection string the two database clients build
  (`_dsn` in backend/app/services/pipeline_config.py and `_build_dsn` in
  backend/app/services/index_rules.py, which are the same code).
 */
module Database {
  import opened Text

  /** The `DB_USER`, `DB_PASS`, `DB_HOST`, `DB_PORT` and `DB_NAME` settings. */
  datatype DbSettings = DbSettings(user: string, password: string, host: string, port: int, name: string)

  const Scheme: string := "postgresql://"

  /** What follows the user information: `@host:port/db`. */
  function Location(db: DbSettings): string {
    "@" + db.host + ":" + IntToString(db.port) + "/" + db.name
  }

  /** The connection string; the password and its colon appear only when the password is non-empty. */
  function Dsn(db: DbSettings): (r: string)
    ensures StartsWith(r, Scheme)
  {
    if db.password != [] then Scheme + db.user + ":" + db.password + Location(db)
    else Scheme + db.user + Location(db)
  }

  /** The user information of a connection string: what lies between the scheme and the first `@`. */
  function UserInfo(dsn: string): string
    requires StartsWith(dsn, Scheme)
  {
    var rest := dsn[|Scheme|..];
    rest[..IndexOf(rest, '@')]
  }

  /**
    Reading the user information back out of the connection string gives
    `user:password` with a password and plain `user` without one, and the
    rest of the string is the location in both cases.
   */
  lemma DsnUserInfo(db: DbSettings)
    requires '@' !in db.user && '@' !in db.password
    ensures UserInfo(Dsn(db)) == if db.password != [] then db.user + ":" + db.password else db.user
    ensures Dsn(db)[|Scheme| + |UserInfo(Dsn(db))|..] == Location(db)
  {
    var info := if db.password != [] then db.user + ":" + db.password else db.user;
    var dsn := Dsn(db);
    assert dsn == Scheme + info + Location(db);
    var rest := dsn[|Scheme|..];
    assert rest == info + Location(db);
    assert '@' !in info;
    assert rest[..|info|] == info;
    IndexOfAt(rest, '@', |info|);
  }

  /** Without a colon in the user name, a colon in the user information means a password was given. */
  lemma PasswordIffColon(db: DbSettings)
    requires '@' !in db.user && '@' !in db.password && ':' !in db.user
    ensures ':' in UserInfo(Dsn(db)) <==> db.password != []
  {
    DsnUserInfo(db);
    if db.password != [] {
      assert (db.user + ":" + db.password)[|db.user|] == ':';
    }
  }
}
