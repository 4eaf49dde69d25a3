/** Connection resolution (app/db.py): which database a request is run
    against, chosen from its source selector, its optional path and two
    settings taken from the environment. Opening the connection itself is
    not modelled; the result names the target that would be opened, or the
    error that is raised instead. */
module Db {
  import opened Wrappers

  /** The environment settings the resolver reads; `None` when unset. */
  datatype Env = Env(databasePath: Option<string>, motherduckToken: Option<string>)

  /** What a connection is opened to. */
  datatype Target =
    | Local(dbPath: string)                      // a local database file, or ":memory:"
    | Remote(connString: string)                 // a hosted MotherDuck database
    | ParquetView(viewName: string, path: string, statement: string)
      // an in-memory database on which `statement` defines the view `viewName` over a Parquet file

  /** The `ValueError` raised when no connection can be resolved. */
  datatype ConnectionError = ValueError(message: string)

  const DefaultSource := "duckdb"
  const MemoryPath := ":memory:"
  const RemotePrefix := "md:?token="
  const ViewName := "parquet_data"

  /** Python truthiness of an optional string: set and non-empty. */
  predicate Truthy(s: Option<string>)
  {
    s.Some? && s.value != ""
  }

  /** The source a request names, `"duckdb"` when it names none. */
  function SourceOf(source: Option<string>): string
  {
    source.GetOr(DefaultSource)
  }

  /** The token a MotherDuck connection string carries, if it is one. */
  function TokenOfConnString(connString: string): Option<string>
  {
    if RemotePrefix <= connString then Some(connString[|RemotePrefix|..]) else None
  }

  /** Resolves the connection target for `source` (`None` when the request
      omits it) and `path`, reading `DATABASE_PATH` and `MOTHERDUCK_TOKEN`
      from `env`. */
  function GetConnection(source: Option<string>, path: Option<string>, env: Env): (r: Result<Target, ConnectionError>)
    // Which sources resolve at all.
    ensures r.Success? <==>
      || SourceOf(source) == "duckdb"
      || (SourceOf(source) == "motherduck" && Truthy(env.motherduckToken))
      || (SourceOf(source) == "parquet" && Truthy(path))
    // The kind of target is fixed by the source alone.
    ensures r.Success? ==> (r.value.Local? <==> SourceOf(source) == "duckdb")
    ensures r.Success? ==> (r.value.Remote? <==> SourceOf(source) == "motherduck")
    ensures r.Success? ==> (r.value.ParquetView? <==> SourceOf(source) == "parquet")
    // A local database: the requested path, else DATABASE_PATH even when
    // it is empty, else an in-memory database.
    ensures r.Success? && r.value.Local? && Truthy(path) ==> r.value.dbPath == path.value
    ensures r.Success? && r.value.Local? && !Truthy(path) ==>
      r.value.dbPath == (if env.databasePath.Some? then env.databasePath.value else MemoryPath)
    // A remote database: exactly the configured token, recoverable from
    // the connection string.
    ensures r.Success? && r.value.Remote? ==>
      TokenOfConnString(r.value.connString) == env.motherduckToken && r.value.connString == RemotePrefix + env.motherduckToken.value
    // A Parquet file: the view `parquet_data`, defined by a statement the
    // database reads back as exactly that file; for a path without a single
    // quote that statement is the one the resolver writes.
    ensures r.Success? && r.value.ParquetView? ==>
      r.value.viewName == ViewName && r.value.path == path.value && ViewArgument(r.value.statement) == Some(path.value)
    ensures r.Success? && r.value.ParquetView? && '\'' !in path.value ==>
      r.value.statement == CreateViewStatementAsWritten(path.value)
    // The errors raised, one per failing case.
    ensures r.Failure? && SourceOf(source) == "motherduck" ==> r.error == ValueError("MOTHERDUCK_TOKEN is not set")
    ensures r.Failure? && SourceOf(source) == "parquet" ==> r.error == ValueError("Parquet source requires a file path")
    ensures r.Failure? && SourceOf(source) !in {"duckdb", "motherduck", "parquet"} ==>
      r.error == ValueError("Unsupported source: " + SourceOf(source))
  {
    var source := SourceOf(source);
    if source == "duckdb" then
      Success(Local(if Truthy(path) then path.value else env.databasePath.GetOr(MemoryPath)))
    else if source == "motherduck" then
      var token := env.motherduckToken;
      if !Truthy(token) then Failure(ValueError("MOTHERDUCK_TOKEN is not set"))
      else Success(Remote(RemotePrefix + token.value))
    else if source == "parquet" then
      if !Truthy(path) then Failure(ValueError("Parquet source requires a file path"))
      else
        var view := ParquetView(ViewName, path.value, CreateViewStatement(path.value));
        if '\'' !in path.value then StatementAsWrittenReadsQuoteFreePath(path.value); Success(view)
        else Success(view)
    else Failure(ValueError("Unsupported source: " + source))
  }

  /** Each source reads only its own inputs: a local database ignores the
      token, a remote one ignores the path and `DATABASE_PATH`, and a
      Parquet view ignores the environment. */
  lemma ResolutionReadsOnlyItsInputs(source: Option<string>, path: Option<string>, path': Option<string>, env: Env, env': Env)
    ensures SourceOf(source) == "duckdb" && path == path' && env.databasePath == env'.databasePath ==>
      GetConnection(source, path, env) == GetConnection(source, path', env')
    ensures SourceOf(source) == "motherduck" && env.motherduckToken == env'.motherduckToken ==>
      GetConnection(source, path, env) == GetConnection(source, path', env')
    ensures SourceOf(source) == "parquet" && path == path' ==>
      GetConnection(source, path, env) == GetConnection(source, path', env')
  {
  }

  /** The part of the view definition that precedes the file path. */
  const ViewPrefix := "CREATE VIEW parquet_data AS SELECT * FROM read_parquet("

  /** How the database reads a single-quoted SQL string literal: `s` is the
      text after the opening quote; a doubled quote stands for one quote and a
      single quote ends the literal. The result is the literal's value and
      the text after its closing quote, or `None` when it is unterminated. */
  function ReadLiteralBody(s: string): Option<(string, string)>
  {
    if s == [] then None
    else if s[0] == '\'' then
      if |s| > 1 && s[1] == '\'' then Prepend('\'', ReadLiteralBody(s[2..]))
      else Some(("", s[1..]))
    else Prepend(s[0], ReadLiteralBody(s[1..]))
  }

  function Prepend(c: char, read: Option<(string, string)>): Option<(string, string)>
  {
    match read
    case None => None
    case Some((value, rest)) => Some(([c] + value, rest))
  }

  /** The file path the database reads out of a view definition: the string
      literal right after `ViewPrefix`, which must be followed by exactly the
      closing parenthesis; `None` when the statement does not have that
      shape. */
  function ViewArgument(statement: string): Option<string>
  {
    if !(ViewPrefix <= statement) then None
    else
      var s := statement[|ViewPrefix|..];
      if s == [] || s[0] != '\'' then None
      else match ReadLiteralBody(s[1..])
        case Some((value, rest)) => if rest == ")" then Some(value) else None
        case None => None
  }

  /** The view definition as the resolver writes it: the path is pasted
      between single quotes as it is. */
  function CreateViewStatementAsWritten(path: string): string
  {
    ViewPrefix + "'" + path + "')"
  }

  /** `s` with each single quote doubled, the escaping SQL string literals
      use. */
  function EscapeQuotes(s: string): string
  {
    if s == [] then ""
    else (if s[0] == '\'' then "''" else [s[0]]) + EscapeQuotes(s[1..])
  }

  /** A quoted literal read back gives the text that was quoted. */
  lemma {:induction false} ReadEscaped(p: string, rest: string)
    requires rest == [] || rest[0] != '\''
    ensures ReadLiteralBody(EscapeQuotes(p) + "'" + rest) == Some((p, rest))
  {
    var s := EscapeQuotes(p) + "'" + rest;
    if p == [] {
      assert s == "'" + rest;
    } else if p[0] == '\'' {
      assert s == "''" + (EscapeQuotes(p[1..]) + "'" + rest);
      ReadEscaped(p[1..], rest);
      assert p == [p[0]] + p[1..];
    } else {
      assert s == [p[0]] + (EscapeQuotes(p[1..]) + "'" + rest);
      ReadEscaped(p[1..], rest);
      assert p == [p[0]] + p[1..];
    }
  }

  /** Escaping leaves a path without quotes as it is. */
  lemma {:induction false} EscapeQuotesUnchanged(p: string)
    requires '\'' !in p
    ensures EscapeQuotes(p) == p
  {
    if p != [] {
      assert '\'' !in p[1..];
      EscapeQuotesUnchanged(p[1..]);
      assert p == [p[0]] + p[1..];
    }
  }

  /** The view definition with the path quoted properly: whatever the path,
      the database reads exactly that path out of it. */
  function CreateViewStatement(path: string): (r: string)
    ensures ViewArgument(r) == Some(path)
  {
    var r := ViewPrefix + "'" + EscapeQuotes(path) + "')";
    ReadEscaped(path, ")");
    assert r[|ViewPrefix|..] == "'" + (EscapeQuotes(path) + "'" + ")");
    r
  }

  /** For a path without a quote in it the statement as written is the
      properly quoted one, so the database reads that path out of it. */
  lemma StatementAsWrittenReadsQuoteFreePath(path: string)
    requires '\'' !in path
    ensures CreateViewStatementAsWritten(path) == CreateViewStatement(path)
    ensures ViewArgument(CreateViewStatementAsWritten(path)) == Some(path)
  {
    EscapeQuotesUnchanged(path);
  }

  /** A path with a quote in it, `a'b`, ends the literal early: the database
      reads the literal `a` followed by stray text, and the statement is not a
      view over that file. */
  lemma StatementAsWrittenMisreadsQuote()
    ensures ViewArgument(CreateViewStatementAsWritten("a'b")) == None
  {
    var s := CreateViewStatementAsWritten("a'b");
    assert s[|ViewPrefix|..] == "'a'b')";
    assert "'a'b')"[1..] == "a'b')";
    assert "a'b')"[1..] == "'b')";
    assert "'b')"[1..] == "b')";
    assert ReadLiteralBody("'b')") == Some(("", "b')"));
    assert ReadLiteralBody("a'b')") == Prepend('a', ReadLiteralBody("'b')"));
    assert ['a'] + "" == "a";
  }

  /** A path with a doubled quote, `a''b`, is read as an escaped quote: the
      statement parses, but it is a view over the different file `a'b`. */
  lemma StatementAsWrittenMisreadsDoubledQuote()
    ensures ViewArgument(CreateViewStatementAsWritten("a''b")) == Some("a'b")
  {
    assert "a'b"[1..] == "'b";
    assert "'b"[1..] == "b";
    assert EscapeQuotes("b") == "b";
    assert EscapeQuotes("'b") == "''b";
    assert EscapeQuotes("a'b") == "a''b";
    assert CreateViewStatementAsWritten("a''b") == CreateViewStatement("a'b");
  }
}
