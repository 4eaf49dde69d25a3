# frai-duckdb-api: token check and connection resolution in Dafny

This project models the two pieces of logic in the service's `app/` package
that decide anything on their own:

- **Bearer-token authentication** (`app/auth.py`). The `API_TOKENS`
  environment value is a comma-separated list of `token` or `token:db_path`
  items. It is parsed into a map from each allowed token to an optional
  database path. A request's bearer credential is accepted only when it is a
  key of that map. The accepted request then carries that key's path.
- **Connection resolution** (`app/db.py`). A query names a source: `duckdb`,
  `motherduck` or `parquet`. It may also give a path. From these and two
  environment values (`DATABASE_PATH`, `MOTHERDUCK_TOKEN`), the resolver
  picks the database to connect to, or raises a `ValueError`.

Modules:

- `Wrappers` (`wrappers.dfy`): `Option`, standing for Python's `None`, and
  `Result`, standing for a value or a raised exception.
- `Text` (`text.dfy`): the Python string built-ins the parser calls.
  - `str.strip()`, with white space as `str.isspace` defines it.
  - `str.split(",")`.
  - `str.split(":", 1)`.
  - Each one is specified by the property that fixes its result.
- `Auth` (`auth.dfy`): `_load_token_map` and `get_auth_context`.
  - `_load_token_map` becomes the method `LoadTokenMap`. It keeps the
    source's loop over the split items, strips each item and updates a
    `map` step by step. It is proved equal to the function `TokenMap`.
  - `TokenMap` folds the parsed items left to right. All the lemmas about the
    parser are stated about it.
  - `get_auth_context` becomes the pure function `GetAuthContext`.
  - `AuthContext.rewrite_query` becomes `AuthContext.RewriteQuery`.
- `Db` (`db.dfy`): `get_connection` as the pure function `GetConnection`.
  - It returns a `Target` (`Local`, `Remote` or `ParquetView`) or a
    `ValueError` with the source's exact message.
  - It also models the statement that creates the Parquet view, and how the
    database reads the quoted file path back out of that statement.

Environment values are parameters. An unset `API_TOKENS` is `""`, which is
the default the source passes to `os.getenv`. `DATABASE_PATH` and
`MOTHERDUCK_TOKEN` are `Option<string>`, with `None` when unset. A source
the request does not give is `None` and stands for `"duckdb"`. The per-token
record `{"db_path": …}` is modelled as the `Option<string>` it holds.
`info.get("db_path")` always finds that key.

The `raise` statements of `get_connection` raise only `ValueError`, each
with its own message (app/db.py:13, 18, 21). Errors from `duckdb.connect`
and `conn.execute` (app/db.py:9, 14, 16, 19) pass through; they are not
modelled (see Left out). For the `duckdb` source with no non-empty path,
`get_connection` uses `DATABASE_PATH` whenever that variable is set, even to
the empty string, and `:memory:` only when it is unset (app/db.py:8).

## Model

| member | source | states |
|---|---|---|
| `Auth.AuthContext.RewriteQuery` | app/auth.py:20-27 | the row-level-security hook returns every query unchanged |
| `Auth.ParseItem` | app/auth.py:53-60 | an item is skipped exactly when it is all white space; otherwise the whole item is stripped and cut at its first colon: token and path rejoined with `:` give the stripped item, the token has no colon, and an item without a colon is its own token with no path |
| `Auth.LoadTokenMap` | app/auth.py:50-61 | the loop over the comma-separated items, skipping blanks and overwriting per token, builds exactly `TokenMap(raw)` |
| `Auth.BuildMapLastWins` | app/auth.py:51-61 | when a token appears more than once, its entry is the path of its last item |
| `Auth.BuildMapKeyDeclared` | app/auth.py:51-61 | every key of the map comes from some item, and its entry is the path of the last item naming it |
| `Auth.BuildMapKeys` | app/auth.py:51-61 | a token is a key exactly when some non-blank item declares it |
| `Auth.TokenMapKeySet` | app/auth.py:50-61 | the key set equals the set of tokens of the non-blank items |
| `Auth.BlankSettingAllowsNothing` | app/auth.py:50-55 | an unset or empty `API_TOKENS`, or one made only of commas and white space, allows no token |
| `Auth.DocumentedExample` | app/auth.py:37-47 | `"alpha:/data/a.duckdb,beta"` yields `alpha` with path `/data/a.duckdb` and `beta` with no path |
| `Auth.TwoItemSetting` | app/auth.py:52-60 | any setting `a:path,b` of two plain items allows `a` routed to `path` and `b` with no path |
| `Auth.ParseItemWithPath` | app/auth.py:56-58 | `token:path` declares `token` with the whole remainder as path, further colons included, either part possibly empty (`:p`, `t:`) |
| `Auth.ParseItemWithoutPath` | app/auth.py:59-60 | an item without a colon declares itself with no path |
| `Auth.InnerBlanksKept` | app/auth.py:53-58 | only the whole item is stripped: `" a : b "` gives token `"a "` and path `" b"` |
| `Auth.GetAuthContext` | app/auth.py:64-73 | refuses with 401 `"Invalid or missing token"` exactly when the credential is missing or no item declares it; otherwise the context has the presented token and the path of that token's last item |
| `Text.TrimStartSpec` | app/auth.py:53 | stripping the start drops exactly the leading white space |
| `Text.TrimEndSpec` | app/auth.py:53 | stripping the end drops exactly the trailing white space |
| `Text.StripSpec` | app/auth.py:53 | `strip()` keeps a slice of the item that neither starts nor ends with white space and cuts off only white space; it is empty exactly when the item is all white space |
| `Text.StripUnchanged` | app/auth.py:53 | an item with no blank at either end is left as it is |
| `Text.Split` | app/auth.py:52 | `split(",")` gives at least one piece, no piece holds a comma, and joining the pieces with commas gives the setting back |
| `Text.SplitUnique` | app/auth.py:52 | `split(",")` is the only such cutting, so it is the inverse of joining |
| `Text.SplitBlank` | app/auth.py:52-55 | a setting of only commas and white space splits into all-blank pieces |
| `Text.SplitOnce` | app/auth.py:57 | `split(":", 1)` gives the text before the first colon and everything after it |
| `Text.FirstSeparatorUnique` | app/auth.py:57 | cutting at the first colon can be done in only one way |
| `Db.GetConnection` | app/db.py:5-21 | resolves exactly for `duckdb`, for `motherduck` with a non-empty token and for `parquet` with a non-empty path; the target kind follows the source; `duckdb` uses the given path, else `DATABASE_PATH` even if empty, else `:memory:`; `motherduck` connects to `md:?token=` plus exactly that token; `parquet` gives the view `parquet_data` defined by a statement the database reads back as exactly that path, which for a path without a single quote is the statement the source writes; each failure raises its own message, and an omitted source means `duckdb` |
| `Db.ResolutionReadsOnlyItsInputs` | app/db.py:7-20 | `duckdb` ignores the token, `motherduck` ignores both paths, and `parquet` ignores the environment |
| `Db.ReadEscaped` | app/db.py:19 | a path written into a SQL string literal with its quotes doubled is read back as exactly that path |
| `Db.CreateViewStatement` | app/db.py:19 | the view definition with the path properly quoted: the database reads back exactly that path |
| `Db.StatementAsWrittenReadsQuoteFreePath` | app/db.py:19 | for a path with no quote, the statement as written equals the properly quoted one and reads back that path |
| `Db.StatementAsWrittenMisreadsQuote` | app/db.py:19 | with the path `a'b`, the statement as written does not define a view over that path |
| `Db.StatementAsWrittenMisreadsDoubledQuote` | app/db.py:19 | with the path `a''b`, the statement as written parses but defines a view over the different file `a'b` |

## Findings

| source | as written | input that shows it | evidently intended | confidence | as-written member | corrected member |
|---|---|---|---|---|---|---|
| app/db.py:19 | the Parquet path is pasted between single quotes as it is | path `a'b` (a file name with an apostrophe): the literal ends after `a` and stray text follows it; path `a''b` reads the file `a'b` | the view reads the file at exactly the given path, with quotes in the path doubled | medium; not executed | `Db.StatementAsWrittenMisreadsQuote` | `Db.CreateViewStatement` |

## Left out

- `app/main.py` (`run_query`) is not modelled. It runs arbitrary SQL through the database and turns any exception into a 400; it makes no decision of its own.
- Upload and merge (creating tables, filtering blank keys, insert-or-replace, comparing composite keys) is not modelled. No code for it exists in the application files; only its integration tests do.
- Opening connections and running statements is not modelled. `duckdb.connect` and `conn.execute` are replaced by the returned `Target`, and the view statement is modelled as text. The exceptions these calls raise (a file that cannot be opened, a statement that fails) pass through `get_connection` and are not modelled.
- `Db.GetConnection` does not model that the `parquet` branch opens an in-memory connection before checking the path. That connection is left unclosed when the path is missing.
- FastAPI's bearer-header parsing and `HTTPException` are not modelled. The credential is an `Option<string>`, and the 401 is an `HttpError` value.
- Reading the environment with `os.getenv` is not modelled. The values are parameters, read afresh for each call just as the source re-reads them.
- Strings whose characters include lone surrogates are not modelled. A Python `str` is a sequence of code points and can hold them, for instance when `os.getenv` decodes undecodable bytes. A Dafny `char` is a Unicode scalar value and cannot hold them. The parser treats such characters like any other character that is not a separator or white space. `str.isspace` is written out as its list of characters.
- `Db.GetConnection`: for a Parquet path holding a single quote, the model gives the view defined by the properly quoted statement (`Db.CreateViewStatement`), not the statement the source writes. The source's statement either fails to parse, as with `a'b` (`Db.StatementAsWrittenMisreadsQuote`), or reads a different file, as with `a''b`, which reads `a'b` (`Db.StatementAsWrittenMisreadsDoubledQuote`). Only these statement functions show it. For every other path, the two statements are equal.
