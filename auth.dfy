/** Bearer-token authentication (app/auth.py): the `API_TOKENS` setting is
    parsed into a map from each allowed token to an optional database path,
    and a presented credential is accepted only when it is a key of that map. */
module Auth {
  import opened Wrappers
  import opened Text

  /** The allowed tokens, each with the database path it is routed to, if
      any. */
  type Tokens = map<string, Option<string>>

  /** One item of the setting as read: `None` when it is blank, otherwise
      the token it declares and that token's path, if any. */
  type Parsed = Option<(string, Option<string>)>

  /** What a request authenticated as: its token and that token's database path. */
  datatype AuthContext = AuthContext(token: string, dbPath: Option<string>) {

    /** The row-level-security hook applied to a query; it currently leaves
        every query as it is. */
    function RewriteQuery(sql: string): (r: string)
      ensures r == sql
    {
      sql
    }
  }

  /** The HTTP error raised when authentication fails. */
  datatype HttpError = HttpError(status: int, detail: string)

  const Unauthorized := HttpError(401, "Invalid or missing token")

  /** One comma-separated item of `API_TOKENS`, read on its own: `None` for an
      item that is blank once stripped, otherwise the token it declares and
      that token's database path. The item is stripped as a whole and then
      cut at its first colon; neither part is stripped again, and the path
      keeps any further colons. */
  function ParseItem(item: string): (r: Parsed)
    ensures r.None? <==> AllSpace(item)
    ensures r.Some? && r.value.1.None? ==> ':' !in r.value.0 && r.value.0 == Strip(item)
    ensures r.Some? && r.value.1.Some? ==>
      ':' !in r.value.0 && r.value.0 + [':'] + r.value.1.value == Strip(item)
  {
    StripSpec(item);
    var t := Strip(item);
    if t == "" then None
    else if ':' in t then
      var (token, dbPath) := SplitOnce(t, ':');
      Some((token, Some(dbPath)))
    else Some((t, None))
  }

  /** What `ParseItem` makes of each item of `items`, in order. */
  function ParseItems(items: seq<string>): seq<Parsed>
  {
    seq(|items|, i requires 0 <= i < |items| => ParseItem(items[i]))
  }

  /** The parsed items of the setting `raw`, one per comma-separated item. */
  function Entries(raw: string): seq<Parsed>
  {
    ParseItems(Split(raw, ','))
  }

  /** The parsed item `e` declares the token `token`. */
  predicate Declares(e: Parsed, token: string)
  {
    e.Some? && e.value.0 == token
  }

  /** The map built from parsed items taken in order, a later item
      overwriting the entry of an earlier one with the same token and a blank
      item changing nothing. */
  function BuildMap(entries: seq<Parsed>): Tokens
  {
    if entries == [] then map[]
    else Record(BuildMap(entries[..|entries| - 1]), entries[|entries| - 1])
  }

  /** `m` with the parsed item `e` recorded in it. */
  function Record(m: Tokens, e: Parsed): Tokens
  {
    match e
    case None => m
    case Some((token, dbPath)) => m[token := dbPath]
  }

  /** The token map the `API_TOKENS` value `raw` configures (`""` when the
      variable is unset). */
  function TokenMap(raw: string): Tokens
  {
    BuildMap(Entries(raw))
  }

  /** Entry `i` is the last of `entries` that declares `token`. */
  predicate LastDeclaration(entries: seq<Parsed>, i: int, token: string)
  {
    && 0 <= i < |entries| && Declares(entries[i], token)
    && forall j :: i < j < |entries| ==> !Declares(entries[j], token)
  }

  /** Parses `API_TOKENS`: walks the comma-separated items in order, skips
      blank ones and records each token's path, the last occurrence of a
      token winning. */
  method LoadTokenMap(raw: string) returns (mapping: Tokens)
    ensures mapping == TokenMap(raw)
  {
    var items := Split(raw, ',');
    ghost var entries := ParseItems(items);
    mapping := map[];
    for n := 0 to |items|
      invariant mapping == BuildMap(entries[..n])
    {
      assert entries[..n + 1][..n] == entries[..n];
      assert BuildMap(entries[..n + 1]) == Record(mapping, entries[n]);
      var item := Strip(items[n]);
      assert entries[n] == ParseItem(items[n]);
      if item == "" {
        continue;
      }
      if ':' in item {
        var (token, dbPath) := SplitOnce(item, ':');
        assert entries[n] == Some((token, Some(dbPath)));
        mapping := mapping[token := Some(dbPath)];
      } else {
        assert entries[n] == Some((item, None));
        mapping := mapping[item := None];
      }
    }
    assert entries[..|items|] == entries;
  }

  /** The entry of a token in the built map is the path of the last entry
      that declares it. */
  lemma {:induction false} BuildMapLastWins(entries: seq<Parsed>, token: string, i: int)
    requires LastDeclaration(entries, i, token)
    ensures token in BuildMap(entries) && BuildMap(entries)[token] == entries[i].value.1
  {
    var n := |entries| - 1;
    if i < n {
      assert LastDeclaration(entries[..n], i, token);
      BuildMapLastWins(entries[..n], token, i);
    }
  }

  /** Only tokens some entry declares become keys of the built map, and a
      key's entry comes from the last entry declaring it. */
  lemma {:induction false} BuildMapKeyDeclared(entries: seq<Parsed>, token: string)
    requires token in BuildMap(entries)
    ensures exists i :: LastDeclaration(entries, i, token) && BuildMap(entries)[token] == entries[i].value.1
  {
    var n := |entries| - 1;
    if !Declares(entries[n], token) {
      BuildMapKeyDeclared(entries[..n], token);
      var i :| LastDeclaration(entries[..n], i, token) && BuildMap(entries[..n])[token] == entries[..n][i].value.1;
      assert LastDeclaration(entries, i, token);
    } else {
      assert LastDeclaration(entries, n, token);
    }
  }

  /** Every token that some entry declares has a last such entry. */
  lemma {:induction false} LastDeclarationExists(entries: seq<Parsed>, token: string, i: int)
    requires 0 <= i < |entries| && Declares(entries[i], token)
    ensures exists j :: LastDeclaration(entries, j, token)
    decreases |entries| - i
  {
    if !LastDeclaration(entries, i, token) {
      var j :| i < j < |entries| && Declares(entries[j], token);
      LastDeclarationExists(entries, token, j);
    }
  }

  /** The keys of the built map are exactly the tokens the entries declare. */
  lemma BuildMapKeys(entries: seq<Parsed>, token: string)
    ensures token in BuildMap(entries) <==> exists i :: 0 <= i < |entries| && Declares(entries[i], token)
  {
    if token in BuildMap(entries) {
      BuildMapKeyDeclared(entries, token);
    } else if i :| 0 <= i < |entries| && Declares(entries[i], token) {
      LastDeclarationExists(entries, token, i);
      var j :| LastDeclaration(entries, j, token);
      BuildMapLastWins(entries, token, j);
    }
  }

  /** The allowed tokens are exactly the tokens of the non-blank items. */
  lemma TokenMapKeySet(raw: string)
    ensures TokenMap(raw).Keys ==
      set i | 0 <= i < |Entries(raw)| && Entries(raw)[i].Some? :: Entries(raw)[i].value.0
  {
    var entries := Entries(raw);
    var tokens := set i | 0 <= i < |entries| && entries[i].Some? :: entries[i].value.0;
    forall token
      ensures token in TokenMap(raw) <==> token in tokens
    {
      BuildMapKeys(entries, token);
      if token in tokens {
        var i :| 0 <= i < |entries| && entries[i].Some? && entries[i].value.0 == token;
        assert Declares(entries[i], token);
      }
    }
  }

  /** A setting made only of commas and white space, the unset (`""`) one
      included, allows no token at all. */
  lemma BlankSettingAllowsNothing(raw: string)
    requires forall k :: 0 <= k < |raw| ==> raw[k] == ',' || IsSpace(raw[k])
    ensures TokenMap(raw) == map[]
  {
    SplitBlank(raw, ',');
    BlankEntriesBuildNothing(Entries(raw));
  }

  lemma {:induction false} BlankEntriesBuildNothing(entries: seq<Parsed>)
    requires forall i :: 0 <= i < |entries| ==> entries[i] == None
    ensures BuildMap(entries) == map[]
  {
    if entries != [] {
      BlankEntriesBuildNothing(entries[..|entries| - 1]);
    }
  }

  /** The example setting from the parser's documentation. */
  lemma DocumentedExample()
    ensures TokenMap("alpha:/data/a.duckdb,beta")
      == map["alpha" := Some("/data/a.duckdb"), "beta" := None]
  {
    assert "alpha:/data/a.duckdb,beta" == "alpha" + [':'] + "/data/a.duckdb" + [','] + "beta";
    TwoItemSetting("alpha", "/data/a.duckdb", "beta");
  }

  /** A setting `a:path,b` of two plain items allows `a`, routed to `path`,
      and `b`, with no path (`b` alone when the two tokens coincide, the
      later item winning). */
  lemma TwoItemSetting(a: string, dbPath: string, b: string)
    requires a != [] && !IsSpace(a[0]) && ':' !in a && ',' !in a
    requires dbPath != [] && !IsSpace(dbPath[|dbPath| - 1]) && ',' !in dbPath
    requires b != [] && !IsSpace(b[0]) && !IsSpace(b[|b| - 1]) && ':' !in b && ',' !in b
    ensures TokenMap(a + [':'] + dbPath + [','] + b) == map[a := Some(dbPath), b := None]
  {
    var first := a + [':'] + dbPath;
    var raw := first + [','] + b;
    assert ',' !in first;
    assert Join([first, b], ',') == raw;
    SplitUnique([first, b], raw, ',');
    ParseItemWithPath(a, dbPath);
    ParseItemWithoutPath(b);
    var entries := [Some((a, Some(dbPath))), Some((b, None))];
    assert Entries(raw) == entries;
    assert entries[..1] == [entries[0]];
    assert BuildMap(entries[..1]) == map[a := Some(dbPath)];
  }

  /** An item `token:path` with no blank at either end declares `token` with
      the whole remainder as its path, further colons included; either part
      may be empty (`:p` declares the empty token, `t:` the empty path). */
  lemma ParseItemWithPath(token: string, dbPath: string)
    requires (token == [] || !IsSpace(token[0])) && ':' !in token
    requires dbPath == [] || !IsSpace(dbPath[|dbPath| - 1])
    ensures ParseItem(token + [':'] + dbPath) == Some((token, Some(dbPath)))
  {
    var item := token + [':'] + dbPath;
    assert item[0] == if token == [] then ':' else token[0];
    assert item[|item| - 1] == if dbPath == [] then ':' else dbPath[|dbPath| - 1];
    StripUnchanged(item);
    var (t, p) := SplitOnce(item, ':');
    FirstSeparatorUnique(t, p, token, dbPath, ':');
  }

  /** An item without a colon and with no blank at either end declares
      itself as a token with no path. */
  lemma ParseItemWithoutPath(token: string)
    requires token != [] && !IsSpace(token[0]) && !IsSpace(token[|token| - 1])
    requires ':' !in token
    ensures ParseItem(token) == Some((token, None))
  {
    StripUnchanged(token);
  }

  /** Only the item as a whole is stripped: the blanks around the colon stay
      part of the token and of the path. */
  lemma InnerBlanksKept()
    ensures ParseItem(" a : b ") == Some(("a ", Some(" b")))
  {
    var item := " a : b ";
    assert item[1..] == "a : b ";
    assert TrimStart(item) == TrimStart("a : b ") == "a : b ";
    assert "a : b "[..5] == "a : b";
    assert TrimEnd("a : b ") == TrimEnd("a : b") == "a : b";
    var (token, dbPath) := SplitOnce("a : b", ':');
    FirstSeparatorUnique(token, dbPath, "a ", " b", ':');
  }

  /** Checks the presented bearer credential (`None` when the request carries
      none) against the tokens `apiTokens` configures: unknown or missing
      credentials are refused with status 401, a known one yields its
      context, routed to the path of the token's last item. */
  function GetAuthContext(credentials: Option<string>, apiTokens: string): (r: Result<AuthContext, HttpError>)
    ensures r.Failure? <==>
      credentials.None? || forall i :: 0 <= i < |Entries(apiTokens)| ==> !Declares(Entries(apiTokens)[i], credentials.value)
    ensures r.Failure? ==> r.error == Unauthorized
    ensures r.Success? ==> r.value.token == credentials.value
    ensures r.Success? ==> exists i ::
      LastDeclaration(Entries(apiTokens), i, credentials.value) && r.value.dbPath == Entries(apiTokens)[i].value.1
  {
    var tokenMap := TokenMap(apiTokens);
    if credentials.None? then Failure(Unauthorized)
    else if credentials.value !in tokenMap then
      BuildMapKeys(Entries(apiTokens), credentials.value);
      Failure(Unauthorized)
    else
      BuildMapKeyDeclared(Entries(apiTokens), credentials.value);
      Success(AuthContext(credentials.value, tokenMap[credentials.value]))
  }
}
