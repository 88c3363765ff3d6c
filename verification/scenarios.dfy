/**
  `validate_sql` and `generate_sql` on particular inputs, with the tables
  the seed script creates as the allow-list.
 */
module Scenarios {
  import opened Text
  import opened Results
  import opened Pattern
  import opened Rules
  import opened Validator
  import opened RuleQueries
  import opened Generator
  import opened RuleExamples

  /** The six tables of the seed script's schema. */
  const SeedTables: set<string> := {"products", "inventory", "sales", "suppliers", "sku_forecasts", "audit_log"}

  /** Every seed table name starts with a lower-case letter and has at least
      five characters. */
  lemma SeedTablesShape()
    ensures forall t :: t in SeedTables ==> |t| >= 5 && IsLowerLetter(t[0])
  {
  }

  /** With the seed tables, rules 1 to 3 always return their query. */
  lemma SeedFixedRules(userInput: string, response: string)
    requires Classify(userInput).Some?
    requires var r := Classify(userInput).value; r.ProductListing? || r.InventoryReport? || r.LowStock?
    ensures GenerateSql(userInput, SeedTables, response) == Ok(Render(Classify(userInput).value))
  {
    FixedRuleOutcome(userInput, SeedTables, response);
  }

  /** A query that starts with a longer word beginning with `select` is
      refused: the keyword must end where the word does. */
  lemma SelectedIsNotSelect(sql: string, allowed: set<string>)
    requires HasPrefix(LowerStr(sql), "selected") && Count(sql, ';') <= 1
    ensures Validate(sql, allowed) == Err(NotSelect)
  {
    assert LowerStr(sql)[0 + 0] == "selected"[0] && LowerStr(sql)[0 + 6] == "selected"[6];
    assert !IsSpace(sql[0]) && IsWordChar(sql[6]);
    assert SkipSpace(sql, 0) == 0;
    CountPositive(sql, ';');
  }

  /** A `DELETE` is refused before its tables are looked at. */
  lemma DeleteIsNotSelect(sql: string, allowed: set<string>)
    requires HasPrefix(LowerStr(sql), "delete") && Count(sql, ';') <= 1
    ensures Validate(sql, allowed) == Err(NotSelect)
  {
    assert LowerStr(sql)[0 + 0] == "delete"[0];
    assert !IsSpace(sql[0]);
    assert SkipSpace(sql, 0) == 0;
    assert sql[0..] == sql;
    CountPositive(sql, ';');
  }

  /** A `FROM Products` reference makes `Products`, with its capital, one of
      the query's tables. */
  lemma CapitalReference(sql: string, lead: string, rest: string)
    requires Reference(sql, lead, "FROM", "Products", rest, From)
    ensures "Products" in TablesIn(sql)
  {
    ReferenceTables(sql, lead, "FROM", "Products", rest, From);
    TablesOfText(sql);
  }

  /** Table names are compared with their case: a query reading the table
      `Products` is never accepted with an allow-list of lower-case names
      such as the seed tables (`SeedTablesShape`), and once it passes
      the first two checks it is refused for naming `Products`. */
  lemma CaseSensitiveTables(sql: string, allowed: set<string>)
    requires "Products" in TablesIn(sql)
    requires forall t :: t in allowed ==> t != [] && IsLowerLetter(t[0])
    ensures !Validate(sql, allowed).Ok?
    ensures Count(sql, ';') <= 1 && StartsWithSelect(sql) ==>
              Validate(sql, allowed).Err? && Validate(sql, allowed).error.Unauthorized? &&
              "Products" in Validate(sql, allowed).error.tables
  {
    assert "Products"[0] == 'P';
    CountPositive(sql, ';');
  }

  lemma FromXFrom()
    ensures FindAll("from x" + FilterTail, false, From) == ["x"]
  {
    TailFacts();
    assert "from x" + FilterTail == "from" + " " + "x" + FilterTail;
    assert StartsWithKeyword("from", From) && AllIn("x", Word) && AllSpace(" ");
    assert FilterTail == "%')" && KeywordFree(FilterTail, From);
    MatchPiece("from", " ", "x", FilterTail, From);
    NoMatchIn(FilterTail, true, From);
  }

  lemma FromXJoin()
    ensures FindAll("from x" + FilterTail, false, Join) == []
  {
    assert FilterTail == "%')" && KeywordFree("from x" + FilterTail, Join);
    NoMatchIn("from x" + FilterTail, false, Join);
  }

  /** The phrase `from x` with the pattern's closing names the table `x`. */
  lemma FromXTables()
    ensures TablesIn("from x" + FilterTail) == {"x"}
  {
    FromXFrom();
    FromXJoin();
    TablesOfText("from x" + FilterTail);
  }

  /** Adding one disallowed element to allowed ones leaves exactly it missing. */
  lemma OnlyMissing<T>(present: set<T>, x: T, allowed: set<T>)
    requires present <= allowed && x !in allowed
    ensures !(present + {x} <= allowed) && present + {x} - allowed == {x}
  {
  }

  /** A category phrase that itself names one table outside the allow-list
      makes the query refused for that table alone. */
  lemma PhraseTableRefused(userInput: string, allowed: set<string>, response: string, c: string, x: string)
    requires Classify(userInput) == Some(CategoryQuery(c))
    requires TablesIn(c + FilterTail) == {x} && x !in allowed && {"products", "inventory"} <= allowed
    ensures GenerateSql(userInput, allowed, response) == Err(Unauthorized({x}))
  {
    OnlyMissing({"products", "inventory"}, x, allowed);
    CategoryRefused(userInput, allowed, response, c);
  }

  /** The validator reads the pasted phrase like the rest of the query: the
      category question "how many from x" yields a query that names a table
      `x` inside its `LIKE` pattern, and that query is refused. */
  lemma FromXRefused(response: string)
    ensures GenerateSql("how many from x", SeedTables, response) == Err(Unauthorized({"x"}))
  {
    assert Classify("how many from x") == Some(CategoryQuery("from x")) by {
      FromInCategory();
    }
    assert TablesIn("from x" + FilterTail) == {"x"} by {
      FromXTables();
    }
    assert "x" !in SeedTables && "products" in SeedTables && "inventory" in SeedTables by {
      SeedTablesShape();
    }
    PhraseTableRefused("how many from x", SeedTables, response, "from x", "x");
  }

  lemma SentinelStripped()
    ensures LlmBasedSql("  --NO_SQL--\n") == NoSqlSentinel
  {
  }

  /** A question no rule handles, and a model answering with the sentinel
      surrounded by whitespace: the question cannot be answered. */
  lemma WeatherNotAnswerable()
    ensures GenerateSql("What's the weather today?", SeedTables, "  --NO_SQL--\n") == Err(NotAnswerable)
  {
    WeatherQuestion();
    SentinelStripped();
    ModelFallback("What's the weather today?", SeedTables, "  --NO_SQL--\n");
  }
}
