/**
  `generate_sql`, the entry point: the rules first, and the language model
  only when no rule handles the question. Whichever produced it, a query is
  returned only once `validate_sql` has accepted it. The model's answer and
  the tables the database holds are parameters.
 */
module Generator {
  import opened Text
  import opened Results
  import opened Pattern
  import opened Rules
  import opened Validator
  import opened RuleQueries

  /** The answer the model is told to give when SQL cannot answer the question. */
  const NoSqlSentinel: string := "--NO_SQL--"

  /** `llm_based_sql` once the model has answered `response`: the answer
      without its surrounding whitespace. */
  function LlmBasedSql(response: string): (sql: string)
    ensures sql == [] || (!IsSpace(sql[0]) && !IsSpace(sql[|sql| - 1]))
    ensures exists a, b :: && 0 <= a <= b <= |response| && sql == response[a..b]
                           && AllSpace(response[..a]) && AllSpace(response[b..])
  {
    StripFactor(response);
    Strip(response)
  }

  /** Stripping twice is stripping once. */
  lemma LlmIdempotent(response: string)
    ensures LlmBasedSql(LlmBasedSql(response)) == LlmBasedSql(response)
  {
    var s := LlmBasedSql(response);
    assert s[..0] == [] && s[|s|..] == [];
    assert s[0..|s|] == s;
    StripUnique(s, 0, |s|);
  }

  /** Whitespace the model puts around its answer makes no difference. */
  lemma LlmPadding(response: string, before: string, after: string)
    requires AllSpace(before) && AllSpace(after)
    ensures LlmBasedSql(before + response + after) == LlmBasedSql(response)
  {
    StripAfterSpaces(before, response);
    StripBeforeSpaces(before + response, after);
  }

  /** `generate_sql(user_input)`, with the tables of the database `allowed`
      and the model's answer `response`. Whatever it returns has passed the
      three checks of `validate_sql`. */
  function GenerateSql(userInput: string, allowed: set<string>, response: string): (r: Result<string, SqlError>)
    ensures r.Ok? ==> Count(r.value, ';') <= 1 && StartsWithSelect(r.value) && TablesIn(r.value) <= allowed
  {
    var ruleSql := RuleBasedSql(userInput);
    if ruleSql.Some? && ruleSql.value != "" then
      CountPositive(ruleSql.value, ';');
      Validate(ruleSql.value, allowed)
    else
      var sql := LlmBasedSql(response);
      if HasPrefix(sql, NoSqlSentinel) then Err(NotAnswerable)
      else
        CountPositive(sql, ';');
        Validate(sql, allowed)
  }

  /** When a rule handles the question, the result is the validation of the
      rule's query, whatever the model would have answered. */
  lemma RuleWins(userInput: string, allowed: set<string>, response: string)
    requires RuleBasedSql(userInput).Some?
    ensures GenerateSql(userInput, allowed, response) == Validate(RuleBasedSql(userInput).value, allowed)
  {
  }

  /** When no rule handles the question, an answer starting with the
      sentinel is refused as not answerable, and any other answer is
      validated after stripping. */
  lemma ModelFallback(userInput: string, allowed: set<string>, response: string)
    requires RuleBasedSql(userInput).None?
    ensures HasPrefix(LlmBasedSql(response), NoSqlSentinel) ==>
              GenerateSql(userInput, allowed, response) == Err(NotAnswerable)
    ensures !HasPrefix(LlmBasedSql(response), NoSqlSentinel) ==>
              GenerateSql(userInput, allowed, response) == Validate(LlmBasedSql(response), allowed)
  {
  }

  /** The not-answerable error comes from the model's sentinel and nowhere else. */
  lemma NotAnswerableExactly(userInput: string, allowed: set<string>, response: string)
    ensures GenerateSql(userInput, allowed, response) == Err(NotAnswerable) <==>
              RuleBasedSql(userInput).None? && HasPrefix(LlmBasedSql(response), NoSqlSentinel)
  {
    var ruleSql := RuleBasedSql(userInput);
    if ruleSql.Some? {
      assert GenerateSql(userInput, allowed, response) == Validate(ruleSql.value, allowed);
    }
  }

  /** The result once a rule has handled the question. */
  lemma RuleResult(userInput: string, allowed: set<string>, response: string, r: Rule)
    requires Classify(userInput) == Some(r)
    ensures GenerateSql(userInput, allowed, response) == Validate(Render(r), allowed)
  {
    assert RuleBasedSql(userInput) == Some(Render(r));
  }

  /** The query of a rule, checked against the allowed tables: it passes the
      semicolon and `SELECT` checks, so only the tables decide. */
  function TableVerdict(sql: string, tables: set<string>, allowed: set<string>): Result<string, SqlError> {
    if tables <= allowed then Ok(sql) else Err(Unauthorized(tables - allowed))
  }

  /** A query with one semicolon that starts with `SELECT` is judged by its
      tables alone. */
  lemma OnlyTablesDecide(sql: string, allowed: set<string>)
    requires Count(sql, ';') == 1 && StartsWithSelect(sql)
    ensures Validate(sql, allowed) == TableVerdict(sql, TablesIn(sql), allowed)
  {
  }

  /** Rules 1 to 3: the fixed query is returned unchanged exactly when its
      tables are allowed, and otherwise the missing ones are reported. With
      `products` and `inventory` allowed, rules 1 to 3 always succeed. */
  lemma FixedRuleOutcome(userInput: string, allowed: set<string>, response: string)
    requires Classify(userInput).Some?
    requires var r := Classify(userInput).value; r.ProductListing? || r.InventoryReport? || r.LowStock?
    ensures var r := Classify(userInput).value;
            GenerateSql(userInput, allowed, response) == TableVerdict(Render(r), FixedTables(r), allowed)
    ensures {"products", "inventory"} <= allowed ==>
              GenerateSql(userInput, allowed, response) == Ok(Render(Classify(userInput).value))
  {
    var r := Classify(userInput).value;
    RuleResult(userInput, allowed, response, r);
    FixedQuery(r);
    OnlyTablesDecide(Render(r), allowed);
  }

  /** Rule 4: the category phrase holds only letters and whitespace, so the
      query passes the semicolon and `SELECT` checks; its tables are
      `products`, `inventory` and any that the phrase itself names. */
  lemma CategoryOutcome(userInput: string, allowed: set<string>, response: string, c: string)
    requires Classify(userInput) == Some(CategoryQuery(c))
    ensures Count(Render(CategoryQuery(c)), ';') == 1
    ensures StartsWithSelect(Render(CategoryQuery(c)))
    ensures GenerateSql(userInput, allowed, response) ==
              TableVerdict(Render(CategoryQuery(c)), {"products", "inventory"} + TablesIn(c + FilterTail), allowed)
  {
    var r := CategoryQuery(c);
    assert Without(c, ';') by {
      assert AllIn(c, LetterOrSpace);
      forall k | 0 <= k < |c|
        ensures c[k] != ';'
      {
        assert InClass(c[k], LetterOrSpace);
      }
    }
    WithoutNotIn(c, ';');
    CountPositive(c, ';');
    RuleResult(userInput, allowed, response, r);
    FilterQuery(r);
    OnlyTablesDecide(Render(r), allowed);
  }

  /** Rule 4 refused: when some table of the category query is not allowed,
      exactly the missing ones are reported. */
  lemma CategoryRefused(userInput: string, allowed: set<string>, response: string, c: string)
    requires Classify(userInput) == Some(CategoryQuery(c))
    requires !({"products", "inventory"} + TablesIn(c + FilterTail) <= allowed)
    ensures GenerateSql(userInput, allowed, response) ==
              Err(Unauthorized({"products", "inventory"} + TablesIn(c + FilterTail) - allowed))
  {
    CategoryOutcome(userInput, allowed, response, c);
  }

  /** Rule 5: a semicolon in the product phrase gives the query a second
      one, and the query is refused as holding several statements. */
  lemma InjectionCaught(userInput: string, allowed: set<string>, response: string, p: string)
    requires Classify(userInput) == Some(ProductQuery(p))
    requires ';' in p
    ensures GenerateSql(userInput, allowed, response) == Err(MultipleStatements)
  {
    RuleResult(userInput, allowed, response, ProductQuery(p));
    FilterQuery(ProductQuery(p));
    CountPositive(p, ';');
    CountPositive(Render(ProductQuery(p)), ';');
  }

  /** Rule 5 without a semicolon in the phrase: only the tables decide. */
  lemma ProductOutcome(userInput: string, allowed: set<string>, response: string, p: string)
    requires Classify(userInput) == Some(ProductQuery(p))
    requires ';' !in p
    ensures GenerateSql(userInput, allowed, response) ==
              TableVerdict(Render(ProductQuery(p)), {"products", "inventory"} + TablesIn(p + FilterTail), allowed)
  {
    RuleResult(userInput, allowed, response, ProductQuery(p));
    FilterQuery(ProductQuery(p));
    CountPositive(p, ';');
    OnlyTablesDecide(Render(ProductQuery(p)), allowed);
  }
}
