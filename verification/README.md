# SQL agent of Regional Voyager, in Dafny

This project models the natural-language-to-SQL agent of the Regional
Voyager backend (`Backend/agents/sql_agent.py`). The agent has four parts:

- `rule_based_sql`: five rules tried in order on the lower-cased
  question. Rules 1 to 3 are fixed queries. Rules 4 and 5 are templates
  filled with a phrase that a regular expression takes from the question.
- `llm_based_sql`: the language model's answer, stripped of surrounding
  whitespace.
- `validate_sql`: a lexical gate with three checks, in this order:
  - at most one semicolon;
  - the query starts with `SELECT`;
  - every table named after `FROM` or `JOIN` is allowed.
- `generate_sql`: the entry point. It tries the rules first and falls
  back to the model, which may answer with the sentinel `--NO_SQL--`.

The model is functional. Errors are a `Result` whose `SqlError` names the
failed check. Two things the agent obtains at run time are parameters of
the model:

- the model's raw answer, which `call_llm` returns;
- the set of tables in the database, which `get_table_names` returns.

Strings are ASCII:

- `str.lower` changes only `A`-`Z`;
- `\s` and `str.isspace` are tab, line feed, vertical tab, form feed,
  carriage return, the separators 0x1C-0x1F and space;
- `\w` is `[A-Za-z0-9_]`.

The agent uses five regular expressions: two `re.search` calls in rules 4
and 5 (lines 44 and 55), the `re.match` of the `SELECT` test (line 92),
and two `re.findall` calls that collect table names (lines 97 and 98).
Four of them (44, 55, 97 and 98) share one shape: a keyword, `\s+`, then
a captured run of one character class. They are written out as scanning
functions with Python's semantics:

- `\s+` is greedy and backtracks;
- `re.search` returns the leftmost position where the whole pattern
  matches, trying the alternatives in order;
- `re.findall` resumes after each match, so matches never overlap;
- in the two `findall` patterns `\b` comes before the keyword; the two
  `search` patterns have no `\b` at all.

The `SELECT` test, `^\s*select\b`, is written out on its own, with its
`\b` after `select`.

Modules, one file each:

- `Results` (`results.dfy`): `Option` and `Result`.
- `Text` (`text.dfy`): lower-casing, whitespace, `strip()` and `count`.
- `Scanner` (`scan.dfy`): the scanning loop of `findall`. Its soundness
  and completeness hold for any anchored matcher.
- `Pattern` (`pattern.dfy`): the two pattern shapes. One is
  `(k1|k2|...)\s+(C+)` under `re.search`, with a declarative description
  of the leftmost match. The other is `\bkw\s+([A-Za-z0-9_]+)` under
  `findall`.
- `Rules` (`rules.dfy`): `rule_based_sql`, the five rules and the query
  templates.
- `Validator` (`validator.dfy`): `validate_sql`.
- `RuleQueries` (`rule_queries.dfy`): what the validator finds in each
  template: semicolons, the `SELECT` test, and tables.
- `Generator` (`generator.dfy`): `llm_based_sql` and `generate_sql`.
- `RuleExamples` (`rule_examples.dfy`) and `Scenarios` (`scenarios.dfy`):
  particular questions, queries and model answers. `Scenarios` uses the
  tables that `Backend/db/seed_sqlite.py` creates as the allow-list.

The templates are triple-quoted strings. Each starts with a line break,
and each of its lines is indented by eight spaces, up to the closing
quotes. The model keeps this layout character for character, because the
validator reads the text exactly as the rules return it.

Two points where the model follows the code rather than a paraphrase of
it:

- Rule 4's phrase does not come from the first occurrence of a keyword.
  It comes from the leftmost position where the whole pattern matches,
  which is how `re.search` works. In "count; how many x", `count` occurs
  first, but the match is at `how many`.
- `generate_sql` tests `if rule_sql:`, so an empty rule query would count
  as no rule. No rule returns an empty query (`RuleBasedSql` ensures
  this), so the model tests for a non-empty string, as the code does.

## Model

| member | source | states |
|---|---|---|
| Text.LowerStr | Regional-Voyager-app-main/Backend/agents/sql_agent.py:14 | same length; each ASCII capital becomes its lower-case letter and every other character is kept; the result has no capitals, and a string without capitals is unchanged |
| Text.Strip | Regional-Voyager-app-main/Backend/agents/sql_agent.py:78 | `str.strip()`: the result neither starts nor ends with whitespace, and is empty exactly when the input is all whitespace (also applied to the captures at lines 46 and 57) |
| Text.StripUnique | Regional-Voyager-app-main/Backend/agents/sql_agent.py:78 | what `strip()` keeps is fixed by a factor with only whitespace around it and a non-whitespace character at each end |
| Text.CountPositive | Regional-Voyager-app-main/Backend/agents/sql_agent.py:88 | `sql.count(c)` is positive exactly when `c in sql`, so the test `";" in sql and sql.count(";") > 1` is the count test alone |
| Text.CountAppend | Regional-Voyager-app-main/Backend/agents/sql_agent.py:88 | the count of a concatenation is the sum of the counts |
| Pattern.Search | Regional-Voyager-app-main/Backend/agents/sql_agent.py:44-55 | `re.search` of rules 4 and 5: a successful search captures a nonempty run of the class inside the question, and only a question containing one of the keywords can match |
| Pattern.FindAllWords | Regional-Voyager-app-main/Backend/agents/sql_agent.py:97-98 | every capture of a `findall` pattern is a nonempty run of `[A-Za-z0-9_]` |
| Rules.Captured | Regional-Voyager-app-main/Backend/agents/sql_agent.py:44-46 | `m.group(2).strip()`: present exactly when the search succeeds, made of characters of the captured class, and without capitals when the question has none |
| Rules.Classify | Regional-Voyager-app-main/Backend/agents/sql_agent.py:13-66 | on the lower-cased question, a category phrase holds only lower-case letters and whitespace, and a product phrase holds neither capitals nor a line feed |
| Rules.Decide | Regional-Voyager-app-main/Backend/agents/sql_agent.py:17-63 | a category phrase holds only lower-case letters and whitespace; a product phrase holds no line feed |
| Rules.RuleBasedSql | Regional-Voyager-app-main/Backend/agents/sql_agent.py:13-66 | a query is returned exactly when some rule fires, and it is never empty |
| Rules.RuleOrder | Regional-Voyager-app-main/Backend/agents/sql_agent.py:16-66 | the rule that fires applies, and no earlier rule does; nothing is returned exactly when none of the five applies |
| Rules.CategoryApplies | Regional-Voyager-app-main/Backend/agents/sql_agent.py:44-45 | rule 4 applies exactly when its search finds a match |
| Rules.ProductApplies | Regional-Voyager-app-main/Backend/agents/sql_agent.py:55-56 | rule 5 applies exactly when its search finds a match |
| Rules.CategoryPhrase | Regional-Voyager-app-main/Backend/agents/sql_agent.py:44-46 | the category phrase is the stripped run after the first alternative that fits at the leftmost matching position |
| Rules.CategoryAt | Regional-Voyager-app-main/Backend/agents/sql_agent.py:17-52 | conversely, when rules 1 to 3 do not apply, that leftmost match decides the category query |
| Rules.ProductPhrase | Regional-Voyager-app-main/Backend/agents/sql_agent.py:55-57 | for a question without line feeds, the product phrase is the stripped rest of the line after the leftmost match |
| Rules.ProductAt | Regional-Voyager-app-main/Backend/agents/sql_agent.py:17-63 | conversely, when rules 1 to 4 do not apply, that leftmost match decides the product query |
| Rules.CaseInsensitive | Regional-Voyager-app-main/Backend/agents/sql_agent.py:14 | the answer is the same for a question and its lower-case form |
| Rules.EmptyInput | Regional-Voyager-app-main/Backend/agents/sql_agent.py:65-66 | the empty question is handled by no rule |
| Rules.RenderInjective | Regional-Voyager-app-main/Backend/agents/sql_agent.py:18-63 | two rules return the same text exactly when they are the same rule with the same phrase |
| Validator.ValidateSpec | Regional-Voyager-app-main/Backend/agents/sql_agent.py:86-103 | accepted exactly when there is at most one semicolon, the `SELECT` pattern matches and all tables are allowed; each error happens exactly when its check is the first to fail; the unauthorized error lists exactly the tables outside the allow-list, and at least one |
| Validator.Validate | Regional-Voyager-app-main/Backend/agents/sql_agent.py:86-103 | an accepted query is returned unchanged, and the validator never reports the not-answerable error |
| Validator.StartsWithSelect | Regional-Voyager-app-main/Backend/agents/sql_agent.py:92 | the `SELECT` test holds exactly when the regex matches with some choice of `\s*`: optional whitespace, `select` in any case, and a word boundary |
| Validator.SelectOnlyAfterSpaces | Regional-Voyager-app-main/Backend/agents/sql_agent.py:92 | the regex can match only with `\s*` taking exactly the leading whitespace |
| Validator.TablesIn | Regional-Voyager-app-main/Backend/agents/sql_agent.py:96-98 | every table the check collects is a nonempty run of `[A-Za-z0-9_]` |
| Validator.TablesSound | Regional-Voyager-app-main/Backend/agents/sql_agent.py:97-98 | every table the check finds follows `FROM` or `JOIN` (in any case, after a word boundary and whitespace) |
| Validator.TablesComplete | Regional-Voyager-app-main/Backend/agents/sql_agent.py:97-98 | every table named after `FROM` or `JOIN` is found, unless its reference starts inside an earlier reference with the same keyword |
| Validator.ValidateMonotone | Regional-Voyager-app-main/Backend/agents/sql_agent.py:96-103 | allowing more tables never turns an accepted query into a refused one |
| Scanner.ScanSound | Regional-Voyager-app-main/Backend/agents/sql_agent.py:97-98 | every capture `findall` reports comes from a match at some position |
| Scanner.ScanComplete | Regional-Voyager-app-main/Backend/agents/sql_agent.py:97-98 | every match is reported unless it starts inside an earlier match |
| Pattern.SearchExists | Regional-Voyager-app-main/Backend/agents/sql_agent.py:44 | when whitespace belongs to the captured class, the search succeeds exactly when somewhere a keyword is followed by a run of the class that starts with whitespace and is at least two long |
| Pattern.SearchFirst | Regional-Voyager-app-main/Backend/agents/sql_agent.py:44-46 | a successful search captures at the leftmost matching position, with the first alternative that fits there |
| RuleQueries.FixedQuery | Regional-Voyager-app-main/Backend/agents/sql_agent.py:17-41 | the queries of rules 1 to 3 have one semicolon and start with `SELECT`; they read `products`, plus `inventory` for rules 2 and 3 |
| RuleQueries.FilterQuery | Regional-Voyager-app-main/Backend/agents/sql_agent.py:44-63 | the queries of rules 4 and 5 have one semicolon more than the phrase and start with `SELECT`; they read `products`, `inventory` and whatever the pasted phrase names |
| Generator.LlmBasedSql | Regional-Voyager-app-main/Backend/agents/sql_agent.py:73-79 | the model's answer without surrounding whitespace: a factor of the answer with only whitespace around it, neither starting nor ending with whitespace |
| Generator.LlmIdempotent | Regional-Voyager-app-main/Backend/agents/sql_agent.py:78 | stripping an already stripped answer changes nothing |
| Generator.LlmPadding | Regional-Voyager-app-main/Backend/agents/sql_agent.py:78 | whitespace added around the answer makes no difference |
| Generator.GenerateSql | Regional-Voyager-app-main/Backend/agents/sql_agent.py:110-122 | whatever is returned has at most one semicolon, starts with `SELECT` and reads only allowed tables |
| Generator.RuleWins | Regional-Voyager-app-main/Backend/agents/sql_agent.py:112-114 | when a rule fires, the outcome is the validation of its query, whatever the model answers |
| Generator.ModelFallback | Regional-Voyager-app-main/Backend/agents/sql_agent.py:116-122 | with no rule, an answer starting with the sentinel cannot be answered, and any other answer is validated after stripping |
| Generator.NotAnswerableExactly | Regional-Voyager-app-main/Backend/agents/sql_agent.py:119-120 | the not-answerable error happens exactly when no rule fires and the stripped answer starts with the sentinel |
| Generator.FixedRuleOutcome | Regional-Voyager-app-main/Backend/agents/sql_agent.py:17-41 | rules 1 to 3 succeed exactly when their tables are allowed, and otherwise report the missing ones; with `products` and `inventory` allowed they always succeed |
| Generator.CategoryOutcome | Regional-Voyager-app-main/Backend/agents/sql_agent.py:44-52 | rule 4's query passes the semicolon and `SELECT` checks, so its tables alone decide |
| Generator.CategoryRefused | Regional-Voyager-app-main/Backend/agents/sql_agent.py:100-101 | when a table of rule 4's query is not allowed, exactly the missing tables are reported |
| Generator.InjectionCaught | Regional-Voyager-app-main/Backend/agents/sql_agent.py:55-63 | a semicolon in the product phrase gets rule 5's query refused as several statements |
| Generator.ProductOutcome | Regional-Voyager-app-main/Backend/agents/sql_agent.py:55-63 | without a semicolon in the phrase, rule 5's tables alone decide |
| RuleExamples.InventoryBeforeLowStock | Regional-Voyager-app-main/Backend/agents/sql_agent.py:25-34 | "Inventory low stock" gets rule 2, not rule 3 |
| RuleExamples.ListingBeforeLowStock | Regional-Voyager-app-main/Backend/agents/sql_agent.py:17-34 | "show products low stock" gets rule 1 |
| RuleExamples.HowManyFruits | Regional-Voyager-app-main/Backend/agents/sql_agent.py:44-52 | "How many fruits" asks for the category "fruits" |
| RuleExamples.DiscountIsCount | Regional-Voyager-app-main/Backend/agents/sql_agent.py:44 | without word boundaries, "discount x" fires rule 4 with the category "x" |
| RuleExamples.RedAppleIsCategory | Regional-Voyager-app-main/Backend/agents/sql_agent.py:44-55 | "How much red apple" goes to rule 4 with the category "red apple", not to rule 5 |
| RuleExamples.FromInCategory | Regional-Voyager-app-main/Backend/agents/sql_agent.py:44-46 | "how many from x" gives the category phrase "from x" |
| RuleExamples.WeatherQuestion | Regional-Voyager-app-main/Backend/agents/sql_agent.py:65-66 | "What's the weather today?" is handled by no rule |
| Scenarios.SeedFixedRules | Regional-Voyager-app-main/Backend/db/seed_sqlite.py:15-68 | with the seed tables allowed, rules 1 to 3 always return their query |
| Scenarios.SelectedIsNotSelect | Regional-Voyager-app-main/Backend/agents/sql_agent.py:92-93 | a query with at most one semicolon that starts with "selected", in any case, fails the `SELECT` test, because `\b` needs the word to end after `select` |
| Scenarios.DeleteIsNotSelect | Regional-Voyager-app-main/Backend/agents/sql_agent.py:92-93 | a query with at most one semicolon that starts with "delete", in any case, fails the `SELECT` test |
| Scenarios.CapitalReference | Regional-Voyager-app-main/Backend/agents/sql_agent.py:97 | `FROM Products` makes `Products`, capital kept, one of the tables |
| Scenarios.CaseSensitiveTables | Regional-Voyager-app-main/Backend/agents/sql_agent.py:100-101 | a query reading `Products` is never accepted with an allow-list of lower-case names, and once past the first two checks it is refused for `Products` |
| Scenarios.FromXTables | Regional-Voyager-app-main/Backend/agents/sql_agent.py:97 | the pasted phrase "from x" makes `x` a table of the category query |
| Scenarios.PhraseTableRefused | Regional-Voyager-app-main/Backend/agents/sql_agent.py:47-52 | a category phrase naming one disallowed table gets the query refused for that table alone |
| Scenarios.FromXRefused | Regional-Voyager-app-main/Backend/agents/sql_agent.py:110-114 | "how many from x" is refused with the seed tables, for the table `x` |
| Scenarios.WeatherNotAnswerable | Regional-Voyager-app-main/Backend/agents/sql_agent.py:116-120 | an unhandled question whose model answer is the sentinel padded with whitespace cannot be answered |

## Left out

- Calls to the language model, and the prompt that goes with them, are left
  out. The model's raw answer is a parameter. This covers `call_llm`,
  `load_prompt`, `SQL_SYSTEM_PROMPT.format`, the user prompt and the model
  registry. The prompt file is not part of this model.
- The database is left out. `get_table_names()` becomes the `allowed`
  parameter. `Backend/db/seed_sqlite.py` is used only for its six table
  names.
- `Backend/graph/router_graph.py` is left out. It wires `generate_sql` into
  a LangGraph graph around code that is not part of this model.
- Error messages are left out. The model keeps which `ValueError` was
  raised and, for unauthorized tables, the set of tables, but not the
  message text.
- Non-ASCII text is left out. Unicode lower-casing and Unicode whitespace
  are not modelled.
- SQL meaning is left out, as in the source. Strings, comments and
  subqueries are read only as the two `findall` patterns read them.
- Rules.ProductPhrase: requires a question without line feeds. On such a
  question `.` matches every whitespace character, which the declarative
  description of the phrase relies on. With line feeds, `.+` stops at the
  end of a line. `Search` still computes this case exactly, but no lemma
  describes the phrase.
- Rules.ProductAt: requires a question without line feeds, for the same
  reason.
