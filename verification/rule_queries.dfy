/**
  What `validate_sql` finds in the queries that `rule_based_sql` writes:
  one semicolon, `SELECT` first, and the tables `products` and `inventory`
  (rules 1 to 3). The queries of rules 4 and 5 also hold the pasted phrase,
  which `validate_sql` reads like the rest of the query.
 */
module RuleQueries {
  import opened Text
  import opened Results
  import opened Scanner
  import opened Pattern
  import opened Rules
  import opened Validator

  const From: string := "from"
  const Join: string := "join"

  /** Text with no semicolon and no letter `f` or `j` in either case: it
      adds nothing to the semicolon count and starts no table reference. */
  predicate Plain(s: string) {
    forall k :: 0 <= k < |s| ==> s[k] != ';' && Lower(s[k]) != 'f' && Lower(s[k]) != 'j'
  }

  lemma PlainAppend(a: string, b: string)
    requires Plain(a) && Plain(b)
    ensures Plain(a + b)
  {
    forall k | 0 <= k < |a + b|
      ensures (a + b)[k] != ';' && Lower((a + b)[k]) != 'f' && Lower((a + b)[k]) != 'j'
    {
      if k < |a| {
        assert (a + b)[k] == a[k];
      } else {
        assert (a + b)[k] == b[k - |a|];
      }
    }
  }

  /** Plain text has no semicolon and no table reference. */
  lemma PlainFacts(s: string)
    requires Plain(s)
    ensures Count(s, ';') == 0
    ensures KeywordFree(s, From) && KeywordFree(s, Join)
  {
    assert Without(s, ';');
    WithoutNotIn(s, ';');
    CountPositive(s, ';');
  }

  /** No semicolon and no table reference, whatever text surrounds it. */
  predicate Clean(s: string) {
    Without(s, ';') && KeywordFree(s, From) && KeywordFree(s, Join)
  }

  lemma PlainClean(s: string)
    requires Plain(s)
    ensures Clean(s)
  {
    PlainFacts(s);
  }

  lemma CleanAppend(a: string, b: string)
    requires Clean(a) && Clean(b)
    ensures Clean(a + b)
  {
    WithoutAppend(a, b, ';');
    KeywordFreeAppend(a, b, From);
    KeywordFreeAppend(a, b, Join);
  }

  /** The two `findall` keywords. */
  predicate TableKeyword(kw: string) {
    kw == From || kw == Join
  }

  lemma TableKeywordFacts(kw: string)
    requires TableKeyword(kw)
    ensures IsKeyword(kw) && kw[0] != 's'
  {
  }

  /** Clean text has no semicolon and reports no table. */
  lemma CleanFacts(s: string, afterWord: bool, kw: string)
    requires Clean(s) && TableKeyword(kw)
    ensures Count(s, ';') == 0
    ensures FindAll(s, afterWord, kw) == []
  {
    WithoutNotIn(s, ';');
    CountPositive(s, ';');
    NoMatchIn(s, afterWord, kw);
  }

  /** Every template starts with `SELECT` after its leading whitespace. */
  lemma StatementSelects(body: string)
    ensures StartsWithSelect(Statement(body))
  {
    var s := Statement(body);
    assert AllSpace(Indent);
    assert s[9] == 'S' && s[10] == 'E' && s[11] == 'L' && s[12] == 'E' && s[13] == 'C' && s[14] == 'T';
    assert s[15] == ' ';
    SkipSpaceAt(s, 0, 9);
  }

  /** A template has one semicolon more than its body. */
  lemma StatementSemicolons(body: string)
    ensures Count(Statement(body), ';') == Count(body, ';') + 1
  {
    assert Without(Indent, ';') && Without("SELECT ", ';');
    WithoutNotIn(Indent, ';');
    WithoutNotIn("SELECT ", ';');
    CountPositive(Indent, ';');
    CountPositive("SELECT ", ';');
    assert ";"[1..] == [];
    CountAppend(Indent, "SELECT ", ';');
    CountAppend(Indent + "SELECT ", body, ';');
    CountAppend(Indent + "SELECT " + body, ";", ';');
    CountAppend(Indent + "SELECT " + body + ";", Indent, ';');
  }

  /** The text before a template's body. */
  const Opening: string := Indent + "SELECT "

  lemma OpeningFree(kw: string)
    requires TableKeyword(kw)
    ensures KeywordFree(Opening, kw)
  {
    assert AllSpace(Indent);
    SpacesFree(Indent, kw);
    assert KeywordFree("SELECT ", kw);
    KeywordFreeAppend(Indent, "SELECT ", kw);
  }

  lemma IndentFree(kw: string)
    requires TableKeyword(kw)
    ensures KeywordFree(Indent, kw)
  {
    assert AllSpace(Indent);
    SpacesFree(Indent, kw);
  }

  /** The final indentation names no table. */
  lemma IndentTables(text: string, kw: string)
    requires TableKeyword(kw)
    requires text != [] && text[|text| - 1] == ';'
    ensures FindAll(text + Indent, false, kw) == FindAll(text, false, kw)
  {
    TableKeywordFacts(kw);
    FindAllSplit(text, Indent, false, kw);
    IndentFree(kw);
    NoMatchIn(Indent, LastIsWord(text, false), kw);
  }

  /** The semicolon names no table. */
  lemma SemicolonTables(text: string, kw: string)
    requires TableKeyword(kw)
    requires text != [] && !IsSpace(text[|text| - 1]) && Lower(text[|text| - 1]) != kw[3]
    ensures FindAll(text + ";", false, kw) == FindAll(text, false, kw)
  {
    TableKeywordFacts(kw);
    FindAllSplit(text, ";", false, kw);
    assert KeywordFree(";", kw);
    NoMatchIn(";", LastIsWord(text, false), kw);
  }

  /** A template names the tables its body names, provided the body does
      not end inside a table reference. */
  lemma StatementTables(body: string, kw: string)
    requires TableKeyword(kw)
    requires body != [] && !IsSpace(body[|body| - 1]) && Lower(body[|body| - 1]) != kw[3]
    ensures FindAll(Statement(body), false, kw) == FindAll(body, false, kw)
  {
    assert (Opening + body)[|Opening + body| - 1] == body[|body| - 1];
    SemicolonTables(Opening + body, kw);
    IndentTables(Opening + body + ";", kw);
    OpeningFree(kw);
    SkipPiece(Opening, body, false, kw);
  }

  /** What a piece of query text contributes to `validate_sql`: its
      number of semicolons and the tables `findall` reports in it for each
      keyword when the piece starts a word. */
  predicate Names(p: string, semicolons: nat, fromTables: seq<string>, joinTables: seq<string>) {
    && Count(p, ';') == semicolons
    && FindAll(p, false, From) == fromTables
    && FindAll(p, false, Join) == joinTables
  }

  lemma CleanNames(p: string)
    requires Clean(p)
    ensures Names(p, 0, [], [])
  {
    CleanFacts(p, false, From);
    CleanFacts(p, false, Join);
  }

  /** `x` ends in neither whitespace nor the last letter of a table
      keyword, so no table reference runs past its end into a new line. */
  predicate EndsClean(x: string) {
    && x != []
    && !IsSpace(x[|x| - 1])
    && Lower(x[|x| - 1]) != From[3]
    && Lower(x[|x| - 1]) != Join[3]
  }

  lemma IndentSpaces()
    ensures AllSpace(Indent) && Without(Indent, ';')
  {
  }

  lemma IndentFacts()
    ensures AllSpace(Indent) && Count(Indent, ';') == 0
  {
    IndentSpaces();
    WithoutNotIn(Indent, ';');
    CountPositive(Indent, ';');
  }

  /** A query is read line by line: the semicolons and tables of `x`, a
      line break and `line` are those of `x` followed by those of `line`. */
  lemma LinesNames(x: string, line: string, nx: nat, fx: seq<string>, jx: seq<string>, nl: nat, fl: seq<string>, jl: seq<string>)
    requires Names(x, nx, fx, jx) && EndsClean(x)
    requires Names(line, nl, fl, jl)
    ensures Names(x + Indent + line, nx + nl, fx + fl, jx + jl)
    ensures EndsClean(line) ==> EndsClean(x + Indent + line)
  {
    IndentFacts();
    TableKeywordFacts(From);
    TableKeywordFacts(Join);
    NextLine(x, Indent, line, false, From);
    NextLine(x, Indent, line, false, Join);
    CountAppend(x, Indent, ';');
    CountAppend(x + Indent, line, ';');
    if line != [] {
      assert (x + Indent + line)[|x + Indent + line| - 1] == line[|line| - 1];
    }
  }

  /** A line holding one table reference: `lead`, then the keyword `kw`
      written `kwText`, a space, the table name and the `rest` of the line,
      with nothing in `lead` or `rest` that could start another reference. */
  predicate Reference(line: string, lead: string, kwText: string, table: string, rest: string, kw: string) {
    && line == lead + (kwText + " " + table + rest)
    && |kw| == 4 && |kwText| == 4 && StartsWithKeyword(kwText, kw)
    && table != [] && AllIn(table, Word)
    && (rest == [] || !IsWordChar(rest[0]))
    && (lead == [] || !IsWordChar(lead[|lead| - 1]))
    && KeywordFree(lead, kw) && KeywordFree(rest, kw)
  }

  /** `findall` reports exactly the table of a reference line. */
  lemma ReferenceTables(line: string, lead: string, kwText: string, table: string, rest: string, kw: string)
    requires Reference(line, lead, kwText, table, rest, kw)
    ensures FindAll(line, false, kw) == [table]
  {
    SkipPiece(lead, kwText + " " + table + rest, false, kw);
    assert AllSpace(" ");
    MatchPiece(kwText, " ", table, rest, kw);
    NoMatchIn(rest, true, kw);
  }

  /** A `FROM` line names its table after `FROM` and nothing after `JOIN`. */
  lemma FromLine(line: string, lead: string, kwText: string, table: string, rest: string)
    requires Reference(line, lead, kwText, table, rest, From)
    requires Without(line, ';') && KeywordFree(line, Join)
    ensures Names(line, 0, [table], [])
  {
    ReferenceTables(line, lead, kwText, table, rest, From);
    NoMatchIn(line, false, Join);
    WithoutNotIn(line, ';');
    CountPositive(line, ';');
  }

  /** A `JOIN` line names its table after `JOIN` and nothing after `FROM`. */
  lemma JoinLine(line: string, lead: string, kwText: string, table: string, rest: string)
    requires Reference(line, lead, kwText, table, rest, Join)
    requires Without(line, ';') && KeywordFree(line, From)
    ensures Names(line, 0, [], [table])
  {
    ReferenceTables(line, lead, kwText, table, rest, Join);
    NoMatchIn(line, false, From);
    WithoutNotIn(line, ';');
    CountPositive(line, ';');
  }

  /** What `validate_sql` finds in a template, from what its body names. */
  lemma StatementFacts(body: string, n: nat, fromTables: seq<string>, joinTables: seq<string>)
    requires Names(body, n, fromTables, joinTables) && EndsClean(body)
    ensures Count(Statement(body), ';') == n + 1
    ensures StartsWithSelect(Statement(body))
    ensures TablesIn(Statement(body)) == (set x | x in fromTables) + (set x | x in joinTables)
  {
    StatementSemicolons(body);
    StatementSelects(body);
    StatementTables(body, From);
    StatementTables(body, Join);
  }

  // The shapes of the templates, with their lines as parameters.

  lemma ListingShape(columns: string, fromLine: string, order: string, table: string)
    requires Clean(columns) && EndsClean(columns)
    requires Names(fromLine, 0, [table], []) && EndsClean(fromLine)
    requires Clean(order) && EndsClean(order)
    ensures Names(columns + Indent + fromLine + Indent + order, 0, [table], [])
    ensures EndsClean(columns + Indent + fromLine + Indent + order)
  {
    CleanNames(columns);
    CleanNames(order);
    LinesNames(columns, fromLine, 0, [], [], 0, [table], []);
    assert [] + [table] == [table] && [table] + [] == [table];
    LinesNames(columns + Indent + fromLine, order, 0, [table], [], 0, [], []);
  }

  /** The first three lines of the templates of rules 2 to 5: columns,
      a `FROM` line and a `JOIN` line. */
  lemma OpeningLines(columns: string, fromLine: string, joinLine: string, fromTable: string, joinTable: string)
    requires Clean(columns) && EndsClean(columns)
    requires Names(fromLine, 0, [fromTable], []) && EndsClean(fromLine)
    requires Names(joinLine, 0, [], [joinTable]) && EndsClean(joinLine)
    ensures Names(columns + Indent + fromLine + Indent + joinLine, 0, [fromTable], [joinTable])
    ensures EndsClean(columns + Indent + fromLine + Indent + joinLine)
  {
    CleanNames(columns);
    LinesNames(columns, fromLine, 0, [], [], 0, [fromTable], []);
    assert [] + [fromTable] == [fromTable] && [fromTable] + [] == [fromTable];
    assert [] + [joinTable] == [joinTable];
    LinesNames(columns + Indent + fromLine, joinLine, 0, [fromTable], [], 0, [], [joinTable]);
  }

  lemma ReportShape(columns: string, fromLine: string, joinLine: string, order: string, fromTable: string, joinTable: string)
    requires Clean(columns) && EndsClean(columns)
    requires Names(fromLine, 0, [fromTable], []) && EndsClean(fromLine)
    requires Names(joinLine, 0, [], [joinTable]) && EndsClean(joinLine)
    requires Clean(order) && EndsClean(order)
    ensures Names(columns + Indent + fromLine + Indent + joinLine + Indent + order, 0, [fromTable], [joinTable])
    ensures EndsClean(columns + Indent + fromLine + Indent + joinLine + Indent + order)
  {
    OpeningLines(columns, fromLine, joinLine, fromTable, joinTable);
    CleanNames(order);
    assert [fromTable] + [] == [fromTable] && [joinTable] + [] == [joinTable];
    LinesNames(columns + Indent + fromLine + Indent + joinLine, order, 0, [fromTable], [joinTable], 0, [], []);
  }

  lemma LowStockShape(columns: string, fromLine: string, joinLine: string, condition: string, order: string, fromTable: string, joinTable: string)
    requires Clean(columns) && EndsClean(columns)
    requires Names(fromLine, 0, [fromTable], []) && EndsClean(fromLine)
    requires Names(joinLine, 0, [], [joinTable]) && EndsClean(joinLine)
    requires Clean(condition) && EndsClean(condition)
    requires Clean(order) && EndsClean(order)
    ensures Names(columns + Indent + fromLine + Indent + joinLine + Indent + condition + Indent + order, 0, [fromTable], [joinTable])
    ensures EndsClean(columns + Indent + fromLine + Indent + joinLine + Indent + condition + Indent + order)
  {
    ReportShape(columns, fromLine, joinLine, condition, fromTable, joinTable);
    CleanNames(order);
    assert [fromTable] + [] == [fromTable] && [joinTable] + [] == [joinTable];
    LinesNames(columns + Indent + fromLine + Indent + joinLine + Indent + condition, order, 0, [fromTable], [joinTable], 0, [], []);
  }

  // The lines of the templates, one fact per lemma. Each line is a string
  // literal, and a lemma that states several facts about one literal lets
  // the solver unfold every fact in the context of the others; one fact per
  // lemma keeps each proof small and its cost stable. The per-line lemmas
  // (`ProductsLine`, `InnerJoinLine`, ...) then combine them.

  lemma StockColumnsSemicolons()
    ensures Without("safety_stock, reorder_point, ", ';')
  {
  }

  lemma StockColumnsFrom()
    ensures KeywordFree("safety_stock, reorder_point, ", From)
  {
  }

  lemma StockColumnsJoin()
    ensures KeywordFree("safety_stock, reorder_point, ", Join)
  {
  }

  lemma ListingColumnsPlain()
    ensures Plain("sku, name, category, ") && Plain("lead_time_days")
  {
  }

  /** The columns of rule 1 name no table. */
  lemma ListingColumns()
    ensures Clean("sku, name, category, " + "safety_stock, reorder_point, " + "lead_time_days")
    ensures EndsClean("sku, name, category, " + "safety_stock, reorder_point, " + "lead_time_days")
  {
    ListingColumnsPlain();
    PlainClean("sku, name, category, ");
    PlainClean("lead_time_days");
    StockColumnsSemicolons();
    StockColumnsFrom();
    StockColumnsJoin();
    CleanAppend("sku, name, category, ", "safety_stock, reorder_point, ");
    CleanAppend("sku, name, category, " + "safety_stock, reorder_point, ", "lead_time_days");
  }

  lemma ProductsReference()
    ensures Reference("FROM products", [], "FROM", "products", [], From)
  {
    assert "FROM products" == [] + ("FROM" + " " + "products" + []);
  }

  lemma ProductsLineFacts()
    ensures Without("FROM products", ';') && KeywordFree("FROM products", Join) && EndsClean("FROM products")
  {
  }

  /** `FROM products` names `products`. */
  lemma ProductsLine()
    ensures Names("FROM products", 0, ["products"], []) && EndsClean("FROM products")
  {
    ProductsReference();
    ProductsLineFacts();
    FromLine("FROM products", [], "FROM", "products", []);
  }

  lemma OrderByName()
    ensures Clean("ORDER BY name ASC") && EndsClean("ORDER BY name ASC")
  {
    assert Plain("ORDER BY name ASC");
    PlainClean("ORDER BY name ASC");
  }

  /** Rule 1's statement names `products` after `FROM` and has no semicolon. */
  lemma ListingNames()
    ensures Names(ListingBody, 0, ["products"], []) && EndsClean(ListingBody)
  {
    ListingColumns();
    ProductsLine();
    OrderByName();
    ListingShape("sku, name, category, " + "safety_stock, reorder_point, " + "lead_time_days", "FROM products", "ORDER BY name ASC", "products");
  }

  lemma InventoryColumns()
    ensures Clean("p.sku, p.name, p.category, " + "i.qty, i.reserved, i.updated_at")
    ensures EndsClean("p.sku, p.name, p.category, " + "i.qty, i.reserved, i.updated_at")
  {
    assert Plain("p.sku, p.name, p.category, ");
    assert Plain("i.qty, i.reserved, i.updated_at");
    PlainAppend("p.sku, p.name, p.category, ", "i.qty, i.reserved, i.updated_at");
    PlainClean("p.sku, p.name, p.category, " + "i.qty, i.reserved, i.updated_at");
  }

  lemma AliasedProductsReference()
    ensures Reference("FROM products p", [], "FROM", "products", " p", From)
  {
    assert "FROM products p" == [] + ("FROM" + " " + "products" + " p");
  }

  lemma AliasedProductsFacts()
    ensures Without("FROM products p", ';') && KeywordFree("FROM products p", Join) && EndsClean("FROM products p")
  {
  }

  /** `FROM products p` names `products`. */
  lemma AliasedProductsLine()
    ensures Names("FROM products p", 0, ["products"], []) && EndsClean("FROM products p")
  {
    AliasedProductsReference();
    AliasedProductsFacts();
    FromLine("FROM products p", [], "FROM", "products", " p");
  }

  /** What follows the table name on the `JOIN` lines. */
  const JoinCondition: string := " i ON p.sku = i.sku"

  lemma JoinConditionClean()
    ensures Clean(JoinCondition)
  {
    assert Plain(JoinCondition);
    PlainClean(JoinCondition);
  }

  lemma InnerJoinSplit()
    ensures "JOIN inventory i ON p.sku = i.sku" == [] + ("JOIN" + " " + "inventory" + JoinCondition)
  {
  }

  lemma InnerJoinKeyword()
    ensures StartsWithKeyword("JOIN", Join) && AllIn("inventory", Word)
  {
  }

  lemma InnerJoinReference()
    ensures Reference("JOIN inventory i ON p.sku = i.sku", [], "JOIN", "inventory", JoinCondition, Join)
  {
    JoinConditionClean();
    InnerJoinSplit();
    InnerJoinKeyword();
  }

  lemma InnerJoinSemicolons()
    ensures Without("JOIN inventory i ON p.sku = i.sku", ';')
  {
  }

  lemma InnerJoinFrom()
    ensures KeywordFree("JOIN inventory i ON p.sku = i.sku", From)
  {
  }

  lemma InnerJoinEnd()
    ensures EndsClean("JOIN inventory i ON p.sku = i.sku")
  {
  }

  /** `JOIN inventory i ON p.sku = i.sku` names `inventory`. */
  lemma InnerJoinLine()
    ensures Names("JOIN inventory i ON p.sku = i.sku", 0, [], ["inventory"])
    ensures EndsClean("JOIN inventory i ON p.sku = i.sku")
  {
    InnerJoinReference();
    InnerJoinSemicolons();
    InnerJoinFrom();
    InnerJoinEnd();
    JoinLine("JOIN inventory i ON p.sku = i.sku", [], "JOIN", "inventory", JoinCondition);
  }

  lemma OrderByQuantity()
    ensures Clean("ORDER BY i.qty ASC") && EndsClean("ORDER BY i.qty ASC")
  {
    assert Plain("ORDER BY i.qty ASC");
    PlainClean("ORDER BY i.qty ASC");
  }

  /** Rule 2's statement names `products` after `FROM` and `inventory`
      after `JOIN`, and has no semicolon. */
  lemma InventoryNames()
    ensures Names(InventoryBody, 0, ["products"], ["inventory"]) && EndsClean(InventoryBody)
  {
    InventoryColumns();
    AliasedProductsLine();
    InnerJoinLine();
    OrderByQuantity();
    ReportShape("p.sku, p.name, p.category, " + "i.qty, i.reserved, i.updated_at", "FROM products p",
                "JOIN inventory i ON p.sku = i.sku", "ORDER BY i.qty ASC", "products", "inventory");
  }

  lemma LowStockColumns()
    ensures Clean("p.sku, p.name, i.qty, " + "p.reorder_point") && EndsClean("p.sku, p.name, i.qty, " + "p.reorder_point")
  {
    assert Plain("p.sku, p.name, i.qty, ");
    assert Plain("p.reorder_point");
    PlainAppend("p.sku, p.name, i.qty, ", "p.reorder_point");
    PlainClean("p.sku, p.name, i.qty, " + "p.reorder_point");
  }

  lemma LowStockCondition()
    ensures Clean("WHERE i.qty <= p.reorder_point") && EndsClean("WHERE i.qty <= p.reorder_point")
  {
    assert Plain("WHERE i.qty <= p.reorder_point");
    PlainClean("WHERE i.qty <= p.reorder_point");
  }

  /** Rule 3's statement names `products` after `FROM` and `inventory`
      after `JOIN`, and has no semicolon. */
  lemma LowStockNames()
    ensures Names(LowStockBody, 0, ["products"], ["inventory"]) && EndsClean(LowStockBody)
  {
    LowStockColumns();
    AliasedProductsLine();
    InnerJoinLine();
    LowStockCondition();
    OrderByQuantity();
    LowStockShape("p.sku, p.name, i.qty, " + "p.reorder_point", "FROM products p", "JOIN inventory i ON p.sku = i.sku",
                  "WHERE i.qty <= p.reorder_point", "ORDER BY i.qty ASC", "products", "inventory");
  }

  /** The tables the query of rule 1, 2 or 3 reads. */
  function FixedTables(r: Rule): set<string>
  {
    if r.ProductListing? then {"products"} else {"products", "inventory"}
  }

  /** The tables the body of rule 1, 2 or 3 names after `JOIN`. */
  function FixedJoins(r: Rule): seq<string> {
    if r.ProductListing? then [] else ["inventory"]
  }

  lemma FixedBodyNames(r: Rule)
    requires r.ProductListing? || r.InventoryReport? || r.LowStock?
    ensures Names(Body(r), 0, ["products"], FixedJoins(r)) && EndsClean(Body(r))
  {
    if r.ProductListing? {
      ListingNames();
    } else if r.InventoryReport? {
      InventoryNames();
    } else {
      LowStockNames();
    }
  }

  lemma NamedTables(fromTables: seq<string>, joinTables: seq<string>, r: Rule)
    requires fromTables == ["products"]
    requires joinTables == FixedJoins(r)
    ensures (set x | x in fromTables) + (set x | x in joinTables) == FixedTables(r)
  {
  }

  /** The queries of rules 1 to 3 have one semicolon, start with `SELECT`
      and read `products` and, for rules 2 and 3, `inventory`. */
  lemma FixedQuery(r: Rule)
    requires r.ProductListing? || r.InventoryReport? || r.LowStock?
    ensures Count(Render(r), ';') == 1
    ensures StartsWithSelect(Render(r))
    ensures TablesIn(Render(r)) == FixedTables(r)
  {
    assert Count(Render(r), ';') == 1 by {
      FixedBodyNames(r);
      StatementSemicolons(Body(r));
    }
    assert StartsWithSelect(Render(r)) by {
      StatementSelects(Body(r));
    }
    FixedQueryTables(r);
  }

  lemma FixedQueryTables(r: Rule)
    requires r.ProductListing? || r.InventoryReport? || r.LowStock?
    ensures TablesIn(Render(r)) == FixedTables(r)
  {
    FixedBodyNames(r);
    StatementFacts(Body(r), 0, ["products"], FixedJoins(r));
    NamedTables(["products"], FixedJoins(r), r);
  }

  /** The last line of the filter template: `head` followed by the
      phrase and the closing `%')`. What it names is what that tail names. */
  lemma PatternLine(head: string, tail: string)
    requires Clean(head) && head != [] && !IsWordChar(head[|head| - 1])
    requires EndsClean(tail)
    ensures Names(head + tail, Count(tail, ';'), FindAll(tail, false, From), FindAll(tail, false, Join))
    ensures EndsClean(head + tail)
  {
    assert FindAll(head + tail, false, From) == FindAll(tail, false, From) by {
      SkipPiece(head, tail, false, From);
    }
    assert FindAll(head + tail, false, Join) == FindAll(tail, false, Join) by {
      SkipPiece(head, tail, false, Join);
    }
    assert Count(head + tail, ';') == Count(tail, ';') by {
      CleanFacts(head, false, From);
      CountAppend(head, tail, ';');
    }
    assert (head + tail)[|head + tail| - 1] == tail[|tail| - 1];
  }

  lemma TailFacts()
    ensures Count(FilterTail, ';') == 0 && |FilterTail| == 3 && FilterTail[2] == ')'
  {
    assert Without(FilterTail, ';');
    WithoutNotIn(FilterTail, ';');
    CountPositive(FilterTail, ';');
  }

  /** The phrase with the closing `%')` has the phrase's semicolons and
      ends the query cleanly. */
  lemma PastedTail(phrase: string)
    ensures Count(phrase + FilterTail, ';') == Count(phrase, ';')
    ensures EndsClean(phrase + FilterTail)
  {
    TailFacts();
    CountAppend(phrase, FilterTail, ';');
    assert (phrase + FilterTail)[|phrase + FilterTail| - 1] == FilterTail[2];
  }

  /** The parts of the filter template around the phrase: a column line
      naming nothing, a `FROM` line and a `JOIN` line naming one table each,
      and the start of the last line, up to and including `%`. */
  predicate FilterPieces(columns: string, fromLine: string, joinLine: string, head: string, fromTable: string, joinTable: string) {
    FilterOpening(columns, fromLine, fromTable) && FilterClosing(joinLine, head, joinTable)
  }

  predicate FilterOpening(columns: string, fromLine: string, fromTable: string) {
    && Clean(columns) && EndsClean(columns)
    && Names(fromLine, 0, [fromTable], []) && EndsClean(fromLine)
  }

  predicate FilterClosing(joinLine: string, head: string, joinTable: string) {
    && Names(joinLine, 0, [], [joinTable]) && EndsClean(joinLine)
    && Clean(head) && head != [] && !IsWordChar(head[|head| - 1])
  }

  lemma FilterShape(columns: string, fromLine: string, joinLine: string, head: string, tail: string, fromTable: string, joinTable: string)
    requires FilterPieces(columns, fromLine, joinLine, head, fromTable, joinTable)
    requires EndsClean(tail)
    ensures var body := columns + Indent + fromLine + Indent + joinLine + Indent + head + tail;
            && Names(body, Count(tail, ';'), [fromTable] + FindAll(tail, false, From), [joinTable] + FindAll(tail, false, Join))
            && EndsClean(body)
  {
    var x := columns + Indent + fromLine + Indent + joinLine;
    OpeningLines(columns, fromLine, joinLine, fromTable, joinTable);
    PatternLine(head, tail);
    LinesNames(x, head + tail, 0, [fromTable], [joinTable], Count(tail, ';'), FindAll(tail, false, From), FindAll(tail, false, Join));
    AppendAssoc(x + Indent, head, tail);
  }

  /** The filter template, regrouped line by line. */
  lemma FilterLines(join: string, column: string, phrase: string)
    ensures FilterBody(join, column, phrase) ==
              "p.sku, p.name, i.qty" + Indent + "FROM products p" + Indent + (join + " inventory i ON p.sku = i.sku")
              + Indent + ("WHERE LOWER(" + column + ") LIKE LOWER('%") + (phrase + FilterTail)
  {
  }

  lemma FilterColumns()
    ensures Clean("p.sku, p.name, i.qty") && EndsClean("p.sku, p.name, i.qty")
  {
    assert Plain("p.sku, p.name, i.qty");
    PlainClean("p.sku, p.name, i.qty");
  }

  lemma JoinKeywordsFree()
    ensures KeywordFree(CategoryJoin, From) && KeywordFree(ProductJoin, From)
  {
  }

  lemma InventoryJoined()
    ensures KeywordFree(" inventory i ON p.sku = i.sku", From)
  {
    assert Plain(" inventory i ON p.sku = i.sku");
    PlainClean(" inventory i ON p.sku = i.sku");
  }

  lemma CategoryJoinSplit()
    ensures CategoryJoin + " inventory i ON p.sku = i.sku" == [] + ("JOIN" + " " + "inventory" + JoinCondition)
  {
  }

  lemma CategoryJoinReference()
    ensures Reference(CategoryJoin + " inventory i ON p.sku = i.sku", [], "JOIN", "inventory", JoinCondition, Join)
  {
    JoinConditionClean();
    CategoryJoinSplit();
    InnerJoinKeyword();
  }

  lemma CategoryJoinSemicolons()
    ensures Without(CategoryJoin + " inventory i ON p.sku = i.sku", ';')
  {
  }

  lemma CategoryJoinFrom()
    ensures KeywordFree(CategoryJoin + " inventory i ON p.sku = i.sku", From)
  {
    JoinKeywordsFree();
    InventoryJoined();
    KeywordFreeAppend(CategoryJoin, " inventory i ON p.sku = i.sku", From);
  }

  lemma CategoryJoinEnd()
    ensures EndsClean(CategoryJoin + " inventory i ON p.sku = i.sku")
  {
  }

  /** The `JOIN` line of rule 4 names `inventory`. */
  lemma CategoryJoinLine()
    ensures Names(CategoryJoin + " inventory i ON p.sku = i.sku", 0, [], ["inventory"])
    ensures EndsClean(CategoryJoin + " inventory i ON p.sku = i.sku")
  {
    CategoryJoinReference();
    CategoryJoinSemicolons();
    CategoryJoinFrom();
    CategoryJoinEnd();
    JoinLine(CategoryJoin + " inventory i ON p.sku = i.sku", [], "JOIN", "inventory", JoinCondition);
  }

  lemma OuterJoinSplit()
    ensures ProductJoin + " inventory i ON p.sku = i.sku" == "LEFT " + ("JOIN" + " " + "inventory" + JoinCondition)
  {
  }

  lemma OuterJoinLead()
    ensures KeywordFree("LEFT ", Join) && !IsWordChar("LEFT "[4])
  {
  }

  lemma OuterJoinReference()
    ensures Reference(ProductJoin + " inventory i ON p.sku = i.sku", "LEFT ", "JOIN", "inventory", JoinCondition, Join)
  {
    JoinConditionClean();
    OuterJoinSplit();
    InnerJoinKeyword();
    OuterJoinLead();
  }

  lemma OuterJoinSemicolons()
    ensures Without(ProductJoin + " inventory i ON p.sku = i.sku", ';')
  {
  }

  lemma OuterJoinFrom()
    ensures KeywordFree(ProductJoin + " inventory i ON p.sku = i.sku", From)
  {
    JoinKeywordsFree();
    InventoryJoined();
    KeywordFreeAppend(ProductJoin, " inventory i ON p.sku = i.sku", From);
  }

  lemma OuterJoinEnd()
    ensures EndsClean(ProductJoin + " inventory i ON p.sku = i.sku")
  {
  }

  /** The `LEFT JOIN` line of rule 5 names `inventory`. */
  lemma OuterJoinLine()
    ensures Names(ProductJoin + " inventory i ON p.sku = i.sku", 0, [], ["inventory"])
    ensures EndsClean(ProductJoin + " inventory i ON p.sku = i.sku")
  {
    OuterJoinReference();
    OuterJoinSemicolons();
    OuterJoinFrom();
    OuterJoinEnd();
    JoinLine(ProductJoin + " inventory i ON p.sku = i.sku", "LEFT ", "JOIN", "inventory", JoinCondition);
  }

  lemma PatternHead(column: string)
    requires column == CategoryColumn || column == ProductColumn
    ensures var head := "WHERE LOWER(" + column + ") LIKE LOWER('%";
            Clean(head) && head != [] && !IsWordChar(head[|head| - 1])
  {
    var head := "WHERE LOWER(" + column + ") LIKE LOWER('%";
    assert Plain("WHERE LOWER(") && Plain(") LIKE LOWER('%");
    assert Plain(column);
    PlainAppend("WHERE LOWER(", column);
    PlainAppend("WHERE LOWER(" + column, ") LIKE LOWER('%");
    PlainClean(head);
    assert head[|head| - 1] == '%';
  }

  /** The phrase pasted into the query of rule 4 or 5. */
  function Pasted(r: Rule): string
    requires r.CategoryQuery? || r.ProductQuery?
  {
    if r.CategoryQuery? then r.category else r.productName
  }

  lemma FilterOpeningFacts()
    ensures FilterOpening("p.sku, p.name, i.qty", "FROM products p", "products")
  {
    FilterColumns();
    AliasedProductsLine();
  }

  lemma CategoryClosing()
    ensures FilterClosing(CategoryJoin + " inventory i ON p.sku = i.sku", "WHERE LOWER(" + CategoryColumn + ") LIKE LOWER('%", "inventory")
  {
    CategoryJoinLine();
    PatternHead(CategoryColumn);
  }

  lemma ProductClosing()
    ensures FilterClosing(ProductJoin + " inventory i ON p.sku = i.sku", "WHERE LOWER(" + ProductColumn + ") LIKE LOWER('%", "inventory")
  {
    OuterJoinLine();
    PatternHead(ProductColumn);
  }

  lemma CategoryPieces()
    ensures FilterPieces("p.sku, p.name, i.qty", "FROM products p", CategoryJoin + " inventory i ON p.sku = i.sku",
                         "WHERE LOWER(" + CategoryColumn + ") LIKE LOWER('%", "products", "inventory")
  {
    FilterOpeningFacts();
    CategoryClosing();
  }

  lemma ProductPieces()
    ensures FilterPieces("p.sku, p.name, i.qty", "FROM products p", ProductJoin + " inventory i ON p.sku = i.sku",
                         "WHERE LOWER(" + ProductColumn + ") LIKE LOWER('%", "products", "inventory")
  {
    FilterOpeningFacts();
    ProductClosing();
  }

  /** What the statement of rule 4 names: `products`, `inventory` and
      whatever the phrase with the closing `%')` names. */
  lemma CategoryNames(phrase: string)
    ensures var tail := phrase + FilterTail;
            && Names(FilterBody(CategoryJoin, CategoryColumn, phrase), Count(phrase, ';'),
                     ["products"] + FindAll(tail, false, From), ["inventory"] + FindAll(tail, false, Join))
            && EndsClean(FilterBody(CategoryJoin, CategoryColumn, phrase))
  {
    var tail := phrase + FilterTail;
    CategoryPieces();
    PastedTail(phrase);
    FilterLines(CategoryJoin, CategoryColumn, phrase);
    FilterShape("p.sku, p.name, i.qty", "FROM products p", CategoryJoin + " inventory i ON p.sku = i.sku",
                "WHERE LOWER(" + CategoryColumn + ") LIKE LOWER('%", tail, "products", "inventory");
  }

  /** What the statement of rule 5 names: `products`, `inventory` and
      whatever the phrase with the closing `%')` names. */
  lemma ProductNames(phrase: string)
    ensures var tail := phrase + FilterTail;
            && Names(FilterBody(ProductJoin, ProductColumn, phrase), Count(phrase, ';'),
                     ["products"] + FindAll(tail, false, From), ["inventory"] + FindAll(tail, false, Join))
            && EndsClean(FilterBody(ProductJoin, ProductColumn, phrase))
  {
    var tail := phrase + FilterTail;
    ProductPieces();
    PastedTail(phrase);
    FilterLines(ProductJoin, ProductColumn, phrase);
    FilterShape("p.sku, p.name, i.qty", "FROM products p", ProductJoin + " inventory i ON p.sku = i.sku",
                "WHERE LOWER(" + ProductColumn + ") LIKE LOWER('%", tail, "products", "inventory");
  }

  /** The tables of a filter query: the two of the template and those of
      the pasted text. */
  lemma FilterTables(fromTables: seq<string>, joinTables: seq<string>)
    ensures (set x | x in ["products"] + fromTables) + (set x | x in ["inventory"] + joinTables)
            == {"products", "inventory"} + ((set x | x in fromTables) + (set x | x in joinTables))
  {
  }

  lemma TablesOfText(text: string)
    ensures TablesIn(text) == (set x | x in FindAll(text, false, From)) + (set x | x in FindAll(text, false, Join))
  {
  }

  /** What `validate_sql` finds in a filter query, from what its body names. */
  lemma FilterStatement(body: string, phrase: string)
    requires var tail := phrase + FilterTail;
             && Names(body, Count(phrase, ';'), ["products"] + FindAll(tail, false, From), ["inventory"] + FindAll(tail, false, Join))
             && EndsClean(body)
    ensures Count(Statement(body), ';') == Count(phrase, ';') + 1
    ensures StartsWithSelect(Statement(body))
    ensures TablesIn(Statement(body)) == {"products", "inventory"} + TablesIn(phrase + FilterTail)
  {
    var tail := phrase + FilterTail;
    StatementFacts(body, Count(phrase, ';'), ["products"] + FindAll(tail, false, From), ["inventory"] + FindAll(tail, false, Join));
    FilterTables(FindAll(tail, false, From), FindAll(tail, false, Join));
    TablesOfText(tail);
  }

  lemma FilterRender(r: Rule)
    requires r.CategoryQuery? || r.ProductQuery?
    ensures r.CategoryQuery? ==> Render(r) == Statement(FilterBody(CategoryJoin, CategoryColumn, r.category))
    ensures r.ProductQuery? ==> Render(r) == Statement(FilterBody(ProductJoin, ProductColumn, r.productName))
  {
  }

  lemma CategoryQueryFacts(category: string)
    ensures Count(Render(CategoryQuery(category)), ';') == Count(category, ';') + 1
    ensures StartsWithSelect(Render(CategoryQuery(category)))
    ensures TablesIn(Render(CategoryQuery(category))) == {"products", "inventory"} + TablesIn(category + FilterTail)
  {
    FilterRender(CategoryQuery(category));
    CategoryNames(category);
    FilterStatement(FilterBody(CategoryJoin, CategoryColumn, category), category);
  }

  lemma ProductQueryFacts(productName: string)
    ensures Count(Render(ProductQuery(productName)), ';') == Count(productName, ';') + 1
    ensures StartsWithSelect(Render(ProductQuery(productName)))
    ensures TablesIn(Render(ProductQuery(productName))) == {"products", "inventory"} + TablesIn(productName + FilterTail)
  {
    FilterRender(ProductQuery(productName));
    ProductNames(productName);
    FilterStatement(FilterBody(ProductJoin, ProductColumn, productName), productName);
  }

  /** The query of rule 4 or 5 has one semicolon more than its phrase,
      starts with `SELECT`, and reads `products`, `inventory` and the tables
      that the phrase and the closing `%')` name. */
  lemma FilterQuery(r: Rule)
    requires r.CategoryQuery? || r.ProductQuery?
    ensures Count(Render(r), ';') == Count(Pasted(r), ';') + 1
    ensures StartsWithSelect(Render(r))
    ensures TablesIn(Render(r)) == {"products", "inventory"} + TablesIn(Pasted(r) + FilterTail)
  {
    match r
    case CategoryQuery(c) => CategoryQueryFacts(c);
    case ProductQuery(p) => ProductQueryFacts(p);
  }
}
