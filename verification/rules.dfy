/**
  `rule_based_sql`: five rules tried in order on the lower-cased question.
  The first rule that applies picks a fixed query (rules 1-3) or fills a
  query template with a phrase taken from the question (rules 4-5); a
  question that no rule handles yields nothing, and the caller falls back
  to the language model.
 */
module Rules {
  import opened Text
  import opened Results
  import opened Pattern

  /** The rule that handled a question, with the phrase the template needs. */
  datatype Rule =
    | ProductListing                     // rule 1
    | InventoryReport                    // rule 2
    | LowStock                           // rule 3
    | CategoryQuery(category: string)    // rule 4
    | ProductQuery(productName: string)  // rule 5

  const ListingPhrases: seq<string> := ["list products", "all products", "show products", "product list"]
  const InventoryPhrases: seq<string> := ["inventory", "stock report", "inventory status", "stock level"]
  const LowStockPhrase: string := "low stock"
  /** The alternatives of `(how much|how many|count)\s+([a-z\s]+)`. */
  const CategoryKeywords: seq<string> := ["how much", "how many", "count"]
  /** The alternatives of `(how much|qty|quantity|stock|check)\s+(.+)`. */
  const ProductKeywords: seq<string> := ["how much", "qty", "quantity", "stock", "check"]

  /** `any(x in q for x in phrases)`. */
  predicate MentionsAny(q: string, phrases: seq<string>) {
    exists n :: 0 <= n < |phrases| && Contains(q, phrases[n])
  }

  /** A factor of a string made of one class is made of that class. */
  lemma AllInFactor(s: string, a: nat, b: nat, cls: CharClass)
    requires a <= b <= |s| && AllIn(s, cls)
    ensures AllIn(s[a..b], cls)
  {
    forall k | 0 <= k < b - a
      ensures InClass(s[a..b][k], cls)
    {
      assert s[a..b][k] == s[a + k];
    }
  }

  /** `m.group(2).strip()` for `m = re.search(...)`, or nothing when the
      search fails. The phrase is made of characters of the captured class. */
  function Captured(q: string, kws: seq<string>, cls: CharClass): (r: Option<string>)
    ensures r.Some? <==> Search(q, kws, cls).Some?
    ensures r.Some? ==> AllIn(r.value, cls)
    ensures r.Some? && NoUpper(q) ==> NoUpper(r.value)
  {
    match Search(q, kws, cls)
    case Some(sp) =>
      StrippedCapture(q, sp.start, sp.end, cls);
      Some(Strip(q[sp.start..sp.end]))
    case None => None
  }

  /** The stripped capture `q[a..b]` keeps the class of the capture, and
      has no capitals when `q` has none. */
  lemma StrippedCapture(q: string, a: nat, b: nat, cls: CharClass)
    requires a <= b <= |q| && AllIn(q[a..b], cls)
    ensures AllIn(Strip(q[a..b]), cls)
    ensures NoUpper(q) ==> NoUpper(Strip(q[a..b]))
  {
    var c := q[a..b];
    StripFactor(c);
    var x, y :| 0 <= x <= y <= |c| && Strip(c) == c[x..y] && AllSpace(c[..x]) && AllSpace(c[y..]);
    AllInFactor(c, x, y, cls);
    if NoUpper(q) {
      NoUpperFactor(q, a, b);
      NoUpperFactor(c, x, y);
    }
  }

  /** The decision of the five rules on the lower-cased question `q`. A
      category phrase holds only lower-case letters and whitespace, and a
      product phrase holds no line feed. */
  function Decide(q: string): (r: Option<Rule>)
    ensures r.Some? && r.value.CategoryQuery? ==> AllIn(r.value.category, LetterOrSpace)
    ensures r.Some? && r.value.ProductQuery? ==> '\n' !in r.value.productName
    ensures r.Some? && r.value.ProductQuery? && NoUpper(q) ==> NoUpper(r.value.productName)
  {
    if MentionsAny(q, ListingPhrases) then Some(ProductListing)
    else if MentionsAny(q, InventoryPhrases) then Some(InventoryReport)
    else if Contains(q, LowStockPhrase) then Some(LowStock)
    else
      match Captured(q, CategoryKeywords, LetterOrSpace)
      case Some(c) => Some(CategoryQuery(c))
      case None =>
        match Captured(q, ProductKeywords, NotNewline)
        case Some(p) =>
          assert forall k :: 0 <= k < |p| ==> p[k] != '\n' by {
            assert AllIn(p, NotNewline);
          }
          Some(ProductQuery(p))
        case None => None
  }

  /** The decision of `rule_based_sql`, before the template is filled in:
      the rules look at the question lower-cased, so a category phrase holds
      only lower-case letters and whitespace, and a product phrase holds
      neither capitals nor a line feed, whatever the question's case. */
  function Classify(userInput: string): (r: Option<Rule>)
    ensures r == Decide(LowerStr(userInput))
    ensures r.Some? && r.value.CategoryQuery? ==> AllIn(r.value.category, LetterOrSpace)
    ensures r.Some? && r.value.ProductQuery? ==> NoUpper(r.value.productName) && '\n' !in r.value.productName
  {
    Decide(LowerStr(userInput))
  }

  /** A line break followed by the eight spaces that indent the lines of
      the triple-quoted templates. */
  const Indent: string := "\n        "

  /** Every template is one `SELECT` statement laid out the same way: a line
      break, the indented `SELECT`, the rest of the statement, its closing
      semicolon, and the indentation of the closing quotes. */
  function Statement(body: string): string {
    Indent + "SELECT " + body + ";" + Indent
  }

  // The statements of rules 1 to 3 after `SELECT` and before the semicolon;
  // long lines are written as several literals.

  const ListingBody: string :=
    "sku, name, category, " + "safety_stock, reorder_point, " + "lead_time_days"
    + Indent + "FROM products"
    + Indent + "ORDER BY name ASC"

  const InventoryBody: string :=
    "p.sku, p.name, p.category, " + "i.qty, i.reserved, i.updated_at"
    + Indent + "FROM products p"
    + Indent + "JOIN inventory i ON p.sku = i.sku"
    + Indent + "ORDER BY i.qty ASC"

  const LowStockBody: string :=
    "p.sku, p.name, i.qty, " + "p.reorder_point"
    + Indent + "FROM products p"
    + Indent + "JOIN inventory i ON p.sku = i.sku"
    + Indent + "WHERE i.qty <= p.reorder_point"
    + Indent + "ORDER BY i.qty ASC"

  /** The statement of rules 4 and 5 before the phrase. */
  function FilterHead(join: string, column: string): string {
    "p.sku, p.name, i.qty"
    + Indent + "FROM products p"
    + Indent + join + " inventory i ON p.sku = i.sku"
    + Indent + "WHERE LOWER(" + column + ") LIKE LOWER('%"
  }

  /** The statement of rules 4 and 5 after the phrase. */
  const FilterTail: string := "%')"

  /** The f-string templates of rules 4 and 5 paste the phrase, unescaped,
      inside a `LIKE` pattern. */
  function FilterBody(join: string, column: string, phrase: string): string {
    FilterHead(join, column) + phrase + FilterTail
  }

  const CategoryJoin: string := "JOIN"
  const CategoryColumn: string := "p.category"
  const ProductJoin: string := "LEFT JOIN"
  const ProductColumn: string := "p.name"

  /** The statement of a rule after `SELECT` and before the semicolon. */
  function Body(rule: Rule): string {
    match rule
    case ProductListing => ListingBody
    case InventoryReport => InventoryBody
    case LowStock => LowStockBody
    case CategoryQuery(c) => FilterBody(CategoryJoin, CategoryColumn, c)
    case ProductQuery(p) => FilterBody(ProductJoin, ProductColumn, p)
  }

  /** The query text a rule returns. */
  function Render(rule: Rule): string {
    Statement(Body(rule))
  }

  /** `rule_based_sql(user_input)`: the query of the rule that handles the
      question, which is never the empty string. */
  function RuleBasedSql(userInput: string): (r: Option<string>)
    ensures r.Some? ==> |r.value| > 0
    ensures r.Some? <==> Classify(userInput).Some?
  {
    match Classify(userInput)
    case Some(rule) => Some(Render(rule))
    case None => None
  }

  /** A statement determines its body. */
  lemma StatementInjective(a: string, b: string)
    requires Statement(a) == Statement(b)
    ensures a == b
  {
    var n := |Indent + "SELECT "|;
    assert Statement(a)[n..n + |a|] == a;
    assert Statement(b)[n..n + |b|] == b;
  }

  /** A filter statement determines its phrase. */
  lemma FilterInjective(join: string, column: string, p: string, p': string)
    requires FilterBody(join, column, p) == FilterBody(join, column, p')
    ensures p == p'
  {
    var n := |FilterHead(join, column)|;
    assert FilterBody(join, column, p)[n..n + |p|] == p;
    assert FilterBody(join, column, p')[n..n + |p'|] == p';
  }

  /** The characters at which the bodies first differ from one another. */
  lemma BodyShape(r: Rule)
    ensures |Body(r)| > 53
    ensures Body(r)[0] == (if r.ProductListing? then 's' else 'p')
    ensures !r.ProductListing? ==> Body(r)[15] == (if r.InventoryReport? then 'p' else 'i')
    ensures !r.ProductListing? && !r.InventoryReport? ==>
              Body(r)[20] == (if r.LowStock? then ',' else '\n')
    ensures r.CategoryQuery? ==> Body(r)[53] == 'J'
    ensures r.ProductQuery? ==> Body(r)[53] == 'L'
  {
  }

  /** Different rules give different query texts, so the text tells which
      rule fired and, for rules 4 and 5, with which phrase. */
  lemma RenderInjective(a: Rule, b: Rule)
    ensures Render(a) == Render(b) <==> a == b
  {
    if Render(a) == Render(b) {
      StatementInjective(Body(a), Body(b));
      BodyShape(a);
      BodyShape(b);
      if a.CategoryQuery? && b.CategoryQuery? {
        FilterInjective(CategoryJoin, CategoryColumn, a.category, b.category);
      } else if a.ProductQuery? && b.ProductQuery? {
        FilterInjective(ProductJoin, ProductColumn, a.productName, b.productName);
      }
    }
  }

  /** Every whitespace character belongs to `[a-z\s]`. */
  lemma CategorySpaces(q: string)
    ensures SpacesInClass(q, LetterOrSpace)
  {
  }

  /** Without a line feed, every whitespace character belongs to `.`. */
  lemma ProductSpaces(q: string)
    requires '\n' !in q
    ensures SpacesInClass(q, NotNewline)
  {
    forall k | 0 <= k < |q| && IsSpace(q[k])
      ensures InClass(q[k], NotNewline)
    {
      assert q[k] in q;
    }
  }

  /** Rule 4 applies to `q`: some keyword is followed by whitespace and a
      run of lower-case letters and whitespace at least two long. */
  predicate CategoryAsked(q: string) {
    exists j :: 0 <= j <= |q| && AnyKeywordTailAt(q, j, CategoryKeywords, LetterOrSpace)
  }

  /** Rule 5 applies to `q`: some keyword is followed by whitespace and
      then, possibly after more whitespace, a character other than a line feed. */
  ghost predicate ProductAsked(q: string) {
    exists j, n :: 0 <= j <= |q| && 0 <= n < |ProductKeywords| && KeywordMatchAt(q, j, ProductKeywords[n], NotNewline)
  }

  /** The condition of rule `k` (1 to 5) on the lower-cased question. */
  ghost predicate Applies(q: string, k: nat) {
    match k
    case 1 => MentionsAny(q, ListingPhrases)
    case 2 => MentionsAny(q, InventoryPhrases)
    case 3 => Contains(q, LowStockPhrase)
    case 4 => CategoryAsked(q)
    case 5 => ProductAsked(q)
    case _ => false
  }

  /** The position of a rule in the order the rules are tried. */
  function Number(r: Rule): (k: nat)
    ensures 1 <= k <= 5
  {
    match r
    case ProductListing => 1
    case InventoryReport => 2
    case LowStock => 3
    case CategoryQuery(_) => 4
    case ProductQuery(_) => 5
  }

  /** Rule 4 applies exactly when its search finds a match. */
  lemma CategoryApplies(q: string)
    ensures Applies(q, 4) <==> Captured(q, CategoryKeywords, LetterOrSpace).Some?
  {
    CategorySpaces(q);
    SearchExists(q, CategoryKeywords, LetterOrSpace);
  }

  /** Rule 5 applies exactly when its search finds a match. */
  lemma ProductApplies(q: string)
    ensures Applies(q, 5) <==> Captured(q, ProductKeywords, NotNewline).Some?
  {
    SearchMatches(q, ProductKeywords, NotNewline);
  }

  /** The rules are tried in order and the first one that applies wins; no
      rule fires exactly when none applies. */
  lemma RuleOrder(userInput: string)
    ensures var q := LowerStr(userInput);
            Classify(userInput).Some? ==>
              && Applies(q, Number(Classify(userInput).value))
              && forall k :: 1 <= k < Number(Classify(userInput).value) ==> !Applies(q, k)
    ensures var q := LowerStr(userInput);
            Classify(userInput).None? <==> forall k :: 1 <= k <= 5 ==> !Applies(q, k)
  {
    var q := LowerStr(userInput);
    CategoryApplies(q);
    ProductApplies(q);
    assert Applies(q, 1) == MentionsAny(q, ListingPhrases);
    assert Applies(q, 2) == MentionsAny(q, InventoryPhrases);
    assert Applies(q, 3) == Contains(q, LowStockPhrase);
  }

  /** The category phrase of rule 4 comes from the leftmost position where
      `(how much|how many|count)\s+([a-z\s]+)` matches, with the first
      alternative that matches there: it is the stripped longest run of
      letters and whitespace after that keyword. */
  lemma CategoryPhrase(userInput: string, c: string)
    requires Classify(userInput) == Some(CategoryQuery(c))
    ensures var q := LowerStr(userInput);
            exists j: nat, n: nat :: && FirstKeywordTail(q, CategoryKeywords, LetterOrSpace, j, n)
                           && c == RunPhrase(q, j, CategoryKeywords[n], LetterOrSpace)
  {
    var q := LowerStr(userInput);
    CategorySpaces(q);
    SearchFirst(q, CategoryKeywords, LetterOrSpace);
  }

  /** Conversely, when rules 1 to 3 do not apply, the leftmost keyword
      match of rule 4 decides the category phrase. */
  lemma CategoryAt(userInput: string, j: nat, n: nat)
    requires var q := LowerStr(userInput);
             !Applies(q, 1) && !Applies(q, 2) && !Applies(q, 3)
    requires FirstKeywordTail(LowerStr(userInput), CategoryKeywords, LetterOrSpace, j, n)
    ensures var q := LowerStr(userInput);
            Classify(userInput) == Some(CategoryQuery(RunPhrase(q, j, CategoryKeywords[n], LetterOrSpace)))
  {
    var q := LowerStr(userInput);
    CategorySpaces(q);
    SearchAt(q, CategoryKeywords, LetterOrSpace, j, n);
  }

  /** The product phrase of rule 5, for a question without line feeds, comes
      from the leftmost position where `(how much|qty|quantity|stock|check)\s+(.+)`
      matches: it is the stripped rest of the line after that keyword. */
  lemma ProductPhrase(userInput: string, p: string)
    requires '\n' !in userInput
    requires Classify(userInput) == Some(ProductQuery(p))
    ensures var q := LowerStr(userInput);
            exists j: nat, n: nat :: && FirstKeywordTail(q, ProductKeywords, NotNewline, j, n)
                           && p == RunPhrase(q, j, ProductKeywords[n], NotNewline)
  {
    var q := LowerStr(userInput);
    NoLineFeedLower(userInput);
    ProductSpaces(q);
    SearchFirst(q, ProductKeywords, NotNewline);
  }

  /** Conversely, when rules 1 to 4 do not apply to a question without line
      feeds, the leftmost keyword match of rule 5 decides the product phrase. */
  lemma ProductAt(userInput: string, j: nat, n: nat)
    requires '\n' !in userInput
    requires var q := LowerStr(userInput);
             !Applies(q, 1) && !Applies(q, 2) && !Applies(q, 3) && !Applies(q, 4)
    requires FirstKeywordTail(LowerStr(userInput), ProductKeywords, NotNewline, j, n)
    ensures var q := LowerStr(userInput);
            Classify(userInput) == Some(ProductQuery(RunPhrase(q, j, ProductKeywords[n], NotNewline)))
  {
    var q := LowerStr(userInput);
    CategoryApplies(q);
    NoLineFeedLower(userInput);
    ProductSpaces(q);
    SearchAt(q, ProductKeywords, NotNewline, j, n);
  }

  /** Lower-casing adds no line feed. */
  lemma NoLineFeedLower(s: string)
    requires '\n' !in s
    ensures '\n' !in LowerStr(s)
  {
    forall k | 0 <= k < |s|
      ensures LowerStr(s)[k] != '\n'
    {
      assert s[k] in s;
    }
  }

  /** `rule_based_sql` ignores ASCII case. */
  lemma CaseInsensitive(userInput: string)
    ensures RuleBasedSql(LowerStr(userInput)) == RuleBasedSql(userInput)
  {
    LowerStrIdempotent(userInput);
  }

  /** The empty question is handled by no rule. */
  lemma EmptyInput()
    ensures RuleBasedSql("") == None
  {
    var q := LowerStr("");
    assert q == "";
    assert !MentionsAny(q, ListingPhrases);
    assert !MentionsAny(q, InventoryPhrases);
  }
}
