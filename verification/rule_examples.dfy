/**
  The behaviour of `rule_based_sql` on particular questions: the examples in
  its own comments, the order of the rules, and corner cases of its patterns.
 */
module RuleExamples {
  import opened Text
  import opened Results
  import opened Pattern
  import opened Rules

  /** A string lacking one of the characters of `x` does not contain `x`. */
  lemma Lacks(s: string, x: string, c: char)
    requires c in x && Without(s, c)
    ensures forall i :: 0 <= i <= |s| ==> !OccursAt(s, i, x)
    ensures !Contains(s, x)
  {
    var m :| 0 <= m < |x| && x[m] == c;
    forall i | 0 <= i <= |s|
      ensures !OccursAt(s, i, x)
    {
      if i + |x| <= |s| {
        assert s[i + m] != c;
      }
    }
  }

  /** A question lacking both `a` and `b` mentions none of the phrases that
      each have one of them. */
  lemma LacksAll(q: string, xs: seq<string>, a: char, b: char)
    requires forall n :: 0 <= n < |xs| ==> a in xs[n] || b in xs[n]
    requires Without(q, a) && Without(q, b)
    ensures forall j, n :: 0 <= j <= |q| && 0 <= n < |xs| ==> !OccursAt(q, j, xs[n])
    ensures !MentionsAny(q, xs)
  {
    forall n | 0 <= n < |xs|
      ensures forall j :: 0 <= j <= |q| ==> !OccursAt(q, j, xs[n])
    {
      if a in xs[n] {
        Lacks(q, xs[n], a);
      } else {
        Lacks(q, xs[n], b);
      }
    }
  }

  /** Each phrase of rules 1 to 3 has a `p`, a `v` or a `k`. */
  lemma PhraseLetters()
    ensures forall n :: 0 <= n < |ListingPhrases| ==> 'p' in ListingPhrases[n]
    ensures forall n :: 0 <= n < |InventoryPhrases| ==> 'v' in InventoryPhrases[n] || 'k' in InventoryPhrases[n]
    ensures 'k' in LowStockPhrase
  {
    assert ListingPhrases[0][5] == 'p' && ListingPhrases[1][4] == 'p';
    assert ListingPhrases[2][5] == 'p' && ListingPhrases[3][0] == 'p';
    assert InventoryPhrases[0][2] == 'v' && InventoryPhrases[1][4] == 'k';
    assert InventoryPhrases[2][2] == 'v' && InventoryPhrases[3][4] == 'k';
    assert LowStockPhrase[8] == 'k';
  }

  /** Each keyword of rules 4 and 5 has an `m`, a `c` or a `q`. */
  lemma KeywordLetters()
    ensures forall n :: 0 <= n < |CategoryKeywords| ==> 'm' in CategoryKeywords[n] || 'c' in CategoryKeywords[n]
    ensures forall n :: 0 <= n < |ProductKeywords| ==> 'c' in ProductKeywords[n] || 'q' in ProductKeywords[n]
  {
    assert CategoryKeywords[0][4] == 'm' && CategoryKeywords[1][4] == 'm' && CategoryKeywords[2][0] == 'c';
    assert ProductKeywords[0][6] == 'c' && ProductKeywords[1][0] == 'q' && ProductKeywords[2][0] == 'q';
    assert ProductKeywords[3][3] == 'c' && ProductKeywords[4][0] == 'c';
  }

  /** Rules 1 to 3 do not apply to a question without the letters `p`,
      `v` and `k`. */
  lemma NoFixedRule(q: string)
    requires Without(q, 'p') && Without(q, 'v') && Without(q, 'k')
    ensures !Applies(q, 1) && !Applies(q, 2) && !Applies(q, 3)
  {
    PhraseLetters();
    LacksAll(q, ListingPhrases, 'p', 'p');
    LacksAll(q, InventoryPhrases, 'v', 'k');
    Lacks(q, LowStockPhrase, 'k');
  }

  /** No rule applies to a question without the letters `p`, `v`, `k`,
      `m`, `c` and `q`. */
  lemma NoRuleApplies(q: string)
    requires Without(q, 'p') && Without(q, 'v') && Without(q, 'k')
    requires Without(q, 'm') && Without(q, 'c') && Without(q, 'q')
    ensures forall k :: 1 <= k <= 5 ==> !Applies(q, k)
  {
    NoFixedRule(q);
    KeywordLetters();
    LacksAll(q, CategoryKeywords, 'm', 'c');
    LacksAll(q, ProductKeywords, 'c', 'q');
  }

  /** A question to which no rule applies yields nothing. */
  lemma Unhandled(userInput: string)
    requires forall k :: 1 <= k <= 5 ==> !Applies(LowerStr(userInput), k)
    ensures RuleBasedSql(userInput) == None
  {
    RuleOrder(userInput);
  }

  lemma WeatherLetters(q: string)
    requires q == "what's the weather today?"
    ensures Without(q, 'p') && Without(q, 'v') && Without(q, 'k')
    ensures Without(q, 'm') && Without(q, 'c') && Without(q, 'q')
  {
  }

  /** "What's the weather today?" is left to the language model. */
  lemma WeatherQuestion()
    ensures RuleBasedSql("What's the weather today?") == None
  {
    var u := "What's the weather today?";
    var q := "what's the weather today?";
    assert LowerStr(u) == q;
    WeatherLetters(q);
    NoRuleApplies(q);
    Unhandled(u);
  }

  lemma FruitsLetters(q: string)
    requires q == "how many fruits"
    ensures Without(q, 'p') && Without(q, 'v') && Without(q, 'k')
  {
  }

  lemma FruitsFirstMatch()
    ensures FirstKeywordTail("how many fruits", CategoryKeywords, LetterOrSpace, 0, 1)
    ensures RunPhrase("how many fruits", 0, CategoryKeywords[1], LetterOrSpace) == "fruits"
  {
    var q := "how many fruits";
    assert q[6] != "how much"[6];
    assert OccursAt(q, 0, "how many");
    assert RunEnd(q, 8, LetterOrSpace) == 15;
    assert q[8..15] == " fruits";
    assert Strip(" fruits") == "fruits";
  }

  /** The comment of rule 4: "how many fruits" asks about the category `fruits`. */
  lemma HowManyFruits()
    ensures Classify("How many fruits") == Some(CategoryQuery("fruits"))
  {
    var q := "how many fruits";
    assert LowerStr("How many fruits") == q;
    FruitsLetters(q);
    NoFixedRule(q);
    FruitsFirstMatch();
    CategoryAt("How many fruits", 0, 1);
  }

  /** A question naming inventory and low stock gets rule 2's query. */
  lemma InventoryBeforeLowStock()
    ensures Classify("Inventory low stock") == Some(InventoryReport)
  {
    var q := "inventory low stock";
    assert LowerStr("Inventory low stock") == q;
    PhraseLetters();
    assert Without(q, 'p');
    LacksAll(q, ListingPhrases, 'p', 'p');
    assert OccursAt(q, 0, InventoryPhrases[0]);
  }

  /** A question naming a product listing and low stock gets rule 1's query. */
  lemma ListingBeforeLowStock()
    ensures Classify("show products low stock") == Some(ProductListing)
  {
    var q := "show products low stock";
    assert LowerStr(q) == q;
    assert OccursAt(q, 0, ListingPhrases[2]);
  }

  /** Every phrase of rules 1 to 3 has a `t`. */
  lemma PhraseT()
    ensures forall n :: 0 <= n < |ListingPhrases| ==> 't' in ListingPhrases[n]
    ensures forall n :: 0 <= n < |InventoryPhrases| ==> 't' in InventoryPhrases[n]
    ensures 't' in LowStockPhrase
  {
    assert ListingPhrases[0][3] == 't' && ListingPhrases[1][10] == 't';
    assert ListingPhrases[2][11] == 't' && ListingPhrases[3][6] == 't';
    assert InventoryPhrases[0][5] == 't' && InventoryPhrases[1][1] == 't';
    assert InventoryPhrases[2][5] == 't' && InventoryPhrases[3][1] == 't';
    assert LowStockPhrase[5] == 't';
  }

  lemma DiscountFirstMatch()
    ensures FirstKeywordTail("discount x", CategoryKeywords, LetterOrSpace, 3, 2)
    ensures RunPhrase("discount x", 3, CategoryKeywords[2], LetterOrSpace) == "x"
  {
    var q := "discount x";
    assert OccursAt(q, 3, "count");
    assert RunEnd(q, 8, LetterOrSpace) == 10;
    forall i, n | 0 <= i < 3 && 0 <= n < 3
      ensures !KeywordTailAt(q, i, CategoryKeywords[n], LetterOrSpace)
    {
      assert q[i] != CategoryKeywords[n][0];
    }
    assert q[8..10] == " x";
    assert Strip(" x") == "x";
  }

  /** No word boundary is required before a keyword: "discount x" asks
      rule 4 about the category `x`, through the `count` inside `discount`. */
  lemma DiscountIsCount()
    ensures Classify("discount x") == Some(CategoryQuery("x"))
  {
    var q := "discount x";
    assert LowerStr(q) == q;
    assert Without(q, 'p') && Without(q, 'v') && Without(q, 'k');
    NoFixedRule(q);
    DiscountFirstMatch();
    CategoryAt(q, 3, 2);
  }

  lemma RedAppleFirstMatch()
    ensures FirstKeywordTail("how much red apple", CategoryKeywords, LetterOrSpace, 0, 0)
    ensures RunPhrase("how much red apple", 0, CategoryKeywords[0], LetterOrSpace) == "red apple"
  {
    var q := "how much red apple";
    assert OccursAt(q, 0, "how much");
    assert RunEnd(q, 8, LetterOrSpace) == 18;
    assert q[8..18] == " red apple";
    RedAppleStrip();
  }

  lemma RedAppleStrip()
    ensures Strip(" red apple") == "red apple"
  {
  }

  /** "how much" is a keyword of both rule 4 and rule 5, and rule 4 is
      tried first: "How much red apple" is a category question. */
  lemma RedAppleIsCategory()
    ensures Classify("How much red apple") == Some(CategoryQuery("red apple"))
  {
    var q := "how much red apple";
    assert LowerStr("How much red apple") == q;
    PhraseT();
    assert Without(q, 't');
    LacksAll(q, ListingPhrases, 't', 't');
    LacksAll(q, InventoryPhrases, 't', 't');
    Lacks(q, LowStockPhrase, 't');
    RedAppleFirstMatch();
    CategoryAt("How much red apple", 0, 0);
  }

  lemma FromFirstMatch()
    ensures FirstKeywordTail("how many from x", CategoryKeywords, LetterOrSpace, 0, 1)
    ensures RunPhrase("how many from x", 0, CategoryKeywords[1], LetterOrSpace) == "from x"
  {
    var q := "how many from x";
    assert q[6] != "how much"[6];
    assert OccursAt(q, 0, "how many");
    assert RunEnd(q, 8, LetterOrSpace) == 15;
    assert q[8..15] == " from x";
    assert Strip(" from x") == "from x";
  }

  /** A category phrase may itself hold the word `from`. */
  lemma FromInCategory()
    ensures Classify("how many from x") == Some(CategoryQuery("from x"))
  {
    var q := "how many from x";
    assert LowerStr(q) == q;
    assert Without(q, 'p') && Without(q, 'v') && Without(q, 'k');
    NoFixedRule(q);
    FromFirstMatch();
    CategoryAt(q, 0, 1);
  }
}

