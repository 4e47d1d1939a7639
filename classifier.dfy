/** The question classifier inside `LLMSimulator.generate_response`: the
    question is lower-cased, then an ordered chain of keyword tests picks the
    first matching kind of answer, falling through to the general answer. The
    chain is data here (a sequence of rules), one per copy of the program. */
module Classifier {
  import opened Catalog

  // ---------------------------------------------------------------------------
  // str.lower()
  // ---------------------------------------------------------------------------

  /** Lower case of one character: ASCII A–Z, the Latin-1 capitals À–Þ (except
      the multiplication sign) and the Czech capitals outside Latin-1. Every
      other character is its own lower case. */
  function LowerChar(c: char): char {
    if 'A' <= c <= 'Z' || ('À' <= c <= 'Þ' && c != '×') then (c as int + 32) as char
    else if c == 'Č' || c == 'Ď' || c == 'Ě' || c == 'Ň' || c == 'Ř' || c == 'Š' || c == 'Ť' || c == 'Ů' || c == 'Ž'
    then (c as int + 1) as char
    else c
  }

  predicate IsUpper(c: char) {
    LowerChar(c) != c
  }

  /** `s.lower()` */
  function Lower(s: string): (r: string)
    ensures |r| == |s| && forall i :: 0 <= i < |s| ==> r[i] == LowerChar(s[i])
  {
    if s == [] then [] else [LowerChar(s[0])] + Lower(s[1..])
  }

  /** A lower-cased character has no further lower case. */
  lemma LowerCharIdempotent(c: char)
    ensures LowerChar(LowerChar(c)) == LowerChar(c)
    ensures !IsUpper(LowerChar(c))
  {
  }

  /** Lower-casing twice is lower-casing once. */
  lemma LowerIdempotent(s: string)
    ensures Lower(Lower(s)) == Lower(s)
  {
    forall i | 0 <= i < |s|
      ensures Lower(Lower(s))[i] == Lower(s)[i]
    {
      LowerCharIdempotent(s[i]);
    }
  }

  // ---------------------------------------------------------------------------
  // `kw in text`
  // ---------------------------------------------------------------------------

  /** t occurs in s starting at position i. */
  ghost predicate OccursAt(t: string, s: string, i: int) {
    0 <= i <= |s| - |t| && s[i..i + |t|] == t
  }

  /** The specification of `t in s` for strings: t occurs at some position of s. */
  ghost predicate OccursIn(t: string, s: string) {
    exists i :: OccursAt(t, s, i)
  }

  /** `t in s`: try each start position from the left. */
  function Contains(s: string, t: string): bool {
    if |t| > |s| then false
    else if s[..|t|] == t then true
    else Contains(s[1..], t)
  }

  /** Contains decides OccursIn. */
  lemma {:induction false} ContainsOccurs(s: string, t: string)
    ensures Contains(s, t) <==> OccursIn(t, s)
  {
    if |t| <= |s| && s[..|t|] != t {
      ContainsOccurs(s[1..], t);
      if OccursIn(t, s) {
        var i :| OccursAt(t, s, i);
        assert i != 0;
        assert OccursAt(t, s[1..], i - 1);
      }
      if OccursIn(t, s[1..]) {
        var i :| OccursAt(t, s[1..], i);
        assert OccursAt(t, s, i + 1);
      }
    } else if |t| <= |s| {
      assert OccursAt(t, s, 0);
    }
  }

  /** An occurrence of an occurrence is an occurrence: a text containing
      "průměrná cena" contains "průměr". */
  lemma ContainsTransitive(s: string, t: string, u: string)
    requires Contains(s, t) && Contains(t, u)
    ensures Contains(s, u)
  {
    ContainsOccurs(s, t);
    ContainsOccurs(t, u);
    var i :| OccursAt(t, s, i);
    var j :| OccursAt(u, t, j);
    forall k | 0 <= k < |u|
      ensures s[i + j + k] == u[k]
    {
      assert s[i..i + |t|][j + k] == t[j + k];
    }
    assert OccursAt(u, s, i + j);
    ContainsOccurs(s, u);
  }

  /** A keyword with a character the text lacks does not occur in it. */
  lemma {:induction false} MissingCharNotContained(s: string, t: string, k: nat)
    requires k < |t| && t[k] !in s
    ensures !Contains(s, t)
  {
    if |t| <= |s| {
      assert s[k] in s;
      assert s[..|t|][k] != t[k];
      MissingCharNotContained(s[1..], t, k);
    }
  }

  // ---------------------------------------------------------------------------
  // Rules
  // ---------------------------------------------------------------------------

  /** The kinds of answer the simulator can give, one per branch of its chain. */
  datatype Intent = TotalCount | AveragePrice | CategoryBreakdown | LowStock | MostExpensive | General

  /** A keyword test on the lower-cased question. */
  datatype Cond = Has(keyword: string) | And(left: Cond, right: Cond) | Or(left: Cond, right: Cond)

  function Holds(c: Cond, text: string): bool {
    match c
    case Has(kw) => Contains(text, kw)
    case And(a, b) => Holds(a, text) && Holds(b, text)
    case Or(a, b) => Holds(a, text) || Holds(b, text)
  }

  datatype Rule = Rule(cond: Cond, intent: Intent)

  /** The index of the first rule whose test holds. */
  function FirstMatch(rules: seq<Rule>, text: string): (r: Option<nat>)
    ensures r.Some? ==> r.value < |rules| && Holds(rules[r.value].cond, text)
    ensures r.Some? ==> forall j :: 0 <= j < r.value ==> !Holds(rules[j].cond, text)
    ensures r.None? ==> forall j :: 0 <= j < |rules| ==> !Holds(rules[j].cond, text)
  {
    if rules == [] then None
    else if Holds(rules[0].cond, text) then Some(0)
    else
      match FirstMatch(rules[1..], text)
      case None => None
      case Some(k) => Some(k + 1)
  }

  /** The if/elif chain on an already lower-cased text: the intent of the first
      matching rule, or the general answer when none matches. */
  function Decide(rules: seq<Rule>, text: string): Intent {
    match FirstMatch(rules, text)
    case Some(k) => rules[k].intent
    case None => General
  }

  /** `question.lower()` followed by the chain. */
  function Classify(rules: seq<Rule>, question: string): Intent {
    Decide(rules, Lower(question))
  }

  /** The chain tries its first rule, and only when that fails the rest. */
  lemma DecideUnfold(rules: seq<Rule>, text: string)
    ensures Decide(rules, text) ==
      if rules == [] then General
      else if Holds(rules[0].cond, text) then rules[0].intent
      else Decide(rules[1..], text)
  {
  }

  /** Classification is first match wins: rule k decides exactly when its test
      holds on the lower-cased question and no earlier test does. */
  lemma ClassifyFirstMatchWins(rules: seq<Rule>, question: string, k: nat)
    requires k < |rules|
    requires Holds(rules[k].cond, Lower(question))
    requires forall j :: 0 <= j < k ==> !Holds(rules[j].cond, Lower(question))
    ensures Classify(rules, question) == rules[k].intent
  {
  }

  /** Classification already lower-cases, so lower-casing first changes nothing. */
  lemma ClassifyIgnoresCase(rules: seq<Rule>, question: string)
    ensures Classify(rules, Lower(question)) == Classify(rules, question)
  {
    LowerIdempotent(question);
  }

  const KOLIK := "kolik"
  const PRODUKT := "produkt"
  const CELKEM := "celkem"
  const PRUMER := "průměr"
  const PRUMERNA_CENA := "průměrná cena"
  const KATEGORIE := "kategorie"
  const NIZK := "nízk"
  const ZASOB := "zásob"
  const NEJDRAZSI := "nejdražší"
  const ELEKTRONIKA := "elektronika"
  const NEJDRAZ := "nejdraž"

  /** The chain of python_agent_extended.py and python_agent_web.py. */
  const StandardRules: seq<Rule> := [
    Rule(And(Has(KOLIK), Or(Has(PRODUKT), Has(CELKEM))), TotalCount),
    Rule(Or(Has(PRUMER), Has(PRUMERNA_CENA)), AveragePrice),
    Rule(Has(KATEGORIE), CategoryBreakdown),
    Rule(And(Has(NIZK), Has(ZASOB)), LowStock),
    Rule(Has(NEJDRAZSI), MostExpensive)
  ]

  /** The chain of python_agent.py: "elektronika" also asks for the category
      breakdown, "nejdraž" also for the most expensive product. */
  const CliRules: seq<Rule> := [
    Rule(And(Has(KOLIK), Or(Has(PRODUKT), Has(CELKEM))), TotalCount),
    Rule(Or(Has(PRUMER), Has(PRUMERNA_CENA)), AveragePrice),
    Rule(Or(Has(KATEGORIE), Has(ELEKTRONIKA)), CategoryBreakdown),
    Rule(And(Has(NIZK), Has(ZASOB)), LowStock),
    Rule(Or(Has(NEJDRAZSI), Has(NEJDRAZ)), MostExpensive)
  ]

  /** The standard chain written out as the source's if/elif statement. */
  lemma StandardChain(q: string)
    ensures Decide(StandardRules, q) ==
        if Contains(q, KOLIK) && (Contains(q, PRODUKT) || Contains(q, CELKEM)) then TotalCount
        else if Contains(q, PRUMER) || Contains(q, PRUMERNA_CENA) then AveragePrice
        else if Contains(q, KATEGORIE) then CategoryBreakdown
        else if Contains(q, NIZK) && Contains(q, ZASOB) then LowStock
        else if Contains(q, NEJDRAZSI) then MostExpensive
        else General
  {
    var rs := StandardRules;
    assert Holds(Or(Has(PRODUKT), Has(CELKEM)), q) == (Contains(q, PRODUKT) || Contains(q, CELKEM));
    DecideUnfold(rs, q);
    DecideUnfold(rs[1..], q);
    DecideUnfold(rs[2..], q);
    DecideUnfold(rs[3..], q);
    DecideUnfold(rs[4..], q);
    DecideUnfold(rs[5..], q);
  }

  /** The chain of python_agent.py written out as its if/elif statement. */
  lemma CliChain(q: string)
    ensures Decide(CliRules, q) ==
        if Contains(q, KOLIK) && (Contains(q, PRODUKT) || Contains(q, CELKEM)) then TotalCount
        else if Contains(q, PRUMER) || Contains(q, PRUMERNA_CENA) then AveragePrice
        else if Contains(q, KATEGORIE) || Contains(q, ELEKTRONIKA) then CategoryBreakdown
        else if Contains(q, NIZK) && Contains(q, ZASOB) then LowStock
        else if Contains(q, NEJDRAZSI) || Contains(q, NEJDRAZ) then MostExpensive
        else General
  {
    var rs := CliRules;
    assert Holds(Or(Has(PRODUKT), Has(CELKEM)), q) == (Contains(q, PRODUKT) || Contains(q, CELKEM));
    DecideUnfold(rs, q);
    DecideUnfold(rs[1..], q);
    DecideUnfold(rs[2..], q);
    DecideUnfold(rs[3..], q);
    DecideUnfold(rs[4..], q);
    DecideUnfold(rs[5..], q);
  }

  /** The second keyword of the average-price test never decides anything:
      "průměrná cena" contains "průměr". */
  lemma AverageKeywordRedundant(q: string)
    ensures Contains(q, PRUMERNA_CENA) ==> Contains(q, PRUMER)
  {
    if Contains(q, PRUMERNA_CENA) {
      assert Contains(PRUMERNA_CENA, PRUMER);
      ContainsTransitive(q, PRUMERNA_CENA, PRUMER);
    }
  }

  /** In python_agent.py, "nejdražší" contains "nejdraž", so the most-expensive
      test is the single keyword "nejdraž". */
  lemma CliExpensiveKeywordRedundant(q: string)
    ensures Contains(q, NEJDRAZSI) ==> Contains(q, NEJDRAZ)
  {
    if Contains(q, NEJDRAZSI) {
      assert Contains(NEJDRAZSI, NEJDRAZ);
      ContainsTransitive(q, NEJDRAZSI, NEJDRAZ);
    }
  }

  /** The two chains differ only in the extra keywords: where a question has
      neither "elektronika" nor "nejdraž", both copies classify it alike. */
  lemma ChainsAgreeWithoutExtraKeywords(question: string)
    requires !Contains(Lower(question), ELEKTRONIKA) && !Contains(Lower(question), NEJDRAZ)
    ensures Classify(CliRules, question) == Classify(StandardRules, question)
  {
    StandardChain(Lower(question));
    CliChain(Lower(question));
    CliExpensiveKeywordRedundant(Lower(question));
  }

  /** Rule order decides overlaps: a question asking "kolik" about "produkt"s
      gets the total-count answer in every copy, whatever else it mentions
      ("kolik produktů podle kategorie" included). */
  lemma CountComesFirst(question: string)
    requires Contains(Lower(question), KOLIK) && Contains(Lower(question), PRODUKT)
    ensures Classify(StandardRules, question) == TotalCount
    ensures Classify(CliRules, question) == TotalCount
  {
    StandardChain(Lower(question));
    CliChain(Lower(question));
  }

  /** In python_agent.py the average-price test comes before "elektronika":
      a question about the average price of electronics gets the average. */
  lemma AverageBeatsElektronika(question: string)
    requires Contains(Lower(question), PRUMER) && Contains(Lower(question), ELEKTRONIKA)
    requires !Contains(Lower(question), KOLIK)
    ensures Classify(CliRules, question) == AveragePrice
  {
    CliChain(Lower(question));
  }

  /** In python_agent.py a question that mentions "elektronika" and passes
      neither the count nor the average test gets the category breakdown. */
  lemma CliElektronikaRoutesToCategories(q: string)
    requires Contains(q, ELEKTRONIKA)
    requires !(Contains(q, KOLIK) && (Contains(q, PRODUKT) || Contains(q, CELKEM)))
    requires !Contains(q, PRUMER)
    ensures Decide(CliRules, q) == CategoryBreakdown
  {
    AverageKeywordRedundant(q);
    CliChain(q);
  }

  /** In python_agent.py "nejdraž" asks for the most expensive product once no
      earlier test holds. */
  lemma CliNejdrazRoutesToMostExpensive(q: string)
    requires Contains(q, NEJDRAZ)
    requires !(Contains(q, KOLIK) && (Contains(q, PRODUKT) || Contains(q, CELKEM)))
    requires !Contains(q, PRUMER) && !Contains(q, KATEGORIE) && !Contains(q, ELEKTRONIKA)
    requires !(Contains(q, NIZK) && Contains(q, ZASOB))
    ensures Decide(CliRules, q) == MostExpensive
  {
    AverageKeywordRedundant(q);
    CliChain(q);
  }

  /** Which keywords the text "nejdraž" contains. */
  lemma NejdrazKeywords(q: string)
    requires q == NEJDRAZ
    ensures Contains(q, NEJDRAZ)
    ensures !Contains(q, KOLIK) && !Contains(q, PRUMER) && !Contains(q, PRUMERNA_CENA)
    ensures !Contains(q, KATEGORIE) && !Contains(q, ELEKTRONIKA)
    ensures !Contains(q, NIZK) && !Contains(q, NEJDRAZSI)
  {
    MissingCharNotContained(q, KOLIK, 0);
    MissingCharNotContained(q, PRUMER, 0);
    MissingCharNotContained(q, NIZK, 1);
  }

  /** The copies really differ: the lower-cased question "nejdraž" gets the most
      expensive product in python_agent.py and the general answer in the other two. */
  lemma NejdrazDiffers(q: string)
    requires q == NEJDRAZ
    ensures Decide(CliRules, q) == MostExpensive
    ensures Decide(StandardRules, q) == General
  {
    NejdrazKeywords(q);
    CliChain(q);
    StandardChain(q);
  }
}
