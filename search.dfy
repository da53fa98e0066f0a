/**
 * Keyword search of handlers/menu.py: the synonym table `SYNONYMS`, `expand_query` and
 * `search_documents` over the flattened documentation (`FLAT_DATA`).
 */
module Search {
  import opened Text
  import opened Documents

  /** `SYNONYMS`: each key with its list of synonyms, in the order the table lists them. */
  const Synonyms: seq<(string, seq<string>)> := [
    ("заправка", ["зарядка", "дозаправка"]),
    ("проверка", ["контроль", "диагностика", "испытание"]),
    ("очистка", ["чистка", "мойка"]),
    ("демонтаж", ["монтаж", "замена", "снятие", "установка"])
  ]

  /** `query.lower().strip()`. */
  function Normalize(query: string): string {
    Strip(Lower(query))
  }

  /** `query == key or query in synonyms`. */
  predicate InClass(w: string, entry: (string, seq<string>)) {
    w == entry.0 || w in entry.1
  }

  /** A synonym class: the key together with its synonyms. */
  function ClassOf(entry: (string, seq<string>)): set<string> {
    {entry.0} + set s | s in entry.1
  }

  /** The union of the classes of `table` that `w` belongs to. */
  function MatchedClasses(table: seq<(string, seq<string>)>, w: string): set<string> {
    if table == [] then {}
    else
      var last := table[|table| - 1];
      MatchedClasses(table[..|table| - 1], w) + (if InClass(w, last) then ClassOf(last) else {})
  }

  /** What `expand_query(query)` returns. */
  function Expansion(query: string): set<string> {
    {Normalize(query)} + MatchedClasses(Synonyms, Normalize(query))
  }

  /** `expand_query`: the normalised query plus every class it belongs to. */
  method ExpandQuery(query: string) returns (terms: set<string>)
    ensures terms == Expansion(query)
    ensures Normalize(query) in terms
  {
    var q := Normalize(query);
    terms := {q};
    for i := 0 to |Synonyms|
      invariant terms == {q} + MatchedClasses(Synonyms[..i], q)
    {
      MatchedStep(Synonyms, i, q);
      var entry := Synonyms[i];
      if q == entry.0 || q in entry.1 {
        terms := terms + {entry.0};
        terms := terms + set s | s in entry.1;
      }
    }
    assert Synonyms[..|Synonyms|] == Synonyms;
  }

  /** One more entry of the table adds its class when `w` belongs to it. */
  lemma MatchedStep(table: seq<(string, seq<string>)>, i: int, w: string)
    requires 0 <= i < |table|
    ensures MatchedClasses(table[..i + 1], w) == MatchedClasses(table[..i], w) + (if InClass(w, table[i]) then ClassOf(table[i]) else {})
  {
    assert table[..i + 1][..i] == table[..i];
  }

  /** A word of no class matches nothing in a table. */
  lemma {:induction false} NoClassMatched(table: seq<(string, seq<string>)>, w: string)
    requires forall i :: 0 <= i < |table| ==> !InClass(w, table[i])
    ensures MatchedClasses(table, w) == {}
  {
    if table != [] {
      NoClassMatched(table[..|table| - 1], w);
    }
  }

  /** A query that belongs to no class expands to itself alone. */
  lemma QueryInNoClass(query: string)
    requires forall i :: 0 <= i < |Synonyms| ==> !InClass(Normalize(query), Synonyms[i])
    ensures Expansion(query) == {Normalize(query)}
  {
    NoClassMatched(Synonyms, Normalize(query));
  }

  /** A string without upper-case ASCII or Cyrillic letters is its own `lower()`. */
  lemma LowerOfLowerCase(s: string)
    requires forall i :: 0 <= i < |s| ==> !('A' <= s[i] <= 'Z') && !('Ѐ' <= s[i] <= 'Я')
    ensures Lower(s) == s
  {
  }

  /** The classes of the table are disjoint: a word of one class matches that class alone. */
  lemma ClassMemberMatchesOwnClass(i: int, w: string)
    requires 0 <= i < |Synonyms| && InClass(w, Synonyms[i])
    ensures MatchedClasses(Synonyms, w) == ClassOf(Synonyms[i])
  {
    var t := Synonyms;
    assert InClass(w, t[0]) <==> i == 0;
    assert InClass(w, t[1]) <==> i == 1;
    assert InClass(w, t[2]) <==> i == 2;
    assert InClass(w, t[3]) <==> i == 3;
    assert t[..4][..3] == t[..3] && t[..3][..2] == t[..2] && t[..2][..1] == t[..1] && t[..1][..0] == [];
    assert t[..4] == t;
    var m0 := if i == 0 then ClassOf(t[0]) else {};
    var m1 := m0 + if i == 1 then ClassOf(t[1]) else {};
    var m2 := m1 + if i == 2 then ClassOf(t[2]) else {};
    assert MatchedClasses(t[..1], w) == m0;
    assert MatchedClasses(t[..2], w) == m1;
    assert MatchedClasses(t[..3], w) == m2;
  }

  lemma TableWordNormalized(i: int, w: string)
    requires 0 <= i < |Synonyms| && InClass(w, Synonyms[i])
    ensures Normalize(w) == w
  {
    ClassNormalized(Synonyms[i], w);
  }

  /** A word of a class is already lower-case and stripped. */
  lemma ClassNormalized(entry: (string, seq<string>), w: string)
    requires entry in Synonyms && InClass(w, entry)
    ensures Normalize(w) == w
  {
    if entry == Synonyms[0] {
      assert w in ["заправка", "зарядка", "дозаправка"];
    } else if entry == Synonyms[1] {
      assert w in ["проверка", "контроль", "диагностика", "испытание"];
    } else if entry == Synonyms[2] {
      assert w in ["очистка", "чистка", "мойка"];
    } else {
      assert w in ["демонтаж", "монтаж", "замена", "снятие", "установка"];
    }
    LowerCyrillic(w);
  }

  /** A word of lower-case Cyrillic letters is its own normal form. */
  lemma LowerCyrillic(w: string)
    requires w != [] && forall i :: 0 <= i < |w| ==> 'а' <= w[i] <= 'я'
    ensures Normalize(w) == w
  {
    LowerOfLowerCase(w);
    StripOfStripped(w);
  }

  /** Each word of the table, as typed into the search, expands to the whole of its class. */
  lemma ClassMemberExpandsToClass(i: int, w: string)
    requires 0 <= i < |Synonyms| && InClass(w, Synonyms[i])
    ensures Expansion(w) == ClassOf(Synonyms[i])
  {
    TableWordNormalized(i, w);
    ClassMemberMatchesOwnClass(i, w);
  }

  /** The expansion is symmetric: two words of one class expand to the same set. */
  lemma SameClassSameExpansion(i: int, u: string, w: string)
    requires 0 <= i < |Synonyms| && InClass(u, Synonyms[i]) && InClass(w, Synonyms[i])
    ensures Expansion(u) == Expansion(w)
  {
    ClassMemberExpandsToClass(i, u);
    ClassMemberExpandsToClass(i, w);
  }

  /** "проверка" and "диагностика" give equal term sets. */
  lemma CheckAndDiagnosticsAgree()
    ensures Expansion("проверка") == Expansion("диагностика")
    ensures "контроль" in Expansion("диагностика")
  {
    assert InClass("диагностика", Synonyms[1]);
    SameClassSameExpansion(1, "проверка", "диагностика");
    ClassMemberExpandsToClass(1, "диагностика");
    assert Synonyms[1].1[0] == "контроль";
  }

  /** `strip()` keeps a contiguous piece of its input. */
  lemma {:induction false} StripIsSlice(s: string)
    ensures exists a, b :: 0 <= a <= b <= |s| && Strip(s) == s[a..b]
  {
    if |s| > 0 && IsSpace(s[0]) {
      StripIsSlice(s[1..]);
      var a, b :| 0 <= a <= b <= |s[1..]| && Strip(s[1..]) == s[1..][a..b];
      assert s[1..][a..b] == s[a + 1..b + 1];
    } else {
      assert Strip(s) == s[0..|TrimEnd(s)|];
    }
  }

  /** Normalising twice is normalising once. */
  lemma NormalizeTwice(query: string)
    ensures Normalize(Normalize(query)) == Normalize(query)
  {
    var low := Lower(query);
    StripIsSlice(low);
    var a, b :| 0 <= a <= b <= |low| && Strip(low) == low[a..b];
    LowerIdempotent(query);
    LowerSlice(low, a, b);
    StripIdempotent(low);
  }

  lemma LowerSlice(s: string, a: int, b: int)
    requires 0 <= a <= b <= |s|
    ensures Lower(s[a..b]) == Lower(s)[a..b]
  {
  }

  /** Normalising twice is normalising once, so case and surrounding blanks never matter. */
  lemma NormalizeIdempotent(query: string)
    ensures Normalize(Normalize(query)) == Normalize(query)
    ensures Expansion(Normalize(query)) == Expansion(query)
  {
    NormalizeTwice(query);
  }

  /** The text an entry is searched in: `f"{категория} {ссылка}".lower()`. */
  function EntryText(e: FlatEntry): string {
    Lower(e.category + " " + e.link)
  }

  /** `any(term in entry_text for term in search_terms)`. */
  predicate EntryMatches(e: FlatEntry, terms: set<string>) {
    exists t :: t in terms && Contains(EntryText(e), t)
  }

  /** The result label: `path[1]`, or `path[0]` for a one-key path. */
  function ResultKey(path: seq<string>): string
    requires |path| >= 1
  {
    if |path| > 1 then path[1] else path[0]
  }

  /** The stored path: `path[:2]`. */
  function ResultPath(path: seq<string>): (r: seq<string>)
    requires |path| >= 1
    ensures 1 <= |r| <= 2 && |r| <= |path| && r == path[..|r|]
    ensures r[|r| - 1] == ResultKey(path)
  {
    if |path| > 1 then path[..2] else path
  }

  predicate PathsNonEmpty(flat: seq<FlatEntry>) {
    forall i :: 0 <= i < |flat| ==> |flat[i].path| >= 1
  }

  /** The dictionary `search_documents` builds, scanning the entries in order. */
  function SearchResults(flat: seq<FlatEntry>, terms: set<string>): map<string, seq<string>>
    requires PathsNonEmpty(flat)
  {
    if flat == [] then map[]
    else
      var prev := SearchResults(flat[..|flat| - 1], terms);
      var e := flat[|flat| - 1];
      if EntryMatches(e, terms) then prev[ResultKey(e.path) := ResultPath(e.path)] else prev
  }

  /** Every result comes from a matching entry: its label is that entry's key and its path the entry's `path[:2]`. */
  lemma {:induction false} SearchResultsSound(flat: seq<FlatEntry>, terms: set<string>, k: string)
    requires PathsNonEmpty(flat) && k in SearchResults(flat, terms)
    ensures exists i :: (0 <= i < |flat| && EntryMatches(flat[i], terms)
      && ResultKey(flat[i].path) == k && SearchResults(flat, terms)[k] == ResultPath(flat[i].path))
  {
    var init := flat[..|flat| - 1];
    var e := flat[|flat| - 1];
    if !(EntryMatches(e, terms) && ResultKey(e.path) == k) {
      SearchResultsSound(init, terms, k);
      var i :| 0 <= i < |init| && EntryMatches(init[i], terms)
        && ResultKey(init[i].path) == k && SearchResults(init, terms)[k] == ResultPath(init[i].path);
      assert init[i] == flat[i];
    }
  }

  /** Every matching entry has its label among the results. */
  lemma {:induction false} SearchResultsComplete(flat: seq<FlatEntry>, terms: set<string>, i: int)
    requires PathsNonEmpty(flat) && 0 <= i < |flat| && EntryMatches(flat[i], terms)
    ensures ResultKey(flat[i].path) in SearchResults(flat, terms)
  {
    if i < |flat| - 1 {
      var init := flat[..|flat| - 1];
      assert init[i] == flat[i];
      SearchResultsComplete(init, terms, i);
    }
  }

  /** A later match with the same label overwrites an earlier one: the last matching entry decides. */
  lemma {:induction false} SearchResultsLastWins(flat: seq<FlatEntry>, terms: set<string>, i: int)
    requires PathsNonEmpty(flat) && 0 <= i < |flat| && EntryMatches(flat[i], terms)
    requires forall j :: i < j < |flat| && EntryMatches(flat[j], terms) ==>
      ResultKey(flat[j].path) != ResultKey(flat[i].path)
    ensures ResultKey(flat[i].path) in SearchResults(flat, terms)
    ensures SearchResults(flat, terms)[ResultKey(flat[i].path)] == ResultPath(flat[i].path)
  {
    if i < |flat| - 1 {
      var init := flat[..|flat| - 1];
      assert init[i] == flat[i];
      forall j | i < j < |init| && EntryMatches(init[j], terms)
        ensures ResultKey(init[j].path) != ResultKey(init[i].path)
      {
        assert init[j] == flat[j];
      }
      SearchResultsLastWins(init, terms, i);
      SearchResultsComplete(init, terms, i);
    }
  }

  /** Every path `search_documents` stores leads to a node of the tree, so selecting it never fails. */
  lemma SearchResultsResolve(root: Node, terms: set<string>, k: string)
    requires WellFormed(root) && root.Dict?
    requires PathsNonEmpty(Flatten(root, []))
    requires k in SearchResults(Flatten(root, []), terms)
    ensures NodeAt(root, SearchResults(Flatten(root, []), terms)[k]).Some?
    ensures var p := SearchResults(Flatten(root, []), terms)[k]; 1 <= |p| <= 2 && p[|p| - 1] == k
  {
    var flat := Flatten(root, []);
    SearchResultsSound(flat, terms, k);
    var i :| 0 <= i < |flat| && EntryMatches(flat[i], terms)
      && ResultKey(flat[i].path) == k && SearchResults(flat, terms)[k] == ResultPath(flat[i].path);
    FlatDataPaths(root, flat[i]);
    NodeAtPrefix(root, flat[i].path, |ResultPath(flat[i].path)|);
  }

  /** The flattened tree of a well-formed root object satisfies `SearchResults`' requirement. */
  lemma FlatDataPathsNonEmpty(root: Node)
    requires WellFormed(root) && root.Dict?
    ensures PathsNonEmpty(Flatten(root, []))
  {
    var flat := Flatten(root, []);
    forall i | 0 <= i < |flat| ensures |flat[i].path| >= 1 {
      FlatDataPaths(root, flat[i]);
    }
  }

  /** `any(...)` over the term set: true as soon as one term occurs in the text. */
  method AnyTermIn(terms: set<string>, text: string) returns (found: bool)
    ensures found <==> exists t :: t in terms && Contains(text, t)
  {
    var rest := terms;
    found := false;
    while rest != {} && !found
      invariant rest <= terms
      invariant found <==> exists t :: t in terms - rest && Contains(text, t)
      decreases |rest|
    {
      var t :| t in rest;
      found := Contains(text, t);
      assert terms - (rest - {t}) == (terms - rest) + {t};
      rest := rest - {t};
    }
  }

  /** `search_documents`: the labels of the matching entries, each with its entry's `path[:2]`. */
  method SearchDocuments(flat: seq<FlatEntry>, query: string) returns (results: map<string, seq<string>>)
    requires PathsNonEmpty(flat)
    ensures results == SearchResults(flat, Expansion(query))
  {
    var terms := ExpandQuery(query);
    results := map[];
    for i := 0 to |flat|
      invariant results == SearchResults(flat[..i], terms)
    {
      assert flat[..i + 1][..i] == flat[..i];
      var e := flat[i];
      var hit := AnyTermIn(terms, EntryText(e));
      if hit {
        var key := if |e.path| > 1 then e.path[1] else e.path[0];
        results := results[key := e.path[..if |e.path| > 1 then 2 else 1]];
      }
    }
    assert flat[..|flat|] == flat;
  }
}
