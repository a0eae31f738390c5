/** Relevance search over a user's memories: the best of each category, merged into the best overall. */
module MemoryRecall {
  import opened Basics
  import opened MemoryNamespaces
  import opened StableSort
  import opened Wrappers

  /** A stored entry as one query sees it, with the score the store gives it. */
  datatype Item = Item(
    ns: Namespace,
    key: string,
    memoryType: string,
    score: Option<real>,
    createdAt: Option<int>)

  /** `d.score or 0.0` */
  function ScoreOf(score: Option<real>): real {
    if score.Some? then score.value else 0.0
  }

  function Rank(i: Item): real {
    ScoreOf(i.score)
  }

  predicate RankedBefore(x: Item, y: Item) {
    Rank(x) >= Rank(y)
  }

  function Matching(items: set<Item>, prefix: Namespace, memoryType: Option<string>): set<Item> {
    set i | i in items && Under(prefix, i.ns) && (memoryType.None? || i.memoryType == memoryType.value)
  }

  /** `top` is a best-first list of the `k` highest ranked elements of `all`, or of all if there are fewer. */
  ghost predicate IsTopK(all: set<Item>, k: nat, top: seq<Item>) {
    && |top| == Min(k, |all|)
    && NoDuplicates(top)
    && (forall x | x in top :: x in all)
    && IsSorted(top, RankedBefore)
    && forall x, y | x in all && x !in top && y in top :: Rank(y) >= Rank(x)
  }

  // ---------- Merging ----------

  /** What the merge keeps of each namespace: an entry may only be missing behind `k` at least as good ones. */
  ghost predicate Covers(all: set<Item>, k: nat, docs: seq<Item>) {
    && NoDuplicates(docs)
    && (forall x | x in docs :: x in all)
    && forall x | x in all && x !in docs :: HasBetter(docs, k, x)
  }

  ghost predicate HasBetter(docs: seq<Item>, k: nat, x: Item) {
    exists better :: AreBetter(better, docs, k, x)
  }

  ghost predicate AreBetter(better: set<Item>, docs: seq<Item>, k: nat, x: Item) {
    |better| == k && forall y | y in better :: y in docs && Rank(y) >= Rank(x)
  }

  lemma {:induction false} SizeOfElements<T>(xs: seq<T>, elements: set<T>)
    requires forall x | x in elements :: x in xs
    ensures |elements| <= |xs|
    ensures NoDuplicates(xs) && (forall x | x in xs :: x in elements) ==> |elements| == |xs|
  {
    if xs != [] {
      var x, rest := xs[|xs| - 1], xs[..|xs| - 1];
      assert forall y | y in xs :: y == x || y in rest;
      SizeOfElements(rest, elements - {x});
      if NoDuplicates(xs) && forall y | y in xs :: y in elements {
        assert x in elements && x !in rest;
        assert |elements| == |elements - {x}| + 1;
      }
    } else {
      assert elements == {};
    }
  }

  lemma TopKCovers(all: set<Item>, k: nat, top: seq<Item>)
    requires IsTopK(all, k, top)
    ensures Covers(all, k, top)
  {
    var elements := set y | y in top;
    SizeOfElements(top, elements);
    forall x | x in all && x !in top ensures HasBetter(top, k, x) {
      assert elements < all;
      SubsetSize(elements, all);
      assert AreBetter(elements, top, k, x);
    }
  }

  lemma MoreDocs(docs: seq<Item>, more: seq<Item>, k: nat, x: Item)
    requires HasBetter(docs, k, x) && forall y | y in docs :: y in more
    ensures HasBetter(more, k, x)
  {
    var better :| AreBetter(better, docs, k, x);
    assert AreBetter(better, more, k, x);
  }

  lemma CoversMerge(all1: set<Item>, docs1: seq<Item>, all2: set<Item>, docs2: seq<Item>, k: nat)
    requires Covers(all1, k, docs1) && Covers(all2, k, docs2) && all1 !! all2
    ensures Covers(all1 + all2, k, docs1 + docs2)
  {
    var docs := docs1 + docs2;
    forall x | x in all1 + all2 && x !in docs ensures HasBetter(docs, k, x) {
      MoreDocs(if x in all1 then docs1 else docs2, docs, k, x);
    }
    forall i, j | 0 <= i < j < |docs| ensures docs[i] != docs[j] {
      assert docs[i] in (if i < |docs1| then docs1 else docs2);
      assert docs[j] in (if j < |docs1| then docs1 else docs2);
    }
  }

  lemma CoveredTopK(all: set<Item>, k: nat, docs: seq<Item>)
    requires Covers(all, k, docs)
    ensures IsTopK(all, k, Sort(docs, RankedBefore)[..Min(k, |docs|)])
  {
    var sorted := Sort(docs, RankedBefore);
    SortSorts(docs, RankedBefore);
    SortKeepsElements(docs, RankedBefore);
    PermutationHasNoDuplicates(docs, sorted);
    CoveredSize(all, k, docs);
    var top := sorted[..Min(k, |docs|)];
    forall x, y | x in all && x !in top && y in top ensures Rank(y) >= Rank(x) {
      TopBeatsMissing(all, k, docs, sorted, x, y);
    }
  }

  lemma CoveredSize(all: set<Item>, k: nat, docs: seq<Item>)
    requires Covers(all, k, docs)
    ensures Min(k, |docs|) == Min(k, |all|)
  {
    var elements := set y | y in docs;
    SizeOfElements(docs, elements);
    SubsetSize(elements, all);
    if elements != all {
      var x :| x in all && x !in docs;
      var better :| AreBetter(better, docs, k, x);
      SizeOfElements(docs, better);
    }
  }

  lemma PermutationHasNoDuplicates<T>(xs: seq<T>, ys: seq<T>)
    requires NoDuplicates(xs) && multiset(xs) == multiset(ys)
    ensures NoDuplicates(ys)
  {
    forall i, j | 0 <= i < j < |ys| ensures ys[i] != ys[j] {
      if ys[i] == ys[j] {
        AtLeastTwice(ys, i, j);
        AtMostOnce(xs, ys[i]);
      }
    }
  }

  lemma AtLeastTwice<T>(xs: seq<T>, i: nat, j: nat)
    requires i < j < |xs| && xs[i] == xs[j]
    ensures multiset(xs)[xs[i]] >= 2
  {
    assert xs == xs[..j] + [xs[j]] + xs[j + 1..];
    assert xs[..j][i] in multiset(xs[..j]);
  }

  lemma {:induction false} AtMostOnce<T>(xs: seq<T>, x: T)
    requires NoDuplicates(xs)
    ensures multiset(xs)[x] <= 1
  {
    if xs != [] {
      var rest, last := xs[..|xs| - 1], xs[|xs| - 1];
      assert xs == rest + [last];
      AtMostOnce(rest, x);
      assert last !in rest;
      assert last !in multiset(rest);
    }
  }

  lemma TopBeatsMissing(all: set<Item>, k: nat, docs: seq<Item>, sorted: seq<Item>, x: Item, y: Item)
    requires Covers(all, k, docs)
    requires |sorted| == |docs| && IsSorted(sorted, RankedBefore)
    requires forall z :: z in sorted <==> z in docs
    requires var top := sorted[..Min(k, |docs|)]; x in all && x !in top && y in top
    ensures Rank(y) >= Rank(x)
  {
    var n := Min(k, |docs|);
    var j :| 0 <= j < n && sorted[j] == y;
    if x in docs {
      var i :| 0 <= i < |sorted| && sorted[i] == x;
      assert forall m | 0 <= m < n :: sorted[..n][m] == sorted[m];
    } else if Rank(y) < Rank(x) {
      assert HasBetter(docs, k, x);
      var better :| AreBetter(better, docs, k, x);
      forall z | z in better ensures z in sorted[..j] {
        var i :| 0 <= i < |sorted| && sorted[i] == z;
        assert i < j;
      }
      SizeOfElements(sorted[..j], better);
    }
  }

  // ---------- recall_memories ----------

  /** The store as one query sees it. `search` takes a namespace prefix, a limit and a memory type. */
  datatype Store = Store(items: set<Item>, search: (Namespace, nat, Option<string>) -> seq<Item>)

  /** The contract of the store's vector search. */
  ghost predicate RanksMatches(store: Store) {
    forall prefix, limit, memoryType ::
      IsTopK(Matching(store.items, prefix, memoryType), limit, store.search(prefix, limit, memoryType))
  }

  function NamespacesToSearch(builder: NamespaceBuilder, userId: string,
                              memoryType: Option<string>, category: Option<Category>): seq<Namespace> {
    if category.Some? then [builder.NamespaceFor(userId, category.value)]
    else if memoryType.Some? then [builder.NamespaceFor(userId, CategoryForType(memoryType.value))]
    else seq(|MEMORY_CATEGORIES|, i requires 0 <= i < |MEMORY_CATEGORIES| =>
               builder.NamespaceFor(userId, MEMORY_CATEGORIES[i]))
  }

  /** Everything that matches in one of the searched namespaces. */
  function MatchingAny(items: set<Item>, namespaces: seq<Namespace>, memoryType: Option<string>): set<Item> {
    set i | i in items && (memoryType.None? || i.memoryType == memoryType.value)
            && exists n | 0 <= n < |namespaces| :: Under(namespaces[n], i.ns)
  }

  lemma NamespacesAreDisjoint(builder: NamespaceBuilder, userId: string,
                              memoryType: Option<string>, category: Option<Category>, ns: Namespace, m: nat, n: nat)
    requires var namespaces := NamespacesToSearch(builder, userId, memoryType, category);
      m < |namespaces| && n < |namespaces| && Under(namespaces[m], ns) && Under(namespaces[n], ns)
    ensures m == n
  {
    if category.None? && memoryType.None? {
      SearchesAreDisjoint(builder, userId, MEMORY_CATEGORIES[m], builder, userId, MEMORY_CATEGORIES[n], ns);
    }
  }

  /** The results of the searches, one namespace after the other. */
  function Retrieved(store: Store, namespaces: seq<Namespace>, limit: nat, memoryType: Option<string>): seq<Item> {
    if namespaces == [] then []
    else
      Retrieved(store, namespaces[..|namespaces| - 1], limit, memoryType)
      + store.search(namespaces[|namespaces| - 1], limit, memoryType)
  }

  /** `created_at` descending, undated entries last. */
  predicate NewerFirst(x: Item, y: Item) {
    y.createdAt.None? || (x.createdAt.Some? && x.createdAt.value >= y.createdAt.value)
  }

  /** What a call returns for an entry: its score only if scores are asked for. */
  datatype Document = Document(entry: Item, score: Option<real>)

  function EntryOf(d: Document): Item {
    d.entry
  }

  function Entries(documents: seq<Document>): seq<Item> {
    Map(EntryOf, documents)
  }

  datatype Query = Query(includeScores: bool, sortByTime: bool) {
    function Show(i: Item): Document {
      Document(i, if includeScores then i.score else None)
    }

    /** The order in which the call sorts its documents. */
    predicate Before(x: Document, y: Document) {
      if sortByTime then NewerFirst(x.entry, y.entry) else ScoreOf(x.score) >= ScoreOf(y.score)
    }
  }

  /** `top` is the first `n` of the entries `found`, newest first. */
  ghost predicate IsNewest(found: seq<Item>, n: nat, top: seq<Item>) {
    && |top| == n
    && (forall x | x in top :: x in found)
    && IsSorted(top, NewerFirst)
    && forall x, y | x in found && x !in top && y in top :: NewerFirst(y, x)
  }

  lemma NewerFirstIsPreorder()
    ensures TotalPreorder(NewerFirst)
  {
    forall x, y ensures NewerFirst(x, y) || NewerFirst(y, x) {}
    forall x, y, z | NewerFirst(x, y) && NewerFirst(y, z) ensures NewerFirst(x, z) {}
  }

  lemma PrefixBeatsRest(sorted: seq<Item>, n: nat, x: Item, y: Item)
    requires IsSorted(sorted, NewerFirst) && n <= |sorted|
    requires x in sorted && x !in sorted[..n] && y in sorted[..n]
    ensures NewerFirst(y, x)
  {
    assert sorted == sorted[..n] + sorted[n..];
    var i :| 0 <= i < |sorted| - n && sorted[n..][i] == x;
    var j :| 0 <= j < n && sorted[..n][j] == y;
    assert sorted[n + i] == x;
  }

  lemma PrefixIsNewest(found: seq<Item>, sorted: seq<Item>, n: nat)
    requires IsSorted(sorted, NewerFirst) && n <= |sorted|
    requires forall x :: x in sorted <==> x in found
    ensures IsNewest(found, n, sorted[..n])
  {
    forall x, y | x in found && x !in sorted[..n] && y in sorted[..n] ensures NewerFirst(y, x) {
      PrefixBeatsRest(sorted, n, x, y);
    }
    hide NewerFirst;
    assert sorted == sorted[..n] + sorted[n..];
  }

  lemma SortedNewest(found: seq<Item>, n: nat)
    requires n <= |found|
    ensures IsNewest(found, n, Sort(found, NewerFirst)[..n])
  {
    NewerFirstIsPreorder();
    SortSorts(found, NewerFirst);
    SortKeepsElements(found, NewerFirst);
    hide *;
    PrefixIsNewest(found, Sort(found, NewerFirst), n);
  }

  /**
   * What the documents of a call are, given everything that matches and what the searches retrieved.
   * By score they are the best of all that matches; by time, the newest of what was retrieved; with
   * neither scores nor time they are the first ones retrieved.
   */
  ghost predicate IsRecalled(all: set<Item>, found: seq<Item>, limit: nat, query: Query, documents: seq<Document>) {
    && |documents| == Min(limit, |all|) && NoDuplicates(Entries(documents))
    && (forall d | d in documents :: d.entry in all && d == query.Show(d.entry))
    && (query.sortByTime ==> IsNewest(found, Min(limit, |found|), Entries(documents)))
    && (!query.sortByTime && query.includeScores ==> IsTopK(all, limit, Entries(documents)))
    && (!query.sortByTime && !query.includeScores ==> Entries(documents) == found[..Min(limit, |found|)])
  }

  lemma MapOfPrefix(documents: seq<Document>, n: nat)
    requires n <= |documents|
    ensures Entries(documents[..n]) == Entries(documents)[..n]
  {
  }

  /** The entries of the sorted documents are the sorted entries. */
  lemma SortedEntries(found: seq<Item>, query: Query, before: (Item, Item) -> bool)
    requires forall x, y :: query.Before(query.Show(x), query.Show(y)) == before(x, y)
    ensures Entries(Sort(Map(query.Show, found), query.Before)) == Sort(found, before)
  {
    var documents := Map(query.Show, found);
    SortMapped(documents, EntryOf, query.Before, before);
    assert Entries(documents) == found;
  }

  predicate AnyOrder(x: Item, y: Item) {
    true
  }

  lemma SortedDocuments(all: set<Item>, found: seq<Item>, limit: nat, query: Query)
    requires Covers(all, limit, found)
    ensures var sorted := Sort(Map(query.Show, found), query.Before);
      IsRecalled(all, found, limit, query, sorted[..Min(limit, |sorted|)])
  {
    var documents := Map(query.Show, found);
    var sorted := Sort(documents, query.Before);
    var n := Min(limit, |sorted|);
    CoveredSize(all, limit, found);
    forall d | d in sorted ensures d.entry in found && d == query.Show(d.entry) {
      InMultiset(sorted, documents, d);
    }
    MapOfPrefix(sorted, n);
    if query.sortByTime {
      SortedEntries(found, query, NewerFirst);
      SortedNewest(found, n);
      PermutationHasNoDuplicates(found, Sort(found, NewerFirst));
    } else if query.includeScores {
      SortedEntries(found, query, RankedBefore);
      CoveredTopK(all, limit, found);
    } else {
      SortedEntries(found, query, AnyOrder);
      SortOfTies(found, AnyOrder);
    }
  }

  /** If no more than `limit` entries match, all of them are retrieved; so they all come newest first. */
  lemma AllRetrieved(all: set<Item>, found: seq<Item>, limit: nat, x: Item)
    requires Covers(all, limit, found) && |all| <= limit
    ensures x in found <==> x in all
  {
    if x in all && x !in found {
      var better :| AreBetter(better, found, limit, x);
      SubsetSize(better + {x}, all);
    }
  }

  /** At most `k` (or by default `maxResults`) documents over all searched namespaces together. */
  method RecallMemories(store: Store, builder: NamespaceBuilder, userId: string, k: Option<nat>, maxResults: nat,
                        memoryType: Option<string>, category: Option<Category>, query: Query)
    returns (documents: seq<Document>)
    requires RanksMatches(store)
    ensures var limit := if k.Some? && k.value != 0 then k.value else maxResults;
      var namespaces := NamespacesToSearch(builder, userId, memoryType, category);
      var found := Retrieved(store, namespaces, limit, memoryType);
      && Covers(MatchingAny(store.items, namespaces, memoryType), limit, found)
      && IsRecalled(MatchingAny(store.items, namespaces, memoryType), found, limit, query, documents)
    ensures IsInOrder(query, documents)
    ensures forall d | d in documents :: d.entry in store.items && IsWanted(d.entry, builder, userId, memoryType, category)
    ensures |documents| == Min(if k.Some? && k.value != 0 then k.value else maxResults,
                               |Wanted(store.items, builder, userId, memoryType, category)|)
  {
    var limit := if k.Some? && k.value != 0 then k.value else maxResults;
    var namespaces := NamespacesToSearch(builder, userId, memoryType, category);
    ghost var found := [];
    documents := [];
    for n := 0 to |namespaces|
      invariant found == Retrieved(store, namespaces[..n], limit, memoryType)
      invariant documents == Map(query.Show, found)
    {
      var results := store.search(namespaces[n], limit, memoryType);
      assert namespaces[..n + 1][..n] == namespaces[..n];
      MapConcat(query.Show, found, results);
      documents := documents + Map(query.Show, results);
      found := found + results;
    }
    RetrievedCovers(store, builder, userId, memoryType, category, |namespaces|, limit);
    assert namespaces[..|namespaces|] == namespaces;
    SortedDocuments(MatchingAny(store.items, namespaces, memoryType), found, limit, query);
    documents := Sort(documents, query.Before);
    documents := documents[..Min(limit, |documents|)];
    RecalledInOrder(MatchingAny(store.items, namespaces, memoryType), found, limit, query, documents);
    WantedAreMatching(store.items, builder, userId, memoryType, category);
  }

  // ---------- The same, said of an entry's fields ----------

  /** The entry has the type asked for, and lies where the builder puts one of the categories to search. */
  ghost predicate IsWanted(i: Item, builder: NamespaceBuilder, userId: string, memoryType: Option<string>, category: Option<Category>) {
    && (memoryType.Some? ==> i.memoryType == memoryType.value)
    && exists c: Category ::
         && builder.NamespaceFor(userId, c) <= i.ns
         && (category.Some? ==> c == category.value)
         && (category.None? && memoryType.Some? ==> c == CategoryForType(memoryType.value))
  }

  ghost function Wanted(items: set<Item>, builder: NamespaceBuilder, userId: string, memoryType: Option<string>,
                        category: Option<Category>): set<Item> {
    set i | i in items && IsWanted(i, builder, userId, memoryType, category)
  }

  lemma WantedAreMatching(items: set<Item>, builder: NamespaceBuilder, userId: string, memoryType: Option<string>,
                          category: Option<Category>)
    ensures MatchingAny(items, NamespacesToSearch(builder, userId, memoryType, category), memoryType) ==
            Wanted(items, builder, userId, memoryType, category)
  {
    var namespaces := NamespacesToSearch(builder, userId, memoryType, category);
    forall i | i in items
      ensures (exists n | 0 <= n < |namespaces| :: Under(namespaces[n], i.ns)) <==>
              exists c: Category ::
                && builder.NamespaceFor(userId, c) <= i.ns
                && (category.Some? ==> c == category.value)
                && (category.None? && memoryType.Some? ==> c == CategoryForType(memoryType.value))
    {
      SearchedCategories(builder, userId, memoryType, category, i.ns);
    }
  }

  lemma SearchedCategories(builder: NamespaceBuilder, userId: string, memoryType: Option<string>, category: Option<Category>,
                           ns: Namespace)
    ensures var namespaces := NamespacesToSearch(builder, userId, memoryType, category);
      (exists n | 0 <= n < |namespaces| :: Under(namespaces[n], ns)) <==>
      exists c: Category ::
        && builder.NamespaceFor(userId, c) <= ns
        && (category.Some? ==> c == category.value)
        && (category.None? && memoryType.Some? ==> c == CategoryForType(memoryType.value))
  {
    var namespaces := NamespacesToSearch(builder, userId, memoryType, category);
    if category.Some? {
      assert namespaces[0] == builder.NamespaceFor(userId, category.value);
    } else if memoryType.Some? {
      assert namespaces[0] == builder.NamespaceFor(userId, CategoryForType(memoryType.value));
    } else {
      assert namespaces[0] == builder.NamespaceFor(userId, Semantic);
      assert namespaces[1] == builder.NamespaceFor(userId, Episodic);
      assert namespaces[2] == builder.NamespaceFor(userId, Procedural);
      forall c: Category | builder.NamespaceFor(userId, c) <= ns ensures exists n | 0 <= n < |namespaces| :: Under(namespaces[n], ns) {
        var n := if c.Semantic? then 0 else if c.Episodic? then 1 else 2;
        assert Under(namespaces[n], ns);
      }
    }
  }

  /** By time: newest first, undated last. By score: highest first, no score counting as zero. Scores only if asked for. */
  ghost predicate IsInOrder(query: Query, documents: seq<Document>) {
    && (forall d | d in documents :: d.score == if query.includeScores then d.entry.score else None)
    && (query.sortByTime ==> forall i, j | 0 <= i < j < |documents| && documents[j].entry.createdAt.Some? ::
          documents[i].entry.createdAt.Some? && documents[i].entry.createdAt.value >= documents[j].entry.createdAt.value)
    && (!query.sortByTime ==> forall i, j | 0 <= i < j < |documents| ::
          (if documents[i].score.Some? then documents[i].score.value else 0.0)
          >= if documents[j].score.Some? then documents[j].score.value else 0.0)
  }

  lemma RecalledInOrder(all: set<Item>, found: seq<Item>, limit: nat, query: Query, documents: seq<Document>)
    requires IsRecalled(all, found, limit, query, documents)
    ensures IsInOrder(query, documents)
  {
    var entries := Entries(documents);
    forall i, j | 0 <= i < j < |documents| && query.sortByTime ensures NewerFirst(documents[i].entry, documents[j].entry) {
      assert entries[i] == documents[i].entry && entries[j] == documents[j].entry;
    }
    forall i, j | 0 <= i < j < |documents| && !query.sortByTime
      ensures (if documents[i].score.Some? then documents[i].score.value else 0.0)
              >= if documents[j].score.Some? then documents[j].score.value else 0.0
    {
      assert documents[i] in documents && documents[j] in documents;
      if query.includeScores {
        assert RankedBefore(entries[i], entries[j]);
      }
    }
  }

  /** What the first `n` searches retrieve covers everything that matches in their namespaces. */
  lemma {:induction false} RetrievedCovers(store: Store, builder: NamespaceBuilder, userId: string, memoryType: Option<string>,
                                           category: Option<Category>, n: nat, limit: nat)
    requires RanksMatches(store) && n <= |NamespacesToSearch(builder, userId, memoryType, category)|
    ensures var namespaces := NamespacesToSearch(builder, userId, memoryType, category)[..n];
      Covers(MatchingAny(store.items, namespaces, memoryType), limit, Retrieved(store, namespaces, limit, memoryType))
  {
    if n > 0 {
      var m, namespaces := n - 1, NamespacesToSearch(builder, userId, memoryType, category);
      RetrievedCovers(store, builder, userId, memoryType, category, m, limit);
      forall i | i in MatchingAny(store.items, namespaces[..m], memoryType)
        ensures i !in Matching(store.items, namespaces[m], memoryType)
      {
        NotFoundAgain(builder, userId, memoryType, category, store.items, m, i);
      }
      MergeStep(store, namespaces, m, limit, memoryType, Retrieved(store, namespaces[..m], limit, memoryType));
      assert namespaces[..n][..m] == namespaces[..m];
    }
  }

  lemma NotFoundAgain(builder: NamespaceBuilder, userId: string, memoryType: Option<string>, category: Option<Category>,
                      items: set<Item>, n: nat, i: Item)
    requires var namespaces := NamespacesToSearch(builder, userId, memoryType, category);
      n < |namespaces| && i in MatchingAny(items, namespaces[..n], memoryType)
    ensures i !in Matching(items, NamespacesToSearch(builder, userId, memoryType, category)[n], memoryType)
  {
    var namespaces := NamespacesToSearch(builder, userId, memoryType, category);
    var m :| 0 <= m < n && Under(namespaces[..n][m], i.ns);
    if Under(namespaces[n], i.ns) {
      NamespacesAreDisjoint(builder, userId, memoryType, category, i.ns, m, n);
    }
  }

  lemma MergeStep(store: Store, namespaces: seq<Namespace>, n: nat, limit: nat, memoryType: Option<string>,
                  documents: seq<Item>)
    requires RanksMatches(store) && n < |namespaces|
    requires Covers(MatchingAny(store.items, namespaces[..n], memoryType), limit, documents)
    requires MatchingAny(store.items, namespaces[..n], memoryType) !! Matching(store.items, namespaces[n], memoryType)
    ensures Covers(MatchingAny(store.items, namespaces[..n + 1], memoryType), limit,
                   documents + store.search(namespaces[n], limit, memoryType))
  {
    var found, results := Matching(store.items, namespaces[n], memoryType), store.search(namespaces[n], limit, memoryType);
    TopKCovers(found, limit, results);
    CoversMerge(MatchingAny(store.items, namespaces[..n], memoryType), documents, found, results, limit);
    MatchingOneMore(store.items, namespaces, n, memoryType);
  }

  lemma MatchingOneMore(items: set<Item>, namespaces: seq<Namespace>, n: nat, memoryType: Option<string>)
    requires n < |namespaces|
    ensures MatchingAny(items, namespaces[..n + 1], memoryType) ==
            MatchingAny(items, namespaces[..n], memoryType) + Matching(items, namespaces[n], memoryType)
  {
    var more := namespaces[..n + 1];
    forall i | i in MatchingAny(items, namespaces[..n], memoryType) ensures i in MatchingAny(items, more, memoryType) {
      var m :| 0 <= m < n && Under(namespaces[..n][m], i.ns);
      assert Under(more[m], i.ns);
    }
    forall i | i in Matching(items, namespaces[n], memoryType) ensures i in MatchingAny(items, more, memoryType) {
      assert Under(more[n], i.ns);
    }
    forall i | i in MatchingAny(items, more, memoryType) && i !in Matching(items, namespaces[n], memoryType)
      ensures i in MatchingAny(items, namespaces[..n], memoryType)
    {
      var m :| 0 <= m <= n && Under(more[m], i.ns);
      assert Under(namespaces[..n][m], i.ns);
    }
  }
}
