/** Listing a user's memories: load everything, filter, sort newest first, cut out a page. */
module MemoryListing {
  import opened Basics
  import opened MemoryNamespaces
  import opened MemoryStore
  import opened StableSort
  import opened Text
  import opened Timestamps
  import opened Wrappers

  /** By the texts of the dates, latest text first; the empty text of an entry without a date comes last. */
  predicate NewerFirst(x: Entry, y: Entry) {
    LexLeq(y.createdAt, x.createdAt)
  }

  lemma NewerFirstIsPreorder()
    ensures TotalPreorder(NewerFirst)
  {
    forall x: Entry, y: Entry ensures NewerFirst(x, y) || NewerFirst(y, x) {
      LexLeqTotal(x.createdAt, y.createdAt);
    }
    forall x: Entry, y: Entry, z: Entry | NewerFirst(x, y) && NewerFirst(y, z) ensures NewerFirst(x, z) {
      LexLeqTransitive(z.createdAt, y.createdAt, x.createdAt);
    }
  }

  // ---------- Filtering ----------

  /** `memoryType` and `needle` are empty when not given; `needle` is stripped and in lower case. */
  datatype Criteria = Criteria(memoryType: string, needle: string, lower: string -> string) {
    predicate Accepts(e: Entry) {
      && (memoryType == "" || e.memoryType == memoryType)
      && (needle == "" || Contains(lower(e.content), needle) || Contains(lower(e.topic), needle))
    }
  }

  /** The whole result, of which a page is a slice. */
  function Selected(entries: seq<Entry>, prefix: Namespace, criteria: Criteria): seq<Entry> {
    Sort(Filter(Listing(entries, prefix), criteria.Accepts), NewerFirst)
  }

  /** It consists of the user's entries that pass the filters, as often as they are stored, newest first. */
  lemma SelectedIsSortedAndComplete(entries: seq<Entry>, prefix: Namespace, criteria: Criteria, e: Entry)
    ensures IsSorted(Selected(entries, prefix, criteria), NewerFirst)
    ensures multiset(Selected(entries, prefix, criteria))[e] ==
            if Under(prefix, e.ns) && criteria.Accepts(e) then multiset(entries)[e] else 0
  {
    NewerFirstIsPreorder();
    SortSorts(Filter(Listing(entries, prefix), criteria.Accepts), NewerFirst);
    FilterCount(Listing(entries, prefix), criteria.Accepts, e);
    ListingCount(entries, prefix, e);
  }

  /** The type is the one asked for, and the search text is in the content or the topic. */
  ghost predicate PassesFilters(e: Entry, criteria: Criteria) {
    && (criteria.memoryType != "" ==> e.memoryType == criteria.memoryType)
    && (criteria.needle != "" ==>
          || Contains(criteria.lower(e.content), criteria.needle)
          || Contains(criteria.lower(e.topic), criteria.needle))
  }

  /** The user's entries of the category that pass the filters, as often as they are stored, latest text first. */
  ghost predicate IsSelection(all: seq<Entry>, entries: seq<Entry>, userId: string, category: Option<Category>, criteria: Criteria) {
    && (forall i, j | 0 <= i < j < |all| :: LexLeq(all[j].createdAt, all[i].createdAt))
    && forall e ::
         multiset(all)[e] == if Belongs(e, userId, category) && PassesFilters(e, criteria) then multiset(entries)[e] else 0
  }

  lemma SelectedOnFields(entries: seq<Entry>, userId: string, category: Option<Category>, criteria: Criteria)
    ensures IsSelection(Selected(entries, UserPrefix(userId, category), criteria), entries, userId, category, criteria)
  {
    var prefix := UserPrefix(userId, category);
    var all := Selected(entries, prefix, criteria);
    forall e ensures multiset(all)[e] == if Belongs(e, userId, category) && PassesFilters(e, criteria) then multiset(entries)[e] else 0 {
      SelectedIsSortedAndComplete(entries, prefix, criteria, e);
      UnderUserPrefix(e, userId, category);
    }
    NewerFirstIsPreorder();
    SortSorts(Filter(Listing(entries, prefix), criteria.Accepts), NewerFirst);
    forall i, j | 0 <= i < j < |all| ensures LexLeq(all[j].createdAt, all[i].createdAt) {
      assert NewerFirst(all[i], all[j]);
    }
  }

  /** For UTC dates the order of the texts is the order of the instants. */
  lemma NewerFirstIsChronological(x: Entry, y: Entry, a: Instant, b: Instant)
    requires IsInstant(a) && IsInstant(b) && x.createdAt == IsoFormat(a)
    ensures y.createdAt == IsoFormat(b) ==> (NewerFirst(x, y) <==> EarlierOrSame(b, a))
    ensures y.createdAt == "" ==> NewerFirst(x, y) && !NewerFirst(y, x)
  {
    IsoFormatSorts(b, a);
    IsoFormatIsNotEmpty(a);
  }

  /** So entries with UTC dates are listed by time, newest first, before those without a date. */
  lemma SelectedIsChronological(entries: seq<Entry>, prefix: Namespace, criteria: Criteria, i: nat, j: nat, b: Instant)
    requires i < j < |Selected(entries, prefix, criteria)|
    requires IsInstant(b) && Selected(entries, prefix, criteria)[j].createdAt == IsoFormat(b)
    ensures var earlier := Selected(entries, prefix, criteria)[i];
      earlier.createdAt != "" && forall a | IsInstant(a) && earlier.createdAt == IsoFormat(a) :: EarlierOrSame(b, a)
  {
    var all := Selected(entries, prefix, criteria);
    SelectedIsSortedAndComplete(entries, prefix, criteria, all[i]);
    assert NewerFirst(all[i], all[j]);
    NewerFirstIsChronological(all[j], all[i], b, b);
    forall a | IsInstant(a) && all[i].createdAt == IsoFormat(a) ensures EarlierOrSame(b, a) {
      NewerFirstIsChronological(all[i], all[j], a, b);
    }
  }

  lemma {:induction false} ListingCount(entries: seq<Entry>, prefix: Namespace, e: Entry)
    ensures multiset(Listing(entries, prefix))[e] == if Under(prefix, e.ns) then multiset(entries)[e] else 0
  {
    if entries != [] {
      assert entries == [entries[0]] + entries[1..];
      ListingCount(entries[1..], prefix, e);
    }
  }

  // ---------- list_user_memories ----------

  method LoadAll(store: Store, prefix: Namespace) returns (raw: seq<Entry>)
    ensures raw == Listing(store.entries, prefix)
  {
    ghost var all := Listing(store.entries, prefix);
    raw := [];
    var offset := 0;
    while true
      invariant offset <= |all| && raw == all[..offset]
      decreases |all| - offset
    {
      var batch := store.Search(prefix, PURGE_BATCH_SIZE, offset);
      if batch == [] {
        break;
      }
      raw := raw + batch;
      if |batch| < PURGE_BATCH_SIZE {
        break;
      }
      offset := offset + PURGE_BATCH_SIZE;
    }
  }

  /** Dropping the offset, if there is one, and taking the limit, if there is one, is slicing. */
  lemma PageIsSlice<T>(all: seq<T>, offset: nat, limit: Option<nat>)
    ensures var rest := if offset != 0 then all[Min(offset, |all|)..] else all;
      (if limit.Some? then rest[..Min(limit.value, |rest|)] else rest)
      == Slice(all, offset, if limit.Some? then limit.value else |all|)
  {
  }

  method ListUserMemories(store: Store, userId: string, category: Option<Category>, criteria: Criteria,
                          limit: Option<nat>, offset: nat)
    returns (page: seq<Entry>, total: nat)
    ensures var all := Selected(store.entries, UserPrefix(userId, category), criteria);
      && total == |all| && page == Slice(all, offset, if limit.Some? then limit.value else |all|)
      && IsSelection(all, store.entries, userId, category, criteria)
  {
    SelectedOnFields(store.entries, userId, category, criteria);
    var raw := LoadAll(store, UserPrefix(userId, category));
    var items := Sort(Filter(raw, criteria.Accepts), NewerFirst);
    assert items == Selected(store.entries, UserPrefix(userId, category), criteria);
    hide *;
    PageIsSlice(items, offset, limit);
    total := |items|;
    page := items;
    if offset != 0 {
      page := page[Min(offset, |page|)..];
    }
    if limit.Some? {
      page := page[..Min(limit.value, |page|)];
    }
  }

  /** The pages at offsets 0, L, 2L, … up to the `n`-th, put together. */
  function Pages<T>(all: seq<T>, pageSize: nat, n: nat): seq<T> {
    if n == 0 then [] else Pages(all, pageSize, n - 1) + Slice(all, (n - 1) * pageSize, pageSize)
  }

  lemma {:induction false} PagesArePrefixes<T>(all: seq<T>, pageSize: nat, n: nat)
    ensures Pages(all, pageSize, n) == all[..Min(n * pageSize, |all|)]
  {
    if n > 0 {
      PagesArePrefixes(all, pageSize, n - 1);
      assert n * pageSize == (n - 1) * pageSize + pageSize;
    }
  }

  lemma EnoughPages(pageSize: nat, n: nat)
    requires pageSize >= 1
    ensures n * pageSize >= n
  {
  }

  /** Paging through the list shows every entry once and in order, whatever the page size. */
  lemma PagesAreComplete<T>(all: seq<T>, pageSize: nat, n: nat)
    requires pageSize >= 1 && n >= |all|
    ensures Pages(all, pageSize, n) == all
    ensures Slice(all, n * pageSize, pageSize) == []
  {
    PagesArePrefixes(all, pageSize, n);
    EnoughPages(pageSize, n);
  }
}
