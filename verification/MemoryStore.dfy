/**
 * A store of long-term memories, as far as listing and deleting go, and the user-facing helpers that
 * count and purge a user's memories batch by batch.
 */
module MemoryStore {
  import opened Basics
  import opened MemoryNamespaces
  import opened Wrappers

  const PURGE_BATCH_SIZE := 100
  const MAX_PURGE_BATCHES := 1000

  /** `createdAt` is an ISO 8601 text, empty when unknown; `content` and `topic` are as they read decrypted. */
  datatype Entry = Entry(
    ns: Namespace,
    key: Option<string>,
    memoryType: string,
    content: string,
    topic: string,
    createdAt: string)

  /** `limit` elements from `offset` on, or as many as there are. */
  function Slice<T>(xs: seq<T>, offset: nat, limit: nat): seq<T> {
    xs[Min(offset, |xs|)..Min(offset + limit, |xs|)]
  }

  /** The entries under a namespace prefix, in the store's order. */
  function Listing(entries: seq<Entry>, prefix: Namespace): seq<Entry> {
    if entries == [] then []
    else if Under(prefix, entries[0].ns) then [entries[0]] + Listing(entries[1..], prefix)
    else Listing(entries[1..], prefix)
  }

  predicate HasKey(e: Entry, ns: Namespace, key: string) {
    e.ns == ns && e.key == Some(key)
  }

  function WithoutKey(entries: seq<Entry>, ns: Namespace, key: string): seq<Entry> {
    if entries == [] then []
    else if HasKey(entries[0], ns, key) then WithoutKey(entries[1..], ns, key)
    else [entries[0]] + WithoutKey(entries[1..], ns, key)
  }

  function Without(entries: seq<Entry>, gone: set<Entry>): seq<Entry> {
    if entries == [] then []
    else if entries[0] in gone then Without(entries[1..], gone)
    else [entries[0]] + Without(entries[1..], gone)
  }

  lemma {:induction false} InListing(entries: seq<Entry>, prefix: Namespace, e: Entry)
    ensures e in Listing(entries, prefix) <==> e in entries && Under(prefix, e.ns)
  {
    if entries != [] {
      InListing(entries[1..], prefix, e);
      assert e in entries <==> e == entries[0] || e in entries[1..];
    }
  }

  lemma {:induction false} InWithout(entries: seq<Entry>, gone: set<Entry>, e: Entry)
    ensures e in Without(entries, gone) <==> e in entries && e !in gone
  {
    if entries != [] {
      InWithout(entries[1..], gone, e);
      assert e in entries <==> e == entries[0] || e in entries[1..];
    }
  }

  lemma WithoutCons(head: Entry, tail: seq<Entry>, gone: set<Entry>)
    ensures Without([head] + tail, gone) ==
            if head in gone then Without(tail, gone) else [head] + Without(tail, gone)
  {
    assert ([head] + tail)[1..] == tail;
  }

  lemma ListingCons(head: Entry, tail: seq<Entry>, prefix: Namespace)
    ensures Listing([head] + tail, prefix) ==
            if Under(prefix, head.ns) then [head] + Listing(tail, prefix) else Listing(tail, prefix)
  {
    assert ([head] + tail)[1..] == tail;
  }

  /** A namespace and a key name at most one entry. */
  ghost predicate KeysDistinct(entries: seq<Entry>) {
    forall i, j | 0 <= i < j < |entries| && entries[i].key.Some? ::
      !(entries[i].ns == entries[j].ns && entries[i].key == entries[j].key)
  }

  lemma {:induction false} WithoutOne(entries: seq<Entry>, e: Entry)
    requires KeysDistinct(entries) && e.key.Some?
    requires forall x | x in entries && HasKey(x, e.ns, e.key.value) :: x == e
    ensures WithoutKey(entries, e.ns, e.key.value) == Without(entries, {e})
  {
    if entries != [] {
      WithoutOne(entries[1..], e);
    }
  }

  lemma SameKeySameEntry(entries: seq<Entry>, e: Entry)
    requires KeysDistinct(entries) && e in entries && e.key.Some?
    ensures forall x | x in entries && HasKey(x, e.ns, e.key.value) :: x == e
  {
  }

  lemma {:induction false} WithoutBoth(entries: seq<Entry>, a: set<Entry>, b: set<Entry>)
    ensures Without(Without(entries, a), b) == Without(entries, a + b)
  {
    if entries != [] {
      WithoutBoth(entries[1..], a, b);
      WithoutCons(entries[0], Without(entries[1..], a), b);
    }
  }

  lemma {:induction false} WithoutNone(entries: seq<Entry>)
    ensures Without(entries, {}) == entries
  {
    if entries != [] {
      WithoutNone(entries[1..]);
    }
  }

  lemma {:induction false} ListingWithout(entries: seq<Entry>, prefix: Namespace, gone: set<Entry>)
    ensures Listing(Without(entries, gone), prefix) == Without(Listing(entries, prefix), gone)
  {
    if entries != [] {
      var head, tail := entries[0], entries[1..];
      ListingWithout(tail, prefix, gone);
      ListingCons(head, Without(tail, gone), prefix);
      WithoutCons(head, Listing(tail, prefix), gone);
    }
  }

  /** Removing distinct keyed entries shortens a list by their number. */
  lemma {:induction false} WithoutSize(entries: seq<Entry>, gone: set<Entry>)
    requires KeysDistinct(entries)
    requires forall e | e in gone :: e in entries && e.key.Some?
    ensures |Without(entries, gone)| == |entries| - |gone|
  {
    if entries != [] {
      var head, tail := entries[0], entries[1..];
      if head in gone {
        assert head !in tail;
        WithoutSize(tail, gone - {head});
        WithoutAbsent(tail, gone, head);
      } else {
        WithoutSize(tail, gone);
      }
    }
  }

  lemma {:induction false} WithoutAbsent(entries: seq<Entry>, gone: set<Entry>, e: Entry)
    requires e !in entries
    ensures Without(entries, gone) == Without(entries, gone - {e})
  {
    if entries != [] {
      WithoutAbsent(entries[1..], gone, e);
    }
  }

  class Store {
    /** In listing order. */
    var entries: seq<Entry>
    /** How often `Delete` has been called, and at which calls it raises. */
    var deleteCalls: nat
    const deleteRaises: nat -> bool
    const supportsDelete: bool

    constructor (entries: seq<Entry>, supportsDelete: bool, deleteRaises: nat -> bool)
      ensures this.entries == entries && deleteCalls == 0
      ensures this.supportsDelete == supportsDelete && this.deleteRaises == deleteRaises
    {
      this.entries, deleteCalls := entries, 0;
      this.supportsDelete, this.deleteRaises := supportsDelete, deleteRaises;
    }

    method Search(prefix: Namespace, limit: nat, offset: nat) returns (items: seq<Entry>)
      ensures items == Slice(Listing(entries, prefix), offset, limit)
    {
      items := Slice(Listing(entries, prefix), offset, limit);
    }

    method Delete(ns: Namespace, key: string) returns (raised: bool)
      requires supportsDelete
      modifies this`entries, this`deleteCalls
      ensures raised == deleteRaises(old(deleteCalls)) && deleteCalls == old(deleteCalls) + 1
      ensures entries == if raised then old(entries) else WithoutKey(old(entries), ns, key)
    {
      raised := deleteRaises(deleteCalls);
      deleteCalls := deleteCalls + 1;
      if !raised {
        entries := WithoutKey(entries, ns, key);
      }
    }
  }

  // ---------- Whose entries ----------

  function UserPrefix(userId: string, category: Option<Category>): Namespace {
    if category.Some? then [userId, CategoryValue(category.value)] else [userId]
  }

  /** The entry is one of the user's, and in the category if one is given. */
  predicate Belongs(e: Entry, userId: string, category: Option<Category>) {
    && |e.ns| >= 1 && e.ns[0] == userId
    && (category.Some? ==> |e.ns| >= 2 && e.ns[1] == CategoryValue(category.value))
  }

  /** All these entries have a key to delete them by. */
  ghost predicate AllKeyed(entries: seq<Entry>, userId: string, category: Option<Category>) {
    forall e | e in entries && Belongs(e, userId, category) :: e.key.Some?
  }

  lemma UnderUserPrefix(e: Entry, userId: string, category: Option<Category>)
    ensures Under(UserPrefix(userId, category), e.ns) <==> Belongs(e, userId, category)
  {
  }

  // ---------- Counting ----------

  method CountCategory(store: Store, userId: string, category: Category) returns (count: nat)
    ensures count == |Listing(store.entries, [userId, CategoryValue(category)])|
  {
    var prefix := [userId, CategoryValue(category)];
    ghost var all := Listing(store.entries, prefix);
    count := 0;
    var offset := 0;
    while true
      invariant count == offset <= |all|
      decreases |all| - offset
    {
      var items := store.Search(prefix, PURGE_BATCH_SIZE, offset);
      count := count + |items|;
      if |items| < PURGE_BATCH_SIZE {
        break;
      }
      offset := offset + PURGE_BATCH_SIZE;
    }
  }

  method CountUserMemories(store: Store, userId: string) returns (counts: map<Category, nat>, total: nat)
    ensures forall c: Category :: c in counts && counts[c] == |Listing(store.entries, [userId, CategoryValue(c)])|
    ensures total == CategorizedCount(store.entries, userId)
  {
    counts, total := map[], 0;
    for n := 0 to |MEMORY_CATEGORIES|
      invariant forall m | 0 <= m < n :: MEMORY_CATEGORIES[m] in counts
      invariant forall c | c in counts :: counts[c] == |Listing(store.entries, [userId, CategoryValue(c)])|
    {
      var count := CountCategory(store, userId, MEMORY_CATEGORIES[n]);
      counts := counts[MEMORY_CATEGORIES[n] := count];
    }
    forall c: Category ensures c in counts {
      match c
      case Semantic => assert MEMORY_CATEGORIES[0] == c;
      case Episodic => assert MEMORY_CATEGORIES[1] == c;
      case Procedural => assert MEMORY_CATEGORIES[2] == c;
    }
    total := counts[Semantic] + counts[Episodic] + counts[Procedural];
    CategoriesAddUp(store.entries, userId);
  }

  predicate IsCategorized(e: Entry, userId: string) {
    |e.ns| >= 2 && e.ns[0] == userId && exists c | c in MEMORY_CATEGORIES :: e.ns[1] == CategoryValue(c)
  }

  /** The user's entries in one of the three categories, each counted once. */
  function CategorizedCount(entries: seq<Entry>, userId: string): nat {
    if entries == [] then 0
    else (if IsCategorized(entries[0], userId) then 1 else 0) + CategorizedCount(entries[1..], userId)
  }

  lemma {:induction false} CategoriesAddUp(entries: seq<Entry>, userId: string)
    ensures CategorizedCount(entries, userId) ==
            |Listing(entries, [userId, CategoryValue(Semantic)])|
            + |Listing(entries, [userId, CategoryValue(Episodic)])|
            + |Listing(entries, [userId, CategoryValue(Procedural)])|
  {
    if entries != [] {
      CategoriesAddUp(entries[1..], userId);
      OneCategoryAtMost(entries[0].ns, userId);
    }
  }

  lemma OneCategoryAtMost(ns: Namespace, userId: string)
    ensures forall c :: Under([userId, CategoryValue(c)], ns) <==>
                        |ns| >= 2 && ns[0] == userId && ns[1] == CategoryValue(c)
    ensures forall c, d :: CategoryValue(c) == CategoryValue(d) ==> c == d
  {
    forall c, d | CategoryValue(c) == CategoryValue(d) ensures c == d {
      CategoryValuesDiffer(c, d);
    }
  }

  /** The total is the size of the user's whole store exactly if nothing lies outside the three categories. */
  lemma {:induction false} TotalIsEverythingIff(entries: seq<Entry>, userId: string)
    ensures CategorizedCount(entries, userId) <= |Listing(entries, [userId])|
    ensures CategorizedCount(entries, userId) == |Listing(entries, [userId])| <==>
            forall e | e in entries && Under([userId], e.ns) :: IsCategorized(e, userId)
  {
    if entries != [] {
      TotalIsEverythingIff(entries[1..], userId);
      assert forall e :: e in entries <==> e == entries[0] || e in entries[1..];
      assert Under([userId], entries[0].ns) <==> |entries[0].ns| >= 1 && entries[0].ns[0] == userId;
    }
  }

  /** An entry in the old layout: the total is 0 although the user has an entry. */
  lemma LegacyEntryIsNotCounted(userId: string, e: Entry)
    requires e.ns == [userId, "memories"]
    ensures CategorizedCount([e], userId) == 0 && |Listing([e], [userId])| == 1
  {
    assert forall c | c in MEMORY_CATEGORIES :: CategoryValue(c)[0] != "memories"[0];
    assert [e][1..] == [] && Under([userId], e.ns);
  }

  // ---------- Purging ----------

  /** Each of `gone` is a keyed entry under the prefix: what a purge is meant to delete. */
  ghost predicate Purgeable(entries: seq<Entry>, prefix: Namespace, gone: set<Entry>) {
    forall e | e in gone :: e in entries && Under(prefix, e.ns) && e.key.Some?
  }

  /** From `before` to `now` exactly the entries `gone` have been deleted. */
  ghost predicate Purged(before: seq<Entry>, now: seq<Entry>, prefix: Namespace, gone: set<Entry>) {
    now == Without(before, gone) && Purgeable(before, prefix, gone)
  }

  lemma DistinctSubset(head: Entry, tail: seq<Entry>, subset: seq<Entry>)
    requires KeysDistinct([head] + tail) && KeysDistinct(subset)
    requires forall e | e in subset :: e in tail
    ensures KeysDistinct([head] + subset)
  {
    forall e | e in subset && head.key.Some? ensures !(head.ns == e.ns && head.key == e.key) {
      var j :| 0 <= j < |tail| && tail[j] == e;
      assert ([head] + tail)[0] == head && ([head] + tail)[j + 1] == e;
    }
  }

  lemma {:induction false} WithoutKeepsDistinct(entries: seq<Entry>, gone: set<Entry>)
    requires KeysDistinct(entries)
    ensures KeysDistinct(Without(entries, gone))
  {
    if entries != [] {
      var head, tail := entries[0], entries[1..];
      WithoutKeepsDistinct(tail, gone);
      forall e | e in Without(tail, gone) ensures e in tail { InWithout(tail, gone, e); }
      DistinctSubset(head, tail, Without(tail, gone));
    }
  }

  lemma {:induction false} ListingKeepsDistinct(entries: seq<Entry>, prefix: Namespace)
    requires KeysDistinct(entries)
    ensures KeysDistinct(Listing(entries, prefix))
  {
    if entries != [] {
      var head, tail := entries[0], entries[1..];
      ListingKeepsDistinct(tail, prefix);
      forall e | e in Listing(tail, prefix) ensures e in tail { InListing(tail, prefix, e); }
      DistinctSubset(head, tail, Listing(tail, prefix));
    }
  }

  /** The number of entries under the prefix drops by the number of deletions, whatever else fails. */
  lemma PurgedCount(before: seq<Entry>, now: seq<Entry>, prefix: Namespace, gone: set<Entry>)
    requires KeysDistinct(before) && Purged(before, now, prefix, gone)
    ensures |Listing(now, prefix)| == |Listing(before, prefix)| - |gone|
  {
    ListingWithout(before, prefix, gone);
    ListingKeepsDistinct(before, prefix);
    forall e | e in gone ensures e in Listing(before, prefix) { InListing(before, prefix, e); }
    WithoutSize(Listing(before, prefix), gone);
  }

  /** Entries under a prefix that does not overlap the purged one are untouched. */
  lemma PurgedElsewhere(before: seq<Entry>, now: seq<Entry>, prefix: Namespace, gone: set<Entry>, other: Namespace)
    requires Purged(before, now, prefix, gone)
    requires forall e | e in before :: !(Under(prefix, e.ns) && Under(other, e.ns))
    ensures Listing(now, other) == Listing(before, other)
  {
    ListingWithout(before, other, gone);
    forall e | e in Listing(before, other) ensures e !in gone { InListing(before, other, e); }
    WithoutIrrelevant(Listing(before, other), gone);
  }

  lemma {:induction false} WithoutIrrelevant(entries: seq<Entry>, gone: set<Entry>)
    requires forall e | e in entries :: e !in gone
    ensures Without(entries, gone) == entries
  {
    if entries != [] {
      WithoutIrrelevant(entries[1..], gone);
    }
  }

  /** Deleting one more of the entries that are still there. */
  lemma PurgeOneMore(before: seq<Entry>, now: seq<Entry>, prefix: Namespace, gone: set<Entry>, e: Entry)
    requires KeysDistinct(before) && Purged(before, now, prefix, gone)
    requires e in now && e.key.Some? && Under(prefix, e.ns)
    ensures e !in gone && |gone + {e}| == |gone| + 1
    ensures Purged(before, WithoutKey(now, e.ns, e.key.value), prefix, gone + {e})
  {
    WithoutKeepsDistinct(before, gone);
    SameKeySameEntry(now, e);
    WithoutOne(now, e);
    InWithout(before, gone, e);
    WithoutBoth(before, gone, {e});
  }

  /** The purge gave up on this store: it could not delete any of the first batch. */
  ghost predicate Stuck(store: Store, prefix: Namespace)
    reads store
  {
    exists firstCall: nat | firstCall <= store.deleteCalls :: StuckSince(store, prefix, firstCall)
  }

  /** Since `firstCall` there was one call for each keyed entry of the first batch, and all of them raised. */
  ghost predicate StuckSince(store: Store, prefix: Namespace, firstCall: nat)
    reads store
  {
    var batch := Slice(Listing(store.entries, prefix), 0, PURGE_BATCH_SIZE);
    && store.deleteCalls == firstCall + KeyedCount(batch)
    && AllRaise(store.deleteRaises, firstCall, store.deleteCalls)
  }

  ghost predicate AllRaise(raises: nat -> bool, from: nat, to: nat) {
    forall n | from <= n < to :: raises(n)
  }

  lemma AllRaiseOneMore(raises: nat -> bool, from: nat, to: nat)
    requires AllRaise(raises, from, to) && raises(to)
    ensures AllRaise(raises, from, to + 1)
  {
  }

  function KeyedCount(entries: seq<Entry>): nat {
    if entries == [] then 0 else (if entries[0].key.Some? then 1 else 0) + KeyedCount(entries[1..])
  }

  /** The entries that cannot be deleted, for want of a key. */
  function Keyless(entries: seq<Entry>): int {
    |entries| - KeyedCount(entries)
  }

  lemma {:induction false} KeylessStay(entries: seq<Entry>, gone: set<Entry>)
    requires forall e | e in gone :: e.key.Some?
    ensures Keyless(Without(entries, gone)) == Keyless(entries)
  {
    if entries != [] {
      KeylessStay(entries[1..], gone);
      assert ([entries[0]] + Without(entries[1..], gone))[1..] == Without(entries[1..], gone);
    }
  }

  lemma {:induction false} KeylessInSlice(entries: seq<Entry>, n: nat)
    requires n <= |entries|
    ensures 0 <= Keyless(entries[..n]) <= Keyless(entries) && KeyedCount(entries[..n]) <= KeyedCount(entries)
  {
    if n > 0 {
      assert entries[..n][1..] == entries[1..][..n - 1];
      KeylessInSlice(entries[1..], n - 1);
    } else if entries != [] {
      KeylessInSlice(entries[1..], 0);
    }
  }

  ghost predicate NoneRaises(raises: nat -> bool) {
    forall n :: !raises(n)
  }

  /** Each of the `rounds` deleted what a batch holds beside the keyless entries, unless nothing keyed is left. */
  ghost predicate InPace(before: seq<Entry>, prefix: Namespace, deleted: nat, rounds: nat) {
    var all := Listing(before, prefix);
    deleted == KeyedCount(all) || deleted >= rounds * (PURGE_BATCH_SIZE - Keyless(all))
  }

  /** One more round keeps pace if no delete raises and the keyless entries do not fill a batch. */
  lemma InPaceAfterRound(before: seq<Entry>, now: seq<Entry>, prefix: Namespace, gone: set<Entry>, rounds: nat, progress: nat)
    requires KeysDistinct(before) && Purged(before, now, prefix, gone)
    requires Keyless(Listing(before, prefix)) < PURGE_BATCH_SIZE
    requires progress == KeyedCount(Slice(Listing(now, prefix), 0, PURGE_BATCH_SIZE))
    requires InPace(before, prefix, |gone|, rounds)
    ensures InPace(before, prefix, |gone| + progress, rounds + 1)
    ensures progress == 0 ==> |gone| == KeyedCount(Listing(before, prefix))
  {
    var all, left := Listing(before, prefix), Listing(now, prefix);
    PurgedCount(before, now, prefix, gone);
    ListingWithout(before, prefix, gone);
    KeylessStay(all, gone);
    assert KeyedCount(left) == KeyedCount(all) - |gone|;
    var n := Min(PURGE_BATCH_SIZE, |left|);
    assert Slice(left, 0, PURGE_BATCH_SIZE) == left[..n];
    KeylessInSlice(left, n);
    if n == |left| {
      assert left[..n] == left;
    } else {
      var pace := PURGE_BATCH_SIZE - Keyless(all);
      assert progress >= pace > 0;
      assert (rounds + 1) * pace == rounds * pace + pace;
    }
  }

  /** A batch of what is left of entries that all have keys is keyed throughout. */
  lemma BatchIsKeyed(before: seq<Entry>, now: seq<Entry>, prefix: Namespace, gone: set<Entry>)
    requires Purged(before, now, prefix, gone)
    requires forall e | e in before && Under(prefix, e.ns) :: e.key.Some?
    ensures var items := Slice(Listing(now, prefix), 0, PURGE_BATCH_SIZE); KeyedCount(items) == |items|
  {
    var items := Slice(Listing(now, prefix), 0, PURGE_BATCH_SIZE);
    forall e | e in items ensures e.key.Some? {
      InListing(now, prefix, e);
      InWithout(before, gone, e);
    }
    KeyedThroughout(items);
  }

  /** Each of the `rounds` deleted a whole batch, as long as there was one. */
  ghost predicate AtFullPace(before: seq<Entry>, prefix: Namespace, deleted: nat, rounds: nat) {
    deleted == Min(|Listing(before, prefix)|, rounds * PURGE_BATCH_SIZE)
  }

  lemma AtFullPaceAfterRound(before: seq<Entry>, now: seq<Entry>, prefix: Namespace, gone: set<Entry>, rounds: nat, progress: nat)
    requires KeysDistinct(before) && Purged(before, now, prefix, gone)
    requires forall e | e in before && Under(prefix, e.ns) :: e.key.Some?
    requires progress == KeyedCount(Slice(Listing(now, prefix), 0, PURGE_BATCH_SIZE))
    requires AtFullPace(before, prefix, |gone|, rounds)
    ensures AtFullPace(before, prefix, |gone| + progress, rounds + 1)
    ensures progress == 0 ==> |gone| == |Listing(before, prefix)|
  {
    PurgedCount(before, now, prefix, gone);
    BatchIsKeyed(before, now, prefix, gone);
  }

  lemma {:induction false} KeyedThroughout(entries: seq<Entry>)
    requires forall e | e in entries :: e.key.Some?
    ensures KeyedCount(entries) == |entries|
  {
    if entries != [] {
      KeyedThroughout(entries[1..]);
    }
  }

  /**
   * How far `rounds` rounds get when no delete raises: with keys throughout, a whole batch each; with
   * keyless entries that do not fill a batch, at least the rest of a batch each, or all keyed entries.
   */
  ghost predicate Pace(raises: nat -> bool, before: seq<Entry>, prefix: Namespace, deleted: nat, rounds: nat) {
    NoneRaises(raises) ==>
      && ((forall e | e in before && Under(prefix, e.ns) :: e.key.Some?) ==> AtFullPace(before, prefix, deleted, rounds))
      && (Keyless(Listing(before, prefix)) < PURGE_BATCH_SIZE ==> InPace(before, prefix, deleted, rounds))
  }

  lemma PaceAtStart(raises: nat -> bool, before: seq<Entry>, prefix: Namespace)
    ensures Pace(raises, before, prefix, 0, 0)
  {
  }

  /** A round keeps pace, and one that deletes nothing is the last one needed. */
  lemma PaceAfterRound(raises: nat -> bool, before: seq<Entry>, now: seq<Entry>, prefix: Namespace,
                       gone: set<Entry>, rounds: nat, progress: nat)
    requires KeysDistinct(before) && Purged(before, now, prefix, gone)
    requires NoneRaises(raises) ==> progress == KeyedCount(Slice(Listing(now, prefix), 0, PURGE_BATCH_SIZE))
    requires Pace(raises, before, prefix, |gone|, rounds)
    ensures Pace(raises, before, prefix, |gone| + progress, rounds + 1)
    ensures progress == 0 ==> forall later | later > rounds :: Pace(raises, before, prefix, |gone|, later)
  {
    if NoneRaises(raises) {
      if forall e | e in before && Under(prefix, e.ns) :: e.key.Some? {
        AtFullPaceAfterRound(before, now, prefix, gone, rounds, progress);
      }
      if Keyless(Listing(before, prefix)) < PURGE_BATCH_SIZE {
        InPaceAfterRound(before, now, prefix, gone, rounds, progress);
      }
    }
  }

  /** Try to delete one listed entry. */
  method PurgeItem(store: Store, prefix: Namespace, item: Entry, ghost before: seq<Entry>, ghost gone: set<Entry>)
    returns (gained: bool, ghost nowGone: set<Entry>)
    requires store.supportsDelete && KeysDistinct(before)
    requires Purged(before, store.entries, prefix, gone)
    requires item in store.entries && Under(prefix, item.ns)
    modifies store`entries, store`deleteCalls
    ensures Purged(before, store.entries, prefix, nowGone) && |nowGone| == |gone| + if gained then 1 else 0
    ensures store.deleteCalls == old(store.deleteCalls) + if item.key.Some? then 1 else 0
    ensures gained <==> item.key.Some? && !store.deleteRaises(old(store.deleteCalls))
    ensures store.entries == if gained then WithoutKey(old(store.entries), item.ns, item.key.value) else old(store.entries)
  {
    gained, nowGone := false, gone;
    if item.key.None? {
      return;
    }
    PurgeOneMore(before, store.entries, prefix, gone, item);
    var raised := store.Delete(item.ns, item.key.value);
    if !raised {
      gained, nowGone := true, gone + {item};
    }
  }

  /** One round: try to delete the first batch of what is still listed. */
  method PurgeBatch(store: Store, prefix: Namespace, items: seq<Entry>, ghost before: seq<Entry>, ghost gone: set<Entry>)
    returns (deleted: nat, ghost nowGone: set<Entry>)
    requires store.supportsDelete && KeysDistinct(before)
    requires Purged(before, store.entries, prefix, gone)
    requires items == Slice(Listing(store.entries, prefix), 0, PURGE_BATCH_SIZE)
    modifies store`entries, store`deleteCalls
    ensures Purged(before, store.entries, prefix, nowGone) && |nowGone| == |gone| + deleted
    ensures deleted == 0 ==> StuckSince(store, prefix, old(store.deleteCalls))
    ensures NoneRaises(store.deleteRaises) ==> deleted == KeyedCount(items)
    ensures deleted <= |items|
  {
    deleted, nowGone := 0, gone;
    BatchIsThere(before, store.entries, prefix, gone);
    for i := 0 to |items|
      invariant Purged(before, store.entries, prefix, nowGone) && |nowGone| == |gone| + deleted
      invariant StillThere(store.entries, items[i..], prefix)
      invariant store.deleteCalls == old(store.deleteCalls) + KeyedCount(items[..i])
      invariant deleted == 0 ==> store.entries == old(store.entries)
      invariant deleted == 0 ==> AllRaise(store.deleteRaises, old(store.deleteCalls), store.deleteCalls)
      invariant NoneRaises(store.deleteRaises) ==> deleted == KeyedCount(items[..i])
      invariant deleted <= i
    {
      KeyedCountSnoc(items, i);
      StillThereNext(before, store.entries, prefix, nowGone, items, i);
      ghost var call := store.deleteCalls;
      var gained;
      gained, nowGone := PurgeItem(store, prefix, items[i], before, nowGone);
      if items[i].key.Some? && !gained && deleted == 0 {
        AllRaiseOneMore(store.deleteRaises, old(store.deleteCalls), call);
      }
      deleted := deleted + if gained then 1 else 0;
    }
    assert items[..|items|] == items;
  }

  /** The rest of a batch: entries that are still stored under the prefix, with distinct keys. */
  ghost predicate StillThere(entries: seq<Entry>, rest: seq<Entry>, prefix: Namespace) {
    KeysDistinct(rest) && forall e | e in rest :: e in entries && Under(prefix, e.ns)
  }

  lemma BatchIsThere(before: seq<Entry>, now: seq<Entry>, prefix: Namespace, gone: set<Entry>)
    requires KeysDistinct(before) && Purged(before, now, prefix, gone)
    ensures var items := Slice(Listing(now, prefix), 0, PURGE_BATCH_SIZE); StillThere(now, items[0..], prefix)
  {
    WithoutKeepsDistinct(before, gone);
    ListingKeepsDistinct(now, prefix);
    forall e | e in Listing(now, prefix) ensures e in now && Under(prefix, e.ns) { InListing(now, prefix, e); }
  }

  lemma StillThereNext(before: seq<Entry>, now: seq<Entry>, prefix: Namespace, gone: set<Entry>, items: seq<Entry>, i: nat)
    requires KeysDistinct(before) && Purged(before, now, prefix, gone)
    requires i < |items| && StillThere(now, items[i..], prefix)
    ensures var item := items[i];
      && item in now && item in before && Under(prefix, item.ns)
      && StillThere(now, items[i + 1..], prefix)
      && (item.key.Some? ==> StillThere(WithoutKey(now, item.ns, item.key.value), items[i + 1..], prefix))
  {
    var item, rest := items[i], items[i + 1..];
    assert items[i..] == [item] + rest;
    InWithout(before, gone, item);
    assert forall j | 0 <= j < |rest| :: items[i..][j + 1] == rest[j];
    if item.key.Some? {
      forall e | e in rest ensures e in WithoutKey(now, item.ns, item.key.value) {
        var j :| 0 <= j < |rest| && rest[j] == e;
        assert items[i..][0] == item && items[i..][j + 1] == e;
        InWithoutKey(now, item.ns, item.key.value, e);
      }
    }
  }

  lemma {:induction false} InWithoutKey(entries: seq<Entry>, ns: Namespace, key: string, e: Entry)
    ensures e in WithoutKey(entries, ns, key) <==> e in entries && !HasKey(e, ns, key)
  {
    if entries != [] {
      InWithoutKey(entries[1..], ns, key, e);
      assert e in entries <==> e == entries[0] || e in entries[1..];
    }
  }

  lemma {:induction false} KeyedCountSnoc(entries: seq<Entry>, n: nat)
    requires n < |entries|
    ensures KeyedCount(entries[..n + 1]) == KeyedCount(entries[..n]) + if entries[n].key.Some? then 1 else 0
  {
    if n > 0 {
      assert entries[..n + 1][1..] == entries[1..][..n] && entries[..n][1..] == entries[1..][..n - 1];
      KeyedCountSnoc(entries[1..], n - 1);
    }
  }

  /**
   * Delete a user's memories, of one category or of all. `deleted` is the exact drop in the number of
   * entries under the prefix; nothing else changes; and entries remain only if the store supports no
   * deletion, if 1000 batches were not enough, or if a whole batch could not be deleted.
   */
  method PurgeUserMemories(store: Store, userId: string, category: Option<Category>)
    returns (deleted: nat, ghost gone: set<Entry>)
    requires KeysDistinct(store.entries)
    modifies store`entries, store`deleteCalls
    ensures var prefix := UserPrefix(userId, category);
      && Purged(old(store.entries), store.entries, prefix, gone) && |gone| == deleted
      && deleted == |Listing(old(store.entries), prefix)| - |Listing(store.entries, prefix)|
      && (!store.supportsDelete ==> deleted == 0)
      && (store.supportsDelete && Listing(store.entries, prefix) != [] ==>
            deleted >= MAX_PURGE_BATCHES || Stuck(store, prefix))
      && (store.supportsDelete ==>
            Pace(store.deleteRaises, old(store.entries), prefix, deleted, MAX_PURGE_BATCHES))
    ensures deleted <= 100_000
    ensures forall e :: e in store.entries <==> e in old(store.entries) && e !in gone
    ensures forall e | e in gone :: e in old(store.entries) && Belongs(e, userId, category) && e.key.Some?
    ensures category.Some? ==> forall c: Category | c != category.value ::
              Listing(store.entries, [userId, CategoryValue(c)]) == Listing(old(store.entries), [userId, CategoryValue(c)])
    ensures store.supportsDelete && NoneRaises(store.deleteRaises)
            && AllKeyed(old(store.entries), userId, category) && |old(store.entries)| <= 100_000 ==>
              forall e | e in store.entries :: !Belongs(e, userId, category)
  {
    var prefix := UserPrefix(userId, category);
    ghost var before := store.entries;
    deleted, gone := 0, {};
    WithoutNone(before);
    if store.supportsDelete {
      deleted, gone := PurgeRounds(store, prefix, MAX_PURGE_BATCHES);
    }
    PurgedCount(before, store.entries, prefix, gone);
    PurgedOnFields(before, store.entries, userId, category, gone);
    if store.supportsDelete {
      AllPurged(store.deleteRaises, before, store.entries, userId, category, gone);
    }
  }

  /** What a purge of a user's prefix means for single entries and for the other categories. */
  lemma PurgedOnFields(before: seq<Entry>, now: seq<Entry>, userId: string, category: Option<Category>, gone: set<Entry>)
    requires Purged(before, now, UserPrefix(userId, category), gone)
    ensures forall e :: e in now <==> e in before && e !in gone
    ensures forall e | e in gone :: e in before && Belongs(e, userId, category) && e.key.Some?
    ensures category.Some? ==> forall c: Category | c != category.value ::
              Listing(now, [userId, CategoryValue(c)]) == Listing(before, [userId, CategoryValue(c)])
  {
    forall e ensures e in now <==> e in before && e !in gone { InWithout(before, gone, e); }
    forall e | e in gone ensures Belongs(e, userId, category) { UnderUserPrefix(e, userId, category); }
    if category.Some? {
      forall c: Category | c != category.value
        ensures Listing(now, [userId, CategoryValue(c)]) == Listing(before, [userId, CategoryValue(c)])
      {
        OtherCategory(before, now, userId, category.value, c, gone);
      }
    }
  }

  lemma OtherCategory(before: seq<Entry>, now: seq<Entry>, userId: string, category: Category, other: Category, gone: set<Entry>)
    requires Purged(before, now, [userId, CategoryValue(category)], gone) && other != category
    ensures Listing(now, [userId, CategoryValue(other)]) == Listing(before, [userId, CategoryValue(other)])
  {
    if CategoryValue(category) == CategoryValue(other) {
      CategoryValuesDiffer(category, other);
    }
    forall e | e in before && Under([userId, CategoryValue(category)], e.ns)
      ensures !Under([userId, CategoryValue(other)], e.ns)
    {
      UnderUserPrefix(e, userId, Some(category));
      UnderUserPrefix(e, userId, Some(other));
    }
    PurgedElsewhere(before, now, [userId, CategoryValue(category)], gone, [userId, CategoryValue(other)]);
  }

  /** If all the user's entries have keys, none of their deletes raises and there are no more than 100,000, all go. */
  lemma AllPurged(raises: nat -> bool, before: seq<Entry>, now: seq<Entry>, userId: string, category: Option<Category>,
                  gone: set<Entry>)
    requires KeysDistinct(before) && Purged(before, now, UserPrefix(userId, category), gone)
    requires Pace(raises, before, UserPrefix(userId, category), |gone|, MAX_PURGE_BATCHES)
    ensures NoneRaises(raises) && AllKeyed(before, userId, category) && |before| <= 100_000 ==>
              forall e | e in now :: !Belongs(e, userId, category)
  {
    var prefix := UserPrefix(userId, category);
    if NoneRaises(raises) && AllKeyed(before, userId, category) && |before| <= 100_000 {
      forall e | e in before && Under(prefix, e.ns) ensures e.key.Some? { UnderUserPrefix(e, userId, category); }
      ListingIsShorter(before, prefix);
      PurgedCount(before, now, prefix, gone);
      forall e | e in now ensures !Belongs(e, userId, category) {
        InListing(now, prefix, e);
        UnderUserPrefix(e, userId, category);
      }
    }
  }

  lemma {:induction false} ListingIsShorter(entries: seq<Entry>, prefix: Namespace)
    ensures |Listing(entries, prefix)| <= |entries|
  {
    if entries != [] {
      ListingIsShorter(entries[1..], prefix);
    }
  }

  /** Up to `rounds` rounds, until one of them makes no progress. */
  method PurgeRounds(store: Store, prefix: Namespace, rounds: nat) returns (deleted: nat, ghost gone: set<Entry>)
    requires store.supportsDelete && KeysDistinct(store.entries)
    modifies store`entries, store`deleteCalls
    ensures Purged(old(store.entries), store.entries, prefix, gone) && |gone| == deleted <= rounds * PURGE_BATCH_SIZE
    ensures Pace(store.deleteRaises, old(store.entries), prefix, deleted, rounds)
    ensures deleted >= rounds || Listing(store.entries, prefix) == [] || Stuck(store, prefix)
  {
    ghost var before := store.entries;
    deleted, gone := 0, {};
    WithoutNone(before);
    PaceAtStart(store.deleteRaises, before, prefix);
    for round := 0 to rounds
      invariant Purged(before, store.entries, prefix, gone) && |gone| == deleted
      invariant round <= deleted <= round * PURGE_BATCH_SIZE
      invariant Pace(store.deleteRaises, before, prefix, deleted, round)
    {
      var progress;
      progress, gone := PurgeRound(store, prefix, before, gone, round);
      deleted := deleted + progress;
      if progress == 0 {
        return;
      }
    }
  }

  /** One round: list a batch, and purge it unless it is empty. */
  method PurgeRound(store: Store, prefix: Namespace, ghost before: seq<Entry>, ghost gone: set<Entry>, ghost round: nat)
    returns (progress: nat, ghost nowGone: set<Entry>)
    requires store.supportsDelete && KeysDistinct(before)
    requires Purged(before, store.entries, prefix, gone)
    requires Pace(store.deleteRaises, before, prefix, |gone|, round)
    modifies store`entries, store`deleteCalls
    ensures Purged(before, store.entries, prefix, nowGone) && |nowGone| == |gone| + progress && progress <= PURGE_BATCH_SIZE
    ensures Pace(store.deleteRaises, before, prefix, |nowGone|, round + 1)
    ensures progress == 0 ==> forall later | later > round :: Pace(store.deleteRaises, before, prefix, |nowGone|, later)
    ensures progress == 0 ==> Listing(store.entries, prefix) == [] || Stuck(store, prefix)
  {
    var items := store.Search(prefix, PURGE_BATCH_SIZE, 0);
    if items == [] {
      PaceAfterRound(store.deleteRaises, before, store.entries, prefix, gone, round, 0);
      return 0, gone;
    }
    ghost var listed, firstCall := store.entries, store.deleteCalls;
    progress, nowGone := PurgeBatch(store, prefix, items, before, gone);
    PaceAfterRound(store.deleteRaises, before, listed, prefix, gone, round, progress);
    if progress == 0 {
      assert StuckSince(store, prefix, firstCall);
    }
  }
}
