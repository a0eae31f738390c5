/** Grouping memories by age for the prompt: de-duplicated by content, in five buckets, newest first. */
module MemoryBuckets {
  import opened StableSort
  import opened Wrappers

  /** `createdAt` counts microseconds, in UTC. */
  datatype Memory = Memory(content: string, createdAt: Option<int>)

  const DAY := 86_400_000_000

  /** The date of a memory, as a day number. */
  function DateOf(m: Memory): Option<int> {
    if m.createdAt.Some? then Some(m.createdAt.value / DAY) else None
  }

  datatype Bucket = Today | Yesterday | Prev5BeforeYesterday | Prev90ExcludingAbove | Older

  function BucketFor(m: Memory, today: int): Bucket {
    var date := DateOf(m);
    if date == Some(today) then Today
    else if date == Some(today - 1) then Yesterday
    else if date.Some? && today - 6 <= date.value <= today - 2 then Prev5BeforeYesterday
    else if date.Some? && today - 96 <= date.value <= today - 7 then Prev90ExcludingAbove
    else Older
  }

  /** Newest first, undated memories last. */
  predicate NewerFirst(x: Memory, y: Memory) {
    if x.createdAt.Some? && y.createdAt.Some? then x.createdAt.value >= y.createdAt.value
    else x.createdAt.Some? || y.createdAt.None?
  }

  /** A bucket as seen on a given day. */
  datatype Slot = Slot(bucket: Bucket, today: int) {
    predicate Holds(m: Memory) {
      BucketFor(m, today) == bucket
    }
  }

  // ---------- De-duplication ----------

  function ContentsOf(memories: seq<Memory>): set<string> {
    set m | m in memories :: m.content
  }

  /** The memories whose content is not empty and does not occur earlier. */
  function FirstOccurrences(memories: seq<Memory>): seq<Memory> {
    if memories == [] then []
    else
      var init, last := memories[..|memories| - 1], memories[|memories| - 1];
      if last.content == "" || last.content in ContentsOf(init) then FirstOccurrences(init)
      else FirstOccurrences(init) + [last]
  }

  /** The memory at index `i` is the first one with its content. */
  predicate IsFirst(memories: seq<Memory>, i: nat)
    requires i < |memories|
  {
    memories[i].content != "" && memories[i].content !in ContentsOf(memories[..i])
  }

  lemma IsFirstInInit(memories: seq<Memory>, i: nat)
    requires i + 1 < |memories|
    ensures IsFirst(memories[..|memories| - 1], i) == IsFirst(memories, i)
  {
    assert memories[..|memories| - 1][..i] == memories[..i];
  }

  /** `m` stands first with its content, somewhere. */
  ghost predicate StandsFirst(memories: seq<Memory>, m: Memory) {
    exists i | 0 <= i < |memories| :: memories[i] == m && IsFirst(memories, i)
  }

  lemma StandsFirstOneMore(memories: seq<Memory>, m: Memory)
    requires memories != []
    ensures var n := |memories| - 1;
      StandsFirst(memories, m) <==> StandsFirst(memories[..n], m) || (memories[n] == m && IsFirst(memories, n))
  {
    var n := |memories| - 1;
    var init := memories[..n];
    if StandsFirst(memories, m) && !(memories[n] == m && IsFirst(memories, n)) {
      var i :| 0 <= i < |memories| && memories[i] == m && IsFirst(memories, i);
      IsFirstInInit(memories, i);
      assert init[i] == m && IsFirst(init, i);
    }
    if StandsFirst(init, m) {
      var i :| 0 <= i < n && init[i] == m && IsFirst(init, i);
      IsFirstInInit(memories, i);
      assert memories[i] == m && IsFirst(memories, i);
    }
  }

  /** Exactly the first memory with each non-empty content is kept. */
  lemma {:induction false} KeptIffFirst(memories: seq<Memory>, m: Memory)
    ensures m in FirstOccurrences(memories) <==> StandsFirst(memories, m)
  {
    if memories != [] {
      KeptIffFirst(memories[..|memories| - 1], m);
      StandsFirstOneMore(memories, m);
    }
  }

  /** So no content is kept twice. */
  lemma {:induction false} KeptContentsAreDistinct(memories: seq<Memory>)
    ensures var kept := FirstOccurrences(memories);
      forall i, j | 0 <= i < j < |kept| :: kept[i].content != kept[j].content
  {
    if memories != [] {
      var init := memories[..|memories| - 1];
      KeptContentsAreDistinct(init);
      var kept := FirstOccurrences(init);
      forall i | 0 <= i < |kept| ensures kept[i].content in ContentsOf(init) {
        KeptIffFirst(init, kept[i]);
        assert kept[i] in init;
      }
    }
  }

  // ---------- _bucket_memories_by_time ----------

  function BucketContents(memories: seq<Memory>, bucket: Bucket, today: int): seq<Memory> {
    Sort(Filter(FirstOccurrences(memories), Slot(bucket, today).Holds), NewerFirst)
  }

  method BucketMemoriesByTime(memories: seq<Memory>, today: int) returns (buckets: map<Bucket, seq<Memory>>)
    ensures forall b: Bucket :: b in buckets && buckets[b] == BucketContents(memories, b, today)
    ensures forall b: Bucket :: AreOfAge(memories, b, today, buckets[b])
  {
    buckets := map[Today := [], Yesterday := [], Prev5BeforeYesterday := [], Prev90ExcludingAbove := [], Older := []];
    forall b: Bucket ensures b in buckets && buckets[b] == [] {
      match b
      case Today => case Yesterday => case Prev5BeforeYesterday => case Prev90ExcludingAbove => case Older =>
    }
    var seenContents: set<string> := {};
    for n := 0 to |memories|
      invariant forall b: Bucket :: b in buckets
      invariant forall c :: c in seenContents <==> c != "" && c in ContentsOf(memories[..n])
      invariant forall b: Bucket :: buckets[b] == Filter(FirstOccurrences(memories[..n]), Slot(b, today).Holds)
    {
      var mem := memories[n];
      assert memories[..n + 1] == memories[..n] + [mem];
      OneMore(memories[..n], mem, today);
      if mem.content == "" || mem.content in seenContents {
        continue;
      }
      seenContents := seenContents + {mem.content};
      var bucket := BucketFor(mem, today);
      buckets := buckets[bucket := buckets[bucket] + [mem]];
    }
    assert memories[..|memories|] == memories;
    buckets := map b: Bucket | b in buckets :: Sort(buckets[b], NewerFirst);
    hide *;
    forall b: Bucket ensures AreOfAge(memories, b, today, BucketContents(memories, b, today)) {
      BucketsByAge(memories, b, today);
    }
  }

  lemma OneMore(memories: seq<Memory>, m: Memory, today: int)
    ensures ContentsOf(memories + [m]) == ContentsOf(memories) + {m.content}
    ensures forall b: Bucket ::
      Filter(FirstOccurrences(memories + [m]), Slot(b, today).Holds) ==
      Filter(FirstOccurrences(memories), Slot(b, today).Holds)
      + if m.content != "" && m.content !in ContentsOf(memories) && BucketFor(m, today) == b then [m] else []
  {
    assert (memories + [m])[..|memories|] == memories;
    forall b: Bucket ensures
      Filter(FirstOccurrences(memories) + [m], Slot(b, today).Holds) ==
      Filter(FirstOccurrences(memories), Slot(b, today).Holds) + if Slot(b, today).Holds(m) then [m] else []
    {
      FilterSnoc(FirstOccurrences(memories), m, Slot(b, today).Holds);
    }
  }

  lemma {:induction false} FilterSnoc(xs: seq<Memory>, x: Memory, keep: Memory -> bool)
    ensures Filter(xs + [x], keep) == Filter(xs, keep) + if keep(x) then [x] else []
  {
    if xs != [] {
      assert (xs + [x])[1..] == xs[1..] + [x];
      FilterSnoc(xs[1..], x, keep);
    } else {
      assert (xs + [x])[1..] == [];
    }
  }

  // ---------- What the buckets add up to ----------

  /** The buckets in the order in which the prompt shows them. */
  function Reading(memories: seq<Memory>, today: int): seq<Memory> {
    BucketContents(memories, Today, today)
    + (BucketContents(memories, Yesterday, today)
       + (BucketContents(memories, Prev5BeforeYesterday, today)
          + (BucketContents(memories, Prev90ExcludingAbove, today)
             + BucketContents(memories, Older, today))))
  }

  /** Together the buckets hold every kept memory exactly once. */
  lemma BucketsPartition(memories: seq<Memory>, today: int)
    ensures multiset(Reading(memories, today)) == multiset(FirstOccurrences(memories))
  {
    forall m ensures multiset(Reading(memories, today))[m] == multiset(FirstOccurrences(memories))[m] {
      ReadingCount(memories, today, m);
      CountInBucket(memories, Today, today, m);
      CountInBucket(memories, Yesterday, today, m);
      CountInBucket(memories, Prev5BeforeYesterday, today, m);
      CountInBucket(memories, Prev90ExcludingAbove, today, m);
      CountInBucket(memories, Older, today, m);
    }
  }

  lemma CountInBucket(memories: seq<Memory>, b: Bucket, today: int, m: Memory)
    ensures BucketCount(memories, b, today, m) ==
            if BucketFor(m, today) == b then multiset(FirstOccurrences(memories))[m] else 0
  {
    FilterCount(FirstOccurrences(memories), Slot(b, today).Holds, m);
  }

  /** And each is in the bucket for its date. */
  lemma BucketMembers(memories: seq<Memory>, b: Bucket, today: int, m: Memory)
    ensures m in BucketContents(memories, b, today) <==>
            m in FirstOccurrences(memories) && BucketFor(m, today) == b
  {
    InMultiset(BucketContents(memories, b, today), Filter(FirstOccurrences(memories), Slot(b, today).Holds), m);
    InFilter(FirstOccurrences(memories), Slot(b, today).Holds);
  }

  function BucketCount(memories: seq<Memory>, b: Bucket, today: int, m: Memory): nat {
    multiset(BucketContents(memories, b, today))[m]
  }

  lemma ReadingCount(memories: seq<Memory>, today: int, m: Memory)
    ensures multiset(Reading(memories, today))[m] ==
      BucketCount(memories, Today, today, m) + BucketCount(memories, Yesterday, today, m)
      + BucketCount(memories, Prev5BeforeYesterday, today, m) + BucketCount(memories, Prev90ExcludingAbove, today, m)
      + BucketCount(memories, Older, today, m)
  {
  }

  predicate InFuture(m: Memory, today: int) {
    DateOf(m).Some? && DateOf(m).value > today
  }

  ghost predicate NoneInFuture(memories: seq<Memory>, today: int) {
    forall m | m in memories :: !InFuture(m, today)
  }

  /** How far down a memory is shown. */
  function Position(b: Bucket): nat {
    match b
    case Today => 0
    case Yesterday => 1
    case Prev5BeforeYesterday => 2
    case Prev90ExcludingAbove => 3
    case Older => 4
  }

  /** Memories that are not dated in the future are shown above everything older that is in another bucket. */
  lemma LaterBucketsAreOlder(x: Memory, y: Memory, today: int)
    requires !InFuture(x, today) && !InFuture(y, today)
    requires Position(BucketFor(x, today)) < Position(BucketFor(y, today))
    ensures NewerFirst(x, y) && !NewerFirst(y, x)
  {
    if y.createdAt.Some? {
      assert x.createdAt.value / DAY > y.createdAt.value / DAY;
    }
  }

  /** The buckets from a position on. */
  datatype FromPosition = FromPosition(p: nat, today: int) {
    predicate Holds(m: Memory) {
      Position(BucketFor(m, today)) >= p
    }
  }

  lemma {:induction false} FilterTwice(xs: seq<Memory>, p: Memory -> bool, q: Memory -> bool, both: Memory -> bool)
    requires forall m :: both(m) <==> p(m) && q(m)
    ensures Filter(Filter(xs, p), q) == Filter(xs, both)
  {
    if xs != [] {
      FilterTwice(xs[1..], p, q, both);
      FilterCons(xs[0], Filter(xs[1..], p), q);
    }
  }

  lemma {:induction false} FilterAll(xs: seq<Memory>, keep: Memory -> bool)
    requires forall m | m in xs :: keep(m)
    ensures Filter(xs, keep) == xs
  {
    if xs != [] {
      FilterAll(xs[1..], keep);
    }
  }

  lemma {:induction false} FilterNone(xs: seq<Memory>, keep: Memory -> bool)
    requires forall m | m in xs :: !keep(m)
    ensures Filter(xs, keep) == []
  {
    if xs != [] {
      FilterNone(xs[1..], keep);
    }
  }

  /** The bucket at a position is the newest part of what is left from there on. */
  lemma SplitOff(kept: seq<Memory>, b: Bucket, today: int)
    requires NoneInFuture(kept, today)
    ensures Sort(Filter(kept, FromPosition(Position(b), today).Holds), NewerFirst) ==
            Sort(Filter(kept, Slot(b, today).Holds), NewerFirst)
            + Sort(Filter(kept, FromPosition(Position(b) + 1, today).Holds), NewerFirst)
  {
    hide Sort, Filter, BucketFor, NewerFirst;
    var from, next := FromPosition(Position(b), today).Holds, FromPosition(Position(b) + 1, today).Holds;
    var here := Slot(b, today).Holds;
    var xs := Filter(kept, from);
    InFilter(kept, from);
    forall x, y | x in xs && y in xs && here(x) && !here(y) ensures NewerFirst(x, y) && !NewerFirst(y, x) {
      LaterBucketsAreOlder(x, y, today);
    }
    SortByGroups(xs, here, NewerFirst);
    FilterTwice(kept, from, here, here);
    FilterTwice(kept, from, Not(here), next);
  }

  /** Without memories dated in the future, reading the buckets in order sorts all kept memories. */
  lemma ReadingSortsAll(memories: seq<Memory>, today: int)
    requires NoneInFuture(FirstOccurrences(memories), today)
    ensures Reading(memories, today) == Sort(FirstOccurrences(memories), NewerFirst)
  {
    hide Sort, Filter, FirstOccurrences, BucketFor;
    var kept := FirstOccurrences(memories);
    FilterAll(kept, FromPosition(0, today).Holds);
    SplitOff(kept, Today, today);
    SplitOff(kept, Yesterday, today);
    SplitOff(kept, Prev5BeforeYesterday, today);
    SplitOff(kept, Prev90ExcludingAbove, today);
    OnlyOlderLeft(kept, today);
  }

  lemma {:induction false} OnlyOlderLeft(kept: seq<Memory>, today: int)
    ensures Filter(kept, FromPosition(4, today).Holds) == Filter(kept, Slot(Older, today).Holds)
  {
    if kept != [] {
      OnlyOlderLeft(kept[1..], today);
    }
  }

  lemma NewerFirstIsPreorder()
    ensures TotalPreorder(NewerFirst)
  {
  }

  /**
   * A memory dated in the future lands in the last bucket. So the reading is newest first exactly if
   * there is none, or nothing is shown above it.
   */
  lemma ReadingIsNewestFirstIff(memories: seq<Memory>, today: int)
    ensures var kept := FirstOccurrences(memories);
      IsSorted(Reading(memories, today), NewerFirst) <==>
      NoneInFuture(kept, today) || forall m | m in kept :: BucketFor(m, today) == Older
  {
    var kept := FirstOccurrences(memories);
    NewerFirstIsPreorder();
    SortSorts(kept, NewerFirst);
    if NoneInFuture(kept, today) {
      ReadingSortsAll(memories, today);
    } else if forall m | m in kept :: BucketFor(m, today) == Older {
      OnlyOlder(memories, today);
    } else {
      var f :| f in kept && InFuture(f, today);
      var m :| m in kept && BucketFor(m, today) != Older;
      ShownAboveOlder(memories, today, m, f);
    }
  }

  lemma OnlyOlder(memories: seq<Memory>, today: int)
    requires forall m | m in FirstOccurrences(memories) :: BucketFor(m, today) == Older
    ensures Reading(memories, today) == Sort(FirstOccurrences(memories), NewerFirst)
  {
    var kept := FirstOccurrences(memories);
    FilterAll(kept, Slot(Older, today).Holds);
    forall b: Bucket | b != Older ensures Filter(kept, Slot(b, today).Holds) == [] {
      FilterNone(kept, Slot(b, today).Holds);
    }
  }

  lemma ShownAboveOlder(memories: seq<Memory>, today: int, m: Memory, f: Memory)
    requires m in FirstOccurrences(memories) && BucketFor(m, today) != Older
    requires f in FirstOccurrences(memories) && InFuture(f, today)
    ensures !IsSorted(Reading(memories, today), NewerFirst)
  {
    hide Sort, Filter, FirstOccurrences;
    var reading, older := Reading(memories, today), BucketContents(memories, Older, today);
    BucketMembers(memories, Older, today, f);
    BucketMembers(memories, BucketFor(m, today), today, m);
    var a, b := BucketContents(memories, Today, today), BucketContents(memories, Yesterday, today);
    var c, d := BucketContents(memories, Prev5BeforeYesterday, today), BucketContents(memories, Prev90ExcludingAbove, today);
    var above := a + (b + (c + d));
    assert reading == above + older;
    assert m in above by {
      match BucketFor(m, today)
      case Today => assert m in a;
      case Yesterday => assert m in b && m in b + (c + d);
      case Prev5BeforeYesterday => assert m in c && m in c + d && m in b + (c + d);
      case Prev90ExcludingAbove => assert m in d && m in c + d && m in b + (c + d);
    }
    var i :| 0 <= i < |above| && above[i] == m;
    var j :| 0 <= j < |older| && older[j] == f;
    assert reading[i] == m && reading[|above| + j] == f;
    assert m.createdAt.value / DAY < f.createdAt.value / DAY;
  }

  /** A memory from tomorrow is read after one from today. */
  lemma TomorrowIsReadLast(today: int)
    ensures var memories := [Memory("a", Some((today + 1) * DAY)), Memory("b", Some(today * DAY))];
      !IsSorted(Reading(memories, today), NewerFirst)
  {
    var f, m := Memory("a", Some((today + 1) * DAY)), Memory("b", Some(today * DAY));
    var memories := [f, m];
    assert memories[0] == f && IsFirst(memories, 0) && memories[1] == m && IsFirst(memories, 1);
    KeptIffFirst(memories, f);
    KeptIffFirst(memories, m);
    assert DateOf(f) == Some(today + 1) && DateOf(m) == Some(today);
    ShownAboveOlder(memories, today, m, f);
  }

  // ---------- The buckets, said of a memory's fields ----------

  /** The memory is the first one with its content, which is not empty. */
  ghost predicate IsKept(memories: seq<Memory>, m: Memory) {
    exists i | 0 <= i < |memories| ::
      memories[i] == m && m.content != "" && forall j | 0 <= j < i :: memories[j].content != m.content
  }

  /** The bucket's days, in microseconds back from the midnight that today began with. */
  predicate IsOfAge(b: Bucket, createdAt: Option<int>, today: int) {
    var day := 86_400_000_000;
    var back := if createdAt.Some? then today * day - createdAt.value else 0;
    match b
    case Today => createdAt.Some? && -day < back <= 0
    case Yesterday => createdAt.Some? && 0 < back <= day
    case Prev5BeforeYesterday => createdAt.Some? && day < back <= 6 * day
    case Prev90ExcludingAbove => createdAt.Some? && 6 * day < back <= 96 * day
    case Older => createdAt.None? || 96 * day < back || back <= -day
  }

  /** Exactly the kept memories of that age, newest first and undated ones last. */
  ghost predicate AreOfAge(memories: seq<Memory>, b: Bucket, today: int, contents: seq<Memory>) {
    && (forall m :: m in contents <==> IsKept(memories, m) && IsOfAge(b, m.createdAt, today))
    && forall i, j | 0 <= i < j < |contents| && contents[j].createdAt.Some? ::
         contents[i].createdAt.Some? && contents[i].createdAt.value >= contents[j].createdAt.value
  }

  lemma AgeOfBucket(m: Memory, b: Bucket, today: int)
    ensures BucketFor(m, today) == b <==> IsOfAge(b, m.createdAt, today)
  {
    if m.createdAt.Some? {
      DaysBack(m.createdAt.value, today);
    }
  }

  lemma DaysBack(t: int, today: int)
    ensures var day, date := 86_400_000_000, t / DAY; date * day <= t < (date + 1) * day
  {
  }

  lemma KeptOnFields(memories: seq<Memory>, m: Memory)
    ensures m in FirstOccurrences(memories) <==> IsKept(memories, m)
  {
    KeptIffFirst(memories, m);
    forall i | 0 <= i < |memories|
      ensures IsFirst(memories, i) <==> memories[i].content != "" && forall j | 0 <= j < i :: memories[j].content != memories[i].content
    {
      assert forall j | 0 <= j < i :: memories[..i][j] == memories[j];
    }
  }

  lemma BucketsByAge(memories: seq<Memory>, b: Bucket, today: int)
    ensures AreOfAge(memories, b, today, BucketContents(memories, b, today))
  {
    var contents := BucketContents(memories, b, today);
    forall m ensures m in contents <==> IsKept(memories, m) && IsOfAge(b, m.createdAt, today) {
      BucketMembers(memories, b, today, m);
      KeptOnFields(memories, m);
      AgeOfBucket(m, b, today);
    }
    NewerFirstIsPreorder();
    SortSorts(Filter(FirstOccurrences(memories), Slot(b, today).Holds), NewerFirst);
    forall i, j | 0 <= i < j < |contents| ensures NewerFirst(contents[i], contents[j]) {
    }
  }
}
