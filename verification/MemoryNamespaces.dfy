/** Where a user's long-term memories live in the store. */
module MemoryNamespaces {
  type Namespace = seq<string>

  datatype Category = Semantic | Episodic | Procedural

  function CategoryValue(c: Category): string {
    match c
    case Semantic => "semantic"
    case Episodic => "episodic"
    case Procedural => "procedural"
  }

  const MEMORY_CATEGORIES := [Semantic, Episodic, Procedural]

  /** The canonical mapping of memory types; unknown types fall back to the semantic category. */
  function CategoryForType(memoryType: string): Category {
    if memoryType in {"context", "session_summary", "interaction"} then Episodic
    else if memoryType in {"instructions", "workflow", "skill"} then Procedural
    else Semantic
  }

  /** The store searches by namespace prefix. */
  predicate Under(prefix: Namespace, ns: Namespace) {
    prefix <= ns
  }

  /** `agentName` is empty when there is none; any other `scope` than the named ones means hybrid. */
  datatype NamespaceBuilder = NamespaceBuilder(agentName: string, scope: string) {

    function NamespaceFor(userId: string, category: Category): Namespace {
      if scope == "shared" then [userId, CategoryValue(category)]
      else if scope == "dedicated" then
        if agentName != "" then [userId, CategoryValue(category), agentName] else [userId, CategoryValue(category)]
      else if category.Semantic? then [userId, CategoryValue(category)]
      else if agentName != "" then [userId, CategoryValue(category), agentName]
      else [userId, CategoryValue(category)]
    }

    /** The builder keeps this category apart for its agent. */
    predicate Isolates(category: Category) {
      agentName != "" && scope != "shared" && (scope == "dedicated" || !category.Semantic?)
    }
  }

  lemma CategoryValuesDiffer(c1: Category, c2: Category)
    requires CategoryValue(c1) == CategoryValue(c2)
    ensures c1 == c2
  {
    assert CategoryValue(c1)[0] == CategoryValue(c2)[0];
  }

  /** Whatever the scopes and agents, no namespace is searched for two categories or for two users. */
  lemma SearchesAreDisjoint(b1: NamespaceBuilder, u1: string, c1: Category,
                            b2: NamespaceBuilder, u2: string, c2: Category, ns: Namespace)
    requires Under(b1.NamespaceFor(u1, c1), ns) && Under(b2.NamespaceFor(u2, c2), ns)
    ensures u1 == u2 && c1 == c2
  {
    var p1, p2 := b1.NamespaceFor(u1, c1), b2.NamespaceFor(u2, c2);
    assert p1[0] == ns[0] == p2[0] && p1[1] == ns[1] == p2[1];
    CategoryValuesDiffer(c1, c2);
  }

  /**
   * When a reader's search covers what a writer stores. Because the search is by prefix, a reader
   * that is not itself isolated also finds the entries that were stored for single agents.
   */
  lemma VisibleIff(writer: NamespaceBuilder, reader: NamespaceBuilder, userId: string, category: Category)
    ensures Under(reader.NamespaceFor(userId, category), writer.NamespaceFor(userId, category)) <==>
            !reader.Isolates(category) || (writer.Isolates(category) && writer.agentName == reader.agentName)
  {
    var w, r := writer.NamespaceFor(userId, category), reader.NamespaceFor(userId, category);
    if reader.Isolates(category) && r <= w {
      assert r[2] == w[2];
    }
  }

  /** What a dedicated assistant stores is found by a dedicated reader without an agent name. */
  lemma DedicatedMemoryIsSeenWithoutAgent(userId: string)
    ensures var writer, reader := NamespaceBuilder("a", "dedicated"), NamespaceBuilder("", "dedicated");
      && Under(reader.NamespaceFor(userId, Semantic), writer.NamespaceFor(userId, Semantic))
      && !Under(writer.NamespaceFor(userId, Semantic), reader.NamespaceFor(userId, Semantic))
  {
    VisibleIff(NamespaceBuilder("a", "dedicated"), NamespaceBuilder("", "dedicated"), userId, Semantic);
  }

  /** The layout of the store: user, category and, for a category kept apart, the agent. */
  lemma NamespacesWrittenOut(b: NamespaceBuilder, userId: string)
    ensures var agent := b.agentName != "";
      var own := [b.agentName];
      && b.NamespaceFor(userId, Semantic) == [userId, "semantic"] + (if agent && b.scope == "dedicated" then own else [])
      && b.NamespaceFor(userId, Episodic) == [userId, "episodic"] + (if agent && b.scope != "shared" then own else [])
      && b.NamespaceFor(userId, Procedural) == [userId, "procedural"] + (if agent && b.scope != "shared" then own else [])
  {
  }

  /** A builder keeps apart in dedicated scope every category, in hybrid scope all but the semantic one. */
  lemma ScopesIsolate(b: NamespaceBuilder, c: Category)
    ensures b.Isolates(c) <==> |b.NamespaceFor("u", c)| == 3
    ensures b.Isolates(c) ==> b.NamespaceFor("u", c)[2] == b.agentName != ""
  {
  }

  /** Every documented memory type has its category; any other is taken for semantic. */
  lemma TypesWrittenOut(memoryType: string)
    ensures CategoryForType(memoryType).Episodic? <==> memoryType in ["context", "session_summary", "interaction"]
    ensures CategoryForType(memoryType).Procedural? <==> memoryType in ["instructions", "workflow", "skill"]
  {
  }
}
