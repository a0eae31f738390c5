/**
 * Compiling the subagents an agent declares. Agents refer to each other by name, possibly in cycles;
 * a set of visited names, copied on the way down, keeps the compilation finite.
 */
module SubagentCompiler {
  import opened Basics
  import opened Reachability

  /** `hasModel` says whether a model can be created for the agent. */
  datatype AgentConfig = AgentConfig(subagents: seq<string>, hasModel: bool)

  type Config = map<string, AgentConfig>

  /** A compiled subagent with the subagents compiled into it. */
  datatype Compiled = Compiled(name: string, children: seq<Compiled>)

  predicate Available(config: Config, name: string) {
    name in config && config[name].hasModel
  }

  /** What compiling `names` yields when the names in `visited` are skipped. */
  function Build(config: Config, names: seq<string>, visited: set<string>): seq<Compiled>
    decreases config.Keys - visited, names
  {
    if names == [] then []
    else
      var name, rest := names[0], names[1..];
      if name in visited then Build(config, rest, visited)
      else
        var seen := visited + {name};
        assert name !in config ==> config.Keys - seen == config.Keys - visited;
        if !Available(config, name) then Build(config, rest, seen)
        else [Compiled(name, Build(config, config[name].subagents, seen))] + Build(config, rest, seen)
  }

  /** `inherited` is the caller's copy of the names visited so far; it is empty for the root. */
  method BuildServerSubagents(config: Config, names: seq<string>, inherited: set<string>) returns (specs: seq<Compiled>)
    ensures specs == Build(config, names, inherited)
    decreases config.Keys - inherited
  {
    var visited := inherited;
    specs := [];
    for n := 0 to |names|
      invariant inherited <= visited
      invariant specs + Build(config, names[n..], visited) == Build(config, names, inherited)
    {
      var name := names[n];
      assert names[n..] == [name] + names[n + 1..];
      if name in visited {
        continue;
      }
      visited := visited + {name};
      if name !in config {
        continue;
      }
      if !config[name].hasModel {
        continue;
      }
      var children := BuildServerSubagents(config, config[name].subagents, visited);
      specs := specs + [Compiled(name, children)];
    }
  }

  /** A name is compiled where it stands if it was not visited, is configured and has a model; otherwise it is passed over. */
  lemma OneName(config: Config, name: string, visited: set<string>)
    ensures Build(config, [name], visited) ==
            if name !in visited && name in config && config[name].hasModel
            then [Compiled(name, Build(config, config[name].subagents, visited + {name}))] else []
  {
    assert [name][1..] == [];
  }

  // ---------- No name twice on a path or among siblings ----------

  /** All names in a forest, at any depth. */
  function NamesIn(forest: seq<Compiled>): set<string> {
    if forest == [] then {} else {forest[0].name} + NamesIn(forest[0].children) + NamesIn(forest[1..])
  }

  /** A name does not reappear under itself, nor among its later siblings or under them. */
  predicate WellNested(forest: seq<Compiled>) {
    forest == [] ||
    (&& forest[0].name !in NamesIn(forest[0].children)
     && forest[0].name !in NamesIn(forest[1..])
     && WellNested(forest[0].children)
     && WellNested(forest[1..]))
  }

  lemma ForestCons(tree: Compiled, rest: seq<Compiled>)
    ensures NamesIn([tree] + rest) == {tree.name} + NamesIn(tree.children) + NamesIn(rest)
    ensures WellNested([tree] + rest) <==>
            tree.name !in NamesIn(tree.children) && tree.name !in NamesIn(rest) && WellNested(tree.children) && WellNested(rest)
  {
    assert ([tree] + rest)[1..] == rest;
  }

  lemma {:induction false} CompiledNames(config: Config, names: seq<string>, visited: set<string>)
    ensures NamesIn(Build(config, names, visited)) !! visited
    ensures forall n | n in NamesIn(Build(config, names, visited)) :: Available(config, n)
    ensures WellNested(Build(config, names, visited))
    decreases config.Keys - visited, names
  {
    if names != [] {
      var name, rest, seen := names[0], names[1..], visited + {names[0]};
      if name in visited {
        CompiledNames(config, rest, visited);
      } else {
        assert name !in config ==> config.Keys - seen == config.Keys - visited;
        CompiledNames(config, rest, seen);
        if Available(config, name) {
          var children := Build(config, config[name].subagents, seen);
          CompiledNames(config, config[name].subagents, seen);
          ForestCons(Compiled(name, children), Build(config, rest, seen));
        }
      }
    }
  }

  /** From the root, whatever the reference graph. */
  lemma NoNameUnderItself(config: Config, names: seq<string>)
    ensures WellNested(Build(config, names, {}))
  {
    CompiledNames(config, names, {});
  }

  /** A path through the forest: the child indices to follow. */
  ghost predicate IsBranch(forest: seq<Compiled>, path: seq<string>) {
    path == [] || exists i | 0 <= i < |forest| :: forest[i].name == path[0] && IsBranch(forest[i].children, path[1..])
  }

  lemma {:induction false} BranchNames(forest: seq<Compiled>, path: seq<string>)
    requires IsBranch(forest, path)
    ensures forall n | n in path :: n in NamesIn(forest)
    decreases path
  {
    if path != [] {
      var i :| 0 <= i < |forest| && forest[i].name == path[0] && IsBranch(forest[i].children, path[1..]);
      BranchNames(forest[i].children, path[1..]);
      NamesOfTree(forest, i);
    }
  }

  lemma {:induction false} NamesOfTree(forest: seq<Compiled>, i: nat)
    requires i < |forest|
    ensures forest[i].name in NamesIn(forest) && NamesIn(forest[i].children) <= NamesIn(forest)
    ensures WellNested(forest) ==> WellNested(forest[i].children) && forest[i].name !in NamesIn(forest[i].children)
  {
    if i > 0 {
      NamesOfTree(forest[1..], i - 1);
    }
  }

  /** In particular, the names along every path are distinct. */
  lemma {:induction false} BranchesHaveDistinctNames(forest: seq<Compiled>, path: seq<string>)
    requires WellNested(forest) && IsBranch(forest, path)
    ensures forall i, j | 0 <= i < j < |path| :: path[i] != path[j]
    decreases path
  {
    if path != [] {
      var i :| 0 <= i < |forest| && forest[i].name == path[0] && IsBranch(forest[i].children, path[1..]);
      NamesOfTree(forest, i);
      BranchNames(forest[i].children, path[1..]);
      BranchesHaveDistinctNames(forest[i].children, path[1..]);
      assert forall j | 0 < j < |path| :: path[j] == path[1..][j - 1];
    }
  }

  // ---------- Nothing reachable is lost ----------

  /** References between agents that can be compiled. */
  ghost function References(config: Config): Graph<string> {
    map n | n in config && config[n].hasModel :: (set m | m in config[n].subagents && Available(config, m))
  }

  /** Every reference out of `compiled` leads to a name that is compiled too, or was before. */
  ghost predicate Complete(config: Config, compiled: set<string>, visited: set<string>) {
    forall n, m | n in compiled && HasEdge(References(config), n, m) :: m in compiled || m in visited
  }

  lemma {:induction false} CompiledIsComplete(config: Config, names: seq<string>, visited: set<string>)
    ensures Complete(config, NamesIn(Build(config, names, visited)), visited)
    ensures forall m | m in names && Available(config, m) :: m in NamesIn(Build(config, names, visited)) || m in visited
    decreases config.Keys - visited, names
  {
    if names != [] {
      var name, rest, seen := names[0], names[1..], visited + {names[0]};
      assert forall m :: m in names <==> m == name || m in rest;
      if name in visited {
        CompiledIsComplete(config, rest, visited);
      } else {
        assert name !in config ==> config.Keys - seen == config.Keys - visited;
        CompiledIsComplete(config, rest, seen);
        CompiledNames(config, rest, seen);
        if Available(config, name) {
          var children := Build(config, config[name].subagents, seen);
          CompiledIsComplete(config, config[name].subagents, seen);
          ForestCons(Compiled(name, children), Build(config, rest, seen));
        }
      }
    }
  }

  lemma {:induction false} CompiledIsReachable(config: Config, names: seq<string>, visited: set<string>, n: string)
    requires n in NamesIn(Build(config, names, visited))
    ensures exists m | m in names :: Available(config, m) && Reachable(References(config), m, n)
    decreases config.Keys - visited, names
  {
    var name, rest, seen := names[0], names[1..], visited + {names[0]};
    assert name !in config ==> config.Keys - seen == config.Keys - visited;
    if name in visited {
      CompiledIsReachable(config, rest, visited, n);
    } else if n in NamesIn(Build(config, rest, seen)) {
      CompiledIsReachable(config, rest, seen, n);
    } else {
      var children := Build(config, config[name].subagents, seen);
      ForestCons(Compiled(name, children), Build(config, rest, seen));
      if n == name {
        ReachableSelf(References(config), name);
      } else {
        CompiledIsReachable(config, config[name].subagents, seen, n);
        var m :| m in config[name].subagents && Available(config, m) && Reachable(References(config), m, n);
        ReachableThroughEdge(References(config), name, m, n);
      }
    }
  }

  /** The recursion guard skips nothing for good: exactly the agents reachable from the declared names are compiled. */
  lemma CompilesExactlyTheReachable(config: Config, names: seq<string>, n: string)
    ensures n in NamesIn(Build(config, names, {})) <==>
            exists m | m in names :: Available(config, m) && Reachable(References(config), m, n)
  {
    var compiled := NamesIn(Build(config, names, {}));
    CompiledIsComplete(config, names, {});
    if m :| m in names && Available(config, m) && Reachable(References(config), m, n) {
      ClosedContainsReachable(References(config), compiled, m, n);
    }
    if n in compiled {
      CompiledIsReachable(config, names, {}, n);
    }
  }

  // ---------- When nothing is skipped ----------

  /** `forest` is what `names` declare: each available name once, in order, with what it declares below it. */
  ghost predicate IsDeclared(config: Config, forest: seq<Compiled>, names: seq<string>)
    decreases forest, names
  {
    if names == [] then forest == []
    else if !Available(config, names[0]) then IsDeclared(config, forest, names[1..])
    else
      && forest != [] && forest[0].name == names[0]
      && IsDeclared(config, forest[0].children, config[names[0]].subagents)
      && IsDeclared(config, forest[1..], names[1..])
  }

  /** The list an agent declares; the root's list has no owner. */
  function DeclaredBy(config: Config, owner: string): seq<string> {
    if owner in config then config[owner].subagents else []
  }

  /** No name occurs twice in all the lists taken together. */
  ghost predicate ReferencedOnce(config: Config, root: seq<string>) {
    && NoDuplicates(root)
    && (forall a :: NoDuplicates(DeclaredBy(config, a)))
    && (forall a, n | n in DeclaredBy(config, a) :: n !in root)
    && (forall a, b, n | n in DeclaredBy(config, a) && n in DeclaredBy(config, b) :: a == b)
  }

  /** `n` is referenced by the root or by one of `owners`. */
  ghost predicate ReferencedBy(config: Config, root: seq<string>, owners: set<string>, n: string) {
    n in root || exists o | o in owners :: n in DeclaredBy(config, o)
  }

  lemma {:induction false} DeclaredLevel(config: Config, root: seq<string>, names: seq<string>,
                                         visited: set<string>, owners: set<string>)
    requires ReferencedOnce(config, root) && NoDuplicates(names) && owners <= visited
    requires forall n | n in names :: n !in visited && ReferencedBy(config, root, owners, n)
    requires forall n | n in visited :: ReferencedBy(config, root, owners, n)
    ensures IsDeclared(config, Build(config, names, visited), names)
    decreases config.Keys - visited, names
  {
    if names != [] {
      var name, rest, seen := names[0], names[1..], visited + {names[0]};
      assert name !in config ==> config.Keys - seen == config.Keys - visited;
      forall n | n in rest ensures n !in seen {
        var i :| 0 <= i < |rest| && rest[i] == n;
        assert names[i + 1] == n;
      }
      DeclaredLevel(config, root, rest, seen, owners);
      if Available(config, name) {
        var below := config[name].subagents;
        assert below == DeclaredBy(config, name);
        assert forall n | n in seen :: ReferencedBy(config, root, owners, n);
        DeclaredLevel(config, root, below, seen, owners + {name});
        var tree := Compiled(name, Build(config, below, seen));
        assert ([tree] + Build(config, rest, seen))[1..] == Build(config, rest, seen);
      }
    }
  }

  /** When every name is referenced at most once, the compiled forest is the declared one. */
  lemma CompilesWhatIsDeclared(config: Config, root: seq<string>)
    requires ReferencedOnce(config, root)
    ensures IsDeclared(config, Build(config, root, {}), root)
  {
    DeclaredLevel(config, root, root, {}, {});
  }

  /** Only available agents are declared, and a forest's names are those of its first tree and of the rest. */
  lemma {:induction false} DeclaredAreAvailable(config: Config, forest: seq<Compiled>, names: seq<string>, n: string)
    requires IsDeclared(config, forest, names) && n in NamesIn(forest)
    ensures Available(config, n)
    decreases forest, names
  {
    if names != [] {
      if !Available(config, names[0]) {
        DeclaredAreAvailable(config, forest, names[1..], n);
      } else if n in NamesIn(forest[0].children) {
        DeclaredAreAvailable(config, forest[0].children, config[names[0]].subagents, n);
      } else if n in NamesIn(forest[1..]) {
        DeclaredAreAvailable(config, forest[1..], names[1..], n);
      }
    }
  }

  /** A declared forest in which nothing would be skipped is the compiled one. */
  lemma {:induction false} DeclaredIsCompiled(config: Config, forest: seq<Compiled>, names: seq<string>, visited: set<string>)
    requires IsDeclared(config, forest, names) && WellNested(forest) && NamesIn(forest) !! visited
    ensures Build(config, names, visited) == forest
    decreases forest, names
  {
    if names != [] {
      var name, rest, seen := names[0], names[1..], visited + {names[0]};
      if !Available(config, name) {
        assert name !in NamesIn(forest) by {
          if name in NamesIn(forest) {
            DeclaredAreAvailable(config, forest, names, name);
          }
        }
        DeclaredIsCompiled(config, forest, rest, if name in visited then visited else seen);
      } else {
        assert forest == [forest[0]] + forest[1..];
        assert name in NamesIn(forest);
        DeclaredIsCompiled(config, forest[0].children, config[name].subagents, seen);
        DeclaredIsCompiled(config, forest[1..], rest, seen);
        assert Compiled(name, forest[0].children) == forest[0];
      }
    }
  }

  /**
   * The compiled forest is what the root declares if and only if what it declares can be written down
   * in full without a name under itself, among its later siblings or under them.
   */
  lemma CompilesWhatIsDeclaredIff(config: Config, root: seq<string>)
    ensures IsDeclared(config, Build(config, root, {}), root) <==> exists f :: IsDeclared(config, f, root) && WellNested(f)
  {
    if f :| IsDeclared(config, f, root) && WellNested(f) {
      DeclaredIsCompiled(config, f, root, {});
    }
    NoNameUnderItself(config, root);
  }

  /** An agent that declares an earlier sibling does not get it. */
  lemma EarlierSiblingIsSkipped()
    ensures var config := map["a" := AgentConfig([], true), "b" := AgentConfig(["a"], true)];
      !IsDeclared(config, Build(config, ["a", "b"], {}), ["a", "b"])
  {
    var config := map["a" := AgentConfig([], true), "b" := AgentConfig(["a"], true)];
    assert ["a", "b"][1..] == ["b"] && ["b"][1..] == [] && ["a"][1..] == [];
    assert Build(config, ["a"], {"a", "b"}) == [];
    assert {} + {"a"} == {"a"} && {"a"} + {"b"} == {"a", "b"};
    assert Build(config, ["b"], {"a"}) == [Compiled("b", [])] + Build(config, [], {"a", "b"});
    assert Build(config, ["a", "b"], {}) == [Compiled("a", [])] + [Compiled("b", [])];
    assert ([Compiled("a", [])] + [Compiled("b", [])])[1..] == [Compiled("b", [])];
    assert !IsDeclared(config, [], ["a"]);
  }
}
