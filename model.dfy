/** The analysis engine's model object: it reads the context tree, the
    feature tree and the activation mapping, computes the connected pairs
    and generates the mutants with their questions. */
module Model {
  import opened Strings
  import opened Errors
  import opened Nodes
  import opened Tree
  import opened Depth
  import opened Mapping
  import opened Pairs
  import opened Mutation

  /** n zeros: the depth every node is built with. */
  function Zeros(n: nat): (r: seq<int>)
    ensures |r| == n && forall k :: 0 <= k < n ==> r[k] == 0
  {
    seq(n, k => 0)
  }

  /** The connections a node starts with: the context root is connected to
      the feature root and the other way round; other nodes to nothing. */
  ghost predicate StartsLinked(n: CFMNode)
    reads n
  {
    n.connectedPairs == (if n.name == ContextRoot then [FeatureRoot]
                         else if n.name == FeatureRoot then [ContextRoot] else [])
  }

  /** No node occurs twice in ns. */
  ghost predicate Distinct(ns: seq<CFMNode>)
  {
    forall i, j :: 0 <= i < j < |ns| ==> ns[i] != ns[j]
  }

  /** In a distinct sequence only position i holds the i-th node. */
  lemma DistinctAt(ns: seq<CFMNode>, i: nat)
    requires Distinct(ns) && i < |ns|
    ensures forall k :: 0 <= k < |ns| && k != i ==> ns[k] != ns[i]
  {
  }

  /** One more element at the end of a prefix. */
  lemma TakeSnoc<T>(s: seq<T>, i: nat)
    requires i < |s|
    ensures s[..i + 1] == s[..i] + [s[i]]
  {
  }

  /** A node new to a distinct sequence keeps it distinct. */
  lemma DistinctSnoc(ns: seq<CFMNode>, n: CFMNode)
    requires Distinct(ns) && n !in ns
    ensures Distinct(ns + [n])
  {
  }

  /** Two distinct sequences with no node in common make a distinct one. */
  lemma DistinctConcat(a: seq<CFMNode>, b: seq<CFMNode>)
    requires Distinct(a) && Distinct(b)
    requires forall n :: n in b ==> n !in a
    ensures Distinct(a + b)
  {
    forall i, j | 0 <= i < j < |a + b| ensures (a + b)[i] != (a + b)[j] {
      if j < |a| {
        assert (a + b)[i] == a[i] && (a + b)[j] == a[j];
      } else if i < |a| {
        assert (a + b)[j] == b[j - |a|] && (a + b)[i] == a[i] && b[j - |a|] in b;
      } else {
        assert (a + b)[i] == b[i - |a|] && (a + b)[j] == b[j - |a|];
      }
    }
  }

  /** The nodes ns are at depth 0, as built. */
  ghost predicate AllNew(ns: seq<CFMNode>)
    reads ns
  {
    forall n :: n in ns ==> n.depth == 0
  }

  lemma AllNewAppend(a: seq<CFMNode>, b: seq<CFMNode>)
    requires AllNew(a) && AllNew(b)
    ensures AllNew(a + b)
  {
  }

  // ---- connected pairs: the loop nest, one method per level ----

  /** `for fea in cfmfeatures: if childFeature == fea.name: add(...)` */
  method CollectWithFeature(e: Env, C: CFMNode, ff: string) returns (s: set<Pair>)
    ensures s == Union(e.features, WithFeatureNamed(C, ff))
  {
    s := {};
    var k := 0;
    while k < |e.features|
      invariant 0 <= k <= |e.features|
      invariant s == Union(e.features[..k], WithFeatureNamed(C, ff))
    {
      var fea := e.features[k];
      if ff == fea.name {
        s := s + {Record(C, fea)};
      }
      assert e.features[..k + 1][..k] == e.features[..k];
      k := k + 1;
    }
    assert e.features[..k] == e.features;
  }

  /** `for con in cfmcontexts: if childContext == con.name: add(...)` */
  method CollectWithContext(e: Env, cc: string, F: CFMNode) returns (s: set<Pair>)
    ensures s == Union(e.contexts, WithContextNamed(cc, F))
  {
    s := {};
    var k := 0;
    while k < |e.contexts|
      invariant 0 <= k <= |e.contexts|
      invariant s == Union(e.contexts[..k], WithContextNamed(cc, F))
    {
      var con := e.contexts[k];
      if cc == con.name {
        s := s + {Record(con, F)};
      }
      assert e.contexts[..k + 1][..k] == e.contexts[..k];
      k := k + 1;
    }
    assert e.contexts[..k] == e.contexts;
  }

  /** `for fea in cfmfeatures: for con in cfmcontexts: if both names match: add(...)` */
  method CollectBoth(e: Env, cc: string, ff: string) returns (s: set<Pair>)
    ensures s == Union(e.features, BothNamed(e, cc, ff))
  {
    s := {};
    var k := 0;
    while k < |e.features|
      invariant 0 <= k <= |e.features|
      invariant s == Union(e.features[..k], BothNamed(e, cc, ff))
    {
      var fea := e.features[k];
      var inner: set<Pair> := {};
      var m := 0;
      while m < |e.contexts|
        invariant 0 <= m <= |e.contexts|
        invariant inner == Union(e.contexts[..m], NamedPair(cc, ff, fea))
      {
        var con := e.contexts[m];
        if ff == fea.name && cc == con.name {
          inner := inner + {Record(con, fea)};
        }
        assert e.contexts[..m + 1][..m] == e.contexts[..m];
        m := m + 1;
      }
      assert e.contexts[..m] == e.contexts;
      s := s + inner;
      assert e.features[..k + 1][..k] == e.features[..k];
      k := k + 1;
    }
    assert e.features[..k] == e.features;
  }

  /** The body of the innermost loop, for context C, feature F and the
      children cc of C and ff of F. */
  method ApplyRules(e: Env, C: CFMNode, F: CFMNode, cc: string, ff: string) returns (s: set<Pair>)
    ensures s == Step(e, C, F, cc, ff)
  {
    s := {};
    if cc !in e.flatContext || ff !in e.flatFeature {
      return;
    }
    if ff in e.flatContext[cc] || cc in e.flatFeature[ff] {
      if C.name !in e.flatContext && F.name !in e.flatFeature {
        if C.name != ContextRoot && F.name != FeatureRoot {
          s := s + {Record(C, F)};
        }
      }
      if C.name !in e.flatContext && F.name in e.flatFeature {
        var t := CollectWithFeature(e, C, ff);
        s := s + t;
      }
      if C.parent == ContextRoot && C.constraint != Alternative && C.constraint != Or {
        if F.parent == FeatureRoot {
          var t := CollectBoth(e, cc, ff);
          s := s + t;
        } else {
          var t := CollectWithContext(e, cc, F);
          s := s + t;
        }
      } else if F.name == FeatureRoot && F.constraint != Alternative && F.constraint != Or {
        var t := CollectWithFeature(e, C, ff);
        s := s + t;
      }
    }
  }

  /** The two loops over the children of C and of F. */
  method CollectChildren(e: Env, C: CFMNode, F: CFMNode) returns (s: set<Pair>)
    ensures s == Union(C.children, OverContextChildren(e, C, F))
  {
    s := {};
    var a := 0;
    while a < |C.children|
      invariant 0 <= a <= |C.children|
      invariant s == Union(C.children[..a], OverContextChildren(e, C, F))
    {
      var cc := C.children[a];
      var inner: set<Pair> := {};
      var b := 0;
      while b < |F.children|
        invariant 0 <= b <= |F.children|
        invariant inner == Union(F.children[..b], OverFeatureChildren(e, C, F, cc))
      {
        var t := ApplyRules(e, C, F, cc, F.children[b]);
        inner := inner + t;
        assert F.children[..b + 1][..b] == F.children[..b];
        b := b + 1;
      }
      assert F.children[..b] == F.children;
      s := s + inner;
      assert C.children[..a + 1][..a] == C.children[..a];
      a := a + 1;
    }
    assert C.children[..a] == C.children;
  }

  /** The two outer loops, over every context and every feature. */
  method CollectPairs(e: Env) returns (s: set<Pair>)
    ensures s == ConnectedPairs(e)
  {
    s := {};
    ghost var overContexts := OverContexts(e);
    var i := 0;
    while i < |e.contexts|
      invariant 0 <= i <= |e.contexts|
      invariant s == Union(e.contexts[..i], overContexts)
    {
      var context := e.contexts[i];
      ghost var overFeatures := OverFeatures(e, context);
      var inner: set<Pair> := {};
      var j := 0;
      while j < |e.features|
        invariant 0 <= j <= |e.features|
        invariant inner == Union(e.features[..j], overFeatures)
      {
        var t := CollectChildren(e, context, e.features[j]);
        UnionSnoc(e.features, j, overFeatures);
        inner := inner + t;
        j := j + 1;
      }
      assert e.features[..j] == e.features;
      UnionSnoc(e.contexts, i, overContexts);
      s := s + inner;
      i := i + 1;
    }
    assert e.contexts[..i] == e.contexts;
  }

  /** The loop of `generateMutants`: the mutations of each pair in turn,
      every mutant beside its question. */
  method MutateAll(ps: seq<Pair>) returns (ms: seq<Mutation>)
    ensures ms == AllMutations(ps)
  {
    ms := [];
    var i := 0;
    while i < |ps|
      invariant 0 <= i <= |ps|
      invariant ms == AllMutations(ps[..i])
    {
      AllMutationsStep(ps, i);
      ms := ms + Mutations(ps[i]);
      i := i + 1;
    }
    assert ps[..i] == ps;
  }

  /** The list of a set's elements, each once, in some order. */
  method ListOf(s: set<Pair>) returns (xs: seq<Pair>)
    ensures forall p :: p in xs <==> p in s
    ensures forall a, b :: 0 <= a < b < |xs| ==> xs[a] != xs[b]
  {
    xs := [];
    var rest := s;
    while rest != {}
      invariant rest <= s
      invariant forall p :: p in xs <==> p in s && p !in rest
      invariant forall a, b :: 0 <= a < b < |xs| ==> xs[a] != xs[b]
      decreases |rest|
    {
      var p :| p in rest;
      xs := xs + [p];
      rest := rest - {p};
    }
  }

  /** The parts of the model the tree files build. */
  datatype Shape = Shape(nodes: set<string>, contexts: set<string>, features: set<string>,
                         cfmnodes: seq<CFMNode>, cfmcontexts: seq<CFMNode>, cfmfeatures: seq<CFMNode>)

  /** The shape s after the names `names` and the nodes `made` of one side
      were added to it. */
  function Extend(s: Shape, side: Side, names: set<string>, made: seq<CFMNode>): (r: Shape)
    ensures r.cfmnodes == s.cfmnodes + made
  {
    if side == Contexts then
      s.(nodes := s.nodes + names, contexts := s.contexts + names,
         cfmnodes := s.cfmnodes + made, cfmcontexts := s.cfmcontexts + made)
    else
      s.(nodes := s.nodes + names, features := s.features + names,
         cfmnodes := s.cfmnodes + made, cfmfeatures := s.cfmfeatures + made)
  }

  lemma ExtendTwice(s: Shape, side: Side, n1: set<string>, m1: seq<CFMNode>, n2: set<string>, m2: seq<CFMNode>)
    ensures Extend(Extend(s, side, n1, m1), side, n2, m2) == Extend(s, side, n1 + n2, m1 + m2)
  {
    assert s.cfmnodes + m1 + m2 == s.cfmnodes + (m1 + m2);
    if side == Contexts {
      assert s.cfmcontexts + m1 + m2 == s.cfmcontexts + (m1 + m2);
    } else {
      assert s.cfmfeatures + m1 + m2 == s.cfmfeatures + (m1 + m2);
    }
  }

  /** The parent node of a valid row followed by its stubs are the row's nodes. */
  lemma RowMade(row: seq<string>, side: Side, node: CFMNode, more: seq<CFMNode>)
    requires RowError(row) == None
    requires Info(node) == NodeInfo(row[0], KindName(side), RootName(side), row[1], Split(row[2], '-'))
    requires Infos(more) == Stubs(Split(row[2], '-'), side, row[0], row[1])
    ensures Infos([node] + more) == RowNodes(row, side)
  {
    InfosAppend([node], more);
    assert Infos([node]) == [Info(node)];
  }

  /** The names a valid row records: its own and its children's. */
  lemma RowNames(row: seq<string>, side: Side)
    requires RowError(row) == None
    ensures NameSet(RowNodes(row, side)) == {row[0]} + NameSet(Stubs(Split(row[2], '-'), side, row[0], row[1]))
  {
    var head := [NodeInfo(row[0], KindName(side), RootName(side), row[1], Split(row[2], '-'))];
    NameSetAppend(head, Stubs(Split(row[2], '-'), side, row[0], row[1]));
    assert NameSet(head) == {row[0]};
  }

  /** Appending one more stub to the stubs built so far. */
  lemma StubStep(s: Shape, side: Side, made: seq<CFMNode>, child: CFMNode)
    ensures Extend(Extend(s, side, NameSet(Infos(made)), made), side, {child.name}, [child])
         == Extend(s, side, NameSet(Infos(made + [child])), made + [child])
    ensures Infos(made + [child]) == Infos(made) + [Info(child)]
  {
    ExtendTwice(s, side, NameSet(Infos(made)), made, {child.name}, [child]);
    InfosAppend(made, [child]);
    NameSetAppend(Infos(made), [Info(child)]);
    assert NameSet([Info(child)]) == {child.name};
  }

  /** Appending one more row's nodes to what the earlier rows appended. */
  lemma FileStep(s: Shape, side: Side, ns: seq<NodeInfo>, made: seq<CFMNode>, row: seq<NodeInfo>, more: seq<CFMNode>)
    ensures Extend(Extend(s, side, NameSet(ns), made), side, NameSet(row), more)
         == Extend(s, side, NameSet(ns + row), made + more)
    ensures Infos(made + more) == Infos(made) + Infos(more)
  {
    ExtendTwice(s, side, NameSet(ns), made, NameSet(row), more);
    NameSetAppend(ns, row);
    InfosAppend(made, more);
  }

  /** Appending fresh nodes at depth 0 leaves the old depths as they were. */
  twostate lemma DepthsGrow(m: CFMModel, new made: seq<CFMNode>)
    requires m.cfmnodes == old(m.cfmnodes) + made
    requires unchanged(old(m.cfmnodes))
    requires AllNew(made)
    ensures m.Depths() == old(m.Depths()) + Zeros(|made|)
  {
    ghost var before := old(m.cfmnodes);
    forall k | 0 <= k < |m.cfmnodes|
      ensures m.cfmnodes[k].depth == (old(m.Depths()) + Zeros(|made|))[k]
    {
      if k < |before| {
        assert m.cfmnodes[k] == before[k];
      } else {
        assert m.cfmnodes[k] == made[k - |before|];
      }
    }
  }

  class CFMModel {
    /** Every node name, of both trees. */
    var nodes: set<string>
    var contexts: set<string>
    var features: set<string>
    /** Every node built, in order: the context nodes, then the feature nodes. */
    var cfmnodes: seq<CFMNode>
    var cfmcontexts: seq<CFMNode>
    var cfmfeatures: seq<CFMNode>
    /** Context token to the feature tokens of its last mapping line, and back. */
    var dictContext: Dict
    var dictFeature: Dict
    /** The flattened dictionaries the connected pairs were computed from. */
    ghost var flatContext: Dict
    ghost var flatFeature: Dict
    var connectedPairs: seq<Pair>
    var questions: seq<Question>
    var mutants: seq<Pair>

    /** Nodes are distinct objects, and there is one question per mutant. */
    ghost predicate Valid()
      reads this
    {
      Distinct(cfmnodes) && |mutants| == |questions|
    }

    function Names(): seq<string>
      reads this
    {
      NamesOf(Infos(cfmnodes))
    }

    function Parents(): seq<string>
      reads this
    {
      ParentsOf(Infos(cfmnodes))
    }

    function Kids(): seq<seq<string>>
      reads this
    {
      KidsOf(Infos(cfmnodes))
    }

    function Depths(): (r: seq<int>)
      reads this, cfmnodes
      ensures |r| == |cfmnodes|
    {
      var ns := cfmnodes;
      seq(|ns|, k reads ns requires 0 <= k < |ns| => ns[k].depth)
    }

    ghost function Built(): Shape
      reads this
    {
      Shape(nodes, contexts, features, cfmnodes, cfmcontexts, cfmfeatures)
    }

    /** The state `__init__` starts from: everything empty. */
    constructor ()
      ensures Valid()
      ensures nodes == {} && contexts == {} && features == {}
      ensures cfmnodes == [] && cfmcontexts == [] && cfmfeatures == []
      ensures dictContext == map[] && dictFeature == map[]
      ensures connectedPairs == [] && mutants == [] && questions == []
    {
      nodes := {};
      contexts := {};
      features := {};
      cfmnodes := [];
      cfmcontexts := [];
      cfmfeatures := [];
      dictContext := map[];
      dictFeature := map[];
      flatContext := map[];
      flatFeature := map[];
      connectedPairs := [];
      questions := [];
      mutants := [];
    }

    // ---- the two trees ----

    /** `addToSet`: the name joins its side's set and the set of all names. */
    method AddToSet(toBeAdded: string, side: Side)
      modifies this`nodes, this`contexts, this`features
      ensures nodes == old(nodes) + {toBeAdded}
      ensures contexts == old(contexts) + (if side == Contexts then {toBeAdded} else {})
      ensures features == old(features) + (if side == Features then {toBeAdded} else {})
    {
      if side == Contexts {
        contexts := contexts + {toBeAdded};
      }
      if side == Features {
        features := features + {toBeAdded};
      }
      nodes := nodes + {toBeAdded};
    }

    /** `addNode`: the node joins its side's list and the list of all nodes. */
    method AddNode(toBeAdded: CFMNode, side: Side)
      modifies this`cfmnodes, this`cfmcontexts, this`cfmfeatures
      ensures cfmnodes == old(cfmnodes) + [toBeAdded]
      ensures cfmcontexts == old(cfmcontexts) + (if side == Contexts then [toBeAdded] else [])
      ensures cfmfeatures == old(cfmfeatures) + (if side == Features then [toBeAdded] else [])
    {
      if side == Contexts {
        cfmcontexts := cfmcontexts + [toBeAdded];
      }
      if side == Features {
        cfmfeatures := cfmfeatures + [toBeAdded];
      }
      cfmnodes := cfmnodes + [toBeAdded];
    }

    /** The stub of one child: its name is recorded and a childless node
        is built under the row's parent and recorded. */
    method AddStub(name: string, parent: string, constraint: string, side: Side) returns (child: CFMNode)
      modifies this`nodes, this`contexts, this`features, this`cfmnodes, this`cfmcontexts, this`cfmfeatures
      ensures Built() == Extend(old(Built()), side, {name}, [child])
      ensures Info(child) == NodeInfo(name, KindName(side), parent, constraint, [])
      ensures fresh(child) && child.depth == 0 && StartsLinked(child)
    {
      AddToSet(name, side);
      child := new CFMNode(name := name, kind := KindName(side), parent := parent,
                           constraint := constraint);
      AddNode(child, side);
    }

    /** The stubs of all the children of one line, in order. */
    method AddStubs(kids: seq<string>, parent: string, constraint: string, side: Side) returns (ghost made: seq<CFMNode>)
      modifies this`nodes, this`contexts, this`features, this`cfmnodes, this`cfmcontexts, this`cfmfeatures
      ensures Built() == Extend(old(Built()), side, NameSet(Infos(made)), made)
      ensures Infos(made) == Stubs(kids, side, parent, constraint) && AllNew(made)
      ensures fresh(made) && Distinct(made)
    {
      ghost var stubs := Stubs(kids, side, parent, constraint);
      made := [];
      assert NameSet([]) == {};
      var c := 0;
      while c < |kids|
        invariant 0 <= c <= |kids|
        invariant Built() == Extend(old(Built()), side, NameSet(Infos(made)), made)
        invariant Infos(made) == stubs[..c] && AllNew(made)
        invariant fresh(made) && Distinct(made)
      {
        var child := AddStub(kids[c], parent, constraint, side);
        DistinctSnoc(made, child);
        assert AllNew(made) && AllNew([child]);
        AllNewAppend(made, [child]);
        StubStep(old(Built()), side, made, child);
        TakeSnoc(stubs, c);
        StubsAt(kids, side, parent, constraint);
        made := made + [child];
        c := c + 1;
      }
      assert stubs[..c] == stubs;
    }

    /** The nodes of a valid line whose name is already recorded: the parent
        node, then a stub per child. */
    method BuildRow(row: seq<string>, side: Side) returns (ghost made: seq<CFMNode>)
      requires RowError(row) == None
      modifies this`nodes, this`contexts, this`features, this`cfmnodes, this`cfmcontexts, this`cfmfeatures
      ensures Built() == Extend(old(Built()), side, NameSet(Stubs(Split(row[2], '-'), side, row[0], row[1])), made)
      ensures Infos(made) == RowNodes(row, side) && AllNew(made)
      ensures fresh(made) && Distinct(made)
    {
      var kids := Split(row[2], '-');
      var node := new CFMNode(name := row[0], kind := KindName(side), parent := RootName(side),
                              constraint := row[1], children := kids);
      AddNode(node, side);
      ghost var stubs := Stubs(kids, side, row[0], row[1]);
      assert Built() == Extend(old(Built()), side, {}, [node]);
      ghost var more := AddStubs(kids, row[0], row[1], side);
      ExtendTwice(old(Built()), side, {}, [node], NameSet(stubs), more);
      RowMade(row, side, node, more);
      DistinctConcat([node], more);
      made := [node] + more;
      assert forall n :: n in made ==> n == node || n in more;
    }

    /** One line of a tree file: checked as `RowError` says, then the parent
        node and a stub per child are built and recorded. A line that fails
        ends the run (the state it leaves is not specified). */
    method ProcessRow(row: seq<string>, side: Side) returns (outcome: Outcome, ghost made: seq<CFMNode>)
      modifies this`nodes, this`contexts, this`features, this`cfmnodes, this`cfmcontexts, this`cfmfeatures
      ensures outcome == (if RowError(row).Some? then Fail(RowError(row).value) else Done)
      ensures RowError(row) == None ==>
        Built() == Extend(old(Built()), side, NameSet(RowNodes(row, side)), made)
        && Infos(made) == RowNodes(row, side) && AllNew(made)
        && fresh(made) && Distinct(made)
    {
      made := [];
      if |row| < 2 {
        return Fail(MissingColumn(row)), made;
      }
      if Lower(row[1]) !in Relationships {
        return Fail(BadRelationship(row)), made;
      }
      AddToSet(row[0], side);
      if |row| < 3 {
        return Fail(MissingColumn(row)), made;
      }
      assert RowError(row) == None;
      assert Built() == Extend(old(Built()), side, {row[0]}, []);
      ghost var stubs := Stubs(Split(row[2], '-'), side, row[0], row[1]);
      made := BuildRow(row, side);
      ExtendTwice(old(Built()), side, {row[0]}, [], NameSet(stubs), made);
      RowNames(row, side);
      return Done, made;
    }

    /** The first node named `name`, as the generator search of
        `set_node_depth` finds it; None when no node has that name. */
    method FindNode(name: string) returns (r: Option<nat>)
      ensures r == FirstNamed(Names(), name)
    {
      var k := 0;
      while k < |cfmnodes|
        invariant 0 <= k <= |cfmnodes|
        invariant forall m :: 0 <= m < k ==> Names()[m] != name
      {
        if cfmnodes[k].name == name {
          assert Names()[k] == name;
          return Some(k);
        }
        k := k + 1;
      }
      assert name !in Names();
      return None;
    }

    /** The single assignment of `set_node_depth`: only the depth of the
        `i`-th node changes. */
    method SetDepth(node: CFMNode, depth: int, ghost i: nat)
      requires Distinct(cfmnodes) && i < |cfmnodes| && cfmnodes[i] == node
      modifies node`depth
      ensures Depths() == old(Depths())[i := depth]
    {
      DistinctAt(cfmnodes, i);
      node.depth := depth;
    }

    /** `set_node_depth`: the i-th node gets depth `depth`, then each child
        name that resolves to a node is walked from `depth + 1`. `fuel` is
        the number of nested calls the interpreter still allows; false when
        they run out. */
    method SetNodeDepth(node: CFMNode, depth: int, ghost i: nat, fuel: nat) returns (ok: bool)
      requires Valid() && i < |cfmnodes| && cfmnodes[i] == node
      modifies cfmnodes`depth
      ensures var w := Walk(Names(), Kids(), old(Depths()), i, depth, fuel);
              (ok <==> w.Some?) && (ok ==> Depths() == w.value)
      decreases fuel
    {
      if fuel == 0 {
        return false;
      }
      SetDepth(node, depth, i);
      ghost var names, kids, ds1 := Names(), Kids(), Depths();
      assert kids[i] == node.children;
      var k := 0;
      while k < |node.children|
        invariant 0 <= k <= |node.children|
        invariant names == Names() && kids == Kids() && |Depths()| == |names|
        invariant WalkKids(names, kids, ds1, node.children, 0, depth + 1, fuel - 1)
               == WalkKids(names, kids, Depths(), node.children, k, depth + 1, fuel - 1)
      {
        var j := FindNode(node.children[k]);
        if j.Some? {
          ok := SetNodeDepth(cfmnodes[j.value], depth + 1, j.value, fuel - 1);
          if !ok {
            return;
          }
        }
        k := k + 1;
      }
      ok := true;
    }

    /** The loop after a tree file: every node named after a root is walked
        from depth 0, and every node whose parent is a root from depth 1. */
    method SetUpDepths(fuel: nat) returns (ok: bool)
      requires Valid()
      modifies cfmnodes`depth
      ensures var r := Depth.Pass(Names(), Parents(), Kids(), old(Depths()), 0, fuel);
              (ok <==> r.Some?) && (ok ==> Depths() == r.value)
    {
      var k := 0;
      while k < |cfmnodes|
        invariant 0 <= k <= |cfmnodes|
        invariant Depth.Pass(Names(), Parents(), Kids(), old(Depths()), 0, fuel)
               == Depth.Pass(Names(), Parents(), Kids(), Depths(), k, fuel)
      {
        var node := cfmnodes[k];
        if node.name == ContextRoot || node.name == FeatureRoot {
          ok := SetNodeDepth(node, 0, k, fuel);
          if !ok {
            return;
          }
        }
        if node.parent == ContextRoot || node.parent == FeatureRoot {
          ok := SetNodeDepth(node, 1, k, fuel);
          if !ok {
            return;
          }
        }
        k := k + 1;
      }
      ok := true;
    }

    /** The line loop of `processCFFiles`: every line in order, until the
        first bad one. */
    method ProcessRows(rows: seq<seq<string>>, side: Side) returns (outcome: Outcome, ghost made: seq<CFMNode>)
      modifies this`nodes, this`contexts, this`features, this`cfmnodes, this`cfmcontexts, this`cfmfeatures
      ensures FileNodes(rows, side).Err? ==> outcome == Fail(FileNodes(rows, side).error)
      ensures FileNodes(rows, side).Ok? ==>
        outcome == Done
        && Built() == Extend(old(Built()), side, NameSet(FileNodes(rows, side).value), made)
        && Infos(made) == FileNodes(rows, side).value && AllNew(made)
        && fresh(made) && Distinct(made)
    {
      made := [];
      ghost var ns: seq<NodeInfo> := [];
      assert NameSet([]) == {};
      outcome := Done;
      var r := 0;
      while r < |rows|
        invariant 0 <= r <= |rows|
        invariant FileNodes(rows[..r], side) == Ok(ns)
        invariant Built() == Extend(old(Built()), side, NameSet(ns), made)
        invariant Infos(made) == ns && AllNew(made)
        invariant fresh(made) && Distinct(made)
        invariant outcome == Done
      {
        FileNodesSnoc(rows, r, side);
        ghost var more;
        outcome, more := ProcessRow(rows[r], side);
        if outcome.Fail? {
          FileNodesErrStops(rows, r + 1, side);
          return;
        }
        assert AllNew(made) && AllNew(more);
        assert forall n :: n in more ==> n !in made;
        AllNewAppend(made, more);
        DistinctConcat(made, more);
        FileStep(old(Built()), side, ns, made, RowNodes(rows[r], side), more);
        made, ns := made + more, ns + RowNodes(rows[r], side);
        r := r + 1;
      }
      assert rows[..r] == rows;
    }

    /** The line loop, after which the nodes are still distinct and the new
        ones still at depth 0. */
    method ReadTree(rows: seq<seq<string>>, side: Side) returns (outcome: Outcome, ghost made: seq<CFMNode>)
      requires Valid()
      modifies this`nodes, this`contexts, this`features, this`cfmnodes, this`cfmcontexts, this`cfmfeatures
      ensures FileNodes(rows, side).Err? ==> outcome == Fail(FileNodes(rows, side).error)
      ensures FileNodes(rows, side).Ok? ==>
        outcome == Done && Valid()
        && Built() == Extend(old(Built()), side, NameSet(FileNodes(rows, side).value), made)
        && Infos(made) == FileNodes(rows, side).value
        && Depths() == old(Depths()) + Zeros(|made|)
        && fresh(made)
    {
      outcome, made := ProcessRows(rows, side);
      if outcome.Fail? {
        return;
      }
      DistinctConcat(old(cfmnodes), made);
      DepthsGrow(this, made);
    }

    /** `processCFFiles`: every line of a tree file in order, then the depth
        pass over all nodes built so far. */
    method ProcessCFFiles(rows: seq<seq<string>>, side: Side, fuel: nat) returns (outcome: Outcome, ghost made: seq<CFMNode>)
      requires Valid()
      modifies this`nodes, this`contexts, this`features, this`cfmnodes, this`cfmcontexts, this`cfmfeatures, cfmnodes`depth
      ensures FileNodes(rows, side).Err? ==> outcome == Fail(FileNodes(rows, side).error)
      ensures FileNodes(rows, side).Ok? ==>
        Valid()
        && Built() == Extend(old(Built()), side, NameSet(FileNodes(rows, side).value), made)
        && Infos(made) == FileNodes(rows, side).value && fresh(made)
      ensures FileNodes(rows, side).Ok? ==>
        var r := Depth.Pass(Names(), Parents(), Kids(), old(Depths()) + Zeros(|made|), 0, fuel);
        outcome == (if r.Some? then Done else Fail(RecursionLimit)) && (r.Some? ==> Depths() == r.value)
    {
      outcome, made := ReadTree(rows, side);
      if outcome.Fail? {
        return;
      }
      var ok := SetUpDepths(fuel);
      outcome := if ok then Done else Fail(RecursionLimit);
    }

    // ---- the mapping ----

    /** `checkMappingDefinitions`: the first hyphen part of the tokens that
        names no node is reported as undefined on the `kind` side. */
    method CheckMappingDefinitions(tokens: seq<string>, kind: string) returns (outcome: Outcome)
      ensures outcome == (match FirstUndefined(tokens, nodes)
                          case None => Done
                          case Some(e) => Fail(Undefined(kind, e)))
    {
      var t := 0;
      while t < |tokens|
        invariant 0 <= t <= |tokens|
        invariant FirstUndefined(tokens, nodes) == FirstUndefined(tokens[t..], nodes)
      {
        var parts := Split(tokens[t], '-');
        var p := 0;
        while p < |parts|
          invariant 0 <= p <= |parts|
          invariant FirstUndefinedPart(parts, nodes) == FirstUndefinedPart(parts[p..], nodes)
        {
          if parts[p] !in nodes {
            return Fail(Undefined(kind, parts[p]));
          }
          assert parts[p..][1..] == parts[p + 1..];
          p := p + 1;
        }
        assert tokens[t..][1..] == tokens[t + 1..];
        t := t + 1;
      }
      return Done;
    }

    /** One mapping line: both sides checked, context side first, then each
        context token is mapped to the line's feature list and each feature
        token to its context list. */
    method ProcessMappingRow(row: seq<seq<string>>) returns (outcome: Outcome)
      modifies this`dictContext, this`dictFeature
      ensures flatContext == old(flatContext) && flatFeature == old(flatFeature)
      ensures var r := ApplyRow(nodes, Dicts(old(dictContext), old(dictFeature)), row);
              (r.Err? ==> outcome == Fail(r.error) && dictContext == old(dictContext) && dictFeature == old(dictFeature))
              && (r.Ok? ==> outcome == Done && dictContext == r.value.context && dictFeature == r.value.feature)
    {
      if |row| != 2 {
        return Fail(BadMappingLine(row));
      }
      var mapContexts, mapFeatures := row[0], row[1];
      outcome := CheckMappingDefinitions(mapContexts, "context");
      if outcome.Fail? {
        return;
      }
      outcome := CheckMappingDefinitions(mapFeatures, "feature");
      if outcome.Fail? {
        return;
      }
      dictContext := dictContext + map context | context in mapContexts :: mapFeatures;
      dictFeature := dictFeature + map feature | feature in mapFeatures :: mapContexts;
    }

    /** `processMappingFile`: every mapping line in order; the first bad line ends the run. */
    method ProcessMappingFile(rows: seq<seq<seq<string>>>) returns (outcome: Outcome)
      modifies this`dictContext, this`dictFeature
      ensures flatContext == old(flatContext) && flatFeature == old(flatFeature)
      ensures var r := ApplyRows(nodes, Dicts(old(dictContext), old(dictFeature)), rows);
              outcome == (if r.Ok? then Done else Fail(r.error))
              && (r.Ok? ==> dictContext == r.value.context && dictFeature == r.value.feature)
    {
      ghost var start := Dicts(dictContext, dictFeature);
      var r := 0;
      while r < |rows|
        invariant 0 <= r <= |rows|
        invariant ApplyRows(nodes, start, rows[..r]) == Ok(Dicts(dictContext, dictFeature))
      {
        assert rows[..r + 1][..r] == rows[..r];
        outcome := ProcessMappingRow(rows[r]);
        if outcome.Fail? {
          ApplyRowsErrStops(nodes, start, rows, r + 1);
          return;
        }
        r := r + 1;
      }
      assert rows[..r] == rows;
      outcome := Done;
    }

    /** `flattenDict`: under each hyphen part of each key, the values of
        every key with that part. Keys are visited in some order `ks`, which
        only decides the order of the collected values. */
    method FlattenDict(d: Dict) returns (result: Dict, ghost ks: seq<string>)
      ensures forall k :: k in ks <==> k in d
      ensures result == FlattenKeys(d, ks)
      ensures Flattens(d, result)
    {
      result := map[];
      ks := [];
      var rest := d.Keys;
      while rest != {}
        invariant rest <= d.Keys
        invariant forall k :: k in ks <==> k in d && k !in rest
        invariant result == FlattenKeys(d, ks)
        decreases |rest|
      {
        var key :| key in rest;
        var values := d[key];
        ghost var start := FlattenKeys(d, ks);
        var i := 0;
        while i < |values|
          invariant 0 <= i <= |values|
          invariant result == AddValues(start, key, values[..i])
        {
          var value := values[i];
          var subKeys := Split(key, '-');
          ghost var before := result;
          var j := 0;
          while j < |subKeys|
            invariant 0 <= j <= |subKeys|
            invariant result == AddParts(before, subKeys[..j], value)
          {
            var subKey := subKeys[j];
            ghost var prior := result;
            if subKey !in result {
              result := result[subKey := []];
            }
            result := result[subKey := result[subKey] + [value]];
            assert result == Append(prior, subKey, value);
            assert subKeys[..j + 1][..j] == subKeys[..j];
            j := j + 1;
          }
          assert subKeys[..j] == subKeys;
          assert values[..i + 1][..i] == values[..i];
          i := i + 1;
        }
        assert values[..i] == values;
        assert (ks + [key])[..|ks|] == ks;
        assert FlattenKeys(d, ks + [key]) == AddValues(start, key, values);
        ks := ks + [key];
        rest := rest - {key};
      }
      FlattenKeysFlattens(d, ks);
    }

    // ---- connected pairs and mutants ----

    /** The inputs of the connected-pair rules in the current state. */
    ghost function Inputs(): Env
      reads this
    {
      Env(cfmcontexts, cfmfeatures, flatContext, flatFeature)
    }

    /** The first two lines of `generateConnectedPairs`: both dictionaries
        flattened. */
    method FlattenBoth() returns (dictContexts: Dict, dictFeatures: Dict)
      modifies this`flatContext, this`flatFeature
      ensures flatContext == dictContexts && flatFeature == dictFeatures
      ensures Flattens(dictContext, dictContexts) && Flattens(dictFeature, dictFeatures)
    {
      ghost var ks1, ks2;
      dictContexts, ks1 := FlattenDict(dictContext);
      dictFeatures, ks2 := FlattenDict(dictFeature);
      flatContext, flatFeature := dictContexts, dictFeatures;
    }

    /** The rest of `generateConnectedPairs`: the rules run over every
        context, feature and pair of children, and the set of records
        becomes the list of connected pairs, each record once. */
    method ConnectPairs(dictContexts: Dict, dictFeatures: Dict)
      modifies this`connectedPairs
      ensures var e := Env(cfmcontexts, cfmfeatures, dictContexts, dictFeatures);
              forall p :: p in connectedPairs <==> p in ConnectedPairs(e)
      ensures forall a, b :: 0 <= a < b < |connectedPairs| ==> connectedPairs[a] != connectedPairs[b]
    {
      var found := CollectPairs(Env(cfmcontexts, cfmfeatures, dictContexts, dictFeatures));
      connectedPairs := ListOf(found);
    }

    /** `generateConnectedPairs`: both dictionaries are flattened, then the
        connected pairs are collected from the flattened ones. */
    method GenerateConnectedPairs()
      modifies this`flatContext, this`flatFeature, this`connectedPairs
      ensures dictContext == old(dictContext) && dictFeature == old(dictFeature)
      ensures Flattens(dictContext, flatContext) && Flattens(dictFeature, flatFeature)
      ensures forall p :: p in connectedPairs <==> p in ConnectedPairs(Inputs())
      ensures forall a, b :: 0 <= a < b < |connectedPairs| ==> connectedPairs[a] != connectedPairs[b]
    {
      var dictContexts, dictFeatures := FlattenBoth();
      ConnectPairs(dictContexts, dictFeatures);
    }

    /** `generateMutants`: for each connected pair in order, its mutants and
        their questions are appended, in lockstep. */
    method GenerateMutants()
      requires Valid()
      modifies this`mutants, this`questions
      ensures Valid()
      ensures mutants == old(mutants) + Mutants(AllMutations(connectedPairs))
      ensures questions == old(questions) + Questions(AllMutations(connectedPairs))
    {
      var ms := MutateAll(connectedPairs);
      var found, asked := Mutants(ms), Questions(ms);
      mutants, questions := mutants + found, questions + asked;
    }

    // ---- the whole run ----

    /** One tree file of `__init__`, seen from the run: the depths it sets
        are left out, only whether it got through. */
    method LoadTree(rows: seq<seq<string>>, side: Side, fuel: nat) returns (outcome: Outcome, ghost made: seq<CFMNode>)
      requires Valid()
      modifies this`nodes, this`contexts, this`features, this`cfmnodes, this`cfmcontexts, this`cfmfeatures, cfmnodes`depth
      ensures FileNodes(rows, side).Err? ==> outcome == Fail(FileNodes(rows, side).error)
      ensures FileNodes(rows, side).Ok? ==> outcome == Done || outcome == Fail(RecursionLimit)
      ensures outcome == Done ==>
        FileNodes(rows, side).Ok? && Valid()
        && Built() == Extend(old(Built()), side, NameSet(FileNodes(rows, side).value), made)
        && Infos(made) == FileNodes(rows, side).value && fresh(made)
    {
      outcome, made := ProcessCFFiles(rows, side, fuel);
    }

    /** The two tree files of `__init__`, contexts first, into an empty model. */
    method LoadTrees(contextRows: seq<seq<string>>, featureRows: seq<seq<string>>, fuel: nat)
      returns (outcome: Outcome)
      requires Valid()
      requires nodes == {} && contexts == {} && features == {}
      requires cfmnodes == [] && cfmcontexts == [] && cfmfeatures == []
      modifies this`nodes, this`contexts, this`features, this`cfmnodes, this`cfmcontexts, this`cfmfeatures
      ensures FileNodes(contextRows, Contexts).Err? ==> outcome == Fail(FileNodes(contextRows, Contexts).error)
      ensures FileNodes(contextRows, Contexts).Ok? && FileNodes(featureRows, Features).Err? ==>
        outcome == Fail(FileNodes(featureRows, Features).error) || outcome == Fail(RecursionLimit)
      ensures FileNodes(contextRows, Contexts).Ok? && FileNodes(featureRows, Features).Ok? ==>
        outcome == Done || outcome == Fail(RecursionLimit)
      ensures outcome == Done ==>
        FileNodes(contextRows, Contexts).Ok? && FileNodes(featureRows, Features).Ok?
        && Infos(cfmcontexts) == FileNodes(contextRows, Contexts).value
        && Infos(cfmfeatures) == FileNodes(featureRows, Features).value
        && cfmnodes == cfmcontexts + cfmfeatures
        && contexts == NameSet(FileNodes(contextRows, Contexts).value)
        && features == NameSet(FileNodes(featureRows, Features).value)
        && nodes == contexts + features
        && Valid()
    {
      ghost var made1, made2;
      outcome, made1 := LoadTree(contextRows, Contexts, fuel);
      if outcome.Fail? {
        return;
      }
      ghost var names1 := NameSet(FileNodes(contextRows, Contexts).value);
      assert cfmnodes == made1 && cfmcontexts == made1 && cfmfeatures == [];
      assert contexts == names1 && features == {} && nodes == names1;
      outcome, made2 := LoadTree(featureRows, Features, fuel);
      if outcome.Fail? {
        return;
      }
      ghost var names2 := NameSet(FileNodes(featureRows, Features).value);
      assert cfmnodes == made1 + made2 && cfmcontexts == made1 && cfmfeatures == made2;
      assert contexts == names1 && features == names2 && nodes == names1 + names2;
    }

    /** The last two stages of `__init__`, seen from the run: the connected
        pairs, then the mutants of an empty mutant list. */
    method GeneratePairsAndMutants()
      requires Valid() && mutants == [] && questions == []
      modifies this`flatContext, this`flatFeature, this`connectedPairs, this`mutants, this`questions
      ensures Valid()
      ensures Flattens(dictContext, flatContext) && Flattens(dictFeature, flatFeature)
      ensures forall p :: p in connectedPairs <==> p in ConnectedPairs(Inputs())
      ensures forall a, b :: 0 <= a < b < |connectedPairs| ==> connectedPairs[a] != connectedPairs[b]
      ensures mutants == Mutants(AllMutations(connectedPairs))
      ensures questions == Questions(AllMutations(connectedPairs))
    {
      GenerateConnectedPairs();
      GenerateMutants();
    }

    /** The stages of `__init__` after the trees: the mapping file into
        empty dictionaries, then the connected pairs and the mutants. */
    method LoadRest(mappingRows: seq<seq<seq<string>>>) returns (outcome: Outcome)
      requires Valid() && mutants == [] && questions == []
      requires dictContext == map[] && dictFeature == map[]
      modifies this`dictContext, this`dictFeature, this`flatContext, this`flatFeature
      modifies this`connectedPairs, this`mutants, this`questions
      ensures var r := ApplyRows(nodes, Dicts(map[], map[]), mappingRows);
        (r.Err? ==> outcome == Fail(r.error))
        && (r.Ok? ==> outcome == Done && dictContext == r.value.context && dictFeature == r.value.feature)
      ensures outcome == Done ==>
        Valid()
        && Flattens(dictContext, flatContext) && Flattens(dictFeature, flatFeature)
        && (forall p :: p in connectedPairs <==> p in ConnectedPairs(Inputs()))
        && (forall a, b :: 0 <= a < b < |connectedPairs| ==> connectedPairs[a] != connectedPairs[b])
        && mutants == Mutants(AllMutations(connectedPairs))
        && questions == Questions(AllMutations(connectedPairs))
    {
      outcome := ProcessMappingFile(mappingRows);
      if outcome.Fail? {
        return;
      }
      GeneratePairsAndMutants();
    }

    /** `__init__`: the context tree file, the feature tree file and the
        mapping file in that order, then the connected pairs and the
        mutants. The first stage that fails ends the run. `fuel` is the
        recursion limit of the depth passes. */
    static method Load(contextRows: seq<seq<string>>, featureRows: seq<seq<string>>,
                       mappingRows: seq<seq<seq<string>>>, fuel: nat)
      returns (m: CFMModel, outcome: Outcome)
      ensures fresh(m)
      ensures FileNodes(contextRows, Contexts).Err? ==> outcome == Fail(FileNodes(contextRows, Contexts).error)
      ensures FileNodes(contextRows, Contexts).Ok? && FileNodes(featureRows, Features).Err? ==>
        outcome == Fail(FileNodes(featureRows, Features).error) || outcome == Fail(RecursionLimit)
      ensures FileNodes(contextRows, Contexts).Ok? && FileNodes(featureRows, Features).Ok? ==>
        var r := ApplyRows(NameSet(FileNodes(contextRows, Contexts).value) + NameSet(FileNodes(featureRows, Features).value),
                           Dicts(map[], map[]), mappingRows);
        (r.Err? ==> outcome == Fail(r.error) || outcome == Fail(RecursionLimit))
        && (r.Ok? ==> outcome == Done || outcome == Fail(RecursionLimit))
        && (outcome == Done ==> r.Ok? && m.dictContext == r.value.context && m.dictFeature == r.value.feature)
      ensures outcome == Done ==>
        Infos(m.cfmcontexts) == FileNodes(contextRows, Contexts).value
        && Infos(m.cfmfeatures) == FileNodes(featureRows, Features).value
        && m.cfmnodes == m.cfmcontexts + m.cfmfeatures
        && m.contexts == NameSet(FileNodes(contextRows, Contexts).value)
        && m.features == NameSet(FileNodes(featureRows, Features).value)
        && m.nodes == m.contexts + m.features
        && m.Valid()
        && Flattens(m.dictContext, m.flatContext) && Flattens(m.dictFeature, m.flatFeature)
        && (forall p :: p in m.connectedPairs <==> p in ConnectedPairs(m.Inputs()))
        && (forall a, b :: 0 <= a < b < |m.connectedPairs| ==> m.connectedPairs[a] != m.connectedPairs[b])
        && m.mutants == Mutants(AllMutations(m.connectedPairs))
        && m.questions == Questions(AllMutations(m.connectedPairs))
    {
      m := new CFMModel();
      outcome := m.LoadTrees(contextRows, featureRows, fuel);
      if outcome.Fail? {
        return;
      }
      ghost var c, f := FileNodes(contextRows, Contexts), FileNodes(featureRows, Features);
      assert c.Ok? && f.Ok? && m.nodes == NameSet(c.value) + NameSet(f.value);
      outcome := m.LoadRest(mappingRows);
    }
  }
}
