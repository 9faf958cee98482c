/** The depth pass of the tree builder: `set_node_depth` and the loop that
    starts it. Nodes are indices into the table of all nodes built so far
    (both trees, in the order of `cfmnodes`); `names`, `parents` and `kids`
    give each node's fields and `ds` each node's depth.

    The source recurses without a guard, so a child name that leads back to
    one of its ancestors recurses until Python's recursion limit raises an
    error. `fuel` is that limit: the number of nested calls still allowed. */
module Depth {
  import opened Errors
  import opened Nodes

  /** The node a child name resolves to: the first node of that name in the
      whole table, as the generator search of the source finds it. */
  function FirstNamed(names: seq<string>, c: string): (r: Option<nat>)
    ensures r.Some? ==> r.value < |names| && names[r.value] == c
                        && forall k :: 0 <= k < r.value ==> names[k] != c
    ensures r.None? <==> c !in names
  {
    if names == [] then None
    else if names[0] == c then Some(0)
    else match FirstNamed(names[1..], c)
      case None => None
      case Some(j) => Some(j + 1)
  }

  predicate Table(names: seq<string>, kids: seq<seq<string>>, ds: seq<int>)
  {
    |kids| == |names| && |ds| == |names|
  }

  /** `set_node_depth(node i, d)`: set i's depth to d, then walk each child
      name in order from depth d + 1. None when the recursion limit is hit. */
  function Walk(names: seq<string>, kids: seq<seq<string>>, ds: seq<int>, i: nat, d: int, fuel: nat)
    : (r: Option<seq<int>>)
    requires Table(names, kids, ds) && i < |names|
    ensures r.Some? ==> |r.value| == |ds|
    decreases fuel, 0, 0
  {
    if fuel == 0 then None
    else WalkKids(names, kids, ds[i := d], kids[i], 0, d + 1, fuel - 1)
  }

  /** The child loop of `set_node_depth`, from the k-th child name on, giving
      depth d to each child that resolves; names that resolve to nothing are skipped. */
  function WalkKids(names: seq<string>, kids: seq<seq<string>>, ds: seq<int>, cs: seq<string>, k: nat, d: int, fuel: nat)
    : (r: Option<seq<int>>)
    requires Table(names, kids, ds) && k <= |cs|
    ensures r.Some? ==> |r.value| == |ds|
    decreases fuel, 1, |cs| - k
  {
    if k == |cs| then Some(ds)
    else match FirstNamed(names, cs[k])
      case None => WalkKids(names, kids, ds, cs, k + 1, d, fuel)
      case Some(j) =>
        match Walk(names, kids, ds, j, d, fuel)
        case None => None
        case Some(ds') => WalkKids(names, kids, ds', cs, k + 1, d, fuel)
  }

  /** The nodes a walk from i visits. */
  ghost function Reach(names: seq<string>, kids: seq<seq<string>>, i: nat, fuel: nat): set<nat>
    requires |kids| == |names| && i < |names|
    decreases fuel, 0, 0
  {
    if fuel == 0 then {}
    else {i} + ReachKids(names, kids, kids[i], 0, fuel - 1)
  }

  ghost function ReachKids(names: seq<string>, kids: seq<seq<string>>, cs: seq<string>, k: nat, fuel: nat): set<nat>
    requires |kids| == |names| && k <= |cs|
    decreases fuel, 1, |cs| - k
  {
    if k == |cs| then {}
    else
      (match FirstNamed(names, cs[k])
       case None => {}
       case Some(j) => Reach(names, kids, j, fuel))
      + ReachKids(names, kids, cs, k + 1, fuel)
  }

  /** A walk from i at depth d changes only the nodes it visits, and gives
      each of them a depth between d and d + fuel - 1. */
  lemma {:induction false} WalkFrame(names: seq<string>, kids: seq<seq<string>>, ds: seq<int>, i: nat, d: int, fuel: nat)
    requires Table(names, kids, ds) && i < |names|
    requires Walk(names, kids, ds, i, d, fuel).Some?
    ensures forall m :: 0 <= m < |ds| && m !in Reach(names, kids, i, fuel) ==>
      Walk(names, kids, ds, i, d, fuel).value[m] == ds[m]
    ensures forall m :: 0 <= m < |ds| && m in Reach(names, kids, i, fuel) ==>
      d <= Walk(names, kids, ds, i, d, fuel).value[m] < d + fuel
    decreases fuel, 0, 0
  {
    var ds1 := ds[i := d];
    WalkKidsFrame(names, kids, ds1, kids[i], 0, d + 1, fuel - 1);
    assert forall m :: 0 <= m < |ds| && m !in ReachKids(names, kids, kids[i], 0, fuel - 1) ==>
      Walk(names, kids, ds, i, d, fuel).value[m] == ds1[m];
  }

  lemma {:induction false} WalkKidsFrame(names: seq<string>, kids: seq<seq<string>>, ds: seq<int>, cs: seq<string>, k: nat, d: int, fuel: nat)
    requires Table(names, kids, ds) && k <= |cs|
    requires WalkKids(names, kids, ds, cs, k, d, fuel).Some?
    ensures forall m :: 0 <= m < |ds| && m !in ReachKids(names, kids, cs, k, fuel) ==>
      WalkKids(names, kids, ds, cs, k, d, fuel).value[m] == ds[m]
    ensures forall m :: 0 <= m < |ds| && m in ReachKids(names, kids, cs, k, fuel) ==>
      d <= WalkKids(names, kids, ds, cs, k, d, fuel).value[m] < d + fuel
    decreases fuel, 1, |cs| - k
  {
    if k < |cs| {
      match FirstNamed(names, cs[k])
      case None =>
        WalkKidsFrame(names, kids, ds, cs, k + 1, d, fuel);
      case Some(j) =>
        WalkFrame(names, kids, ds, j, d, fuel);
        var ds' := Walk(names, kids, ds, j, d, fuel).value;
        WalkKidsFrame(names, kids, ds', cs, k + 1, d, fuel);
    }
  }

  /** The table has no cycle through child names: some rank decreases from
      every node to the node each of its child names resolves to. */
  ghost predicate Ranked(names: seq<string>, kids: seq<seq<string>>, rank: seq<nat>)
  {
    |kids| == |names| && |rank| == |names| &&
    forall i, c :: 0 <= i < |names| && c in kids[i] && c in names ==>
      rank[FirstNamed(names, c).value] < rank[i]
  }

  /** Every node a walk visits ranks no higher than where the walk started. */
  lemma {:induction false} ReachRanked(names: seq<string>, kids: seq<seq<string>>, rank: seq<nat>, i: nat, fuel: nat)
    requires Ranked(names, kids, rank) && i < |names|
    ensures forall m :: m in Reach(names, kids, i, fuel) ==> m < |names| && rank[m] <= rank[i]
    decreases fuel, 0, 0
  {
    if fuel > 0 {
      ReachKidsRanked(names, kids, rank, kids[i], 0, fuel - 1, rank[i]);
    }
  }

  lemma {:induction false} ReachKidsRanked(names: seq<string>, kids: seq<seq<string>>, rank: seq<nat>, cs: seq<string>, k: nat, fuel: nat, bound: nat)
    requires Ranked(names, kids, rank) && k <= |cs|
    requires forall c :: c in cs[k..] && c in names ==> rank[FirstNamed(names, c).value] < bound
    ensures forall m :: m in ReachKids(names, kids, cs, k, fuel) ==> m < |names| && rank[m] < bound
    decreases fuel, 1, |cs| - k
  {
    if k < |cs| {
      assert cs[k] in cs[k..];
      assert forall c :: c in cs[k + 1..] ==> c in cs[k..] by { assert cs[k..] == [cs[k]] + cs[k + 1..]; }
      ReachKidsRanked(names, kids, rank, cs, k + 1, fuel, bound);
      if FirstNamed(names, cs[k]).Some? {
        ReachRanked(names, kids, rank, FirstNamed(names, cs[k]).value, fuel);
      }
    }
  }

  /** On a table without cycles, a walk whose start ranks below the
      recursion limit completes, and leaves its start at the depth it gave it. */
  lemma {:induction false} WalkRanked(names: seq<string>, kids: seq<seq<string>>, ds: seq<int>, rank: seq<nat>, i: nat, d: int, fuel: nat)
    requires Table(names, kids, ds) && Ranked(names, kids, rank) && i < |names|
    requires rank[i] < fuel
    ensures Walk(names, kids, ds, i, d, fuel).Some?
    ensures Walk(names, kids, ds, i, d, fuel).value[i] == d
    decreases fuel, 0, 0
  {
    var ds1 := ds[i := d];
    WalkKidsRanked(names, kids, ds1, rank, kids[i], 0, d + 1, fuel - 1, rank[i]);
    ReachKidsRanked(names, kids, rank, kids[i], 0, fuel - 1, rank[i]);
    WalkKidsFrame(names, kids, ds1, kids[i], 0, d + 1, fuel - 1);
  }

  lemma {:induction false} WalkKidsRanked(names: seq<string>, kids: seq<seq<string>>, ds: seq<int>, rank: seq<nat>, cs: seq<string>, k: nat, d: int, fuel: nat, bound: nat)
    requires Table(names, kids, ds) && Ranked(names, kids, rank) && k <= |cs|
    requires bound <= fuel
    requires forall c :: c in cs[k..] && c in names ==> rank[FirstNamed(names, c).value] < bound
    ensures WalkKids(names, kids, ds, cs, k, d, fuel).Some?
    decreases fuel, 1, |cs| - k
  {
    if k < |cs| {
      assert cs[k] in cs[k..];
      assert forall c :: c in cs[k + 1..] ==> c in cs[k..] by { assert cs[k..] == [cs[k]] + cs[k + 1..]; }
      match FirstNamed(names, cs[k])
      case None =>
        WalkKidsRanked(names, kids, ds, rank, cs, k + 1, d, fuel, bound);
      case Some(j) =>
        WalkRanked(names, kids, ds, rank, j, d, fuel);
        var ds' := Walk(names, kids, ds, j, d, fuel).value;
        WalkKidsRanked(names, kids, ds', rank, cs, k + 1, d, fuel, bound);
    }
  }

  /** On a table without cycles, each child name of the start that resolves
      gives its node depth d + 1, unless a later sibling's walk reaches that
      node again (the last write wins). */
  lemma WalkChildDepth(names: seq<string>, kids: seq<seq<string>>, ds: seq<int>, rank: seq<nat>, i: nat, d: int, fuel: nat, k: nat)
    requires Table(names, kids, ds) && Ranked(names, kids, rank) && i < |names|
    requires rank[i] < fuel && k < |kids[i]| && FirstNamed(names, kids[i][k]).Some?
    requires FirstNamed(names, kids[i][k]).value !in ReachKids(names, kids, kids[i], k + 1, fuel - 1)
    ensures Walk(names, kids, ds, i, d, fuel).Some?
    ensures Walk(names, kids, ds, i, d, fuel).value[FirstNamed(names, kids[i][k]).value] == d + 1
  {
    WalkRanked(names, kids, ds, rank, i, d, fuel);
    WalkKidsChild(names, kids, ds[i := d], rank, kids[i], 0, k, d + 1, fuel - 1, rank[i]);
  }

  lemma {:induction false} WalkKidsChild(names: seq<string>, kids: seq<seq<string>>, ds: seq<int>, rank: seq<nat>, cs: seq<string>, k0: nat, k: nat, d: int, fuel: nat, bound: nat)
    requires Table(names, kids, ds) && Ranked(names, kids, rank)
    requires k0 <= k < |cs| && bound <= fuel
    requires forall c :: c in cs && c in names ==> rank[FirstNamed(names, c).value] < bound
    requires FirstNamed(names, cs[k]).Some?
    requires FirstNamed(names, cs[k]).value !in ReachKids(names, kids, cs, k + 1, fuel)
    ensures WalkKids(names, kids, ds, cs, k0, d, fuel).Some?
    ensures WalkKids(names, kids, ds, cs, k0, d, fuel).value[FirstNamed(names, cs[k]).value] == d
    decreases k - k0
  {
    assert forall c :: c in cs[k0..] ==> c in cs;
    WalkKidsRanked(names, kids, ds, rank, cs, k0, d, fuel, bound);
    var j := FirstNamed(names, cs[k0]);
    var ds' := if j.Some? then Walk(names, kids, ds, j.value, d, fuel).value else ds;
    if j.Some? {
      WalkRanked(names, kids, ds, rank, j.value, d, fuel);
    }
    if k0 < k {
      WalkKidsChild(names, kids, ds', rank, cs, k0 + 1, k, d, fuel, bound);
    } else {
      assert forall c :: c in cs[k0 + 1..] ==> c in cs;
      WalkKidsRanked(names, kids, ds', rank, cs, k0 + 1, d, fuel, bound);
      WalkKidsFrame(names, kids, ds', cs, k0 + 1, d, fuel);
    }
  }

  /** A node other than the start is visited only as the first node of its name. */
  lemma {:induction false} ReachFirstNamed(names: seq<string>, kids: seq<seq<string>>, i: nat, fuel: nat)
    requires |kids| == |names| && i < |names|
    ensures forall m :: m in Reach(names, kids, i, fuel) ==>
      m < |names| && (m == i || FirstNamed(names, names[m]) == Some(m))
    decreases fuel, 0, 0
  {
    if fuel > 0 {
      ReachKidsFirstNamed(names, kids, kids[i], 0, fuel - 1);
    }
  }

  lemma {:induction false} ReachKidsFirstNamed(names: seq<string>, kids: seq<seq<string>>, cs: seq<string>, k: nat, fuel: nat)
    requires |kids| == |names| && k <= |cs|
    ensures forall m :: m in ReachKids(names, kids, cs, k, fuel) ==>
      m < |names| && FirstNamed(names, names[m]) == Some(m)
    decreases fuel, 1, |cs| - k
  {
    if k < |cs| {
      ReachKidsFirstNamed(names, kids, cs, k + 1, fuel);
      if FirstNamed(names, cs[k]).Some? {
        ReachFirstNamed(names, kids, FirstNamed(names, cs[k]).value, fuel);
      }
    }
  }

  predicate IsRootName(s: string)
  {
    s == ContextRoot || s == FeatureRoot
  }

  /** Whether the driver loop starts a walk from a node: its name is a root
      name (walk from 0) or its parent is (walk from 1). */
  predicate IsStart(names: seq<string>, parents: seq<string>, k: nat)
    requires |parents| == |names| && k < |names|
  {
    IsRootName(names[k]) || IsRootName(parents[k])
  }

  /** The driver loop from the k-th node of the table on. The two tests are
      independent, so a node named after a root whose parent is also a root
      name is walked from depth 0 and then again from depth 1. */
  function Pass(names: seq<string>, parents: seq<string>, kids: seq<seq<string>>, ds: seq<int>, k: nat, fuel: nat)
    : (r: Option<seq<int>>)
    requires |parents| == |names| && Table(names, kids, ds) && k <= |names|
    ensures r.Some? ==> |r.value| == |ds|
    decreases |names| - k
  {
    if k == |names| then Some(ds)
    else
      var asRoot := if IsRootName(names[k]) then Walk(names, kids, ds, k, 0, fuel) else Some(ds);
      match asRoot
      case None => None
      case Some(ds1) =>
        var asTop := if IsRootName(parents[k]) then Walk(names, kids, ds1, k, 1, fuel) else Some(ds1);
        match asTop
        case None => None
        case Some(ds2) => Pass(names, parents, kids, ds2, k + 1, fuel)
  }

  /** The nodes the driver loop visits from the k-th node on. */
  ghost function PassReach(names: seq<string>, parents: seq<string>, kids: seq<seq<string>>, k: nat, fuel: nat): set<nat>
    requires |parents| == |names| && |kids| == |names| && k <= |names|
    decreases |names| - k
  {
    if k == |names| then {}
    else (if IsStart(names, parents, k) then Reach(names, kids, k, fuel) else {})
         + PassReach(names, parents, kids, k + 1, fuel)
  }

  /** The driver loop changes only the nodes it visits. */
  lemma {:induction false} PassFrame(names: seq<string>, parents: seq<string>, kids: seq<seq<string>>, ds: seq<int>, k: nat, fuel: nat)
    requires |parents| == |names| && Table(names, kids, ds) && k <= |names|
    requires Pass(names, parents, kids, ds, k, fuel).Some?
    ensures forall m :: 0 <= m < |ds| && m !in PassReach(names, parents, kids, k, fuel) ==>
      Pass(names, parents, kids, ds, k, fuel).value[m] == ds[m]
    decreases |names| - k
  {
    if k < |names| {
      var ds1 := ds;
      if IsRootName(names[k]) {
        WalkFrame(names, kids, ds, k, 0, fuel);
        ds1 := Walk(names, kids, ds, k, 0, fuel).value;
      }
      var ds2 := ds1;
      if IsRootName(parents[k]) {
        WalkFrame(names, kids, ds1, k, 1, fuel);
        ds2 := Walk(names, kids, ds1, k, 1, fuel).value;
      }
      PassFrame(names, parents, kids, ds2, k + 1, fuel);
    }
  }

  /** Only start nodes and first-of-their-name nodes are visited. */
  lemma {:induction false} PassReachStartOrFirst(names: seq<string>, parents: seq<string>, kids: seq<seq<string>>, k: nat, fuel: nat)
    requires |parents| == |names| && |kids| == |names| && k <= |names|
    ensures forall m :: m in PassReach(names, parents, kids, k, fuel) ==>
      m < |names| && (IsStart(names, parents, m) || FirstNamed(names, names[m]) == Some(m))
    decreases |names| - k
  {
    if k < |names| {
      ReachFirstNamed(names, kids, k, fuel);
      PassReachStartOrFirst(names, parents, kids, k + 1, fuel);
    }
  }

  /** A node that is neither a start of the driver loop nor the first node of
      its name (a repeated child stub, say) keeps the depth it had: child names
      always resolve to the first node of the name. */
  lemma RepeatedNameKeepsDepth(names: seq<string>, parents: seq<string>, kids: seq<seq<string>>, ds: seq<int>, fuel: nat, m: nat)
    requires |parents| == |names| && Table(names, kids, ds) && m < |names|
    requires Pass(names, parents, kids, ds, 0, fuel).Some?
    requires !IsStart(names, parents, m) && FirstNamed(names, names[m]) != Some(m)
    ensures Pass(names, parents, kids, ds, 0, fuel).value[m] == ds[m]
  {
    PassReachStartOrFirst(names, parents, kids, 0, fuel);
    PassFrame(names, parents, kids, ds, 0, fuel);
  }

  /** On a table without cycles whose ranks all stay below the recursion
      limit, the driver loop never hits the limit. */
  lemma {:induction false} PassRanked(names: seq<string>, parents: seq<string>, kids: seq<seq<string>>, ds: seq<int>, rank: seq<nat>, k: nat, fuel: nat)
    requires |parents| == |names| && Table(names, kids, ds) && Ranked(names, kids, rank) && k <= |names|
    requires forall i :: 0 <= i < |names| ==> rank[i] < fuel
    ensures Pass(names, parents, kids, ds, k, fuel).Some?
    decreases |names| - k
  {
    if k < |names| {
      var ds1 := ds;
      if IsRootName(names[k]) {
        WalkRanked(names, kids, ds, rank, k, 0, fuel);
        ds1 := Walk(names, kids, ds, k, 0, fuel).value;
      }
      var ds2 := ds1;
      if IsRootName(parents[k]) {
        WalkRanked(names, kids, ds1, rank, k, 1, fuel);
        ds2 := Walk(names, kids, ds1, k, 1, fuel).value;
      }
      PassRanked(names, parents, kids, ds2, rank, k + 1, fuel);
    }
  }
  /** The two tests of the driver loop are independent: a node named after a
      root whose own parent is a root name is walked from depth 0 and then
      from depth 1, so it ends at depth 1. */
  lemma RootUnderRootWalkedTwice()
    ensures Pass([ContextRoot], [ContextRoot], [[]], [0], 0, 5) == Some([1])
  {
    var names: seq<string>, kids: seq<seq<string>> := [ContextRoot], [[]];
    assert kids[0] == [] && [0][0 := 0] == [0] && [0][0 := 1] == [1];
    assert WalkKids(names, kids, [0], [], 0, 1, 4) == Some([0]);
    assert Walk(names, kids, [0], 0, 0, 5) == Some([0]);
    assert WalkKids(names, kids, [1], [], 0, 2, 4) == Some([1]);
    assert Walk(names, kids, [0], 0, 1, 5) == Some([1]);
    assert Pass(names, [ContextRoot], kids, [1], 1, 5) == Some([1]);
  }

  // ---- the missing cycle guard ----

  /** A node whose a-th child name resolves back to the node itself: the walk
      from it never completes, whatever the recursion limit, so the source
      always ends in a recursion error. */
  lemma {:induction false} SelfLoopNeverCompletes(names: seq<string>, kids: seq<seq<string>>, ds: seq<int>,
                                                  i: nat, a: nat, d: int, fuel: nat)
    requires Table(names, kids, ds) && i < |names|
    requires a < |kids[i]| && FirstNamed(names, kids[i][a]) == Some(i)
    ensures Walk(names, kids, ds, i, d, fuel) == None
    decreases fuel, 0, 0
  {
    if fuel > 0 {
      SelfLoopKids(names, kids, ds[i := d], i, a, 0, d + 1, fuel - 1);
    }
  }

  /** The child loop of that node, from its k-th child on, never completes:
      either an earlier child's walk fails or the a-th child's walk does. */
  lemma {:induction false} SelfLoopKids(names: seq<string>, kids: seq<seq<string>>, ds: seq<int>,
                                        i: nat, a: nat, k: nat, d: int, fuel: nat)
    requires Table(names, kids, ds) && i < |names|
    requires a < |kids[i]| && FirstNamed(names, kids[i][a]) == Some(i) && k <= a
    ensures WalkKids(names, kids, ds, kids[i], k, d, fuel) == None
    decreases fuel, 1, |kids[i]| - k
  {
    var cs := kids[i];
    if k == a {
      SelfLoopNeverCompletes(names, kids, ds, i, a, d, fuel);
    } else {
      match FirstNamed(names, cs[k])
      case None =>
        SelfLoopKids(names, kids, ds, i, a, k + 1, d, fuel);
      case Some(j) =>
        match Walk(names, kids, ds, j, d, fuel)
        case None =>
        case Some(ds') =>
          SelfLoopKids(names, kids, ds', i, a, k + 1, d, fuel);
    }
  }
}
