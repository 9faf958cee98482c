/** Connected-pair inference: which (context node, feature node) constraint
    combinations the activation mapping ties together. */
module Pairs {
  import opened Nodes

  /** A connected-pair record. */
  datatype Pair = Pair(parentContext: string, constraintContext: string, childrenContext: seq<string>,
                       parentFeature: string, constraintFeature: string, childrenFeature: seq<string>)

  /** The record of a context node and a feature node. Every record the
      inference emits has this shape, for one node of each tree. */
  function Record(con: CFMNode, fea: CFMNode): Pair
  {
    Pair(con.name, con.constraint, con.children, fea.name, fea.constraint, fea.children)
  }

  /** What the inference reads: the two node lists and the two flattened
      dictionaries (context name to feature names, feature name to context names). */
  datatype Env = Env(contexts: seq<CFMNode>, features: seq<CFMNode>,
                     flatContext: map<string, seq<string>>, flatFeature: map<string, seq<string>>)

  /** The records that a loop over xs adds to the set, f(x) for each x in turn. */
  function Union<T>(xs: seq<T>, f: T -> set<Pair>): set<Pair>
  {
    if xs == [] then {} else Union(xs[..|xs| - 1], f) + f(xs[|xs| - 1])
  }

  /** One more element of the list adds its set. */
  lemma UnionSnoc<T>(xs: seq<T>, i: nat, f: T -> set<Pair>)
    requires i < |xs|
    ensures Union(xs[..i + 1], f) == Union(xs[..i], f) + f(xs[i])
  {
    assert xs[..i + 1][..i] == xs[..i];
  }

  lemma {:induction false} UnionMember<T>(xs: seq<T>, f: T -> set<Pair>, p: Pair)
    ensures p in Union(xs, f) <==> exists k :: 0 <= k < |xs| && p in f(xs[k])
  {
    if xs != [] {
      var front := xs[..|xs| - 1];
      UnionMember(front, f, p);
      assert forall k :: 0 <= k < |front| ==> front[k] == xs[k];
    }
  }

  /** The two tests before any rule: both child names are flattened keys,
      and the mapping relates them in at least one direction. */
  predicate Interacts(e: Env, cc: string, ff: string)
  {
    cc in e.flatContext && ff in e.flatFeature
    && (ff in e.flatContext[cc] || cc in e.flatFeature[ff])
  }

  /** Loop body over the feature list: the record of C with every feature
      node named ff. */
  function WithFeatureNamed(C: CFMNode, ff: string): CFMNode -> set<Pair>
  {
    (fea: CFMNode) => if ff == fea.name then {Record(C, fea)} else {}
  }

  /** Loop body over the context list: the record of every context node
      named cc with F. */
  function WithContextNamed(cc: string, F: CFMNode): CFMNode -> set<Pair>
  {
    (con: CFMNode) => if cc == con.name then {Record(con, F)} else {}
  }

  /** Inner loop body of the nested feature/context loops. */
  function NamedPair(cc: string, ff: string, fea: CFMNode): CFMNode -> set<Pair>
  {
    (con: CFMNode) => if ff == fea.name && cc == con.name then {Record(con, fea)} else {}
  }

  function BothNamed(e: Env, cc: string, ff: string): CFMNode -> set<Pair>
  {
    (fea: CFMNode) => Union(e.contexts, NamedPair(cc, ff, fea))
  }

  /** The loop over the feature list keeps C's side and names ff on the other. */
  lemma {:induction false} FeatureNamedRecords(xs: seq<CFMNode>, C: CFMNode, ff: string)
    ensures forall p :: p in Union(xs, WithFeatureNamed(C, ff)) ==>
      p.parentContext == C.name && p.constraintContext == C.constraint
      && p.childrenContext == C.children && p.parentFeature == ff
  {
    if xs != [] {
      FeatureNamedRecords(xs[..|xs| - 1], C, ff);
    }
  }

  /** The loop over the context list names cc on one side and keeps F's on the other. */
  lemma {:induction false} ContextNamedRecords(xs: seq<CFMNode>, cc: string, F: CFMNode)
    ensures forall p :: p in Union(xs, WithContextNamed(cc, F)) ==>
      p.parentContext == cc && p.parentFeature == F.name
      && p.constraintFeature == F.constraint && p.childrenFeature == F.children
  {
    if xs != [] {
      ContextNamedRecords(xs[..|xs| - 1], cc, F);
    }
  }

  /** The nested loops name cc on one side and ff on the other. */
  lemma {:induction false} BothNamedRecords(e: Env, xs: seq<CFMNode>, cc: string, ff: string)
    ensures forall p :: p in Union(xs, BothNamed(e, cc, ff)) ==> p.parentContext == cc && p.parentFeature == ff
  {
    if xs != [] {
      BothNamedRecords(e, xs[..|xs| - 1], cc, ff);
      PairNamedRecords(e.contexts, cc, ff, xs[|xs| - 1]);
    }
  }

  lemma {:induction false} PairNamedRecords(xs: seq<CFMNode>, cc: string, ff: string, fea: CFMNode)
    ensures forall p :: p in Union(xs, NamedPair(cc, ff, fea)) ==> p.parentContext == cc && p.parentFeature == ff
  {
    if xs != [] {
      PairNamedRecords(xs[..|xs| - 1], cc, ff, fea);
    }
  }

  /** Rule 1: neither parent is a flattened key nor a root: the parents themselves. */
  function Rule1(e: Env, C: CFMNode, F: CFMNode): set<Pair>
  {
    if C.name !in e.flatContext && F.name !in e.flatFeature && C.name != ContextRoot && F.name != FeatureRoot
    then {Record(C, F)} else {}
  }

  /** Rule 2: the feature parent is a flattened key but the context parent is
      not: C with every feature node named ff. */
  function Rule2(e: Env, C: CFMNode, F: CFMNode, ff: string): set<Pair>
  {
    if C.name !in e.flatContext && F.name in e.flatFeature then Union(e.features, WithFeatureNamed(C, ff)) else {}
  }

  /** Rules 3 and 4, an if/elif. Rule 3: C hangs under the context root and
      is neither Alternative nor Or; then every node named cc is paired with
      every node named ff when F hangs under the feature root, and with F
      otherwise. Rule 4: F is the feature root itself and neither Alternative
      nor Or; then C is paired with every feature node named ff. */
  function Rule34(e: Env, C: CFMNode, F: CFMNode, cc: string, ff: string): set<Pair>
  {
    if C.parent == ContextRoot && C.constraint != Alternative && C.constraint != Or then
      if F.parent == FeatureRoot then Union(e.features, BothNamed(e, cc, ff))
      else Union(e.contexts, WithContextNamed(cc, F))
    else if F.name == FeatureRoot && F.constraint != Alternative && F.constraint != Or then
      Union(e.features, WithFeatureNamed(C, ff))
    else {}
  }

  /** The innermost loop body, for context C, feature F, child cc of C and child ff of F. */
  function Step(e: Env, C: CFMNode, F: CFMNode, cc: string, ff: string): set<Pair>
  {
    if Interacts(e, cc, ff) then Rule1(e, C, F) + Rule2(e, C, F, ff) + Rule34(e, C, F, cc, ff) else {}
  }

  /** Rule 2 keeps the whole context node and names ff on the feature side. */
  lemma Rule2Records(e: Env, C: CFMNode, F: CFMNode, ff: string)
    ensures forall p :: p in Rule2(e, C, F, ff) ==>
      p.parentContext == C.name && p.constraintContext == C.constraint
      && p.childrenContext == C.children && p.parentFeature == ff
  {
    FeatureNamedRecords(e.features, C, ff);
  }

  /** Rules 3 and 4 name, on each side, either the parent or its child. */
  lemma Rule34Records(e: Env, C: CFMNode, F: CFMNode, cc: string, ff: string)
    ensures forall p :: p in Rule34(e, C, F, cc, ff) ==>
      (p.parentContext == cc || p.parentContext == C.name) && (p.parentFeature == ff || p.parentFeature == F.name)
  {
    BothNamedRecords(e, e.features, cc, ff);
    ContextNamedRecords(e.contexts, cc, F);
    FeatureNamedRecords(e.features, C, ff);
  }

  /** One pass of the loop body emits records only for interacting children,
      and each record names, on each side, either the parent or that child. */
  lemma StepNames(e: Env, C: CFMNode, F: CFMNode, cc: string, ff: string)
    ensures Step(e, C, F, cc, ff) != {} ==> Interacts(e, cc, ff)
    ensures forall p :: p in Step(e, C, F, cc, ff) ==>
      (p.parentContext == cc || p.parentContext == C.name) && (p.parentFeature == ff || p.parentFeature == F.name)
  {
    Rule2Records(e, C, F, ff);
    Rule34Records(e, C, F, cc, ff);
  }

  function OverFeatureChildren(e: Env, C: CFMNode, F: CFMNode, cc: string): string -> set<Pair>
  {
    (ff: string) => Step(e, C, F, cc, ff)
  }

  function OverContextChildren(e: Env, C: CFMNode, F: CFMNode): string -> set<Pair>
  {
    (cc: string) => Union(F.children, OverFeatureChildren(e, C, F, cc))
  }

  function OverFeatures(e: Env, C: CFMNode): CFMNode -> set<Pair>
  {
    (F: CFMNode) => Union(C.children, OverContextChildren(e, C, F))
  }

  function OverContexts(e: Env): CFMNode -> set<Pair>
  {
    (C: CFMNode) => Union(e.features, OverFeatures(e, C))
  }

  /** Everything the four nested loops add to the set of connected pairs. */
  function ConnectedPairs(e: Env): set<Pair>
  {
    Union(e.contexts, OverContexts(e))
  }

  /** The record p comes out of the loops for the i-th context node, the
      j-th feature node, the a-th child of the one and the b-th child of the
      other; the shorter forms say how far down the loops p has been traced. */
  ghost predicate InContext(e: Env, p: Pair, i: nat)
  {
    i < |e.contexts| && p in OverContexts(e)(e.contexts[i])
  }

  ghost predicate InFeature(e: Env, p: Pair, i: nat, j: nat)
  {
    i < |e.contexts| && j < |e.features| && p in OverFeatures(e, e.contexts[i])(e.features[j])
  }

  ghost predicate InContextChild(e: Env, p: Pair, i: nat, j: nat, a: nat)
  {
    i < |e.contexts| && j < |e.features| && a < |e.contexts[i].children|
    && p in OverContextChildren(e, e.contexts[i], e.features[j])(e.contexts[i].children[a])
  }

  ghost predicate EmittedAt(e: Env, p: Pair, i: nat, j: nat, a: nat, b: nat)
  {
    i < |e.contexts| && j < |e.features|
    && a < |e.contexts[i].children| && b < |e.features[j].children|
    && p in Step(e, e.contexts[i], e.features[j], e.contexts[i].children[a], e.features[j].children[b])
  }

  lemma ContextLevel(e: Env, p: Pair)
    ensures p in ConnectedPairs(e) <==> exists i :: InContext(e, p, i)
  {
    UnionMember(e.contexts, OverContexts(e), p);
    if p in ConnectedPairs(e) {
      var i :| 0 <= i < |e.contexts| && p in OverContexts(e)(e.contexts[i]);
      assert InContext(e, p, i);
    }
  }

  lemma FeatureLevel(e: Env, p: Pair, i: nat)
    ensures InContext(e, p, i) <==> exists j :: InFeature(e, p, i, j)
  {
    if i < |e.contexts| {
      var C := e.contexts[i];
      UnionMember(e.features, OverFeatures(e, C), p);
      if InContext(e, p, i) {
        var j :| 0 <= j < |e.features| && p in OverFeatures(e, C)(e.features[j]);
        assert InFeature(e, p, i, j);
      }
    }
  }

  lemma ContextChildLevel(e: Env, p: Pair, i: nat, j: nat)
    ensures InFeature(e, p, i, j) <==> exists a :: InContextChild(e, p, i, j, a)
  {
    if i < |e.contexts| && j < |e.features| {
      var C, F := e.contexts[i], e.features[j];
      UnionMember(C.children, OverContextChildren(e, C, F), p);
      if InFeature(e, p, i, j) {
        var a :| 0 <= a < |C.children| && p in OverContextChildren(e, C, F)(C.children[a]);
        assert InContextChild(e, p, i, j, a);
      }
    }
  }

  lemma FeatureChildLevel(e: Env, p: Pair, i: nat, j: nat, a: nat)
    ensures InContextChild(e, p, i, j, a) <==> exists b :: EmittedAt(e, p, i, j, a, b)
  {
    if i < |e.contexts| && j < |e.features| && a < |e.contexts[i].children| {
      var C, F := e.contexts[i], e.features[j];
      UnionMember(F.children, OverFeatureChildren(e, C, F, C.children[a]), p);
      if InContextChild(e, p, i, j, a) {
        var b :| 0 <= b < |F.children| && p in OverFeatureChildren(e, C, F, C.children[a])(F.children[b]);
        assert EmittedAt(e, p, i, j, a, b);
      }
    }
  }

  /** The connected pairs are exactly what the loop body emits for some
      context, feature and children of each. */
  lemma ConnectedPairsMember(e: Env, p: Pair)
    ensures p in ConnectedPairs(e) <==> exists i, j, a, b :: EmittedAt(e, p, i, j, a, b)
  {
    ContextLevel(e, p);
    if p in ConnectedPairs(e) {
      var i :| InContext(e, p, i);
      FeatureLevel(e, p, i);
      var j :| InFeature(e, p, i, j);
      ContextChildLevel(e, p, i, j);
      var a :| InContextChild(e, p, i, j, a);
      FeatureChildLevel(e, p, i, j, a);
    }
    if exists i, j, a, b :: EmittedAt(e, p, i, j, a, b) {
      var i, j, a, b :| EmittedAt(e, p, i, j, a, b);
      FeatureChildLevel(e, p, i, j, a);
      ContextChildLevel(e, p, i, j);
      FeatureLevel(e, p, i);
    }
  }

  /** The children at (i, a) and (j, b) are flattened keys related by the mapping. */
  ghost predicate InteractingChildren(e: Env, i: nat, j: nat, a: nat, b: nat)
  {
    i < |e.contexts| && j < |e.features|
    && a < |e.contexts[i].children| && b < |e.features[j].children|
    && Interacts(e, e.contexts[i].children[a], e.features[j].children[b])
  }

  /** Every connected pair arises from a context C, a feature F, a child cc of
      C and a child ff of F that are both flattened keys related by the mapping. */
  lemma ConnectedPairsSound(e: Env, p: Pair)
    requires p in ConnectedPairs(e)
    ensures exists i, j, a, b :: EmittedAt(e, p, i, j, a, b) && InteractingChildren(e, i, j, a, b)
  {
    ConnectedPairsMember(e, p);
    var i, j, a, b :| EmittedAt(e, p, i, j, a, b);
    assert InteractingChildren(e, i, j, a, b);
  }

  /** p is the record of the m-th context node and the k-th feature node. */
  ghost predicate RecordAt(e: Env, p: Pair, m: nat, k: nat)
  {
    m < |e.contexts| && k < |e.features| && p == Record(e.contexts[m], e.features[k])
  }

  lemma FeatureNamesakeRecords(e: Env, p: Pair, i: nat, ff: string)
    requires i < |e.contexts| && p in Union(e.features, WithFeatureNamed(e.contexts[i], ff))
    ensures exists k :: RecordAt(e, p, i, k)
  {
    UnionMember(e.features, WithFeatureNamed(e.contexts[i], ff), p);
    var k :| 0 <= k < |e.features| && p in WithFeatureNamed(e.contexts[i], ff)(e.features[k]);
    assert RecordAt(e, p, i, k);
  }

  lemma ContextNamesakeRecords(e: Env, p: Pair, cc: string, j: nat)
    requires j < |e.features| && p in Union(e.contexts, WithContextNamed(cc, e.features[j]))
    ensures exists m :: RecordAt(e, p, m, j)
  {
    UnionMember(e.contexts, WithContextNamed(cc, e.features[j]), p);
    var m :| 0 <= m < |e.contexts| && p in WithContextNamed(cc, e.features[j])(e.contexts[m]);
    assert RecordAt(e, p, m, j);
  }

  lemma BothNamesakeRecords(e: Env, p: Pair, cc: string, ff: string)
    requires p in Union(e.features, BothNamed(e, cc, ff))
    ensures exists m, k :: RecordAt(e, p, m, k)
  {
    UnionMember(e.features, BothNamed(e, cc, ff), p);
    var k :| 0 <= k < |e.features| && p in BothNamed(e, cc, ff)(e.features[k]);
    UnionMember(e.contexts, NamedPair(cc, ff, e.features[k]), p);
    var m :| 0 <= m < |e.contexts| && p in NamedPair(cc, ff, e.features[k])(e.contexts[m]);
    assert RecordAt(e, p, m, k);
  }

  /** Whatever one pass of the loop body emits is the record of a context
      node and a feature node. */
  lemma StepRecords(e: Env, p: Pair, i: nat, j: nat, a: nat, b: nat)
    requires EmittedAt(e, p, i, j, a, b)
    ensures exists m, k :: RecordAt(e, p, m, k)
  {
    var C, F := e.contexts[i], e.features[j];
    var cc, ff := C.children[a], F.children[b];
    if p in Rule1(e, C, F) {
      assert RecordAt(e, p, i, j);
    } else if p in Rule2(e, C, F, ff) {
      FeatureNamesakeRecords(e, p, i, ff);
    } else if C.parent == ContextRoot && C.constraint != Alternative && C.constraint != Or {
      if F.parent == FeatureRoot {
        BothNamesakeRecords(e, p, cc, ff);
      } else {
        ContextNamesakeRecords(e, p, cc, j);
      }
    } else {
      FeatureNamesakeRecords(e, p, i, ff);
    }
  }

  /** Every connected pair is the record of one context node and one feature
      node: its names, constraints and children are those of real nodes. */
  lemma ConnectedPairsAreRecords(e: Env, p: Pair)
    requires p in ConnectedPairs(e)
    ensures exists m, k :: RecordAt(e, p, m, k)
  {
    ConnectedPairsMember(e, p);
    var i, j, a, b :| EmittedAt(e, p, i, j, a, b);
    StepRecords(e, p, i, j, a, b);
  }

  /** Rule 1 emits the parents' own record only when neither parent name is a
      flattened key and neither is a root name; and whenever that holds for
      an interacting pair of children, the record is among the connected pairs. */
  lemma Rule1Exactly(e: Env, i: nat, j: nat, a: nat, b: nat)
    requires i < |e.contexts| && j < |e.features|
    requires a < |e.contexts[i].children| && b < |e.features[j].children|
    requires Interacts(e, e.contexts[i].children[a], e.features[j].children[b])
    ensures Rule1(e, e.contexts[i], e.features[j]) != {} <==>
      e.contexts[i].name !in e.flatContext && e.features[j].name !in e.flatFeature
      && e.contexts[i].name != ContextRoot && e.features[j].name != FeatureRoot
    ensures Rule1(e, e.contexts[i], e.features[j]) != {} ==>
      Record(e.contexts[i], e.features[j]) in ConnectedPairs(e)
  {
    var p := Record(e.contexts[i], e.features[j]);
    if Rule1(e, e.contexts[i], e.features[j]) != {} {
      assert EmittedAt(e, p, i, j, a, b);
      ConnectedPairsMember(e, p);
    }
  }

  /** Re-resolution by name pairs C with EVERY feature node named ff, so a
      stub and the full node of one name both give a record. */
  lemma EveryNamesake(e: Env, C: CFMNode, ff: string, fea: CFMNode)
    requires fea in e.features && fea.name == ff
    ensures Record(C, fea) in Union(e.features, WithFeatureNamed(C, ff))
  {
    var k :| 0 <= k < |e.features| && e.features[k] == fea;
    UnionMember(e.features, WithFeatureNamed(C, ff), Record(C, fea));
  }
}
