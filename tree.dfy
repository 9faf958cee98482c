/** What the lines of a context or feature file contribute to the node lists.
    A line `parent/constraint/c1-c2-...` arrives split on '/' into a row. */
module Tree {
  import opened Strings
  import opened Errors
  import opened Nodes

  datatype Side = Contexts | Features

  /** The synthetic root of each tree, also the `parent` of every row-defined node. */
  function RootName(side: Side): string
  {
    if side == Contexts then ContextRoot else FeatureRoot
  }

  /** The `type` field given to the side's nodes. */
  function KindName(side: Side): string
  {
    if side == Contexts then "context" else "feature"
  }

  /** The constraint tokens a line may use, compared after lower-casing. */
  const Relationships: seq<string> := ["mandatory", "optional", "or", "alternative"]

  /** The fields a node is built with (all but depth and connections). */
  datatype NodeInfo = NodeInfo(name: string, kind: string, parent: string, constraint: string, children: seq<string>)

  function Info(n: CFMNode): NodeInfo
  {
    NodeInfo(n.name, n.kind, n.parent, n.constraint, n.children)
  }

  function Infos(ns: seq<CFMNode>): (r: seq<NodeInfo>)
    ensures |r| == |ns|
  {
    seq(|ns|, k requires 0 <= k < |ns| => Info(ns[k]))
  }

  lemma InfosAppend(a: seq<CFMNode>, b: seq<CFMNode>)
    ensures Infos(a + b) == Infos(a) + Infos(b)
  {
  }

  function NamesOf(ns: seq<NodeInfo>): (r: seq<string>)
    ensures |r| == |ns| && forall k :: 0 <= k < |ns| ==> r[k] == ns[k].name
  {
    seq(|ns|, k requires 0 <= k < |ns| => ns[k].name)
  }

  function ParentsOf(ns: seq<NodeInfo>): (r: seq<string>)
    ensures |r| == |ns| && forall k :: 0 <= k < |ns| ==> r[k] == ns[k].parent
  {
    seq(|ns|, k requires 0 <= k < |ns| => ns[k].parent)
  }

  function KidsOf(ns: seq<NodeInfo>): (r: seq<seq<string>>)
    ensures |r| == |ns| && forall k :: 0 <= k < |ns| ==> r[k] == ns[k].children
  {
    seq(|ns|, k requires 0 <= k < |ns| => ns[k].children)
  }

  /** The names of the nodes, as a set. */
  function NameSet(ns: seq<NodeInfo>): set<string>
  {
    if ns == [] then {} else NameSet(ns[..|ns| - 1]) + {ns[|ns| - 1].name}
  }

  /** The set holds exactly the names of the nodes. */
  lemma {:induction false} NameSetMembers(ns: seq<NodeInfo>)
    ensures forall s :: s in NameSet(ns) <==> exists k :: 0 <= k < |ns| && ns[k].name == s
  {
    if ns != [] {
      var front := ns[..|ns| - 1];
      NameSetMembers(front);
      assert forall k :: 0 <= k < |front| ==> front[k] == ns[k];
    }
  }

  lemma {:induction false} NameSetAppend(a: seq<NodeInfo>, b: seq<NodeInfo>)
    ensures NameSet(a + b) == NameSet(a) + NameSet(b)
    decreases |b|
  {
    if b != [] {
      var front := b[..|b| - 1];
      assert (a + b)[..|a + b| - 1] == a + front;
      NameSetAppend(a, front);
    } else {
      assert a + b == a;
    }
  }

  /** The checks the source makes of a row, in the order it makes them:
      reading the constraint column, matching it case-insensitively,
      then reading the children column. */
  function RowError(row: seq<string>): Option<Error>
  {
    if |row| < 2 then Some(MissingColumn(row))
    else if Lower(row[1]) !in Relationships then Some(BadRelationship(row))
    else if |row| < 3 then Some(MissingColumn(row))
    else None
  }

  /** The nodes one valid row appends: the parent, hung under the root with
      the row's children, then one childless stub per child, hung under the
      parent with the same verbatim constraint. */
  function RowNodes(row: seq<string>, side: Side): seq<NodeInfo>
    requires RowError(row) == None
  {
    var kids := Split(row[2], '-');
    [NodeInfo(row[0], KindName(side), RootName(side), row[1], kids)] + Stubs(kids, side, row[0], row[1])
  }

  /** One childless node per child name, under `parent` with `constraint`. */
  function Stubs(kids: seq<string>, side: Side, parent: string, constraint: string): (r: seq<NodeInfo>)
    ensures |r| == |kids|
  {
    seq(|kids|, k requires 0 <= k < |kids| => NodeInfo(kids[k], KindName(side), parent, constraint, []))
  }

  lemma StubsAt(kids: seq<string>, side: Side, parent: string, constraint: string)
    ensures forall k :: 0 <= k < |kids| ==>
      Stubs(kids, side, parent, constraint)[k] == NodeInfo(kids[k], KindName(side), parent, constraint, [])
  {
  }

  /** The nodes a whole file appends, or the error of its first bad row. */
  function FileNodes(rows: seq<seq<string>>, side: Side): Result<seq<NodeInfo>>
  {
    if rows == [] then Ok([])
    else
      var last := rows[|rows| - 1];
      match FileNodes(rows[..|rows| - 1], side)
      case Err(e) => Err(e)
      case Ok(ns) =>
        match RowError(last)
        case Some(e) => Err(e)
        case None => Ok(ns + RowNodes(last, side))
  }

  /** A row is accepted exactly when it has at least three columns and a known
      relationship up to case; an unknown relationship is reported as such
      whenever the constraint column exists, even if the children are missing. */
  lemma RowErrorChecks(row: seq<string>)
    ensures RowError(row).None? <==> |row| >= 3 && Lower(row[1]) in Relationships
    ensures RowError(row).Some? ==> RowError(row).value in {MissingColumn(row), BadRelationship(row)}
    ensures RowError(row) == Some(BadRelationship(row)) <==> |row| >= 2 && Lower(row[1]) !in Relationships
  {
  }

  /** A valid row appends its parent node, hung under the root with the
      split children, then one childless node per child under that parent;
      all carry the side's type and the row's constraint as written. */
  lemma RowNodesShape(row: seq<string>, side: Side)
    requires RowError(row) == None
    ensures var r := RowNodes(row, side);
      |r| == 1 + |Split(row[2], '-')|
      && r[0].name == row[0] && r[0].parent == RootName(side) && r[0].children == Split(row[2], '-')
      && (forall k :: 0 <= k < |r| ==> r[k].kind == KindName(side) && r[k].constraint == row[1])
      && (forall k :: 1 <= k < |r| ==> r[k].name == Split(row[2], '-')[k - 1] && r[k].parent == row[0] && r[k].children == [])
  {
    StubsAt(Split(row[2], '-'), side, row[0], row[1]);
  }

  /** Every accepted line appends at least its parent node; a rejected file
      fails on a missing column or an unknown relationship. */
  lemma {:induction false} FileNodesLength(rows: seq<seq<string>>, side: Side)
    ensures FileNodes(rows, side).Ok? ==> |FileNodes(rows, side).value| >= |rows|
    ensures FileNodes(rows, side).Err? ==>
      FileNodes(rows, side).error.MissingColumn? || FileNodes(rows, side).error.BadRelationship?
  {
    if rows != [] {
      FileNodesLength(rows[..|rows| - 1], side);
    }
  }

  /** The file read one row further. */
  lemma FileNodesSnoc(rows: seq<seq<string>>, r: nat, side: Side)
    requires r < |rows| && FileNodes(rows[..r], side).Ok?
    ensures FileNodes(rows[..r + 1], side) ==
      if RowError(rows[r]).Some? then Err(RowError(rows[r]).value)
      else Ok(FileNodes(rows[..r], side).value + RowNodes(rows[r], side))
  {
    assert rows[..r + 1][..r] == rows[..r];
  }

  /** Once a prefix of the file has failed, the file fails with the same error. */
  lemma {:induction false} FileNodesErrStops(rows: seq<seq<string>>, i: nat, side: Side)
    requires i <= |rows|
    requires FileNodes(rows[..i], side).Err?
    ensures FileNodes(rows, side) == FileNodes(rows[..i], side)
    decreases |rows| - i
  {
    if i < |rows| {
      assert rows[..i + 1][..i] == rows[..i];
      FileNodesErrStops(rows, i + 1, side);
    } else {
      assert rows[..i] == rows;
    }
  }

  /** A file is rejected exactly when one of its rows is bad, and then with
      the error of the first bad row. */
  lemma {:induction false} FileNodesError(rows: seq<seq<string>>, side: Side)
    ensures FileNodes(rows, side).Ok? <==> forall i :: 0 <= i < |rows| ==> RowError(rows[i]) == None
    ensures FileNodes(rows, side).Err? ==>
      exists i :: 0 <= i < |rows| && RowError(rows[i]) == Some(FileNodes(rows, side).error)
                  && forall j :: 0 <= j < i ==> RowError(rows[j]) == None
  {
    if rows != [] {
      var front := rows[..|rows| - 1];
      FileNodesError(front, side);
      assert forall i :: 0 <= i < |front| ==> front[i] == rows[i];
      if FileNodes(front, side).Err? {
        var i :| 0 <= i < |front| && RowError(front[i]) == Some(FileNodes(front, side).error)
                  && forall j :: 0 <= j < i ==> RowError(front[j]) == None;
        assert RowError(rows[i]) == Some(FileNodes(rows, side).error);
      } else if RowError(rows[|rows| - 1]).Some? {
        var i := |rows| - 1;
        assert RowError(rows[i]) == Some(FileNodes(rows, side).error);
      }
    }
  }

  /** Every node of an accepted file carries the side's kind and a constraint
      that is one of the four tokens up to case; every node with children
      hangs directly under the root; and every row's parent is such a node. */
  lemma {:induction false} FileNodesShape(rows: seq<seq<string>>, side: Side)
    requires FileNodes(rows, side).Ok?
    ensures forall n :: n in FileNodes(rows, side).value ==>
      n.kind == KindName(side) && Lower(n.constraint) in Relationships
      && (n.children != [] ==> n.parent == RootName(side))
    ensures forall i :: 0 <= i < |rows| ==>
      |rows[i]| >= 3
      && (exists n :: n in FileNodes(rows, side).value && n.name == rows[i][0]
                      && n.parent == RootName(side) && n.children == Split(rows[i][2], '-'))
  {
    FileNodesError(rows, side);
    if rows != [] {
      var front := rows[..|rows| - 1];
      var last := rows[|rows| - 1];
      FileNodesShape(front, side);
      var ns := FileNodes(front, side).value;
      var all := ns + RowNodes(last, side);
      assert FileNodes(rows, side).value == all;
      forall i | 0 <= i < |rows|
        ensures |rows[i]| >= 3
                && (exists n :: n in all && n.name == rows[i][0]
                                && n.parent == RootName(side) && n.children == Split(rows[i][2], '-'))
      {
        assert RowError(rows[i]) == None;
        if i < |front| {
          assert rows[i] == front[i];
          var n :| n in ns && n.name == front[i][0] && n.parent == RootName(side) && n.children == Split(front[i][2], '-');
          assert n in all;
        } else {
          assert all[|ns|] == RowNodes(last, side)[0];
        }
      }
    }
  }
}
