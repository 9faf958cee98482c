/** One element of the context tree or of the feature tree. */
module Nodes {

  /** The names of the two synthetic roots. */
  const ContextRoot: string := "Context"
  const FeatureRoot: string := "Feature"

  /** The constraint kinds, spelled as the rules compare them (case-sensitively). */
  const Mandatory: string := "Mandatory"
  const Optional: string := "Optional"
  const Or: string := "Or"
  const Alternative: string := "Alternative"

  /** A node of either tree. Only `depth` is changed after construction, by
      the depth pass; `connectedPairs` is built here and the other fields keep
      the values the node was built with. */
  class CFMNode {
    const name: string
    /** "context" or "feature" (the source's `type`). */
    const kind: string
    const parent: string
    /** "Alternative", "Or", "Optional" or "Mandatory", in whatever case the input used. */
    const constraint: string
    const children: seq<string>
    var depth: int
    /** Names of the partner-tree nodes this node is connected to. */
    var connectedPairs: seq<string>

    /** Stores every argument as given; `children` defaults to none and `depth`
        to 0. The root named "Context" starts connected to "Feature" and the
        root named "Feature" to "Context"; every other node starts unconnected. */
    constructor (name: string, kind: string, parent: string, constraint: string,
                 children: seq<string> := [], depth: int := 0)
      ensures this.name == name && this.kind == kind && this.parent == parent
      ensures this.constraint == constraint && this.children == children
      ensures this.depth == depth
      ensures name == ContextRoot ==> connectedPairs == [FeatureRoot]
      ensures name == FeatureRoot ==> connectedPairs == [ContextRoot]
      ensures name != ContextRoot && name != FeatureRoot ==> connectedPairs == []
    {
      this.name := name;
      this.kind := kind;
      this.parent := parent;
      this.constraint := constraint;
      this.children := children;
      this.depth := depth;
      this.connectedPairs := [];
      new;
      if name == ContextRoot {
        connectedPairs := connectedPairs + [FeatureRoot];
      } else if name == FeatureRoot {
        connectedPairs := connectedPairs + [ContextRoot];
      }
    }
  }
}
