/** The last pass over the schema graph (`finalizeSchemaGraph`): nodes are put in the
    order of their identities and every ref, in nodes and in details, is renumbered.
 */
module SchemaGraphFinal {
  import opened Wrappers
  import opened Ordering
  import opened SchemaEncoding
  import opened SchemaGraph

  datatype FinalNode = FinalNode(ordinal: nat, id: string, node: Node<nat>)

  /** The schema refs of a document, where they stand. */
  datatype Document = Document(operations: seq<OperationRefs>, schemaDetails: seq<nat>)

  datatype OperationRefs = OperationRefs(parameters: seq<nat>, requestMedia: seq<nat>, responses: seq<ResponseRefs>)

  datatype ResponseRefs = ResponseRefs(headers: seq<nat>, media: seq<nat>)

  function GraphOf(nodes: seq<FinalNode>): Graph
  {
    seq(|nodes|, i requires 0 <= i < |nodes| => nodes[i].node)
  }

  function IdsOf(nodes: seq<FinalNode>): seq<string>
  {
    seq(|nodes|, i requires 0 <= i < |nodes| => nodes[i].id)
  }

  /** `order` lists the drafts by identity and `remap` is its inverse. */
  ghost predicate Inverse(order: seq<nat>, remap: seq<nat>)
  {
    && |order| == |remap|
    && (forall k :: 0 <= k < |order| ==> order[k] < |remap| && remap[order[k]] == k)
    && (forall i :: 0 <= i < |remap| ==> remap[i] < |order| && order[remap[i]] == i)
  }

  /** Every ref is renumbered once, by the permutation that sorts the identities. */
  ghost predicate IsFinal(drafts: seq<Draft>, nodes: seq<FinalNode>, order: seq<nat>, remap: seq<nat>)
  {
    && |nodes| == |order| == |drafts|
    && Inverse(order, remap)
    && (forall i :: 0 <= i < |drafts| ==> ChildrenBelow(drafts[i].node, |remap|))
    && (forall i :: 0 <= i < |drafts| ==>
      nodes[remap[i]] == FinalNode(remap[i], drafts[i].id, Rename(drafts[i].node, remap)))
    && StrictlySorted(IdsOf(nodes))
  }

  // ---------------------------------------------------------------- the pass itself

  predicate IdLe(a: (string, nat), b: (string, nat))
  {
    LexLe(a.0, b.0)
  }

  lemma IdLeIsTotalPreorder()
    ensures TotalPreorder(IdLe)
  {
    forall a, b ensures IdLe(a, b) || IdLe(b, a) { LexTotal(a.0, b.0); }
    forall a, b, c | IdLe(a, b) && IdLe(b, c) ensures IdLe(a, c) { LexTransitive(a.0, b.0, c.0); }
  }

  function Keys(drafts: seq<Draft>): seq<(string, nat)>
  {
    seq(|drafts|, i requires 0 <= i < |drafts| => (drafts[i].id, i))
  }

  ghost predicate IdsDistinct(drafts: seq<Draft>)
  {
    forall i, j :: 0 <= i < |drafts| && 0 <= j < |drafts| && drafts[i].id == drafts[j].id ==> i == j
  }

  /** `order` lists every draft once, by identity. */
  ghost predicate IsOrder(drafts: seq<Draft>, order: seq<nat>)
  {
    && |order| == |drafts|
    && (forall k :: 0 <= k < |order| ==> order[k] < |drafts|)
    && (forall i :: 0 <= i < |drafts| ==> i in order)
    && (forall k, l :: 0 <= k < l < |order| ==>
      order[k] != order[l] && LexLess(drafts[order[k]].id, drafts[order[l]].id))
  }

  lemma {:induction false} SortGivesOrder(drafts: seq<Draft>, sorted: seq<(string, nat)>, order: seq<nat>)
    requires IdsDistinct(drafts) && sorted == Sort(IdLe, Keys(drafts))
    requires |order| == |sorted| && forall k :: 0 <= k < |sorted| ==> order[k] == sorted[k].1
    ensures IsOrder(drafts, order)
  {
    var keys := Keys(drafts);
    IdLeIsTotalPreorder();
    SortSorts(IdLe, keys);
    PermutationDistinct(keys, sorted);
    forall k | 0 <= k < |order| ensures order[k] < |drafts| && sorted[k] == keys[order[k]] {
      assert sorted[k] in multiset(keys);
    }
    forall i | 0 <= i < |drafts| ensures i in order {
      assert keys[i] in multiset(sorted);
      var k :| 0 <= k < |sorted| && sorted[k] == keys[i];
      assert order[k] == i;
    }
    forall k, l | 0 <= k < l < |order|
      ensures order[k] != order[l] && LexLess(drafts[order[k]].id, drafts[order[l]].id)
    {
      assert sorted[k] != sorted[l];
      assert IdLe(sorted[k], sorted[l]);
    }
  }

  /** Lines 188-198: the sorted order of the drafts and its inverse. */
  method Renumber(drafts: seq<Draft>) returns (order: seq<nat>, remap: seq<nat>)
    requires IdsDistinct(drafts)
    ensures IsOrder(drafts, order) && Inverse(order, remap)
  {
    var sorted := Sort(IdLe, Keys(drafts));
    order := seq(|sorted|, k requires 0 <= k < |sorted| => sorted[k].1);
    SortGivesOrder(drafts, sorted, order);
    remap := seq(|order|, _ => 0);
    for k := 0 to |order|
      invariant |remap| == |order|
      invariant forall l :: 0 <= l < k ==> remap[order[l]] == l
    {
      remap := remap[order[k] := k];
    }
    forall i | 0 <= i < |remap| ensures remap[i] < |order| && order[remap[i]] == i {
      assert i in order;
      var k :| 0 <= k < |order| && order[k] == i;
      assert remap[order[k]] == k;
    }
  }

  predicate RefsBelow(refs: seq<nat>, n: nat)
  {
    forall i :: 0 <= i < |refs| ==> refs[i] < n
  }

  predicate ResponseBelow(response: ResponseRefs, n: nat)
  {
    RefsBelow(response.headers, n) && RefsBelow(response.media, n)
  }

  predicate OperationBelow(operation: OperationRefs, n: nat)
  {
    && RefsBelow(operation.parameters, n)
    && RefsBelow(operation.requestMedia, n)
    && forall i :: 0 <= i < |operation.responses| ==> ResponseBelow(operation.responses[i], n)
  }

  predicate DocumentBelow(document: Document, n: nat)
  {
    && RefsBelow(document.schemaDetails, n)
    && forall i :: 0 <= i < |document.operations| ==> OperationBelow(document.operations[i], n)
  }

  function RenameRefs(refs: seq<nat>, remap: seq<nat>): seq<nat>
    requires RefsBelow(refs, |remap|)
  {
    seq(|refs|, i requires 0 <= i < |refs| => remap[refs[i]])
  }

  function RenameResponse(response: ResponseRefs, remap: seq<nat>): ResponseRefs
    requires ResponseBelow(response, |remap|)
  {
    ResponseRefs(RenameRefs(response.headers, remap), RenameRefs(response.media, remap))
  }

  function RenameOperation(operation: OperationRefs, remap: seq<nat>): OperationRefs
    requires OperationBelow(operation, |remap|)
  {
    OperationRefs(
      RenameRefs(operation.parameters, remap),
      RenameRefs(operation.requestMedia, remap),
      seq(|operation.responses|, i requires 0 <= i < |operation.responses| =>
        RenameResponse(operation.responses[i], remap)))
  }

  /** `finalizeSchemaGraph`. */
  method Finalize(drafts: seq<Draft>, document: Document)
    returns (nodes: seq<FinalNode>, renamed: Document, ghost order: seq<nat>, ghost remap: seq<nat>)
    requires IdsDistinct(drafts) && DocumentBelow(document, |drafts|)
    requires forall i :: 0 <= i < |drafts| ==> ChildrenBelow(drafts[i].node, |drafts|)
    ensures IsFinal(drafts, nodes, order, remap)
    ensures |renamed.operations| == |document.operations|
    ensures forall i :: 0 <= i < |document.operations| ==>
      renamed.operations[i] == RenameOperation(document.operations[i], remap)
    ensures renamed.schemaDetails == RenameRefs(document.schemaDetails, remap)
  {
    var byId, newRef := Renumber(drafts);
    order, remap := byId, newRef;
    nodes := [];
    for k := 0 to |byId|
      invariant |nodes| == k
      invariant forall l :: 0 <= l < k ==>
        nodes[l] == FinalNode(l, drafts[byId[l]].id, Rename(drafts[byId[l]].node, newRef))
    {
      var node := Rename(drafts[byId[k]].node, newRef);
      nodes := nodes + [FinalNode(k, drafts[byId[k]].id, node)];
    }
    assert StrictlySorted(IdsOf(nodes));
    var operations: seq<OperationRefs> := [];
    for i := 0 to |document.operations|
      invariant |operations| == i
      invariant forall j :: 0 <= j < i ==> operations[j] == RenameOperation(document.operations[j], newRef)
    {
      operations := operations + [RenameOperation(document.operations[i], newRef)];
    }
    renamed := Document(operations, RenameRefs(document.schemaDetails, newRef));
  }

  // ---------------------------------------------------------------- the pass in place

  /** The source does not copy refs: it overwrites them in the slices that drafts and details
      already share with the finished nodes. No two of these slices are the same. */
  ghost predicate Separate(slices: seq<array<nat>>)
  {
    forall i, j :: 0 <= i < |slices| && 0 <= j < |slices| && slices[i] == slices[j] ==> i == j
  }

  method RewriteSlice(slice: array<nat>, remap: seq<nat>)
    requires forall j :: 0 <= j < slice.Length ==> slice[j] < |remap|
    modifies slice
    ensures forall j :: 0 <= j < slice.Length ==> slice[j] == remap[old(slice[j])]
  {
    for j := 0 to slice.Length
      invariant forall h :: 0 <= h < j ==> slice[h] == remap[old(slice[h])]
      invariant forall h :: j <= h < slice.Length ==> slice[h] == old(slice[h])
    {
      slice[j] := remap[slice[j]];
    }
  }

  /** Lines 199-233: whatever the order in which the slices are visited, each once, every ref
      in every slice ends up renamed exactly once. */
  method RewriteSlices(slices: seq<array<nat>>, walk: seq<nat>, ghost back: seq<nat>, remap: seq<nat>)
    requires Separate(slices) && Inverse(walk, back) && |walk| == |slices|
    requires forall i, j :: 0 <= i < |slices| && 0 <= j < slices[i].Length ==> slices[i][j] < |remap|
    modifies slices
    ensures forall i, j :: 0 <= i < |slices| && 0 <= j < slices[i].Length ==> slices[i][j] == remap[old(slices[i][j])]
  {
    for k := 0 to |walk|
      invariant forall i, j :: 0 <= i < |slices| && 0 <= j < slices[i].Length && back[i] < k ==>
        slices[i][j] == remap[old(slices[i][j])]
      invariant forall i, j :: 0 <= i < |slices| && 0 <= j < slices[i].Length && back[i] >= k ==>
        slices[i][j] == old(slices[i][j])
    {
      assert back[walk[k]] == k;
      RewriteSlice(slices[walk[k]], remap);
    }
  }

  /** So a slice that held the child refs of a draft holds those of its finished node. */
  lemma {:induction false} RewrittenIsFinal(
    drafts: seq<Draft>, nodes: seq<FinalNode>, order: seq<nat>, remap: seq<nat>, i: nat)
    requires IsFinal(drafts, nodes, order, remap) && i < |drafts|
    ensures var d, f := drafts[i].node, nodes[remap[i]].node;
      && |f.properties| == |d.properties| && |f.items| == |d.items|
      && (forall j :: 0 <= j < |d.properties| ==> f.properties[j].child == remap[d.properties[j].child])
      && (forall j :: 0 <= j < |d.items| ==> f.items[j].child == remap[d.items[j].child])
  {
    assert ChildrenBelow(drafts[i].node, |remap|);
  }

  // ---------------------------------------------------------------- what the pass keeps

  lemma {:induction false} ConsistentIds(
    hasher: Hasher, drafts: seq<Draft>, byDigest: map<Digest, nat>, trees: seq<Schema>)
    requires Consistent(hasher, drafts, byDigest, trees)
    ensures IdsDistinct(drafts)
    ensures forall i :: 0 <= i < |drafts| ==> ChildrenBelow(drafts[i].node, |drafts|)
  {
    forall i, j | 0 <= i < |drafts| && 0 <= j < |drafts| && drafts[i].id == drafts[j].id ensures i == j {
      assert DraftOk(hasher, drafts, i) && DraftOk(hasher, drafts, j);
      NodeIdInjective(drafts[i].digest, drafts[j].digest);
      assert byDigest[drafts[i].digest] == i && byDigest[drafts[j].digest] == j;
    }
    forall i | 0 <= i < |drafts| ensures ChildrenBelow(drafts[i].node, |drafts|) {
      assert DraftOk(hasher, drafts, i);
    }
  }

  /** The renumbered ref of a draft unfolds to the draft's own tree. */
  lemma {:induction false} FinalUnfolds(
    hasher: Hasher, drafts: seq<Draft>, byDigest: map<Digest, nat>, trees: seq<Schema>,
    nodes: seq<FinalNode>, order: seq<nat>, remap: seq<nat>, i: nat)
    requires Consistent(hasher, drafts, byDigest, trees) && IsFinal(drafts, nodes, order, remap)
    requires i < |drafts|
    ensures Unfolds(GraphOf(nodes), remap[i], trees[i])
    decreases i
  {
    var g, t, n := GraphOf(nodes), trees[i], drafts[i].node;
    assert DraftOk(hasher, drafts, i) && Describes(n, t, trees);
    assert g[remap[i]] == Rename(n, remap);
    forall k | 0 <= k < |t.properties|
      ensures g[remap[i]].properties[k] == PropertyOf(k, t.properties[k], g[remap[i]].properties[k].child)
      ensures Unfolds(g, g[remap[i]].properties[k].child, t.properties[k].schema)
    {
      FinalUnfolds(hasher, drafts, byDigest, trees, nodes, order, remap, n.properties[k].child);
    }
    if t.items.Some? {
      FinalUnfolds(hasher, drafts, byDigest, trees, nodes, order, remap, n.items[0].child);
    }
  }

  /** Renumbering preserves meaning: the old ref and the new one unfold to the same trees. */
  lemma {:induction false} RenumberingPreservesMeaning(
    hasher: Hasher, drafts: seq<Draft>, byDigest: map<Digest, nat>, trees: seq<Schema>,
    nodes: seq<FinalNode>, order: seq<nat>, remap: seq<nat>, r: nat, t: Schema)
    requires Consistent(hasher, drafts, byDigest, trees) && IsFinal(drafts, nodes, order, remap)
    requires r < |drafts|
    ensures Unfolds(NodesOf(drafts), r, t) <==> Unfolds(GraphOf(nodes), remap[r], t)
  {
    RefsUnfold(hasher, drafts, byDigest, trees, r);
    FinalUnfolds(hasher, drafts, byDigest, trees, nodes, order, remap, r);
    if Unfolds(NodesOf(drafts), r, t) {
      UnfoldsOnce(NodesOf(drafts), r, t, trees[r]);
    }
    if Unfolds(GraphOf(nodes), remap[r], t) {
      UnfoldsOnce(GraphOf(nodes), remap[r], t, trees[r]);
    }
  }

  /** A rank that falls along every edge: the graph has no cycle. */
  ghost predicate RankedBy(g: Graph, rank: seq<nat>)
  {
    && |rank| == |g|
    && (forall k, i :: 0 <= k < |g| && 0 <= i < |g[k].properties| ==>
      g[k].properties[i].child < |g| && rank[g[k].properties[i].child] < rank[k])
    && (forall k, i :: 0 <= k < |g| && 0 <= i < |g[k].items| ==>
      g[k].items[i].child < |g| && rank[g[k].items[i].child] < rank[k])
  }

  /** The finished graph is acyclic: the interning order ranks its nodes. */
  lemma {:induction false} FinalAcyclic(
    hasher: Hasher, drafts: seq<Draft>, byDigest: map<Digest, nat>, trees: seq<Schema>,
    nodes: seq<FinalNode>, order: seq<nat>, remap: seq<nat>)
    requires Consistent(hasher, drafts, byDigest, trees) && IsFinal(drafts, nodes, order, remap)
    ensures RankedBy(GraphOf(nodes), order)
  {
    var g := GraphOf(nodes);
    forall k | 0 <= k < |g|
      ensures forall i :: 0 <= i < |g[k].properties| ==>
        g[k].properties[i].child < |g| && order[g[k].properties[i].child] < order[k]
      ensures forall i :: 0 <= i < |g[k].items| ==>
        g[k].items[i].child < |g| && order[g[k].items[i].child] < order[k]
    {
      assert nodes[remap[order[k]]] == FinalNode(k, drafts[order[k]].id, Rename(drafts[order[k]].node, remap));
      assert DraftOk(hasher, drafts, order[k]);
    }
  }

  // ---------------------------------------------------------------- independence of the order

  /** A digest depends on the tree alone, not on the builder that computed it. */
  lemma {:induction false} DigestOfTree(
    hasher: Hasher,
    drafts: seq<Draft>, byDigest: map<Digest, nat>, trees: seq<Schema>,
    drafts': seq<Draft>, byDigest': map<Digest, nat>, trees': seq<Schema>, i: nat, j: nat)
    requires Consistent(hasher, drafts, byDigest, trees) && Consistent(hasher, drafts', byDigest', trees')
    requires i < |drafts| && j < |drafts'| && trees[i] == trees'[j]
    ensures drafts[i].digest == drafts'[j].digest
    decreases i
  {
    var t, n, m := trees[i], drafts[i].node, drafts'[j].node;
    assert DraftOk(hasher, drafts, i) && Describes(n, t, trees);
    assert DraftOk(hasher, drafts', j) && Describes(m, t, trees');
    forall k | 0 <= k < |t.properties|
      ensures drafts[n.properties[k].child].digest == drafts'[m.properties[k].child].digest
    {
      DigestOfTree(hasher, drafts, byDigest, trees, drafts', byDigest', trees',
        n.properties[k].child, m.properties[k].child);
    }
    if t.items.Some? {
      DigestOfTree(hasher, drafts, byDigest, trees, drafts', byDigest', trees',
        n.items[0].child, m.items[0].child);
    }
    SameRename(n, trees, DigestsOf(drafts), m, trees', DigestsOf(drafts'), t);
  }

  lemma {:induction false} SameRename<S>(
    n: Node<nat>, trees: seq<Schema>, names: seq<S>,
    m: Node<nat>, trees': seq<Schema>, names': seq<S>, t: Schema)
    requires Describes(n, t, trees) && Describes(m, t, trees')
    requires ChildrenBelow(n, |names|) && ChildrenBelow(m, |names'|)
    requires forall k :: 0 <= k < |t.properties| ==> names[n.properties[k].child] == names'[m.properties[k].child]
    requires t.items.Some? ==> names[n.items[0].child] == names'[m.items[0].child]
    ensures Rename(n, names) == Rename(m, names')
  {
    var x, y := Rename(n, names), Rename(m, names');
    forall k | 0 <= k < |t.properties| ensures x.properties[k] == y.properties[k] {
      assert n.properties[k] == PropertyOf(k, t.properties[k], n.properties[k].child);
      assert m.properties[k] == PropertyOf(k, t.properties[k], m.properties[k].child);
    }
    assert x.properties == y.properties;
    assert x.items == y.items;
  }

  /** A finished build: the builder's state and the result of the last pass over it. */
  datatype Build = Build(
    drafts: seq<Draft>, byDigest: map<Digest, nat>, trees: seq<Schema>,
    nodes: seq<FinalNode>, order: seq<nat>, remap: seq<nat>)

  ghost predicate Finished(hasher: Hasher, b: Build)
  {
    Consistent(hasher, b.drafts, b.byDigest, b.trees) && IsFinal(b.drafts, b.nodes, b.order, b.remap)
  }

  ghost predicate SameSchemas(a: Build, b: Build)
  {
    forall t :: t in a.trees <==> t in b.trees
  }

  lemma {:induction false} IdCarries(hasher: Hasher, a: Build, b: Build, i: nat, j: nat)
    requires Finished(hasher, a) && Finished(hasher, b)
    requires i < |a.drafts| && j < |b.drafts| && a.trees[i] == b.trees[j]
    ensures IdsOf(a.nodes)[a.remap[i]] == IdsOf(b.nodes)[b.remap[j]]
  {
    DigestOfTree(hasher, a.drafts, a.byDigest, a.trees, b.drafts, b.byDigest, b.trees, i, j);
    assert DraftOk(hasher, a.drafts, i) && DraftOk(hasher, b.drafts, j);
    assert a.nodes[a.remap[i]].id == a.drafts[i].id && b.nodes[b.remap[j]].id == b.drafts[j].id;
  }

  lemma {:induction false} IdsIncluded(hasher: Hasher, a: Build, b: Build, k: nat)
    requires Finished(hasher, a) && Finished(hasher, b) && SameSchemas(a, b) && k < |a.nodes|
    ensures IdsOf(a.nodes)[k] in IdsOf(b.nodes)
  {
    var i := a.order[k];
    OrderAndBack(a, k);
    BuiltTogether(hasher, a);
    BuiltTogether(hasher, b);
    assert a.trees[i] in b.trees;
    var j := PlaceOf(a.trees[i], b.trees);
    IdCarries(hasher, a, b, i, j);
    assert IdsOf(b.nodes)[b.remap[j]] in IdsOf(b.nodes);
  }

  lemma {:induction false} OrderAndBack(a: Build, k: nat)
    requires IsFinal(a.drafts, a.nodes, a.order, a.remap) && k < |a.nodes|
    ensures k < |a.order| && a.order[k] < |a.drafts| == |a.remap| && a.remap[a.order[k]] == k
  {
  }

  lemma {:induction false} BuiltTogether(hasher: Hasher, a: Build)
    requires Finished(hasher, a)
    ensures |a.trees| == |a.drafts| == |a.remap| == |a.nodes| && forall i :: 0 <= i < |a.drafts| ==> a.remap[i] < |a.nodes|
  {
  }

  lemma {:induction false} SameIds(hasher: Hasher, a: Build, b: Build)
    requires Finished(hasher, a) && Finished(hasher, b) && SameSchemas(a, b)
    ensures IdsOf(a.nodes) == IdsOf(b.nodes)
  {
    forall s ensures s in IdsOf(a.nodes) <==> s in IdsOf(b.nodes) {
      if s in IdsOf(a.nodes) {
        var k :| 0 <= k < |a.nodes| && IdsOf(a.nodes)[k] == s;
        IdsIncluded(hasher, a, b, k);
      }
      if s in IdsOf(b.nodes) {
        var k :| 0 <= k < |b.nodes| && IdsOf(b.nodes)[k] == s;
        IdsIncluded(hasher, b, a, k);
      }
    }
    StrictlySortedUnique(IdsOf(a.nodes), IdsOf(b.nodes));
  }

  /** Two builds give a schema the same final ref. */
  lemma {:induction false} SameFinalRef(hasher: Hasher, a: Build, b: Build, i: nat, j: nat)
    requires Finished(hasher, a) && Finished(hasher, b) && SameSchemas(a, b)
    requires i < |a.drafts| && j < |b.drafts| && a.trees[i] == b.trees[j]
    ensures a.remap[i] == b.remap[j]
  {
    SameIds(hasher, a, b);
    IdCarries(hasher, a, b, i, j);
    var ids, x, y := IdsOf(a.nodes), a.remap[i], b.remap[j];
    assert ids[x] == ids[y];
    assert x < y ==> LexLess(ids[x], ids[y]);
    assert y < x ==> LexLess(ids[y], ids[x]);
  }

  /** The finished node list depends only on which schemas were interned. */
  lemma {:induction false} FinalNodesDependOnSchemasOnly(hasher: Hasher, a: Build, b: Build)
    requires Finished(hasher, a) && Finished(hasher, b) && SameSchemas(a, b)
    ensures a.nodes == b.nodes
  {
    SameIds(hasher, a, b);
    assert |IdsOf(a.nodes)| == |a.nodes| && |IdsOf(b.nodes)| == |b.nodes|;
    forall k | 0 <= k < |a.nodes| ensures a.nodes[k] == b.nodes[k] {
      SameFinalNode(hasher, a, b, k);
    }
  }

  lemma {:induction false} SameFinalNode(hasher: Hasher, a: Build, b: Build, k: nat)
    requires Finished(hasher, a) && Finished(hasher, b) && SameSchemas(a, b)
    requires k < |a.nodes| == |b.nodes|
    ensures a.nodes[k] == b.nodes[k]
  {
    var i := a.order[k];
    OrderAndBack(a, k);
    BuiltTogether(hasher, a);
    BuiltTogether(hasher, b);
    assert a.trees[i] in b.trees;
    var j := PlaceOf(a.trees[i], b.trees);
    SameFinalRef(hasher, a, b, i, j);
    IdCarries(hasher, a, b, i, j);
    SameFinalContent(hasher, a, b, i, j);
    assert a.nodes[a.remap[i]] == FinalNode(k, a.drafts[i].id, Rename(a.drafts[i].node, a.remap));
    assert b.nodes[b.remap[j]] == FinalNode(k, b.drafts[j].id, Rename(b.drafts[j].node, b.remap));
  }

  lemma {:induction false} SameFinalContent(hasher: Hasher, a: Build, b: Build, i: nat, j: nat)
    requires Finished(hasher, a) && Finished(hasher, b) && SameSchemas(a, b)
    requires i < |a.drafts| && j < |b.drafts| && a.trees[i] == b.trees[j]
    ensures Rename(a.drafts[i].node, a.remap) == Rename(b.drafts[j].node, b.remap)
  {
    var t, n, m := a.trees[i], a.drafts[i].node, b.drafts[j].node;
    assert Describes(n, t, a.trees) && Describes(m, t, b.trees);
    forall p | 0 <= p < |t.properties|
      ensures a.remap[n.properties[p].child] == b.remap[m.properties[p].child]
    {
      SameFinalRef(hasher, a, b, n.properties[p].child, m.properties[p].child);
    }
    if t.items.Some? {
      SameFinalRef(hasher, a, b, n.items[0].child, m.items[0].child);
    }
    SameRename(n, a.trees, a.remap, m, b.trees, b.remap, t);
  }

  /** Interning the same sources in any order, any number of times each, ends in the
      same node list and gives each source the same ref. */
  lemma {:induction false} InterningOrderIrrelevant(
    hasher: Hasher, canon: Canonicaliser, a: Build, b: Build,
    sources: seq<Schema>, refs: seq<nat>, sources': seq<Schema>, refs': seq<nat>)
    requires Finished(hasher, a) && Finished(hasher, b)
    requires HoldsExactly(a.trees, [], canon, sources) && HoldsExactly(b.trees, [], canon, sources')
    requires RefsDone(refs, a.trees, canon, sources, |sources|)
    requires RefsDone(refs', b.trees, canon, sources', |sources'|)
    requires forall s :: s in sources <==> s in sources'
    ensures a.nodes == b.nodes
    ensures forall i, j :: 0 <= i < |sources| && 0 <= j < |sources'| && sources[i] == sources'[j] ==>
      a.remap[refs[i]] == b.remap[refs'[j]]
  {
    forall t ensures t in a.trees <==> t in b.trees {
      FromSame(t, canon, sources, sources');
      FromSame(t, canon, sources', sources);
    }
    FinalNodesDependOnSchemasOnly(hasher, a, b);
    forall i, j | 0 <= i < |sources| && 0 <= j < |sources'| && sources[i] == sources'[j]
      ensures a.remap[refs[i]] == b.remap[refs'[j]]
    {
      SameFinalRef(hasher, a, b, refs[i], refs'[j]);
    }
  }

  lemma {:induction false} FromSame(t: Schema, canon: Canonicaliser, sources: seq<Schema>, sources': seq<Schema>)
    requires forall s :: s in sources ==> s in sources'
    ensures FromSources(t, canon, sources, |sources|) ==> FromSources(t, canon, sources', |sources'|)
  {
    FromSome(t, canon, sources, |sources|);
    FromSome(t, canon, sources', |sources'|);
    if k :| 0 <= k < |sources| && SubSchema(t, Canonical(canon, sources[k])) {
      assert sources[k] in sources';
      var l :| 0 <= l < |sources'| && sources'[l] == sources[k];
      assert SubSchema(t, Canonical(canon, sources'[l]));
    }
  }

  // ---------------------------------------------------------------- both passes together

  /** `nodes` and `refs` are what interning the sources and finishing the graph gave. */
  ghost predicate Compiled(
    hasher: Hasher, canon: Canonicaliser, sources: seq<Schema>, b: Build, drafted: seq<nat>, refs: seq<nat>)
  {
    && Finished(hasher, b)
    && HoldsExactly(b.trees, [], canon, sources) && RefsDone(drafted, b.trees, canon, sources, |sources|)
    && RefsBelow(drafted, |b.remap|) && refs == RenameRefs(drafted, b.remap)
  }

  /** Some finished build holds exactly the sources, with these nodes and refs. */
  ghost predicate IsCompiled(
    hasher: Hasher, canon: Canonicaliser, sources: seq<Schema>, nodes: seq<FinalNode>, refs: seq<nat>)
  {
    exists b, drafted :: Compiled(hasher, canon, sources, b, drafted, refs) && b.nodes == nodes
  }

  /** A whole build: a new builder, every source interned, the graph finished. */
  method CompileGraph(hash: Bytes -> Digest, canon: Canonicaliser, resourceLimits: bool, sources: seq<Schema>)
    returns (nodes: seq<FinalNode>, refs: seq<nat>, failure: Option<Failure>)
    ensures failure.None? <==> CanCompile(hash, canon, resourceLimits, sources)
    ensures failure.None? ==> IsCompiled(Hasher(Preimage, hash), canon, sources, nodes, refs)
  {
    var builder := new SchemaGraphBuilder(hash, canon, resourceLimits);
    var interned;
    interned, failure := builder.InternAll(sources);
    nodes, refs := [], [];
    if failure.Some? {
      ghost var s :| s in sources && Justified(
        failure.value, hash, canon, resourceLimits, builder.drafts, builder.edges, builder.trees, s);
      FailureIsEarned(
        builder.hasher, builder.drafts, builder.byDigest, builder.trees, builder.edges, resourceLimits,
        canon, sources, failure.value, s);
      return;
    }
    SuccessIsEarned(
      builder.hasher, builder.drafts, builder.byDigest, builder.trees, builder.edges, resourceLimits, canon, sources);
    ghost var order, remap;
    var document;
    ConsistentIds(builder.hasher, builder.drafts, builder.byDigest, builder.trees);
    nodes, document, order, remap := Finalize(builder.drafts, Document([], interned));
    refs := document.schemaDetails;
    ghost var b := Build(builder.drafts, builder.byDigest, builder.trees, nodes, order, remap);
    assert Compiled(builder.hasher, canon, sources, b, interned, refs);
  }

  /** A build gives every source a ref that unfolds to its canonical tree. */
  lemma {:induction false} CompiledUnfolds(
    hasher: Hasher, canon: Canonicaliser, sources: seq<Schema>, b: Build, drafted: seq<nat>, refs: seq<nat>, i: nat)
    requires Compiled(hasher, canon, sources, b, drafted, refs) && i < |sources|
    ensures Unfolds(GraphOf(b.nodes), refs[i], Canonical(canon, sources[i]))
  {
    FinalUnfolds(hasher, b.drafts, b.byDigest, b.trees, b.nodes, b.order, b.remap, drafted[i]);
  }

  /** Two compilations of the same sources, in any order and with any repetitions, give the
      same nodes; final refs are equal exactly for equal canonical trees, and unfold to them. */
  lemma {:induction false} CompilingIgnoresOrder(
    hasher: Hasher, canon: Canonicaliser, sources: seq<Schema>, nodes: seq<FinalNode>, refs: seq<nat>,
    sources': seq<Schema>, nodes': seq<FinalNode>, refs': seq<nat>)
    requires IsCompiled(hasher, canon, sources, nodes, refs) && IsCompiled(hasher, canon, sources', nodes', refs')
    requires forall s :: s in sources <==> s in sources'
    ensures nodes == nodes' && |refs| == |sources| && |refs'| == |sources'|
    ensures forall i :: 0 <= i < |sources| ==> Unfolds(GraphOf(nodes), refs[i], Canonical(canon, sources[i]))
    ensures forall i, j :: 0 <= i < |sources| && 0 <= j < |sources'| ==>
      (refs[i] == refs'[j] <==> Canonical(canon, sources[i]) == Canonical(canon, sources'[j]))
  {
    var b, drafted :| Compiled(hasher, canon, sources, b, drafted, refs) && b.nodes == nodes;
    var b', drafted' :| Compiled(hasher, canon, sources', b', drafted', refs') && b'.nodes == nodes';
    BuildsAgree(hasher, canon, sources, b, drafted, refs, sources', b', drafted', refs');
    forall i | 0 <= i < |sources| ensures Unfolds(GraphOf(nodes), refs[i], Canonical(canon, sources[i])) {
      CompiledUnfolds(hasher, canon, sources, b, drafted, refs, i);
    }
  }

  lemma {:induction false} BuildsAgree(
    hasher: Hasher, canon: Canonicaliser, sources: seq<Schema>, b: Build, drafted: seq<nat>, refs: seq<nat>,
    sources': seq<Schema>, b': Build, drafted': seq<nat>, refs': seq<nat>)
    requires Compiled(hasher, canon, sources, b, drafted, refs) && Compiled(hasher, canon, sources', b', drafted', refs')
    requires forall s :: s in sources <==> s in sources'
    ensures b.nodes == b'.nodes
    ensures forall i, j :: 0 <= i < |sources| && 0 <= j < |sources'| ==>
      (refs[i] == refs'[j] <==> Canonical(canon, sources[i]) == Canonical(canon, sources'[j]))
  {
    InterningOrderIrrelevant(hasher, canon, b, b', sources, drafted, sources', drafted');
    forall i, j | 0 <= i < |sources| && 0 <= j < |sources'|
      ensures refs[i] == refs'[j] <==> Canonical(canon, sources[i]) == Canonical(canon, sources'[j])
    {
      var t, u := Canonical(canon, sources[i]), Canonical(canon, sources'[j]);
      CompiledUnfolds(hasher, canon, sources, b, drafted, refs, i);
      CompiledUnfolds(hasher, canon, sources', b', drafted', refs', j);
      if refs[i] == refs'[j] {
        UnfoldsOnce(GraphOf(b.nodes), refs[i], t, u);
      }
      if t == u {
        SameBuildSchemas(hasher, canon, sources, b, sources', b');
        SameFinalRef(hasher, b, b', drafted[i], drafted'[j]);
      }
    }
  }

  lemma {:induction false} SameBuildSchemas(
    hasher: Hasher, canon: Canonicaliser, sources: seq<Schema>, b: Build, sources': seq<Schema>, b': Build)
    requires HoldsExactly(b.trees, [], canon, sources) && HoldsExactly(b'.trees, [], canon, sources')
    requires forall s :: s in sources <==> s in sources'
    ensures SameSchemas(b, b')
  {
    forall t ensures t in b.trees <==> t in b'.trees {
      FromSame(t, canon, sources, sources');
      FromSame(t, canon, sources', sources);
    }
  }
}
