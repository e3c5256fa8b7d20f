/** Hash-consing of schema trees (application/projection/schema_graph.go): every
    interned schema becomes a node of a shared graph keyed by a Merkle digest.

    The hash function is an arbitrary function: nothing below assumes that it is
    free of collisions.
 */
module SchemaGraph {
  import opened Wrappers
  import opened Ordering
  import opened SchemaEncoding

  /** How a node gets its digest: its preimage is encoded, then hashed. */
  datatype Hasher = Hasher(encode: Node<Digest> -> Bytes, hash: Bytes -> Digest)

  type Canonicaliser = Text -> Option<Text>
  type Graph = seq<Node<nat>>

  const MAX_NODES := 100_000
  const MAX_EDGES := 100_000

  datatype Failure = InvalidJson | DuplicateRecord | HashCollision | NodeBudget | EdgeBudget

  datatype Result = Ok(ref: nat) | Err(failure: Failure)

  // ---------------------------------------------------------------- source schemas

  /** Every embedded JSON text of the schema has a canonical form. */
  predicate JsonAccepted(canon: Canonicaliser, s: Schema)
  {
    && (s.facts.json != [] ==> canon(s.facts.json).Some?)
    && (forall i :: 0 <= i < |s.properties| ==> JsonAccepted(canon, s.properties[i].schema))
    && (s.items.Some? ==> JsonAccepted(canon, s.items.value))
  }

  /** No schema in the tree has two properties of the same name. */
  predicate NamesDistinct(s: Schema)
  {
    && (forall i, j :: 0 <= i < j < |s.properties| ==> s.properties[i].name != s.properties[j].name)
    && (forall i :: 0 <= i < |s.properties| ==> NamesDistinct(s.properties[i].schema))
    && (s.items.Some? ==> NamesDistinct(s.items.value))
  }

  function CanonicalJson(canon: Canonicaliser, json: Text): Text
  {
    if json == [] then []
    else match canon(json) case Some(c) => c case None => []
  }

  /** The schema with each embedded JSON text replaced by its canonical form. */
  function Canonical(canon: Canonicaliser, s: Schema): Schema
  {
    Schema(
      s.facts.(json := CanonicalJson(canon, s.facts.json)),
      seq(|s.properties|, i requires 0 <= i < |s.properties| =>
        s.properties[i].(schema := Canonical(canon, s.properties[i].schema))),
      match s.items case None => None case Some(t) => Some(Canonical(canon, t)))
  }

  /** The schemas agree on everything but the spelling of embedded JSON. */
  ghost predicate SameButForSpelling(canon: Canonicaliser, a: Schema, b: Schema)
    decreases a
  {
    && a.facts == b.facts.(json := a.facts.json)
    && CanonicalJson(canon, a.facts.json) == CanonicalJson(canon, b.facts.json)
    && |a.properties| == |b.properties|
    && (forall i :: 0 <= i < |a.properties| ==>
      && a.properties[i] == b.properties[i].(schema := a.properties[i].schema)
      && SameButForSpelling(canon, a.properties[i].schema, b.properties[i].schema))
    && (a.items.Some? <==> b.items.Some?)
    && (a.items.Some? ==> SameButForSpelling(canon, a.items.value, b.items.value))
  }

  /** Two schemas have one canonical tree exactly if they differ in no more than that. */
  lemma {:induction false} OneTreeIff(canon: Canonicaliser, a: Schema, b: Schema)
    ensures Canonical(canon, a) == Canonical(canon, b) <==> SameButForSpelling(canon, a, b)
    decreases a
  {
    var c, d := Canonical(canon, a), Canonical(canon, b);
    forall i | 0 <= i < |a.properties| && i < |b.properties|
      ensures c.properties[i].schema == d.properties[i].schema <==>
        SameButForSpelling(canon, a.properties[i].schema, b.properties[i].schema)
      ensures c.properties[i] == d.properties[i] <==>
        && a.properties[i] == b.properties[i].(schema := a.properties[i].schema)
        && c.properties[i].schema == d.properties[i].schema
    {
      OneTreeIff(canon, a.properties[i].schema, b.properties[i].schema);
    }
    if a.items.Some? && b.items.Some? {
      OneTreeIff(canon, a.items.value, b.items.value);
    }
    assert c.properties == d.properties <==>
      |a.properties| == |b.properties| && forall i :: 0 <= i < |a.properties| ==> c.properties[i] == d.properties[i];
  }

  /** Where embedded JSON is in canonical form already, the tree is the schema itself. */
  lemma {:induction false} CanonicalIsItself(canon: Canonicaliser, s: Schema)
    requires forall u :: SubSchema(u, s) ==> u.facts.json == [] || canon(u.facts.json) == Some(u.facts.json)
    ensures Canonical(canon, s) == s
    decreases s
  {
    var c := Canonical(canon, s);
    assert SubSchema(s, s);
    forall i | 0 <= i < |s.properties| ensures c.properties[i] == s.properties[i] {
      CanonicalIsItself(canon, s.properties[i].schema);
    }
    if s.items.Some? {
      CanonicalIsItself(canon, s.items.value);
    }
    assert c.properties == s.properties;
  }

  /** `u` is `t` or one of the schemas nested in it. */
  ghost predicate SubSchema(u: Schema, t: Schema)
    decreases t
  {
    || u == t
    || (exists i :: 0 <= i < |t.properties| && SubSchema(u, t.properties[i].schema))
    || (t.items.Some? && SubSchema(u, t.items.value))
  }

  function OutDegree(t: Schema): nat
  {
    |t.properties| + if t.items.Some? then 1 else 0
  }

  // ---------------------------------------------------------------- meaning of the graph

  function PropertyOf(index: nat, source: Property, child: nat): NodeProperty<nat>
  {
    NodeProperty(index % UINT32, source.name, source.name, source.required, source.description, child)
  }

  /** Unfolding `g` from `ref` gives exactly the tree `t`. */
  ghost predicate Unfolds(g: Graph, ref: nat, t: Schema)
    decreases t
  {
    && ref < |g|
    && g[ref].facts == t.facts
    && |g[ref].properties| == |t.properties|
    && (forall i :: 0 <= i < |t.properties| ==>
      && g[ref].properties[i] == PropertyOf(i, t.properties[i], g[ref].properties[i].child)
      && Unfolds(g, g[ref].properties[i].child, t.properties[i].schema))
    && match t.items {
      case None => g[ref].items == []
      case Some(u) =>
        && |g[ref].items| == 1
        && g[ref].items[0] == NodeItem(0, ITEMS_ID, g[ref].items[0].child)
        && Unfolds(g, g[ref].items[0].child, u)
    }
  }

  /** A ref unfolds to at most one tree. */
  lemma {:induction false} UnfoldsOnce(g: Graph, ref: nat, t: Schema, u: Schema)
    requires Unfolds(g, ref, t) && Unfolds(g, ref, u)
    ensures t == u
    decreases t
  {
    forall i | 0 <= i < |t.properties| ensures t.properties[i] == u.properties[i] {
      var c := g[ref].properties[i].child;
      assert PropertyOf(i, t.properties[i], c) == PropertyOf(i, u.properties[i], c);
      UnfoldsOnce(g, c, t.properties[i].schema, u.properties[i].schema);
    }
    assert t.properties == u.properties;
    assert t.items.Some? <==> u.items.Some?;
    if t.items.Some? {
      UnfoldsOnce(g, g[ref].items[0].child, t.items.value, u.items.value);
    }
  }

  // ---------------------------------------------------------------- the builder's state

  datatype Draft = Draft(digest: Digest, preimage: Bytes, id: string, node: Node<nat>)

  predicate ChildrenBelow(node: Node<nat>, n: nat)
  {
    && (forall i :: 0 <= i < |node.properties| ==> node.properties[i].child < n)
    && (forall i :: 0 <= i < |node.items| ==> node.items[i].child < n)
  }

  /** The node with each child ref replaced by the name that `names` gives it. */
  function Rename<S>(node: Node<nat>, names: seq<S>): (renamed: Node<S>)
    requires ChildrenBelow(node, |names|)
  {
    Node(
      node.facts,
      seq(|node.properties|, i requires 0 <= i < |node.properties| =>
        var p := node.properties[i];
        NodeProperty(p.ordinal, p.id, p.name, p.required, p.description, names[p.child])),
      seq(|node.items|, i requires 0 <= i < |node.items| =>
        NodeItem(node.items[i].ordinal, node.items[i].id, names[node.items[i].child])))
  }

  function DigestsOf(drafts: seq<Draft>): seq<Digest>
  {
    seq(|drafts|, i requires 0 <= i < |drafts| => drafts[i].digest)
  }

  function NodesOf(drafts: seq<Draft>): Graph
  {
    seq(|drafts|, i requires 0 <= i < |drafts| => drafts[i].node)
  }

  function HexDigit(n: nat): char
    requires n < 16
  {
    "0123456789abcdef"[n]
  }

  function Hex(b: Bytes): string
  {
    if b == [] then ""
    else HexByte(b[0]) + Hex(b[1..])
  }

  function NodeId(digest: Digest): string
  {
    "schema-node-" + Hex(digest)
  }

  function TotalDegree(drafts: seq<Draft>): nat
  {
    if drafts == [] then 0
    else
      var last := drafts[|drafts| - 1].node;
      TotalDegree(drafts[..|drafts| - 1]) + |last.properties| + |last.items|
  }

  /** Node `node` is the top of tree `t`, its children being the nodes of the trees
      nested directly in `t`. */
  ghost predicate Describes(node: Node<nat>, t: Schema, trees: seq<Schema>)
  {
    && node.facts == t.facts
    && |node.properties| == |t.properties|
    && (forall i :: 0 <= i < |t.properties| ==>
      && node.properties[i] == PropertyOf(i, t.properties[i], node.properties[i].child)
      && node.properties[i].child < |trees|
      && trees[node.properties[i].child] == t.properties[i].schema)
    && match t.items {
      case None => node.items == []
      case Some(u) =>
        && |node.items| == 1
        && node.items[0] == NodeItem(0, ITEMS_ID, node.items[0].child)
        && node.items[0].child < |trees|
        && trees[node.items[0].child] == u
    }
  }

  /** Draft `i` was hashed from its own content and from the digests of earlier drafts. */
  ghost predicate DraftOk(hasher: Hasher, drafts: seq<Draft>, i: nat)
    requires i < |drafts|
  {
    var d := drafts[i];
    && ChildrenBelow(d.node, i)
    && d.preimage == hasher.encode(Rename(d.node, DigestsOf(drafts)))
    && d.digest == hasher.hash(d.preimage)
    && d.id == NodeId(d.digest)
  }

  ghost predicate IndexOk(drafts: seq<Draft>, byDigest: map<Digest, nat>)
  {
    && (forall i :: 0 <= i < |drafts| ==> drafts[i].digest in byDigest && byDigest[drafts[i].digest] == i)
    && (forall d :: d in byDigest ==> byDigest[d] < |drafts| && drafts[byDigest[d]].digest == d)
  }

  /** `draft` was made for tree `t` when `drafts` were the drafts of `trees`. */
  ghost predicate MadeFor(hasher: Hasher, drafts: seq<Draft>, trees: seq<Schema>, draft: Draft, t: Schema)
  {
    && Describes(draft.node, t, trees)
    && ChildrenBelow(draft.node, |drafts|)
    && draft.preimage == hasher.encode(Rename(draft.node, DigestsOf(drafts)))
    && draft.digest == hasher.hash(draft.preimage)
    && draft.id == NodeId(draft.digest)
  }

  /** The drafts are the drafts of `trees`. */
  ghost predicate Built(hasher: Hasher, drafts: seq<Draft>, trees: seq<Schema>)
  {
    && |drafts| == |trees|
    && (forall i {:trigger DraftOk(hasher, drafts, i)} :: 0 <= i < |drafts| ==> DraftOk(hasher, drafts, i))
    && (forall i {:trigger Describes(drafts[i].node, trees[i], trees)} :: 0 <= i < |drafts| ==>
      Describes(drafts[i].node, trees[i], trees))
  }

  /** What every interning step keeps: `trees[i]` is the tree of draft `i`. */
  ghost predicate Consistent(hasher: Hasher, drafts: seq<Draft>, byDigest: map<Digest, nat>, trees: seq<Schema>)
  {
    Built(hasher, drafts, trees) && IndexOk(drafts, byDigest)
  }

  ghost predicate WithinBudget(limits: bool, drafts: seq<Draft>, edges: nat)
  {
    edges == TotalDegree(drafts) && (limits ==> |drafts| <= MAX_NODES && edges <= MAX_EDGES)
  }

  // ---------------------------------------------------------------- refs and trees

  lemma {:induction false} RenameGrows<S>(node: Node<nat>, names: seq<S>, more: seq<S>)
    requires ChildrenBelow(node, |names|) && names <= more
    ensures Rename(node, names) == Rename(node, more)
  {
    assert Rename(node, names).properties == Rename(node, more).properties;
    assert Rename(node, names).items == Rename(node, more).items;
  }

  function HexByte(b: Byte): string
  {
    [HexDigit(b as nat / 16), HexDigit(b as nat % 16)]
  }

  lemma {:induction false} HexByteInjective(a: Byte, b: Byte)
    requires HexByte(a) == HexByte(b)
    ensures a == b
  {
    assert HexByte(a)[0] == HexByte(b)[0] && HexByte(a)[1] == HexByte(b)[1];
    HexDigitInjective(a as nat / 16, b as nat / 16);
    HexDigitInjective(a as nat % 16, b as nat % 16);
  }

  lemma {:induction false} HexDigitInjective(n: nat, m: nat)
    requires n < 16 && m < 16 && HexDigit(n) == HexDigit(m)
    ensures n == m
  {
  }

  lemma {:induction false} HexInjective(a: Bytes, b: Bytes)
    requires Hex(a) == Hex(b)
    ensures a == b
  {
    if a != [] {
      assert b != [];
      assert HexByte(a[0]) == Hex(a)[..2] && HexByte(b[0]) == Hex(b)[..2];
      HexByteInjective(a[0], b[0]);
      assert Hex(a)[2..] == Hex(a[1..]) && Hex(b)[2..] == Hex(b[1..]);
      HexInjective(a[1..], b[1..]);
      assert a == [a[0]] + a[1..] && b == [b[0]] + b[1..];
    }
  }

  lemma {:induction false} NodeIdInjective(a: Digest, b: Digest)
    requires NodeId(a) == NodeId(b)
    ensures a == b
  {
    assert NodeId(a)[|"schema-node-"|..] == Hex(a);
    assert NodeId(b)[|"schema-node-"|..] == Hex(b);
    HexInjective(a, b);
  }

  /** Nodes that describe the same tree are equal once equal trees have equal refs. */
  lemma {:induction false} DescribesSame(n: Node<nat>, m: Node<nat>, t: Schema, trees: seq<Schema>)
    requires Describes(n, t, trees) && Describes(m, t, trees)
    requires forall i :: 0 <= i < |t.properties| ==> n.properties[i].child == m.properties[i].child
    requires t.items.Some? ==> n.items[0].child == m.items[0].child
    ensures n == m
  {
    assert n.properties == m.properties;
    assert n.items == m.items;
  }

  /** Equal trees are never interned twice. */
  lemma {:induction false} TreesDistinct(
    hasher: Hasher, drafts: seq<Draft>, byDigest: map<Digest, nat>, trees: seq<Schema>, i: nat, j: nat)
    requires Consistent(hasher, drafts, byDigest, trees)
    requires i < |drafts| && j < |drafts| && trees[i] == trees[j]
    ensures i == j
    decreases i
  {
    var t, n, m := trees[i], drafts[i].node, drafts[j].node;
    assert DraftOk(hasher, drafts, i) && Describes(drafts[i].node, trees[i], trees);
    assert DraftOk(hasher, drafts, j) && Describes(drafts[j].node, trees[j], trees);
    forall k | 0 <= k < |t.properties| ensures n.properties[k].child == m.properties[k].child {
      TreesDistinct(hasher, drafts, byDigest, trees, n.properties[k].child, m.properties[k].child);
    }
    if t.items.Some? {
      TreesDistinct(hasher, drafts, byDigest, trees, n.items[0].child, m.items[0].child);
    }
    DescribesSame(n, m, t, trees);
  }

  /** Each interned ref unfolds to its tree, and to no other. */
  lemma {:induction false} RefsUnfold(
    hasher: Hasher, drafts: seq<Draft>, byDigest: map<Digest, nat>, trees: seq<Schema>, i: nat)
    requires Consistent(hasher, drafts, byDigest, trees) && i < |drafts|
    ensures Unfolds(NodesOf(drafts), i, trees[i])
    decreases i
  {
    var t, n := trees[i], drafts[i].node;
    assert DraftOk(hasher, drafts, i) && Describes(drafts[i].node, trees[i], trees);
    forall k | 0 <= k < |t.properties|
      ensures Unfolds(NodesOf(drafts), n.properties[k].child, t.properties[k].schema)
    {
      RefsUnfold(hasher, drafts, byDigest, trees, n.properties[k].child);
    }
    if t.items.Some? {
      RefsUnfold(hasher, drafts, byDigest, trees, n.items[0].child);
    }
  }

  /** Two refs are equal exactly when they unfold to equal trees. */
  lemma {:induction false} SameRefIffSameTree(
    hasher: Hasher, drafts: seq<Draft>, byDigest: map<Digest, nat>, trees: seq<Schema>,
    r: nat, q: nat, t: Schema, u: Schema)
    requires Consistent(hasher, drafts, byDigest, trees)
    requires Unfolds(NodesOf(drafts), r, t) && Unfolds(NodesOf(drafts), q, u)
    ensures r == q <==> t == u
  {
    RefsUnfold(hasher, drafts, byDigest, trees, r);
    RefsUnfold(hasher, drafts, byDigest, trees, q);
    UnfoldsOnce(NodesOf(drafts), r, t, trees[r]);
    UnfoldsOnce(NodesOf(drafts), q, u, trees[q]);
    if t == u {
      TreesDistinct(hasher, drafts, byDigest, trees, r, q);
    }
  }

  /** Every schema nested in an interned schema is interned too. */
  lemma {:induction false} SubSchemasInterned(
    hasher: Hasher, drafts: seq<Draft>, trees: seq<Schema>, i: nat, u: Schema)
    requires Built(hasher, drafts, trees) && i < |trees| && SubSchema(u, trees[i])
    ensures u in trees
    decreases trees[i]
  {
    var t, n := trees[i], drafts[i].node;
    assert DraftOk(hasher, drafts, i) && Describes(drafts[i].node, trees[i], trees);
    if u != t {
      if k :| 0 <= k < |t.properties| && SubSchema(u, t.properties[k].schema) {
        SubSchemasInterned(hasher, drafts, trees, n.properties[k].child, u);
      } else {
        SubSchemasInterned(hasher, drafts, trees, n.items[0].child, u);
      }
    }
  }

  // ---------------------------------------------------------------- one interning step

  lemma {:induction false} RenameInjective(n: Node<nat>, m: Node<nat>, names: seq<Digest>)
    requires ChildrenBelow(n, |names|) && ChildrenBelow(m, |names|)
    requires Distinct(names)
    requires Rename(n, names) == Rename(m, names)
    ensures n == m
  {
    var x, y := Rename(n, names), Rename(m, names);
    assert |x.properties| == |n.properties| && |y.properties| == |m.properties|;
    forall i | 0 <= i < |n.properties| ensures n.properties[i] == m.properties[i] {
      assert x.properties[i] == y.properties[i];
    }
    assert |x.items| == |n.items| && |y.items| == |m.items|;
    forall i | 0 <= i < |n.items| ensures n.items[i] == m.items[i] {
      assert x.items[i] == y.items[i];
    }
    assert n.properties == m.properties && n.items == m.items;
  }

  lemma {:induction false} DescribesNarrow(n: Node<nat>, t: Schema, trees: seq<Schema>)
    requires Describes(n, t, trees)
    ensures NarrowOrdinals(n) && ChildrenBelow(n, |trees|)
    ensures |n.properties| + |n.items| == OutDegree(t)
  {
  }

  /** A digest already in use for the same preimage belongs to the same tree: this is
      where the injectivity of the preimage replaces any assumption on the hash. */
  lemma {:induction false} HitIsSameTree(
    hasher: Hasher, drafts: seq<Draft>, byDigest: map<Digest, nat>, trees: seq<Schema>,
    node: Node<nat>, t: Schema, k: nat)
    requires Consistent(hasher, drafts, byDigest, trees) && k < |drafts|
    requires Describes(node, t, trees) && ChildrenBelow(node, |drafts|)
    requires drafts[k].preimage == hasher.encode(Rename(node, DigestsOf(drafts)))
    requires hasher.encode == Preimage
    ensures trees[k] == t
  {
    var other := drafts[k].node;
    assert DraftOk(hasher, drafts, k) && Describes(drafts[k].node, trees[k], trees);
    DescribesNarrow(node, t, trees);
    DescribesNarrow(other, trees[k], trees);
    DigestsDistinct(drafts, byDigest);
    SamePreimageSameNode(other, node, DigestsOf(drafts));
    DescribedTree(node, trees[k], t, trees);
  }

  lemma {:induction false} DigestsDistinct(drafts: seq<Draft>, byDigest: map<Digest, nat>)
    requires IndexOk(drafts, byDigest)
    ensures Distinct(DigestsOf(drafts))
  {
    var names := DigestsOf(drafts);
    forall i, j | 0 <= i < |names| && 0 <= j < |names| && names[i] == names[j] ensures i == j {
      assert byDigest[drafts[i].digest] == i && byDigest[drafts[j].digest] == j;
    }
  }

  lemma {:induction false} SamePreimageSameNode(n: Node<nat>, m: Node<nat>, names: seq<Digest>)
    requires ChildrenBelow(n, |names|) && ChildrenBelow(m, |names|) && Distinct(names)
    requires NarrowOrdinals(n) && NarrowOrdinals(m)
    requires Preimage(Rename(n, names)) == Preimage(Rename(m, names))
    ensures n == m
  {
    PreimageInjective(Rename(n, names), Rename(m, names));
    RenameInjective(n, m, names);
  }

  lemma {:induction false} DescribedTree(node: Node<nat>, t: Schema, u: Schema, trees: seq<Schema>)
    requires Describes(node, t, trees) && Describes(node, u, trees)
    ensures t == u
  {
    forall i | 0 <= i < |t.properties| ensures t.properties[i] == u.properties[i] {
      var c := node.properties[i].child;
      assert PropertyOf(i, t.properties[i], c) == PropertyOf(i, u.properties[i], c);
    }
    assert t.properties == u.properties;
  }

  /** A tree that is already interned is always found again: no step reports a
      collision for it. */
  lemma {:induction false} InternedIsHit(
    hasher: Hasher, drafts: seq<Draft>, byDigest: map<Digest, nat>, trees: seq<Schema>,
    node: Node<nat>, t: Schema, k: nat)
    requires Consistent(hasher, drafts, byDigest, trees) && k < |drafts| && trees[k] == t
    requires Describes(node, t, trees) && ChildrenBelow(node, |drafts|)
    ensures drafts[k].node == node
    ensures drafts[k].preimage == hasher.encode(Rename(node, DigestsOf(drafts)))
    ensures byDigest[drafts[k].digest] == k
  {
    var old_ := drafts[k].node;
    assert DraftOk(hasher, drafts, k) && Describes(drafts[k].node, trees[k], trees);
    forall i | 0 <= i < |t.properties| ensures old_.properties[i].child == node.properties[i].child {
      TreesDistinct(hasher, drafts, byDigest, trees, old_.properties[i].child, node.properties[i].child);
    }
    if t.items.Some? {
      TreesDistinct(hasher, drafts, byDigest, trees, old_.items[0].child, node.items[0].child);
    }
    DescribesSame(old_, node, t, trees);
  }

  /** Appending a fresh draft keeps the builder consistent. */
  lemma {:induction false} AppendConsistent(
    hasher: Hasher, drafts: seq<Draft>, byDigest: map<Digest, nat>, trees: seq<Schema>,
    draft: Draft, t: Schema)
    requires Consistent(hasher, drafts, byDigest, trees) && MadeFor(hasher, drafts, trees, draft, t)
    requires draft.digest !in byDigest
    ensures Consistent(hasher, drafts + [draft], byDigest[draft.digest := |drafts|], trees + [t])
  {
    var drafts', trees' := drafts + [draft], trees + [t];
    assert DigestsOf(drafts) <= DigestsOf(drafts');
    forall i | 0 <= i < |drafts'| ensures DraftOk(hasher, drafts', i) {
      if i < |drafts| {
        assert DraftOk(hasher, drafts, i);
      }
      RenameGrows(drafts'[i].node, DigestsOf(drafts), DigestsOf(drafts'));
    }
    forall i | 0 <= i < |drafts'| ensures Describes(drafts'[i].node, trees'[i], trees') {
      if i < |drafts| {
        assert Describes(drafts[i].node, trees[i], trees);
      }
    }
  }

  // ---------------------------------------------------------------- digests of trees

  /** The node of a tree, its children named by their digests: what a tree is hashed from,
      whatever else has been interned. */
  function TreeNode(hash: Bytes -> Digest, t: Schema): Node<Digest>
    decreases t, 0
  {
    Node(
      t.facts,
      seq(|t.properties|, i requires 0 <= i < |t.properties| =>
        var p := t.properties[i];
        NodeProperty(i % UINT32, p.name, p.name, p.required, p.description, TreeDigest(hash, p.schema))),
      match t.items case None => [] case Some(u) => [NodeItem(0, ITEMS_ID, TreeDigest(hash, u))])
  }

  function TreePreimage(hash: Bytes -> Digest, t: Schema): Bytes
    decreases t, 1
  {
    Preimage(TreeNode(hash, t))
  }

  function TreeDigest(hash: Bytes -> Digest, t: Schema): Digest
    decreases t, 2
  {
    hash(TreePreimage(hash, t))
  }

  lemma {:induction false} DescribedNode(
    hasher: Hasher, drafts: seq<Draft>, trees: seq<Schema>, node: Node<nat>, t: Schema, n: nat)
    requires Built(hasher, drafts, trees) && hasher.encode == Preimage
    requires Describes(node, t, trees) && ChildrenBelow(node, n) && n <= |drafts|
    ensures Rename(node, DigestsOf(drafts)) == TreeNode(hasher.hash, t)
    decreases n, 1
  {
    forall i | 0 <= i < |t.properties|
      ensures drafts[node.properties[i].child].digest == TreeDigest(hasher.hash, t.properties[i].schema)
    {
      DraftOfTree(hasher, drafts, trees, node.properties[i].child);
    }
    if t.items.Some? {
      DraftOfTree(hasher, drafts, trees, node.items[0].child);
    }
    assert Rename(node, DigestsOf(drafts)).properties == TreeNode(hasher.hash, t).properties;
    assert Rename(node, DigestsOf(drafts)).items == TreeNode(hasher.hash, t).items;
  }

  /** A draft has the preimage and the digest of its tree. */
  lemma {:induction false} DraftOfTree(hasher: Hasher, drafts: seq<Draft>, trees: seq<Schema>, k: nat)
    requires Built(hasher, drafts, trees) && hasher.encode == Preimage && k < |drafts|
    ensures drafts[k].preimage == TreePreimage(hasher.hash, trees[k]) && drafts[k].digest == TreeDigest(hasher.hash, trees[k])
    decreases k, 2
  {
    assert DraftOk(hasher, drafts, k) && Describes(drafts[k].node, trees[k], trees);
    DescribedNode(hasher, drafts, trees, drafts[k].node, trees[k], k);
  }

  /** Some interned tree has another preimage than `t` but the same digest. */
  ghost predicate Clashes(hash: Bytes -> Digest, trees: seq<Schema>, t: Schema)
  {
    exists v :: v in trees && TreePreimage(hash, v) != TreePreimage(hash, t) && TreeDigest(hash, v) == TreeDigest(hash, t)
  }

  /** Why a tree that is not interned yet cannot be: another tree takes its digest, or a
      budget is used up. */
  ghost predicate Blocks(
    failure: Failure, hash: Bytes -> Digest, limits: bool, drafts: seq<Draft>, edges: nat, trees: seq<Schema>, t: Schema)
  {
    t !in trees &&
    match failure
    case HashCollision => Clashes(hash, trees, t)
    case NodeBudget => limits && |drafts| >= MAX_NODES
    case EdgeBudget => limits && edges + OutDegree(t) > MAX_EDGES
    case _ => false
  }

  lemma {:induction false} OtherPreimageClashes(
    hasher: Hasher, drafts: seq<Draft>, trees: seq<Schema>, draft: Draft, t: Schema, k: nat)
    requires Built(hasher, drafts, trees) && MadeFor(hasher, drafts, trees, draft, t) && hasher.encode == Preimage
    requires k < |drafts| && drafts[k].digest == draft.digest && drafts[k].preimage != draft.preimage
    ensures Clashes(hasher.hash, trees, t)
  {
    DescribedNode(hasher, drafts, trees, draft.node, t, |drafts|);
    DraftOfTree(hasher, drafts, trees, k);
    assert trees[k] in trees;
  }

  lemma {:induction false} InternedIsFound(
    hasher: Hasher, drafts: seq<Draft>, byDigest: map<Digest, nat>, trees: seq<Schema>,
    draft: Draft, t: Schema)
    requires Consistent(hasher, drafts, byDigest, trees) && MadeFor(hasher, drafts, trees, draft, t)
    requires hasher.encode == Preimage && t in trees
    ensures draft.digest in byDigest && byDigest[draft.digest] < |drafts|
    ensures drafts[byDigest[draft.digest]].preimage == draft.preimage
  {
    var k := PlaceOf(t, trees);
    InternedIsHit(hasher, drafts, byDigest, trees, draft.node, t, k);
    assert DraftOk(hasher, drafts, k) && Describes(drafts[k].node, trees[k], trees);
  }

  /** What looking the digest up says about the tree at hand. */
  lemma {:induction false} LookupFacts(
    hasher: Hasher, drafts: seq<Draft>, byDigest: map<Digest, nat>, trees: seq<Schema>,
    draft: Draft, t: Schema)
    requires Consistent(hasher, drafts, byDigest, trees) && MadeFor(hasher, drafts, trees, draft, t)
    requires hasher.encode == Preimage
    ensures draft.digest in byDigest ==>
      var k := byDigest[draft.digest];
      && k < |drafts|
      && (drafts[k].preimage == draft.preimage ==> trees[k] == t)
      && (drafts[k].preimage != draft.preimage ==> Clashes(hasher.hash, trees, t))
    ensures t in trees ==> draft.digest in byDigest && drafts[byDigest[draft.digest]].preimage == draft.preimage
    ensures draft.digest !in byDigest ==>
      Consistent(hasher, drafts + [draft], byDigest[draft.digest := |drafts|], trees + [t])
  {
    if t in trees {
      InternedIsFound(hasher, drafts, byDigest, trees, draft, t);
    }
    if draft.digest in byDigest {
      var k := byDigest[draft.digest];
      if drafts[k].preimage == draft.preimage {
        HitIsSameTree(hasher, drafts, byDigest, trees, draft.node, t, k);
      } else {
        OtherPreimageClashes(hasher, drafts, trees, draft, t, k);
      }
    } else {
      AppendConsistent(hasher, drafts, byDigest, trees, draft, t);
    }
  }

  lemma {:induction false} AppendDegree(drafts: seq<Draft>, draft: Draft)
    ensures TotalDegree(drafts + [draft]) == TotalDegree(drafts) + |draft.node.properties| + |draft.node.items|
  {
    assert (drafts + [draft])[..|drafts|] == drafts;
  }

  /** Why an interning may fail: the source is at fault, or one of the schemas nested in it
      is blocked. */
  ghost predicate Justified(
    failure: Failure, hash: Bytes -> Digest, canon: Canonicaliser, limits: bool,
    drafts: seq<Draft>, edges: nat, trees: seq<Schema>, source: Schema)
  {
    match failure
    case InvalidJson => !JsonAccepted(canon, source)
    case DuplicateRecord => !NamesDistinct(source)
    case _ => exists u :: SubSchema(u, Canonical(canon, source)) && Blocks(failure, hash, limits, drafts, edges, trees, u)
  }

  lemma {:induction false} JustifiedUp(
    failure: Failure, hash: Bytes -> Digest, canon: Canonicaliser, limits: bool,
    drafts: seq<Draft>, edges: nat, trees: seq<Schema>, child: Schema, source: Schema)
    requires (exists k :: 0 <= k < |source.properties| && source.properties[k].schema == child) || source.items == Some(child)
    requires Justified(failure, hash, canon, limits, drafts, edges, trees, child)
    ensures Justified(failure, hash, canon, limits, drafts, edges, trees, source)
  {
    if failure != InvalidJson && failure != DuplicateRecord {
      var u :| SubSchema(u, Canonical(canon, child)) && Blocks(failure, hash, limits, drafts, edges, trees, u);
      SubSchemaUp(canon, u, child, source);
    }
  }

  lemma {:induction false} SubSchemaUp(canon: Canonicaliser, u: Schema, child: Schema, source: Schema)
    requires (exists k :: 0 <= k < |source.properties| && source.properties[k].schema == child) || source.items == Some(child)
    requires SubSchema(u, Canonical(canon, child))
    ensures SubSchema(u, Canonical(canon, source))
  {
    if source.items != Some(child) {
      var k :| 0 <= k < |source.properties| && source.properties[k].schema == child;
      assert Canonical(canon, source).properties[k].schema == Canonical(canon, child);
    }
  }

  /** The schemas that interning `source` may add, beyond the first `from`. */
  ghost predicate OnlyAdds(trees: seq<Schema>, from: nat, canon: Canonicaliser, source: Schema)
  {
    forall i :: from <= i < |trees| ==> SubSchema(trees[i], Canonical(canon, source))
  }

  lemma {:induction false} OnlyAddsUp(
    before: seq<Schema>, trees: seq<Schema>, from: nat, canon: Canonicaliser, child: Schema, source: Schema)
    requires (exists k :: 0 <= k < |source.properties| && source.properties[k].schema == child) || source.items == Some(child)
    requires from <= |before| && before <= trees
    requires OnlyAdds(before, from, canon, source) && OnlyAdds(trees, |before|, canon, child)
    ensures OnlyAdds(trees, from, canon, source)
  {
    forall i | from <= i < |trees| ensures SubSchema(trees[i], Canonical(canon, source)) {
      if i < |before| {
        assert trees[i] == before[i];
      } else {
        SubSchemaUp(canon, trees[i], child, source);
      }
    }
  }

  /** The first `n` properties of the node for `source` are in place. */
  ghost predicate PropertiesDone(
    properties: seq<NodeProperty<nat>>, trees: seq<Schema>, canon: Canonicaliser, source: Schema, n: nat)
    requires n <= |source.properties|
  {
    && |properties| == n
    && forall k :: 0 <= k < n ==>
      && properties[k] == PropertyOf(k, source.properties[k], properties[k].child)
      && properties[k].child < |trees|
      && trees[properties[k].child] == Canonical(canon, source.properties[k].schema)
  }

  ghost predicate PropertiesAccepted(canon: Canonicaliser, source: Schema, n: nat)
    requires n <= |source.properties|
  {
    && (forall i, j :: 0 <= i < j < n ==> source.properties[i].name != source.properties[j].name)
    && (forall k :: 0 <= k < n ==> JsonAccepted(canon, source.properties[k].schema))
    && (forall k :: 0 <= k < n ==> NamesDistinct(source.properties[k].schema))
  }

  ghost predicate NamesSeen(names: set<Text>, source: Schema, n: nat)
    requires n <= |source.properties|
  {
    && (forall k :: 0 <= k < n ==> source.properties[k].name in names)
    && (forall x :: x in names ==> exists k :: 0 <= k < n && source.properties[k].name == x)
  }

  lemma {:induction false} PropertyStep(
    properties: seq<NodeProperty<nat>>, trees: seq<Schema>, trees': seq<Schema>,
    canon: Canonicaliser, source: Schema, n: nat, child: nat)
    requires n < |source.properties| && trees <= trees'
    requires PropertiesDone(properties, trees, canon, source, n)
    requires child < |trees'| && trees'[child] == Canonical(canon, source.properties[n].schema)
    ensures PropertiesDone(properties + [PropertyOf(n, source.properties[n], child)], trees', canon, source, n + 1)
  {
  }

  lemma {:induction false} PropertiesDoneGrows(
    properties: seq<NodeProperty<nat>>, trees: seq<Schema>, trees': seq<Schema>,
    canon: Canonicaliser, source: Schema, n: nat)
    requires n <= |source.properties| && trees <= trees'
    requires PropertiesDone(properties, trees, canon, source, n)
    ensures PropertiesDone(properties, trees', canon, source, n)
  {
  }

  lemma {:induction false} OnlyAddsJoin(
    before: seq<Schema>, trees: seq<Schema>, from: nat, canon: Canonicaliser, source: Schema)
    requires from <= |before| && before <= trees
    requires OnlyAdds(before, from, canon, source) && OnlyAdds(trees, |before|, canon, source)
    ensures OnlyAdds(trees, from, canon, source)
  {
    forall i | from <= i < |trees| ensures SubSchema(trees[i], Canonical(canon, source)) {
      if i < |before| {
        assert trees[i] == before[i];
      }
    }
  }

  lemma {:induction false} DuplicateFound(names: set<Text>, source: Schema, n: nat)
    requires n < |source.properties| && NamesSeen(names, source, n) && source.properties[n].name in names
    ensures !NamesDistinct(source)
  {
    var k :| 0 <= k < n && source.properties[k].name == source.properties[n].name;
  }

  lemma {:induction false} NamesSeenStep(names: set<Text>, source: Schema, n: nat)
    requires n < |source.properties| && NamesSeen(names, source, n)
    ensures NamesSeen(names + {source.properties[n].name}, source, n + 1)
  {
    forall x | x in names ensures exists k :: 0 <= k < n + 1 && source.properties[k].name == x {
      var k :| 0 <= k < n && source.properties[k].name == x;
      assert source.properties[k].name == x;
    }
  }

  lemma {:induction false} PropertyAcceptedStep(names: set<Text>, canon: Canonicaliser, source: Schema, n: nat)
    requires n < |source.properties|
    requires NamesSeen(names, source, n) && source.properties[n].name !in names
    requires PropertiesAccepted(canon, source, n)
    requires JsonAccepted(canon, source.properties[n].schema) && NamesDistinct(source.properties[n].schema)
    ensures PropertiesAccepted(canon, source, n + 1)
  {
    forall i | 0 <= i < n ensures source.properties[i].name != source.properties[n].name {
      assert source.properties[i].name in names;
    }
  }

  ghost predicate ItemsDone(items: seq<NodeItem<nat>>, trees: seq<Schema>, canon: Canonicaliser, source: Schema)
  {
    match source.items
    case None => items == []
    case Some(u) =>
      && |items| == 1 && items[0] == NodeItem(0, ITEMS_ID, items[0].child)
      && items[0].child < |trees| && trees[items[0].child] == Canonical(canon, u)
  }

  lemma {:induction false} NodeDescribes(
    node: Node<nat>, trees: seq<Schema>, canon: Canonicaliser, source: Schema)
    requires node.facts == source.facts.(json := CanonicalJson(canon, source.facts.json))
    requires PropertiesDone(node.properties, trees, canon, source, |source.properties|)
    requires ItemsDone(node.items, trees, canon, source)
    ensures Describes(node, Canonical(canon, source), trees)
  {
  }

  lemma {:induction false} Accepted(canon: Canonicaliser, source: Schema)
    requires source.facts.json != [] ==> canon(source.facts.json).Some?
    requires PropertiesAccepted(canon, source, |source.properties|)
    requires source.items.Some? ==> JsonAccepted(canon, source.items.value) && NamesDistinct(source.items.value)
    ensures JsonAccepted(canon, source) && NamesDistinct(source)
  {
  }

  lemma {:induction false} OnlyAddsSelf(trees: seq<Schema>, from: nat, canon: Canonicaliser, source: Schema)
    requires from <= |trees| && OnlyAdds(trees, from, canon, source)
    ensures OnlyAdds(trees + [Canonical(canon, source)], from, canon, source)
  {
  }

  /** Interning `source` again: it is accepted and all its schemas are already there. */
  ghost predicate Known(trees: seq<Schema>, canon: Canonicaliser, source: Schema)
  {
    JsonAccepted(canon, source) && NamesDistinct(source) && Canonical(canon, source) in trees
  }

  lemma {:induction false} KnownChild(
    hasher: Hasher, drafts: seq<Draft>, trees: seq<Schema>, canon: Canonicaliser, child: Schema, source: Schema)
    requires (exists k :: 0 <= k < |source.properties| && source.properties[k].schema == child) || source.items == Some(child)
    requires Built(hasher, drafts, trees) && Known(trees, canon, source)
    ensures Known(trees, canon, child)
  {
    var i :| 0 <= i < |trees| && trees[i] == Canonical(canon, source);
    SubSchemaUp(canon, Canonical(canon, child), child, source);
    SubSchemasInterned(hasher, drafts, trees, i, Canonical(canon, child));
  }

  /** `u` is nested in one of the first `n` canonical sources. */
  ghost predicate FromSources(u: Schema, canon: Canonicaliser, sources: seq<Schema>, n: nat)
    requires n <= |sources|
  {
    n > 0 && (SubSchema(u, Canonical(canon, sources[n - 1])) || FromSources(u, canon, sources, n - 1))
  }

  lemma {:induction false} FromSome(u: Schema, canon: Canonicaliser, sources: seq<Schema>, n: nat)
    requires n <= |sources|
    ensures FromSources(u, canon, sources, n) <==>
      exists k :: 0 <= k < n && SubSchema(u, Canonical(canon, sources[k]))
  {
    if n > 0 {
      FromSome(u, canon, sources, n - 1);
    }
  }

  /** `trees` are exactly the ones `before` and the schemas nested in the canonical `sources`. */
  ghost predicate HoldsExactly(
    trees: seq<Schema>, before: seq<Schema>, canon: Canonicaliser, sources: seq<Schema>)
  {
    forall u :: u in trees <==> u in before || FromSources(u, canon, sources, |sources|)
  }

  /** The schemas after the first `from` are nested in one of the first `n` sources. */
  ghost predicate AddedFrom(trees: seq<Schema>, from: nat, canon: Canonicaliser, sources: seq<Schema>, n: nat)
    requires n <= |sources|
  {
    forall i :: from <= i < |trees| ==> FromSources(trees[i], canon, sources, n)
  }

  lemma {:induction false} AddedFromStep(
    mid: seq<Schema>, trees: seq<Schema>, from: nat, canon: Canonicaliser, sources: seq<Schema>, n: nat)
    requires n < |sources| && from <= |mid| && mid <= trees
    requires AddedFrom(mid, from, canon, sources, n) && OnlyAdds(trees, |mid|, canon, sources[n])
    ensures AddedFrom(trees, from, canon, sources, n + 1)
  {
    forall i | from <= i < |trees| ensures FromSources(trees[i], canon, sources, n + 1) {
      if i < |mid| {
        assert FromSources(mid[i], canon, sources, n);
      }
    }
  }

  lemma {:induction false} FromMore(u: Schema, canon: Canonicaliser, sources: seq<Schema>, m: nat, n: nat)
    requires m <= n <= |sources| && FromSources(u, canon, sources, m)
    ensures FromSources(u, canon, sources, n)
  {
    if m < n {
      FromMore(u, canon, sources, m, n - 1);
    }
  }

  lemma {:induction false} AddedFromMore(
    trees: seq<Schema>, from: nat, canon: Canonicaliser, sources: seq<Schema>, m: nat, n: nat)
    requires m <= n <= |sources| && AddedFrom(trees, from, canon, sources, m)
    ensures AddedFrom(trees, from, canon, sources, n)
  {
    forall i | from <= i < |trees| ensures FromSources(trees[i], canon, sources, n) {
      FromMore(trees[i], canon, sources, m, n);
    }
  }

  // ---------------------------------------------------------------- when a build succeeds

  ghost predicate IsNested(u: Schema, canon: Canonicaliser, sources: seq<Schema>)
  {
    FromSources(u, canon, sources, |sources|)
  }

  /** Among the schemas nested in the sources, equal digests come from equal preimages. */
  ghost predicate TellsApart(hash: Bytes -> Digest, canon: Canonicaliser, sources: seq<Schema>)
  {
    forall u, v :: IsNested(u, canon, sources) && IsNested(v, canon, sources) && TreeDigest(hash, u) == TreeDigest(hash, v) ==>
      TreePreimage(hash, u) == TreePreimage(hash, v)
  }

  function Degree(): Schema -> nat
  {
    t => OutDegree(t)
  }

  /** The schemas nested in the sources, counted once each, keep both budgets. */
  ghost predicate IsAffordable(canon: Canonicaliser, sources: seq<Schema>)
  {
    exists all :: (forall u :: IsNested(u, canon, sources) ==> u in all) && |all| <= MAX_NODES && SumBy(Degree(), all) <= MAX_EDGES
  }

  ghost predicate AreAccepted(canon: Canonicaliser, sources: seq<Schema>)
  {
    forall s :: s in sources ==> JsonAccepted(canon, s) && NamesDistinct(s)
  }

  /** What a build needs of its sources, its hash function and its budgets. */
  ghost predicate CanCompile(hash: Bytes -> Digest, canon: Canonicaliser, limits: bool, sources: seq<Schema>)
  {
    AreAccepted(canon, sources) && TellsApart(hash, canon, sources) && (limits ==> IsAffordable(canon, sources))
  }

  lemma {:induction false} DegreesOfTrees(hasher: Hasher, drafts: seq<Draft>, trees: seq<Schema>, n: nat)
    requires Built(hasher, drafts, trees) && n <= |drafts|
    ensures TotalDegree(drafts[..n]) == SumBy(Degree(), trees[..n])
  {
    if n > 0 {
      DegreesOfTrees(hasher, drafts, trees, n - 1);
      assert drafts[..n][..n - 1] == drafts[..n - 1] && trees[..n][..n - 1] == trees[..n - 1];
      assert Describes(drafts[n - 1].node, trees[n - 1], trees);
      DescribesNarrow(drafts[n - 1].node, trees[n - 1], trees);
    }
  }

  lemma {:induction false} TreesAreDistinct(
    hasher: Hasher, drafts: seq<Draft>, byDigest: map<Digest, nat>, trees: seq<Schema>)
    requires Consistent(hasher, drafts, byDigest, trees)
    ensures Distinct(trees)
  {
    forall i, j | 0 <= i < |trees| && 0 <= j < |trees| && trees[i] == trees[j] ensures i == j {
      TreesDistinct(hasher, drafts, byDigest, trees, i, j);
    }
  }

  lemma {:induction false} NestedIn(u: Schema, canon: Canonicaliser, sources: seq<Schema>, s: Schema)
    requires s in sources && SubSchema(u, Canonical(canon, s))
    ensures IsNested(u, canon, sources)
  {
    var k := PlaceOf(s, sources);
    FromSome(u, canon, sources, |sources|);
  }

  /** A budget that blocks a nested schema is too small for all of them. */
  lemma {:induction false} BlockedIsUnaffordable(
    hasher: Hasher, drafts: seq<Draft>, byDigest: map<Digest, nat>, trees: seq<Schema>, edges: nat, limits: bool,
    canon: Canonicaliser, sources: seq<Schema>, failure: Failure, u: Schema)
    requires Consistent(hasher, drafts, byDigest, trees) && WithinBudget(limits, drafts, edges)
    requires (forall t :: t in trees ==> IsNested(t, canon, sources)) && IsNested(u, canon, sources)
    requires failure in {NodeBudget, EdgeBudget} && Blocks(failure, hasher.hash, limits, drafts, edges, trees, u)
    ensures limits && !IsAffordable(canon, sources)
  {
    TreesAreDistinct(hasher, drafts, byDigest, trees);
    DegreesOfTrees(hasher, drafts, trees, |drafts|);
    assert drafts[..|drafts|] == drafts && trees[..|drafts|] == trees;
    forall all: seq<Schema> | forall t :: IsNested(t, canon, sources) ==> t in all
      ensures |trees| + 1 <= |all| && SumBy(Degree(), trees) + OutDegree(u) <= SumBy(Degree(), all)
    {
      OneTreeMore(trees, u, all);
    }
  }

  lemma {:induction false} OneTreeMore(trees: seq<Schema>, u: Schema, all: seq<Schema>)
    requires Distinct(trees) && u !in trees && u in all && forall t :: t in trees ==> t in all
    ensures |trees| + 1 <= |all| && SumBy(Degree(), trees) + OutDegree(u) <= SumBy(Degree(), all)
  {
    DistinctGrows(trees, u);
    SumGrows(Degree(), trees, u);
    SumOfFewer(Degree(), trees + [u], all);
  }

  /** A failed build could not have succeeded. */
  lemma {:induction false} FailureIsEarned(
    hasher: Hasher, drafts: seq<Draft>, byDigest: map<Digest, nat>, trees: seq<Schema>, edges: nat, limits: bool,
    canon: Canonicaliser, sources: seq<Schema>, failure: Failure, s: Schema)
    requires Consistent(hasher, drafts, byDigest, trees) && WithinBudget(limits, drafts, edges)
    requires (forall t :: t in trees ==> IsNested(t, canon, sources)) && s in sources
    requires Justified(failure, hasher.hash, canon, limits, drafts, edges, trees, s)
    ensures !CanCompile(hasher.hash, canon, limits, sources)
  {
    if failure != InvalidJson && failure != DuplicateRecord {
      var u :| SubSchema(u, Canonical(canon, s)) && Blocks(failure, hasher.hash, limits, drafts, edges, trees, u);
      NestedIn(u, canon, sources, s);
      if failure == HashCollision {
        var v :| v in trees && TreePreimage(hasher.hash, v) != TreePreimage(hasher.hash, u)
          && TreeDigest(hasher.hash, v) == TreeDigest(hasher.hash, u);
        assert IsNested(v, canon, sources);
      } else {
        BlockedIsUnaffordable(hasher, drafts, byDigest, trees, edges, limits, canon, sources, failure, u);
      }
    }
  }

  /** And a successful one had what it needed. */
  lemma {:induction false} SuccessIsEarned(
    hasher: Hasher, drafts: seq<Draft>, byDigest: map<Digest, nat>, trees: seq<Schema>, edges: nat, limits: bool,
    canon: Canonicaliser, sources: seq<Schema>)
    requires Consistent(hasher, drafts, byDigest, trees) && WithinBudget(limits, drafts, edges) && hasher.encode == Preimage
    requires AreAccepted(canon, sources) && HoldsExactly(trees, [], canon, sources)
    ensures CanCompile(hasher.hash, canon, limits, sources)
  {
    forall u, v | IsNested(u, canon, sources) && IsNested(v, canon, sources)
      && TreeDigest(hasher.hash, u) == TreeDigest(hasher.hash, v)
      ensures TreePreimage(hasher.hash, u) == TreePreimage(hasher.hash, v)
    {
      assert u in trees && v in trees;
      var i := PlaceOf(u, trees);
      var j := PlaceOf(v, trees);
      DraftOfTree(hasher, drafts, trees, i);
      DraftOfTree(hasher, drafts, trees, j);
      assert byDigest[drafts[i].digest] == i && byDigest[drafts[j].digest] == j;
    }
    if limits {
      DegreesOfTrees(hasher, drafts, trees, |drafts|);
      assert drafts[..|drafts|] == drafts && trees[..|drafts|] == trees;
      assert forall u :: IsNested(u, canon, sources) ==> u in trees;
    }
  }

  /** The first `n` sources have refs, to their canonical trees. */
  ghost predicate RefsDone(
    refs: seq<nat>, trees: seq<Schema>, canon: Canonicaliser, sources: seq<Schema>, n: nat)
    requires n <= |sources|
  {
    && |refs| == n
    && forall k :: 0 <= k < n ==> refs[k] < |trees| && trees[refs[k]] == Canonical(canon, sources[k])
  }

  lemma {:induction false} RefsDoneStep(
    refs: seq<nat>, mid: seq<Schema>, trees: seq<Schema>, canon: Canonicaliser, sources: seq<Schema>, n: nat, ref: nat)
    requires n < |sources| && mid <= trees && RefsDone(refs, mid, canon, sources, n)
    requires ref < |trees| && trees[ref] == Canonical(canon, sources[n])
    ensures RefsDone(refs + [ref], trees, canon, sources, n + 1)
  {
  }

  lemma {:induction false} AllInterned(
    hasher: Hasher, drafts: seq<Draft>, trees: seq<Schema>, before: seq<Schema>,
    canon: Canonicaliser, sources: seq<Schema>, refs: seq<nat>)
    requires Built(hasher, drafts, trees) && before <= trees && |refs| == |sources|
    requires AddedFrom(trees, |before|, canon, sources, |sources|)
    requires RefsDone(refs, trees, canon, sources, |sources|)
    ensures HoldsExactly(trees, before, canon, sources)
  {
    forall u | u in trees ensures u in before || FromSources(u, canon, sources, |sources|) {
      var i :| 0 <= i < |trees| && trees[i] == u;
      if i < |before| {
        assert u == before[i];
      }
    }
    forall u | u in before || FromSources(u, canon, sources, |sources|) ensures u in trees {
      if u !in before {
        FromSome(u, canon, sources, |sources|);
        var k :| 0 <= k < |sources| && SubSchema(u, Canonical(canon, sources[k]));
        SubSchemasInterned(hasher, drafts, trees, refs[k], u);
      } else {
        var i :| 0 <= i < |before| && before[i] == u;
        assert trees[i] == u;
      }
    }
  }

  datatype PropertiesResult = PropertiesOk(properties: seq<NodeProperty<nat>>) | PropertiesErr(failure: Failure)

  datatype ItemsResult = ItemsOk(items: seq<NodeItem<nat>>) | ItemsErr(failure: Failure)

  datatype ChildrenResult =
    | ChildrenOk(properties: seq<NodeProperty<nat>>, items: seq<NodeItem<nat>>)
    | ChildrenErr(failure: Failure)

  class SchemaGraphBuilder {
    const hasher: Hasher
    const canon: Canonicaliser
    const resourceLimits: bool
    var drafts: seq<Draft>
    var byDigest: map<Digest, nat>
    var edges: nat
    ghost var trees: seq<Schema>

    ghost predicate Valid()
      reads this
    {
      && hasher.encode == Preimage
      && Consistent(hasher, drafts, byDigest, trees)
      && WithinBudget(resourceLimits, drafts, edges)
    }

    constructor (hash: Bytes -> Digest, canon: Canonicaliser, resourceLimits: bool)
      ensures Valid() && drafts == [] && trees == []
      ensures this.hasher.hash == hash && this.canon == canon && this.resourceLimits == resourceLimits
    {
      this.hasher, this.canon, this.resourceLimits := Hasher(Preimage, hash), canon, resourceLimits;
      drafts, byDigest, edges, trees := [], map[], 0, [];
    }

    /** Lines 92-100: hash the node and look for a draft of an equal node. */
    method Lookup(node: Node<nat>, ghost t: Schema) returns (draft: Draft, found: Option<Result>)
      requires Valid() && Describes(node, t, trees)
      ensures found.None? ==> t !in trees && draft.node == node
      ensures found.None? ==> Consistent(hasher, drafts + [draft], byDigest[draft.digest := |drafts|], trees + [t])
      ensures found.Some? && found.value.Ok? ==> found.value.ref < |trees| && trees[found.value.ref] == t
      ensures found.Some? && found.value.Err? ==>
        found.value.failure == HashCollision && t !in trees && Clashes(hasher.hash, trees, t)
    {
      DescribesNarrow(node, t, trees);
      var preimage := hasher.encode(Rename(node, DigestsOf(drafts)));
      var digest := hasher.hash(preimage);
      draft := Draft(digest, preimage, NodeId(digest), node);
      LookupFacts(hasher, drafts, byDigest, trees, draft, t);
      if digest in byDigest {
        var existing := byDigest[digest];
        found := Some(if drafts[existing].preimage != preimage then Err(HashCollision) else Ok(existing));
      } else {
        found := None;
      }
    }

    /** Lines 107-114: append a draft for a node that has none. */
    method Append(draft: Draft, ghost t: Schema) returns (ref: nat)
      requires Valid()
      requires Consistent(hasher, drafts + [draft], byDigest[draft.digest := |drafts|], trees + [t])
      requires resourceLimits ==> |drafts| < MAX_NODES
      requires resourceLimits ==> edges + |draft.node.properties| + |draft.node.items| <= MAX_EDGES
      modifies this
      ensures Valid() && ref == |old(trees)| && trees == old(trees) + [t]
      ensures drafts == old(drafts) + [draft]
    {
      ref := |drafts|;
      AppendDegree(drafts, draft);
      drafts := drafts + [draft];
      byDigest := byDigest[draft.digest := ref];
      edges := edges + |draft.node.properties| + |draft.node.items|;
      trees := trees + [t];
    }

    method InternNode(node: Node<nat>, ghost t: Schema) returns (r: Result)
      requires Valid() && Describes(node, t, trees)
      modifies this
      ensures Valid()
      ensures r.Ok? ==> r.ref < |trees| && trees[r.ref] == t
      ensures t in old(trees) ==> r.Ok?
      ensures trees == if r.Ok? && t !in old(trees) then old(trees) + [t] else old(trees)
      ensures old(drafts) <= drafts
      ensures r.Err? ==> r.failure in {HashCollision, NodeBudget, EdgeBudget} && unchanged(this)
      ensures r.Err? ==> Blocks(r.failure, hasher.hash, resourceLimits, drafts, edges, trees, t)
    {
      DescribesNarrow(node, t, trees);
      var draft, found := Lookup(node, t);
      if found.Some? {
        return found.value;
      }
      if resourceLimits && |drafts| >= MAX_NODES {
        return Err(NodeBudget);
      }
      if resourceLimits && edges + |node.properties| + |node.items| > MAX_EDGES {
        return Err(EdgeBudget);
      }
      var ref := Append(draft, t);
      return Ok(ref);
    }

    /** Lines 55-70: intern the properties in source order. */
    method InternProperties(source: Schema) returns (r: PropertiesResult)
      requires Valid()
      modifies this
      ensures Valid() && old(trees) <= trees && old(drafts) <= drafts
      ensures OnlyAdds(trees, |old(trees)|, canon, source)
      ensures r.PropertiesOk? ==> PropertiesDone(r.properties, trees, canon, source, |source.properties|)
      ensures r.PropertiesOk? ==> PropertiesAccepted(canon, source, |source.properties|)
      ensures r.PropertiesErr? ==> Justified(r.failure, hasher.hash, canon, resourceLimits, drafts, edges, trees, source)
      ensures Known(old(trees), canon, source) ==> r.PropertiesOk? && trees == old(trees)
      decreases source, 0
    {
      var properties: seq<NodeProperty<nat>> := [];
      var names: set<Text> := {};
      var i := 0;
      while i < |source.properties|
        invariant 0 <= i <= |source.properties|
        invariant Valid() && old(trees) <= trees && old(drafts) <= drafts
        invariant OnlyAdds(trees, |old(trees)|, canon, source)
        invariant NamesSeen(names, source, i)
        invariant PropertiesDone(properties, trees, canon, source, i)
        invariant PropertiesAccepted(canon, source, i)
        invariant Known(old(trees), canon, source) ==> trees == old(trees)
      {
        var property := source.properties[i];
        if property.name in names {
          DuplicateFound(names, source, i);
          return PropertiesErr(DuplicateRecord);
        }
        NamesSeenStep(names, source, i);
        ghost var before := trees;
        if Known(trees, canon, source) {
          KnownChild(hasher, drafts, trees, canon, property.schema, source);
        }
        var child := Intern(property.schema);
        OnlyAddsUp(before, trees, |old(trees)|, canon, property.schema, source);
        if child.Err? {
          JustifiedUp(child.failure, hasher.hash, canon, resourceLimits, drafts, edges, trees, property.schema, source);
          return PropertiesErr(child.failure);
        }
        PropertyAcceptedStep(names, canon, source, i);
        names := names + {property.name};
        PropertyStep(properties, before, trees, canon, source, i, child.ref);
        properties := properties + [PropertyOf(i, property, child.ref)];
        i := i + 1;
      }
      return PropertiesOk(properties);
    }

    /** Lines 72-79: intern the item schema, if there is one. */
    method InternItems(source: Schema) returns (r: ItemsResult)
      requires Valid()
      modifies this
      ensures Valid() && old(trees) <= trees && old(drafts) <= drafts
      ensures OnlyAdds(trees, |old(trees)|, canon, source)
      ensures r.ItemsOk? ==> ItemsDone(r.items, trees, canon, source)
      ensures r.ItemsOk? && source.items.Some? ==>
        JsonAccepted(canon, source.items.value) && NamesDistinct(source.items.value)
      ensures r.ItemsErr? ==> Justified(r.failure, hasher.hash, canon, resourceLimits, drafts, edges, trees, source)
      ensures Known(old(trees), canon, source) ==> r.ItemsOk? && trees == old(trees)
      decreases source, 0
    {
      if source.items.None? {
        return ItemsOk([]);
      }
      if Known(trees, canon, source) {
        KnownChild(hasher, drafts, trees, canon, source.items.value, source);
      }
      var child := Intern(source.items.value);
      OnlyAddsUp(old(trees), trees, |old(trees)|, canon, source.items.value, source);
      if child.Err? {
        JustifiedUp(child.failure, hasher.hash, canon, resourceLimits, drafts, edges, trees, source.items.value, source);
        return ItemsErr(child.failure);
      }
      return ItemsOk([NodeItem(0, ITEMS_ID, child.ref)]);
    }

    /** Lines 81-114: the node of `source` itself, once its children have refs. */
    method InternTop(source: Schema, properties: seq<NodeProperty<nat>>, items: seq<NodeItem<nat>>)
      returns (r: Result)
      requires Valid()
      requires PropertiesDone(properties, trees, canon, source, |source.properties|)
      requires ItemsDone(items, trees, canon, source)
      modifies this
      ensures Valid() && old(drafts) <= drafts
      ensures r.Ok? ==> r.ref < |trees| && trees[r.ref] == Canonical(canon, source)
      ensures r.Err? ==> Justified(r.failure, hasher.hash, canon, resourceLimits, drafts, edges, trees, source)
      ensures trees == old(trees) || trees == old(trees) + [Canonical(canon, source)]
      ensures Canonical(canon, source) in old(trees) ==> r.Ok? && trees == old(trees)
    {
      var node := Node(source.facts.(json := CanonicalJson(canon, source.facts.json)), properties, items);
      NodeDescribes(node, trees, canon, source);
      r := InternNode(node, Canonical(canon, source));
    }

    /** Lines 55-79: the refs of all children. */
    method InternChildren(source: Schema) returns (r: ChildrenResult)
      requires Valid()
      modifies this
      ensures Valid() && old(trees) <= trees && old(drafts) <= drafts
      ensures OnlyAdds(trees, |old(trees)|, canon, source)
      ensures r.ChildrenOk? ==> PropertiesDone(r.properties, trees, canon, source, |source.properties|)
      ensures r.ChildrenOk? ==> ItemsDone(r.items, trees, canon, source)
      ensures r.ChildrenOk? && (source.facts.json != [] ==> canon(source.facts.json).Some?) ==>
        JsonAccepted(canon, source) && NamesDistinct(source)
      ensures r.ChildrenErr? ==> Justified(r.failure, hasher.hash, canon, resourceLimits, drafts, edges, trees, source)
      ensures Known(old(trees), canon, source) ==> r.ChildrenOk? && trees == old(trees)
      decreases source, 1
    {
      var properties := InternProperties(source);
      if properties.PropertiesErr? {
        return ChildrenErr(properties.failure);
      }
      ghost var before := trees;
      var items := InternItems(source);
      OnlyAddsJoin(before, trees, |old(trees)|, canon, source);
      if items.ItemsErr? {
        return ChildrenErr(items.failure);
      }
      PropertiesDoneGrows(properties.properties, before, trees, canon, source, |source.properties|);
      if source.facts.json != [] ==> canon(source.facts.json).Some? {
        Accepted(canon, source);
      }
      return ChildrenOk(properties.properties, items.items);
    }

    /** `internSchema`: the ref of the canonical tree of `source`. */
    method Intern(source: Schema) returns (r: Result)
      requires Valid()
      modifies this
      ensures Valid() && old(trees) <= trees && old(drafts) <= drafts
      ensures OnlyAdds(trees, |old(trees)|, canon, source)
      ensures r.Ok? ==> r.ref < |trees| && trees[r.ref] == Canonical(canon, source)
      ensures r.Ok? ==> JsonAccepted(canon, source) && NamesDistinct(source)
      ensures r.Err? ==> Justified(r.failure, hasher.hash, canon, resourceLimits, drafts, edges, trees, source)
      ensures Known(old(trees), canon, source) ==> r.Ok? && trees == old(trees)
      decreases source, 2
    {
      if source.facts.json != [] && canon(source.facts.json).None? {
        return Err(InvalidJson);
      }
      var children := InternChildren(source);
      if children.ChildrenErr? {
        return Err(children.failure);
      }
      OnlyAddsSelf(trees, |old(trees)|, canon, source);
      r := InternTop(source, children.properties, children.items);
    }

    /** The sources that a build interns, one after the other. */
    method InternAll(sources: seq<Schema>) returns (refs: seq<nat>, failure: Option<Failure>)
      requires Valid()
      modifies this
      ensures Valid() && old(trees) <= trees && old(drafts) <= drafts
      ensures failure.None? ==> RefsDone(refs, trees, canon, sources, |sources|)
      ensures failure.None? ==> HoldsExactly(trees, old(trees), canon, sources)
      ensures failure.None? ==> forall s :: s in sources ==> JsonAccepted(canon, s) && NamesDistinct(s)
      ensures AddedFrom(trees, |old(trees)|, canon, sources, |sources|)
      ensures failure.Some? ==>
        exists s :: s in sources && Justified(failure.value, hasher.hash, canon, resourceLimits, drafts, edges, trees, s)
    {
      refs := [];
      for i := 0 to |sources|
        invariant Valid() && old(trees) <= trees && old(drafts) <= drafts
        invariant RefsDone(refs, trees, canon, sources, i)
        invariant AddedFrom(trees, |old(trees)|, canon, sources, i)
        invariant forall j :: 0 <= j < i ==> JsonAccepted(canon, sources[j]) && NamesDistinct(sources[j])
      {
        ghost var before := trees;
        var r := Intern(sources[i]);
        AddedFromStep(before, trees, |old(trees)|, canon, sources, i);
        if r.Err? {
          AddedFromMore(trees, |old(trees)|, canon, sources, i + 1, |sources|);
          assert sources[i] in sources;
          return refs, Some(r.failure);
        }
        RefsDoneStep(refs, before, trees, canon, sources, i, r.ref);
        refs := refs + [r.ref];
      }
      AllInterned(hasher, drafts, trees, old(trees), canon, sources, refs);
      failure := None;
    }
  }
}
