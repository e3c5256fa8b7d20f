/** Schema trees, the nodes of the shared schema graph, and the byte string that
    `schemaNodePreimage` hashes for a node (application/projection/schema_graph.go).
 */
module SchemaEncoding {
  import opened Wrappers

  newtype Byte = b: int | 0 <= b < 256

  type Bytes = seq<Byte>

  /** The lengths that Go's `int` can hold. */
  const MAX_LENGTH := 0x8000_0000_0000_0000

  const UINT32 := 0x1_0000_0000

  type Text = s: Bytes | |s| < MAX_LENGTH

  type Slice<T> = s: seq<T> | |s| < MAX_LENGTH

  type Digest = d: Bytes | |d| == 32 witness seq(32, _ => 0 as Byte)

  datatype Constraint = Constraint(name: Text, value: Text)

  /** The part of a schema that has no sub-schemas. */
  datatype Facts = Facts(
    name: Text, kind: Text, format: Text, description: Text, default: Text, example: Text, json: Text,
    enum: Slice<Text>, constraints: Slice<Constraint>, nullable: bool, deprecated: bool)

  /** A source schema: `domain.SchemaSummary`. */
  datatype Schema = Schema(facts: Facts, properties: Slice<Property>, items: Option<Schema>)

  datatype Property = Property(name: Text, required: bool, description: Text, schema: Schema)

  /** A node of the schema graph; its children are named by values of type `R`. */
  datatype Node<R> = Node(facts: Facts, properties: Slice<NodeProperty<R>>, items: Slice<NodeItem<R>>)

  datatype NodeProperty<R> = NodeProperty(
    ordinal: nat, id: Text, name: Text, required: bool, description: Text, child: R)

  datatype NodeItem<R> = NodeItem(ordinal: nat, id: Text, child: R)

  function Ascii(s: string): (b: Bytes)
    ensures |b| == |s|
  {
    seq(|s|, i requires 0 <= i < |s| => ((s[i] as int) % 256) as Byte)
  }

  const ITEMS_ID: Text := Ascii("items")

  const SCHEMA_NODE_DOMAIN: Bytes := Ascii("manja.projection.schema-node.v3") + [0]

  // ---------------------------------------------------------------- the preimage

  // Each `Put` function prepends one encoded field to the bytes that follow it.

  function PutUint(n: nat, width: nat, rest: Bytes): Bytes
  {
    if width == 0 then rest else PutUint(n / 256, width - 1, [(n % 256) as Byte] + rest)
  }

  function PutBool(value: bool, rest: Bytes): Bytes
  {
    [if value then 1 else 0] + rest
  }

  function PutText(value: Text, rest: Bytes): Bytes
  {
    PutUint(|value|, 8, value + rest)
  }

  function PutTextList(values: seq<Text>, rest: Bytes): Bytes
  {
    if values == [] then rest else PutText(values[0], PutTextList(values[1..], rest))
  }

  function PutTexts(values: Slice<Text>, rest: Bytes): Bytes
  {
    PutUint(|values|, 8, PutTextList(values, rest))
  }

  function PutConstraintList(values: seq<Constraint>, rest: Bytes): Bytes
  {
    if values == [] then rest
    else PutText(values[0].name, PutText(values[0].value, PutConstraintList(values[1..], rest)))
  }

  function PutFacts(facts: Facts, rest: Bytes): Bytes
  {
    PutText(facts.name, PutText(facts.kind, PutText(facts.format, PutText(facts.description,
      PutText(facts.default, PutText(facts.example, PutText(facts.json,
        PutTexts(facts.enum,
          PutUint(|facts.constraints|, 8, PutConstraintList(facts.constraints,
            PutBool(facts.nullable, PutBool(facts.deprecated, rest))))))))))))
  }

  function PutProperty(value: NodeProperty<Digest>, rest: Bytes): Bytes
  {
    PutUint(value.ordinal, 4, PutText(value.id, PutText(value.name, PutBool(value.required,
      PutText(value.description, value.child + rest)))))
  }

  function PutPropertyList(values: seq<NodeProperty<Digest>>, rest: Bytes): Bytes
  {
    if values == [] then rest else PutProperty(values[0], PutPropertyList(values[1..], rest))
  }

  function PutItem(value: NodeItem<Digest>, rest: Bytes): Bytes
  {
    PutUint(value.ordinal, 4, PutText(value.id, value.child + rest))
  }

  function PutItemList(values: seq<NodeItem<Digest>>, rest: Bytes): Bytes
  {
    if values == [] then rest else PutItem(values[0], PutItemList(values[1..], rest))
  }

  function Preimage(node: Node<Digest>): Bytes
  {
    SCHEMA_NODE_DOMAIN + PutFacts(node.facts,
      PutUint(|node.properties|, 8, PutPropertyList(node.properties,
        PutUint(|node.items|, 8, PutItemList(node.items, [])))))
  }

  // ---------------------------------------------------------------- injectivity

  function Pow256(width: nat): nat
  {
    if width == 0 then 1 else 256 * Pow256(width - 1)
  }

  lemma Widths()
    ensures Pow256(4) == UINT32 && MAX_LENGTH < Pow256(8)
  {
    assert Pow256(1) == 256;
    assert Pow256(2) == 256 * Pow256(1);
    assert Pow256(3) == 256 * Pow256(2);
    assert Pow256(4) == 256 * Pow256(3);
    assert Pow256(5) == 256 * Pow256(4);
    assert Pow256(6) == 256 * Pow256(5);
    assert Pow256(7) == 256 * Pow256(6);
    assert Pow256(8) == 256 * Pow256(7);
  }

  lemma {:induction false} PutUintInjective(n: nat, m: nat, width: nat, r: Bytes, s: Bytes)
    requires n < Pow256(width) && m < Pow256(width)
    requires PutUint(n, width, r) == PutUint(m, width, s)
    ensures n == m && r == s
  {
    if width > 0 {
      var r', s' := [(n % 256) as Byte] + r, [(m % 256) as Byte] + s;
      PutUintInjective(n / 256, m / 256, width - 1, r', s');
      assert r'[0] == s'[0] && r'[1..] == r && s'[1..] == s;
    }
  }

  lemma PutLengthInjective(n: nat, m: nat, r: Bytes, s: Bytes)
    requires n < MAX_LENGTH && m < MAX_LENGTH
    requires PutUint(n, 8, r) == PutUint(m, 8, s)
    ensures n == m && r == s
  {
    Widths();
    PutUintInjective(n, m, 8, r, s);
  }

  lemma CancelPrefix(a: Bytes, b: Bytes, r: Bytes, s: Bytes)
    requires |a| == |b| && a + r == b + s
    ensures a == b && r == s
  {
    assert a == (a + r)[..|a|] == (b + s)[..|b|] == b;
    assert r == (a + r)[|a|..] == (b + s)[|b|..] == s;
  }

  lemma PutBoolInjective(v: bool, w: bool, r: Bytes, s: Bytes)
    requires PutBool(v, r) == PutBool(w, s)
    ensures v == w && r == s
  {
    CancelPrefix([if v then 1 else 0], [if w then 1 else 0], r, s);
  }

  lemma PutTextInjective(v: Text, w: Text, r: Bytes, s: Bytes)
    requires PutText(v, r) == PutText(w, s)
    ensures v == w && r == s
  {
    PutLengthInjective(|v|, |w|, v + r, w + s);
    CancelPrefix(v, w, r, s);
  }

  lemma {:induction false} PutTextListInjective(v: seq<Text>, w: seq<Text>, r: Bytes, s: Bytes)
    requires |v| == |w| && PutTextList(v, r) == PutTextList(w, s)
    ensures v == w && r == s
  {
    if v != [] {
      PutTextInjective(v[0], w[0], PutTextList(v[1..], r), PutTextList(w[1..], s));
      PutTextListInjective(v[1..], w[1..], r, s);
      assert v == [v[0]] + v[1..] && w == [w[0]] + w[1..];
    }
  }

  lemma {:induction false} PutConstraintListInjective(v: seq<Constraint>, w: seq<Constraint>, r: Bytes, s: Bytes)
    requires |v| == |w| && PutConstraintList(v, r) == PutConstraintList(w, s)
    ensures v == w && r == s
  {
    if v != [] {
      var r', s' := PutConstraintList(v[1..], r), PutConstraintList(w[1..], s);
      PutTextInjective(v[0].name, w[0].name, PutText(v[0].value, r'), PutText(w[0].value, s'));
      PutTextInjective(v[0].value, w[0].value, r', s');
      PutConstraintListInjective(v[1..], w[1..], r, s);
      assert v == [v[0]] + v[1..] && w == [w[0]] + w[1..];
    }
  }

  lemma PutFactsInjective(v: Facts, w: Facts, r: Bytes, s: Bytes)
    requires PutFacts(v, r) == PutFacts(w, s)
    ensures v == w && r == s
  {
    var r1, s1 := PutBool(v.deprecated, r), PutBool(w.deprecated, s);
    var r2, s2 := PutBool(v.nullable, r1), PutBool(w.nullable, s1);
    var r3, s3 := PutConstraintList(v.constraints, r2), PutConstraintList(w.constraints, s2);
    var r4, s4 := PutUint(|v.constraints|, 8, r3), PutUint(|w.constraints|, 8, s3);
    var r5, s5 := PutTextList(v.enum, r4), PutTextList(w.enum, s4);
    var r6, s6 := PutTexts(v.enum, r4), PutTexts(w.enum, s4);
    var r7, s7 := PutText(v.json, r6), PutText(w.json, s6);
    var r8, s8 := PutText(v.example, r7), PutText(w.example, s7);
    var r9, s9 := PutText(v.default, r8), PutText(w.default, s8);
    var r10, s10 := PutText(v.description, r9), PutText(w.description, s9);
    var r11, s11 := PutText(v.format, r10), PutText(w.format, s10);
    var r12, s12 := PutText(v.kind, r11), PutText(w.kind, s11);
    PutTextInjective(v.name, w.name, r12, s12);
    PutTextInjective(v.kind, w.kind, r11, s11);
    PutTextInjective(v.format, w.format, r10, s10);
    PutTextInjective(v.description, w.description, r9, s9);
    PutTextInjective(v.default, w.default, r8, s8);
    PutTextInjective(v.example, w.example, r7, s7);
    PutTextInjective(v.json, w.json, r6, s6);
    PutLengthInjective(|v.enum|, |w.enum|, r5, s5);
    PutTextListInjective(v.enum, w.enum, r4, s4);
    PutLengthInjective(|v.constraints|, |w.constraints|, r3, s3);
    PutConstraintListInjective(v.constraints, w.constraints, r2, s2);
    PutBoolInjective(v.nullable, w.nullable, r1, s1);
    PutBoolInjective(v.deprecated, w.deprecated, r, s);
  }

  lemma PutPropertyInjective(v: NodeProperty<Digest>, w: NodeProperty<Digest>, r: Bytes, s: Bytes)
    requires v.ordinal < UINT32 && w.ordinal < UINT32
    requires PutProperty(v, r) == PutProperty(w, s)
    ensures v == w && r == s
  {
    var r1, s1 := v.child + r, w.child + s;
    var r2, s2 := PutText(v.description, r1), PutText(w.description, s1);
    var r3, s3 := PutBool(v.required, r2), PutBool(w.required, s2);
    var r4, s4 := PutText(v.name, r3), PutText(w.name, s3);
    Widths();
    PutUintInjective(v.ordinal, w.ordinal, 4, PutText(v.id, r4), PutText(w.id, s4));
    PutTextInjective(v.id, w.id, r4, s4);
    PutTextInjective(v.name, w.name, r3, s3);
    PutBoolInjective(v.required, w.required, r2, s2);
    PutTextInjective(v.description, w.description, r1, s1);
    CancelPrefix(v.child, w.child, r, s);
  }

  lemma {:induction false} PutPropertyListInjective(
    v: seq<NodeProperty<Digest>>, w: seq<NodeProperty<Digest>>, r: Bytes, s: Bytes)
    requires forall i :: 0 <= i < |v| ==> v[i].ordinal < UINT32
    requires forall i :: 0 <= i < |w| ==> w[i].ordinal < UINT32
    requires |v| == |w| && PutPropertyList(v, r) == PutPropertyList(w, s)
    ensures v == w && r == s
  {
    if v != [] {
      PutPropertyInjective(v[0], w[0], PutPropertyList(v[1..], r), PutPropertyList(w[1..], s));
      PutPropertyListInjective(v[1..], w[1..], r, s);
      assert v == [v[0]] + v[1..] && w == [w[0]] + w[1..];
    }
  }

  lemma PutItemInjective(v: NodeItem<Digest>, w: NodeItem<Digest>, r: Bytes, s: Bytes)
    requires v.ordinal < UINT32 && w.ordinal < UINT32
    requires PutItem(v, r) == PutItem(w, s)
    ensures v == w && r == s
  {
    Widths();
    PutUintInjective(v.ordinal, w.ordinal, 4, PutText(v.id, v.child + r), PutText(w.id, w.child + s));
    PutTextInjective(v.id, w.id, v.child + r, w.child + s);
    CancelPrefix(v.child, w.child, r, s);
  }

  lemma {:induction false} PutItemListInjective(
    v: seq<NodeItem<Digest>>, w: seq<NodeItem<Digest>>, r: Bytes, s: Bytes)
    requires forall i :: 0 <= i < |v| ==> v[i].ordinal < UINT32
    requires forall i :: 0 <= i < |w| ==> w[i].ordinal < UINT32
    requires |v| == |w| && PutItemList(v, r) == PutItemList(w, s)
    ensures v == w && r == s
  {
    if v != [] {
      PutItemInjective(v[0], w[0], PutItemList(v[1..], r), PutItemList(w[1..], s));
      PutItemListInjective(v[1..], w[1..], r, s);
      assert v == [v[0]] + v[1..] && w == [w[0]] + w[1..];
    }
  }

  /** The ordinals of a node are 32-bit. */
  ghost predicate NarrowOrdinals<R>(node: Node<R>)
  {
    && (forall i :: 0 <= i < |node.properties| ==> node.properties[i].ordinal < UINT32)
    && (forall i :: 0 <= i < |node.items| ==> node.items[i].ordinal < UINT32)
  }

  /** The preimage determines every field of a node and every child digest, in order. */
  lemma PreimageInjective(v: Node<Digest>, w: Node<Digest>)
    requires NarrowOrdinals(v) && NarrowOrdinals(w)
    requires Preimage(v) == Preimage(w)
    ensures v == w
  {
    var r1, s1 := PutItemList(v.items, []), PutItemList(w.items, []);
    var r2, s2 := PutUint(|v.items|, 8, r1), PutUint(|w.items|, 8, s1);
    var r3, s3 := PutPropertyList(v.properties, r2), PutPropertyList(w.properties, s2);
    var r4, s4 := PutUint(|v.properties|, 8, r3), PutUint(|w.properties|, 8, s3);
    CancelPrefix(SCHEMA_NODE_DOMAIN, SCHEMA_NODE_DOMAIN, PutFacts(v.facts, r4), PutFacts(w.facts, s4));
    PutFactsInjective(v.facts, w.facts, r4, s4);
    PutLengthInjective(|v.properties|, |w.properties|, r3, s3);
    PutPropertyListInjective(v.properties, w.properties, r2, s2);
    PutLengthInjective(|v.items|, |w.items|, r1, s1);
    PutItemListInjective(v.items, w.items, [], []);
  }
}
