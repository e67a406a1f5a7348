/** The tree of nodes that every file reader works on (src/json.c): a JSON value turned
    into nodes that carry text, with empty nodes in front of each object's members. */
module Json {
  import opened Decimal
  import opened Option

  /** A JSON value. A number with a fraction stands by the text that "%f" makes of it. */
  datatype Json =
    | Object(members: seq<Member>)
    | Array(elems: seq<Json>)
    | String(s: string)
    | Integer(n: int)
    | Double(shown: string)
    | Boolean(b: bool)
    | Null

  datatype Member = Member(key: string, value: Json)

  /** A GNode: its text, absent in separators, and its children. */
  datatype GNode = GNode(data: Option<string>, children: seq<GNode>)

  const Separator := GNode(None, [])

  predicate IsScalar(v: Json) {
    v.String? || v.Integer? || v.Double? || v.Boolean?
  }

  const NODE_BUF_SIZE := 64

  /** cc_oci_json_string: all but strings go through a buffer. */
  function ScalarText(v: Json): string
    requires IsScalar(v)
  {
    match v
    case String(s) => s
    case Integer(n) => FromInt(n)
    case Double(shown) => if |shown| < NODE_BUF_SIZE then shown else shown[..NODE_BUF_SIZE - 1]
    case Boolean(b) => if b then "true" else "false"
  }

  /** A string's text is the string, an integer's is read back as that number, a truth value's
      tells which, and a number's with a fraction is cut off behind 63 characters. */
  lemma ScalarKept(v: Json)
    requires IsScalar(v)
    ensures v.String? ==> ScalarText(v) == v.s
    ensures v.Integer? && LONG_MIN <= v.n <= LONG_MAX ==> Strtoll(ScalarText(v)) == (v.n, true)
    ensures v.Boolean? ==> (ScalarText(v) == "true" <==> v.b) && (ScalarText(v) == "false" <==> !v.b)
    ensures v.Double? ==> ScalarText(v) <= v.shown && |ScalarText(v)| == if |v.shown| <= 63 then |v.shown| else 63
  {
    if v.Integer? && LONG_MIN <= v.n <= LONG_MAX {
      StrtollOfInt(v.n, "");
      assert FromInt(v.n) + "" == FromInt(v.n);
    }
    assert |"true"| == 4 && |"false"| == 5;
    hide Strtoll, FromInt;
  }

  /** The nodes that cc_oci_json_parse_aux appends for a value. */
  function Flatten(v: Json, inArray: bool): seq<GNode>
    decreases v, 1
  {
    match v
    case Object(members) => [Separator] + FlattenMembers(members)
    case Array(elems) => FlattenElems(elems)
    case Null => []
    case _ => [GNode(Some(ScalarText(v)), if inArray then [Separator] else [])]
  }

  function FlattenMembers(members: seq<Member>): (nodes: seq<GNode>)
    ensures |nodes| == |members|
    decreases members, 0
  {
    if members == [] then []
    else [GNode(Some(members[0].key), Flatten(members[0].value, false))] + FlattenMembers(members[1..])
  }

  function FlattenElems(elems: seq<Json>): seq<GNode>
    decreases elems, 0
  {
    if elems == [] then [] else Flatten(elems[0], true) + FlattenElems(elems[1..])
  }

  lemma {:induction false} FlattenMembersAppend(a: seq<Member>, b: seq<Member>)
    ensures FlattenMembers(a + b) == FlattenMembers(a) + FlattenMembers(b)
  {
    if a == [] {
      assert a + b == b;
    } else {
      assert (a + b)[1..] == a[1..] + b;
      FlattenMembersAppend(a[1..], b);
    }
  }

  lemma {:induction false} FlattenElemsAppend(a: seq<Json>, b: seq<Json>)
    ensures FlattenElems(a + b) == FlattenElems(a) + FlattenElems(b)
  {
    if a == [] {
      assert a + b == b;
    } else {
      assert (a + b)[1..] == a[1..] + b;
      FlattenElemsAppend(a[1..], b);
    }
  }

  lemma FlattenMembersOne(m: Member)
    ensures FlattenMembers([m]) == [GNode(Some(m.key), Flatten(m.value, false))]
  {
    assert [m][1..] == [];
  }

  lemma FlattenElemsOne(e: Json)
    ensures FlattenElems([e]) == Flatten(e, true)
  {
    assert [e][1..] == [];
  }

  // ------------------------------------------------------------------
  // Nothing is lost, nothing is added, and the order stays.

  /** The texts of some nodes and of all below them, top down and in order. */
  function NodeTexts(nodes: seq<GNode>): seq<string>
    decreases nodes
  {
    if nodes == [] then []
    else
      (if nodes[0].data.Some? then [nodes[0].data.value] else [])
      + NodeTexts(nodes[0].children) + NodeTexts(nodes[1..])
  }

  /** The empty nodes among them. */
  function EmptyNodes(nodes: seq<GNode>): nat
    decreases nodes
  {
    if nodes == [] then 0
    else (if nodes[0].data.None? then 1 else 0) + EmptyNodes(nodes[0].children) + EmptyNodes(nodes[1..])
  }

  /** The names and scalars of a value as they stand in the document. */
  function Words(v: Json): seq<string>
    decreases v, 1
  {
    match v
    case Object(members) => MemberWords(members)
    case Array(elems) => ElemWords(elems)
    case Null => []
    case _ => [ScalarText(v)]
  }

  function MemberWords(members: seq<Member>): seq<string>
    decreases members, 0
  {
    if members == [] then [] else [members[0].key] + Words(members[0].value) + MemberWords(members[1..])
  }

  function ElemWords(elems: seq<Json>): seq<string>
    decreases elems, 0
  {
    if elems == [] then [] else Words(elems[0]) + ElemWords(elems[1..])
  }

  /** One for each object and one for each scalar that stands in an array. */
  function Marks(v: Json, inArray: bool): nat
    decreases v, 1
  {
    match v
    case Object(members) => 1 + MemberMarks(members)
    case Array(elems) => ElemMarks(elems)
    case Null => 0
    case _ => if inArray then 1 else 0
  }

  function MemberMarks(members: seq<Member>): nat
    decreases members, 0
  {
    if members == [] then 0 else Marks(members[0].value, false) + MemberMarks(members[1..])
  }

  function ElemMarks(elems: seq<Json>): nat
    decreases elems, 0
  {
    if elems == [] then 0 else Marks(elems[0], true) + ElemMarks(elems[1..])
  }

  lemma {:induction false} NodesAppend(a: seq<GNode>, b: seq<GNode>)
    ensures NodeTexts(a + b) == NodeTexts(a) + NodeTexts(b)
    ensures EmptyNodes(a + b) == EmptyNodes(a) + EmptyNodes(b)
  {
    if a == [] {
      assert a + b == b;
    } else {
      assert (a + b)[1..] == a[1..] + b;
      NodesAppend(a[1..], b);
      var own := (if a[0].data.Some? then [a[0].data.value] else []) + NodeTexts(a[0].children);
      assert own + (NodeTexts(a[1..]) + NodeTexts(b)) == own + NodeTexts(a[1..]) + NodeTexts(b);
    }
  }

  lemma OneNode(node: GNode)
    ensures NodeTexts([node]) == (if node.data.Some? then [node.data.value] else []) + NodeTexts(node.children)
    ensures EmptyNodes([node]) == (if node.data.None? then 1 else 0) + EmptyNodes(node.children)
  {
    assert [node][1..] == [];
  }

  /** Flattening keeps every name and scalar, in the order of the document, and adds an empty
      node for each object and each scalar in an array. */
  lemma {:induction false} WordsKept(v: Json, inArray: bool)
    ensures NodeTexts(Flatten(v, inArray)) == Words(v)
    ensures EmptyNodes(Flatten(v, inArray)) == Marks(v, inArray)
    decreases v, 1
  {
    match v
    case Object(members) =>
      MemberWordsKept(members);
      NodesAppend([Separator], FlattenMembers(members));
      OneNode(Separator);
      hide FlattenMembers, MemberWords, MemberMarks;
    case Array(elems) => ElemWordsKept(elems);
    case Null =>
    case _ =>
      OneNode(Separator);
      OneNode(GNode(Some(ScalarText(v)), if inArray then [Separator] else []));
      hide ScalarText;
  }

  lemma {:induction false} MemberWordsKept(members: seq<Member>)
    ensures NodeTexts(FlattenMembers(members)) == MemberWords(members)
    ensures EmptyNodes(FlattenMembers(members)) == MemberMarks(members)
    decreases members, 0
  {
    if members != [] {
      WordsKept(members[0].value, false);
      MemberWordsKept(members[1..]);
      var node := GNode(Some(members[0].key), Flatten(members[0].value, false));
      OneNode(node);
      NodesAppend([node], FlattenMembers(members[1..]));
      hide Flatten, Words, Marks, NodeTexts, EmptyNodes;
    }
  }

  lemma {:induction false} ElemWordsKept(elems: seq<Json>)
    ensures NodeTexts(FlattenElems(elems)) == ElemWords(elems)
    ensures EmptyNodes(FlattenElems(elems)) == ElemMarks(elems)
    decreases elems, 0
  {
    if elems != [] {
      WordsKept(elems[0], true);
      ElemWordsKept(elems[1..]);
      NodesAppend(Flatten(elems[0], true), FlattenElems(elems[1..]));
      hide Flatten, Words, Marks, NodeTexts, EmptyNodes;
    }
  }

  // ------------------------------------------------------------------
  // The tree as it is built, by appending to nodes in place.

  /** `forest` is the value of the children, `repr` the nodes below and including this. */
  class Node {
    var data: Option<string>
    var children: seq<Node>
    ghost var forest: seq<GNode>
    ghost var repr: set<Node>

    constructor (text: Option<string>)
      ensures data == text && children == [] && Valid() && forest == [] && repr == {this}
    {
      data, children, forest, repr := text, [], [], {this};
    }

    ghost predicate Valid()
      reads this, repr
      decreases repr
    {
      && this in repr
      && |forest| == |children|
      && (forall i :: 0 <= i < |children| ==>
            && children[i] in repr && children[i].repr <= repr - {this}
            && children[i].Valid() && forest[i] == children[i].Value())
    }

    ghost function Value(): GNode
      reads this
    {
      GNode(data, forest)
    }

    /** g_node_append of a finished child. */
    method Append(child: Node)
      requires Valid() && child.Valid() && this !in child.repr
      modifies this
      ensures Valid() && data == old(data)
      ensures children == old(children) + [child]
      ensures forest == old(forest) + [child.Value()] && repr == old(repr) + child.repr
    {
      children := children + [child];
      forest := forest + [child.Value()];
      repr := repr + child.repr;
    }
  }

  /** Appending to `node` changes no other node that was there before. */
  method AppendMember(node: Node, m: Member)
    requires node.Valid()
    modifies node
    ensures node.Valid() && node.data == old(node.data) && fresh(node.repr - old(node.repr))
    ensures node.forest == old(node.forest) + [GNode(Some(m.key), Flatten(m.value, false))]
    decreases m.value, 3
  {
    var child := new Node(Some(m.key));
    ParseAux(m.value, child, false);
    assert [] + Flatten(m.value, false) == Flatten(m.value, false);
    node.Append(child);
  }

  method ParseMembers(members: seq<Member>, node: Node)
    requires node.Valid()
    modifies node
    ensures node.Valid() && node.data == old(node.data) && fresh(node.repr - old(node.repr))
    ensures node.forest == old(node.forest) + FlattenMembers(members)
    decreases members, 4
  {
    var j := 0;
    assert FlattenMembers(members[..0]) == [];
    while j < |members|
      invariant 0 <= j <= |members|
      invariant node.Valid() && node.data == old(node.data) && fresh(node.repr - old(node.repr))
      invariant node.forest == old(node.forest) + FlattenMembers(members[..j])
    {
      AppendMember(node, members[j]);
      MembersStep(members, j);
      j := j + 1;
    }
    assert members[..j] == members;
  }

  method ParseElems(elems: seq<Json>, node: Node)
    requires node.Valid()
    modifies node
    ensures node.Valid() && node.data == old(node.data) && fresh(node.repr - old(node.repr))
    ensures node.forest == old(node.forest) + FlattenElems(elems)
    decreases elems, 4
  {
    var i := 0;
    assert FlattenElems(elems[..0]) == [];
    while i < |elems|
      invariant 0 <= i <= |elems|
      invariant node.Valid() && node.data == old(node.data) && fresh(node.repr - old(node.repr))
      invariant node.forest == old(node.forest) + FlattenElems(elems[..i])
    {
      ParseAux(elems[i], node, true);
      ElemsStep(elems, i);
      i := i + 1;
    }
    assert elems[..i] == elems;
  }

  /** cc_oci_json_parse_aux. */
  method ParseAux(root: Json, node: Node, parsingArray: bool)
    requires node.Valid()
    modifies node
    ensures node.Valid() && node.data == old(node.data) && fresh(node.repr - old(node.repr))
    ensures node.forest == old(node.forest) + Flatten(root, parsingArray)
    decreases root, 2
  {
    match root
    case Object(members) =>
      var sep := new Node(None);
      node.Append(sep);
      ParseMembers(members, node);
      assert node.forest == old(node.forest) + ([Separator] + FlattenMembers(members));
    case Array(elems) =>
      ParseElems(elems, node);
    case Null =>
    case _ =>
      ParseScalar(root, node, parsingArray);
  }

  method ParseScalar(root: Json, node: Node, parsingArray: bool)
    requires IsScalar(root) && node.Valid()
    modifies node
    ensures node.Valid() && node.data == old(node.data) && fresh(node.repr - old(node.repr))
    ensures node.forest == old(node.forest) + Flatten(root, parsingArray)
  {
    var leaf := new Node(Some(ScalarText(root)));
    if parsingArray {
      var end := new Node(None);
      leaf.Append(end);
      assert leaf.forest == [Separator];
    }
    node.Append(leaf);
  }

  lemma MembersStep(members: seq<Member>, j: nat)
    requires j < |members|
    ensures FlattenMembers(members[..j + 1])
         == FlattenMembers(members[..j]) + [GNode(Some(members[j].key), Flatten(members[j].value, false))]
  {
    assert members[..j + 1] == members[..j] + [members[j]];
    FlattenMembersAppend(members[..j], [members[j]]);
    FlattenMembersOne(members[j]);
  }

  lemma ElemsStep(elems: seq<Json>, i: nat)
    requires i < |elems|
    ensures FlattenElems(elems[..i + 1]) == FlattenElems(elems[..i]) + Flatten(elems[i], true)
  {
    assert elems[..i + 1] == elems[..i] + [elems[i]];
    FlattenElemsAppend(elems[..i], [elems[i]]);
    FlattenElemsOne(elems[i]);
  }

  /** cc_oci_json_parse, from a parsed document on. */
  method Parse(filename: string, root: Json) returns (node: Node)
    ensures fresh(node) && node.Valid() && node.Value() == GNode(Some(filename), Flatten(root, false))
  {
    node := new Node(Some(filename));
    ParseAux(root, node, false);
    assert [] + Flatten(root, false) == Flatten(root, false);
  }
}
