/**
 * The document tree of the XML subset and the queries on it.
 *
 * `XMLNode` and `XMLAttribute` become values: a node owns its children,
 * there are no parent pointers, and a NULL `inner_text` is `None`. C
 * strings are `string`s; what `strdup`, `strcmp` and `%s` see of one is
 * `CStr` of it.
 */
module XmlTree {
  import opened Wrappers

  const NUL: char := '\0'

  /** `XMLAttribute`. */
  datatype Attr = Attr(key: string, value: string)

  /** `XMLNode`. */
  datatype Node = Node(tag: string, inner: Option<string>, attrs: seq<Attr>, children: seq<Node>)

  /** The characters of a buffer before its first NUL. */
  function CStr(s: string): (r: string)
    ensures |r| <= |s| && r == s[..|r|]
    ensures NUL !in r
    ensures |r| < |s| ==> s[|r|] == NUL
  {
    if |s| == 0 || s[0] == NUL then [] else [s[0]] + CStr(s[1..])
  }

  /** A buffer without NUL is read whole, and a C string is read as itself. */
  lemma {:induction false} CStrNoNul(s: string)
    requires NUL !in s
    ensures CStr(s) == s
  {
    if |s| > 0 {
      CStrNoNul(s[1..]);
    }
  }

  // ---------------------------------------------------------------------
  // Subtrees
  // ---------------------------------------------------------------------

  /** Every node of the subtree rooted at `n`, the root first. */
  function Subtree(n: Node): seq<Node>
    decreases n
  {
    [n] + Forest(n.children)
  }

  /** The subtrees of a sequence of nodes, one after the other. */
  function Forest(ns: seq<Node>): seq<Node>
    decreases ns
  {
    if |ns| == 0 then [] else Forest(ns[..|ns| - 1]) + Subtree(ns[|ns| - 1])
  }

  /** The nodes of `ns` whose tag is `name` as a C string, in order. */
  function Named(ns: seq<Node>, name: string): (r: seq<Node>)
    ensures forall k | 0 <= k < |r| :: CStr(r[k].tag) == CStr(name)
  {
    if |ns| == 0 then []
    else Named(ns[..|ns| - 1], name) + (if CStr(ns[|ns| - 1].tag) == CStr(name) then [ns[|ns| - 1]] else [])
  }

  /** Every node of `ns` with the tag is selected as often as it occurs, and no other node is. */
  lemma {:induction false} NamedCount(ns: seq<Node>, name: string)
    ensures forall n :: multiset(Named(ns, name))[n] == if CStr(n.tag) == CStr(name) then multiset(ns)[n] else 0
    decreases |ns|
  {
    if |ns| > 0 {
      var init, last := ns[..|ns| - 1], ns[|ns| - 1];
      NamedCount(init, name);
      assert ns == init + [last];
    }
  }

  lemma {:induction false} ForestAppend(a: seq<Node>, b: seq<Node>)
    ensures Forest(a + b) == Forest(a) + Forest(b)
    decreases |b|
  {
    if |b| == 0 {
      assert a + b == a;
    } else {
      assert (a + b)[..|a + b| - 1] == a + b[..|b| - 1];
      ForestAppend(a, b[..|b| - 1]);
    }
  }

  lemma {:induction false} NamedAppend(a: seq<Node>, b: seq<Node>, name: string)
    ensures Named(a + b, name) == Named(a, name) + Named(b, name)
    decreases |b|
  {
    if |b| == 0 {
      assert a + b == a;
    } else {
      assert (a + b)[..|a + b| - 1] == a + b[..|b| - 1];
      NamedAppend(a, b[..|b| - 1], name);
    }
  }

  // ---------------------------------------------------------------------
  // Building a tree
  // ---------------------------------------------------------------------

  /** The linking half of `xml_node_new(parent)`: the new node becomes the last child. */
  function AddChild(parent: Node, child: Node): (p: Node)
    ensures p.tag == parent.tag && p.inner == parent.inner && p.attrs == parent.attrs
    ensures p.children == parent.children + [child]
  {
    parent.(children := parent.children + [child])
  }

  /** Linking a child adds exactly the child's subtree to the parent's. */
  lemma AddChildSubtree(parent: Node, child: Node, name: string)
    ensures Subtree(AddChild(parent, child)) == [AddChild(parent, child)] + Forest(parent.children) + Subtree(child)
    ensures |Named(Subtree(AddChild(parent, child)), name)| == |Named(Subtree(parent), name)| + |Named(Subtree(child), name)|
  {
    var p := AddChild(parent, child);
    assert p.children[..|p.children| - 1] == parent.children;
    NamedAppend([p], Forest(parent.children), name);
    NamedAppend([parent], Forest(parent.children), name);
    NamedAppend([p] + Forest(parent.children), Subtree(child), name);
    assert Named([p], name) == [] + (if CStr(p.tag) == CStr(name) then [p] else []);
    assert Named([parent], name) == [] + (if CStr(parent.tag) == CStr(name) then [parent] else []);
  }

  /** `xml_doc_init`: a root carrying the tag and nothing else. */
  function DocInit(tagname: string): (root: Node)
    ensures root.tag == CStr(tagname) && root.inner.None? && root.attrs == [] && root.children == []
  {
    Node(CStr(tagname), None, [], [])
  }

  /** `xml_insert_node`: a new last child with the tag and, if given, the text. */
  function InsertNode(parent: Node, tag: string, innerText: Option<string>): (p: Node)
  {
    AddChild(parent, Node(CStr(tag), if innerText.Some? then Some(CStr(innerText.value)) else None, [], []))
  }

  /** An inserted node is one more match for its tag, and no other count changes. */
  lemma InsertNodeCounts(parent: Node, tag: string, innerText: Option<string>, name: string)
    ensures InsertNode(parent, tag, innerText).children[..|parent.children|] == parent.children
    ensures |Named(Subtree(InsertNode(parent, tag, innerText)), name)|
         == |Named(Subtree(parent), name)| + (if CStr(tag) == CStr(name) then 1 else 0)
  {
    var c := Node(CStr(tag), if innerText.Some? then Some(CStr(innerText.value)) else None, [], []);
    AddChildSubtree(parent, c, name);
    assert Subtree(c) == [c];
    assert Named([c], name) == [] + (if CStr(c.tag) == CStr(name) then [c] else []);
    CStrNoNul(CStr(tag));
  }

  /** `xml_attrib_add`: appends, whatever keys are already there. */
  function AttribAdd(n: Node, key: string, value: string): (m: Node)
  {
    n.(attrs := n.attrs + [Attr(CStr(key), CStr(value))])
  }

  // ---------------------------------------------------------------------
  // Queries
  // ---------------------------------------------------------------------

  /** The index of the first attribute whose key is `key` as a C string, or the length. */
  function KeyIndex(attrs: seq<Attr>, key: string): (k: nat)
    ensures k <= |attrs|
    ensures forall j | 0 <= j < k :: CStr(attrs[j].key) != CStr(key)
    ensures k < |attrs| ==> CStr(attrs[k].key) == CStr(key)
  {
    if |attrs| == 0 then 0
    else if CStr(attrs[0].key) == CStr(key) then 0
    else 1 + KeyIndex(attrs[1..], key)
  }

  /** `xml_attrib_get_value`: the value of the first attribute with the key, or NULL. */
  function AttribGetValue(n: Node, key: string): (r: Option<string>)
    ensures r.None? <==> forall j | 0 <= j < |n.attrs| :: CStr(n.attrs[j].key) != CStr(key)
    ensures r.Some? ==> exists j | 0 <= j < |n.attrs| ::
      CStr(n.attrs[j].key) == CStr(key) && n.attrs[j].value == r.value &&
      forall i | 0 <= i < j :: CStr(n.attrs[i].key) != CStr(key)
  {
    var k := KeyIndex(n.attrs, key);
    if k < |n.attrs| then Some(n.attrs[k].value) else None
  }

  /** An added attribute never hides an earlier one with the same key. */
  lemma AttribAddKeepsFirst(n: Node, key: string, value: string, query: string)
    ensures AttribGetValue(AttribAdd(n, key, value), query) ==
      if AttribGetValue(n, query).Some? then AttribGetValue(n, query)
      else if CStr(key) == CStr(query) then Some(CStr(value))
      else None
  {
    CStrNoNul(CStr(key));
    AppendedAttr(n, Attr(CStr(key), CStr(value)), query);
  }

  /** The value found for a key once attribute `a` is appended. */
  lemma AppendedAttr(n: Node, a: Attr, query: string)
    ensures AttribGetValue(n.(attrs := n.attrs + [a]), query) ==
      if AttribGetValue(n, query).Some? then AttribGetValue(n, query)
      else if CStr(a.key) == CStr(query) then Some(a.value)
      else None
  {
    var k := KeyIndex(n.attrs, query);
    KeyIndexAppend(n.attrs, a, query);
    AttribGetAt(n, query);
    AttribGetAt(n.(attrs := n.attrs + [a]), query);
    if k < |n.attrs| {
      assert (n.attrs + [a])[k] == n.attrs[k];
    } else {
      assert (n.attrs + [a])[|n.attrs|] == a;
    }
  }

  /** `AttribGetValue` read off `KeyIndex`. */
  lemma AttribGetAt(n: Node, query: string)
    ensures var k := KeyIndex(n.attrs, query);
      AttribGetValue(n, query) == if k < |n.attrs| then Some(n.attrs[k].value) else None
  {
  }

  /** Where the search for a key ends once one more attribute is appended. */
  lemma KeyIndexAppend(attrs: seq<Attr>, a: Attr, key: string)
    ensures KeyIndex(attrs + [a], key) ==
      if KeyIndex(attrs, key) < |attrs| then KeyIndex(attrs, key)
      else if CStr(a.key) == CStr(key) then |attrs| else |attrs| + 1
  {
    var k := KeyIndex(attrs, key);
    var k' := KeyIndex(attrs + [a], key);
    assert forall j | 0 <= j < |attrs| :: (attrs + [a])[j] == attrs[j];
    if k < |attrs| {
      assert k' == k;
    } else {
      assert (attrs + [a])[|attrs|] == a;
      assert k' >= |attrs|;
    }
  }

  /**
   * `xml_node_find_tag`: the loop returns on its first pass, so the search
   * descends into the first child only and stops at a childless node.
   */
  function FindTag(root: Node, tagname: string): (r: Node)
    decreases root
  {
    if CStr(root.tag) != CStr(tagname) && |root.children| > 0 then FindTag(root.children[0], tagname) else root
  }

  /** The path from `n` through first children down to a childless node. */
  function FirstPath(n: Node): (p: seq<Node>)
    ensures |p| >= 1 && p[0] == n && |p[|p| - 1].children| == 0
    ensures forall k | 0 <= k < |p| - 1 :: |p[k].children| > 0 && p[k + 1] == p[k].children[0]
    decreases n
  {
    if |n.children| == 0 then [n] else [n] + FirstPath(n.children[0])
  }

  /**
   * Node `k` of the first-child path is the one `FindTag` returns: no
   * earlier node matches, and it matches unless it ends the path.
   */
  ghost predicate OnPathAt(root: Node, tagname: string, k: nat)
    requires k < |FirstPath(root)|
  {
    var p := FirstPath(root);
    p[k] == FindTag(root, tagname) &&
    (forall j | 0 <= j < k :: CStr(p[j].tag) != CStr(tagname)) &&
    (CStr(p[k].tag) == CStr(tagname) || k == |p| - 1)
  }

  /**
   * `FindTag` gives the first node on the first-child path whose tag
   * matches, or, when none does, the last node of that path.
   */
  lemma {:induction false} FindTagOnPath(root: Node, tagname: string)
    ensures exists k | 0 <= k < |FirstPath(root)| :: OnPathAt(root, tagname, k)
    decreases root
  {
    if CStr(root.tag) != CStr(tagname) && |root.children| > 0 {
      var c := root.children[0];
      FindTagOnPath(c, tagname);
      var k :| 0 <= k < |FirstPath(c)| && OnPathAt(c, tagname, k);
      OnPathDown(root, tagname, k);
    } else {
      assert OnPathAt(root, tagname, 0);
    }
  }

  /** A node that does not match hands the search to its first child, one step further down the path. */
  lemma OnPathDown(root: Node, tagname: string, k: nat)
    requires CStr(root.tag) != CStr(tagname) && |root.children| > 0
    requires k < |FirstPath(root.children[0])| && OnPathAt(root.children[0], tagname, k)
    ensures k + 1 < |FirstPath(root)| && OnPathAt(root, tagname, k + 1)
  {
    var p := FirstPath(root);
    var q := FirstPath(root.children[0]);
    assert p == [root] + q;
    assert p[k + 1] == q[k];
    assert forall j | 1 <= j < k + 1 :: p[j] == q[j - 1];
  }

  /**
   * `xml_node_find_tags`: depth-first search with an explicit stack. The
   * result holds every node of the subtree whose tag is the name, each
   * exactly as often as it occurs there.
   */
  method FindTags(root: Node, tagname: string) returns (nodes: seq<Node>)
    ensures multiset(nodes) == multiset(Named(Subtree(root), tagname))
  {
    var stack := [root];
    nodes := [];
    ForestOne(root);
    while |stack| > 0
      invariant multiset(nodes) + multiset(Named(Forest(stack), tagname)) == multiset(Named(Subtree(root), tagname))
      decreases |Forest(stack)|
    {
      var node := stack[|stack| - 1];
      var rest := stack[..|stack| - 1];
      var hit := CStr(node.tag) == CStr(tagname);
      PopStep(stack, tagname);
      ghost var before := nodes;
      if hit {
        nodes := nodes + [node];
      }
      stack := PushAll(rest, node.children);
      FoundStep(before, nodes, node, hit);
    }
  }

  /** One pass of the search adds the popped node to the result exactly when it has the tag. */
  lemma FoundStep(before: seq<Node>, after: seq<Node>, node: Node, hit: bool)
    requires after == if hit then before + [node] else before
    ensures multiset(after) == multiset(before) + multiset(if hit then [node] else [])
  {
  }

  /** The loop pushing a node's children onto the stack, first child first. */
  method PushAll(stack: seq<Node>, children: seq<Node>) returns (s: seq<Node>)
    ensures s == stack + children
  {
    s := stack;
    for i := 0 to |children|
      invariant s == stack + children[..i]
    {
      s := s + [children[i]];
    }
    assert children[..|children|] == children;
  }

  lemma ForestOne(n: Node)
    ensures Forest([n]) == Subtree(n)
  {
    assert [n][..0] == [];
  }

  /**
   * Replacing the top of the stack by its children takes exactly the top
   * node out of the nodes still to visit.
   */
  lemma PopStep(stack: seq<Node>, name: string)
    requires |stack| > 0
    ensures var node := stack[|stack| - 1];
      var rest := stack[..|stack| - 1] + node.children;
      multiset(Named(Forest(stack), name)) ==
        multiset(if CStr(node.tag) == CStr(name) then [node] else []) + multiset(Named(Forest(rest), name)) &&
      |Forest(rest)| < |Forest(stack)|
  {
    var node := stack[|stack| - 1];
    var front := stack[..|stack| - 1];
    var hit := if CStr(node.tag) == CStr(name) then [node] else [];
    var a, c := Forest(front), Forest(node.children);
    ForestPop(stack);
    assert Forest(stack) == a + [node] + c;
    assert Forest(front + node.children) == a + c;
    NamedPop(a, node, c, name);
    MultisetMiddle(Named(a, name), hit, Named(c, name));
  }

  /** Taking the middle part out of a sequence takes its elements out of the multiset. */
  lemma MultisetMiddle<T>(x: seq<T>, h: seq<T>, z: seq<T>)
    ensures multiset(x + h + z) == multiset(h) + multiset(x + z)
  {
  }

  /** The subtrees of a stack, split at its top node. */
  lemma ForestPop(stack: seq<Node>)
    requires |stack| > 0
    ensures var node := stack[|stack| - 1];
      Forest(stack) == Forest(stack[..|stack| - 1]) + [node] + Forest(node.children) &&
      Forest(stack[..|stack| - 1] + node.children) == Forest(stack[..|stack| - 1]) + Forest(node.children)
  {
    var node := stack[|stack| - 1];
    ForestAppend(stack[..|stack| - 1], node.children);
  }

  /** The matching nodes of a forest split at one node. */
  lemma NamedPop(a: seq<Node>, node: Node, c: seq<Node>, name: string)
    ensures Named(a + [node] + c, name) == Named(a, name) + (if CStr(node.tag) == CStr(name) then [node] else []) + Named(c, name)
    ensures Named(a + c, name) == Named(a, name) + Named(c, name)
  {
    NamedAppend(a + [node], c, name);
    NamedAppend(a, [node], name);
    NamedAppend(a, c, name);
    assert [node][..0] == [];
  }

  // ---------------------------------------------------------------------
  // File names
  // ---------------------------------------------------------------------

  /** `strrchr(s, '.')`: the index of the last dot. */
  function LastDot(s: string): (r: Option<nat>)
    ensures r.Some? ==> r.value < |s| && s[r.value] == '.' && forall j | r.value < j < |s| :: s[j] != '.'
    ensures r.None? ==> forall j | 0 <= j < |s| :: s[j] != '.'
  {
    if |s| == 0 then None
    else if s[|s| - 1] == '.' then Some(|s| - 1)
    else LastDot(s[..|s| - 1])
  }

  /** `check_xml_ext`. */
  function CheckXmlExt(filename: string): bool
  {
    var name := CStr(filename);
    var dot := LastDot(name);
    if dot.None? || dot.value == 0 then false
    else name[dot.value + 1..] == "xml"
  }

  /** A name passes exactly when it is longer than ".xml" and ends with it. */
  lemma CheckXmlExtIff(filename: string)
    ensures CheckXmlExt(filename) <==> (var name := CStr(filename); |name| > 4 && name[|name| - 4..] == ".xml")
  {
    var name := CStr(filename);
    if |name| > 4 && name[|name| - 4..] == ".xml" {
      EndsWithXml(name);
    }
    if CheckXmlExt(filename) {
      PassesXml(name, LastDot(name).value);
    }
  }

  /** A name ending with ".xml" after at least one character has its last dot there. */
  lemma EndsWithXml(name: string)
    requires |name| > 4 && name[|name| - 4..] == ".xml"
    ensures LastDot(name) == Some(|name| - 4) && name[|name| - 3..] == "xml"
  {
    assert name[|name| - 4] == (name[|name| - 4..])[0];
    assert name[|name| - 3..] == (name[|name| - 4..])[1..];
    assert forall j | |name| - 4 < j < |name| :: name[j] == (name[|name| - 4..])[j - (|name| - 4)];
  }

  /** A name whose text after its last dot, not the first character, is "xml" ends with ".xml". */
  lemma PassesXml(name: string, d: nat)
    requires d < |name| && name[d] == '.' && name[d + 1..] == "xml"
    ensures |name| > 4 || d == 0
    ensures d > 0 ==> name[|name| - 4..] == ".xml"
  {
    assert |name| == d + 4;
    assert name[d..] == [name[d]] + name[d + 1..];
  }
}
