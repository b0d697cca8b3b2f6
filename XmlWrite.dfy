/**
 * The pretty-printer: `xml_node_out` and `xml_doc_write` as functions
 * from a tree to the characters they send to the file.
 */
module XmlWrite {
  import opened Wrappers
  import opened XmlTree

  /** `n` spaces. */
  function Spaces(n: nat): (s: string)
    ensures |s| == n && forall k | 0 <= k < n :: s[k] == ' '
  {
    if n == 0 then [] else [' '] + Spaces(n - 1)
  }

  /**
   * `printf("%*s", width, " ")`: the one-space string padded to the field
   * width, a negative width padding on the right; either way
   * max(|width|, 1) spaces.
   */
  function Pad(width: int): (s: string)
    ensures |s| >= 1 && (|s| == width || |s| == -width || |s| == 1)
    ensures |s| >= width && |s| >= -width
    ensures forall k | 0 <= k < |s| :: s[k] == ' '
  {
    Spaces(if width > 1 then width else if width < -1 then -width else 1)
  }

  /** ` key="value"`, one attribute as the writer prints it. */
  function AttrOut(a: Attr): string
  {
    " " + CStr(a.key) + "=\"" + CStr(a.value) + "\""
  }

  /** The attributes the writer prints: those whose value is not empty. */
  function Kept(attrs: seq<Attr>): seq<Attr>
  {
    if |attrs| == 0 then []
    else Kept(attrs[..|attrs| - 1]) + (if CStr(attrs[|attrs| - 1].value) == [] then [] else [attrs[|attrs| - 1]])
  }

  /** The attribute loop of the writer, skipping empty values. */
  function AttrsOut(attrs: seq<Attr>): string
  {
    if |attrs| == 0 then ""
    else AttrsOut(attrs[..|attrs| - 1]) + (if CStr(attrs[|attrs| - 1].value) == [] then "" else AttrOut(attrs[|attrs| - 1]))
  }

  /** An attribute is kept exactly when it is given and its value is not empty. */
  lemma {:induction false} KeptMembers(attrs: seq<Attr>)
    ensures forall a :: a in Kept(attrs) <==> a in attrs && CStr(a.value) != []
    decreases |attrs|
  {
    if |attrs| > 0 {
      var init := attrs[..|attrs| - 1];
      KeptMembers(init);
      assert attrs == init + [attrs[|attrs| - 1]];
    }
  }

  /** The writer prints the kept attributes and nothing else, and keeping them again changes nothing. */
  lemma {:induction false} AttrsOutKept(attrs: seq<Attr>)
    ensures AttrsOut(Kept(attrs)) == AttrsOut(attrs)
    ensures Kept(Kept(attrs)) == Kept(attrs)
    decreases |attrs|
  {
    if |attrs| > 0 {
      var init := attrs[..|attrs| - 1];
      var x := attrs[|attrs| - 1];
      AttrsOutKept(init);
      if CStr(x.value) == [] {
        assert Kept(attrs) == Kept(init) + [] == Kept(init);
        assert AttrsOut(attrs) == AttrsOut(init) + "" == AttrsOut(init);
      } else {
        var k := Kept(init) + [x];
        assert k[..|k| - 1] == Kept(init) && k[|k| - 1] == x;
        assert Kept(attrs) == k;
        assert AttrsOut(k) == AttrsOut(Kept(init)) + AttrOut(x);
        assert Kept(k) == Kept(Kept(init)) + [x];
      }
    }
  }

  /** The padding before a line, printed only at a positive depth. */
  function Indent(indent: int, times: int): string
  {
    if times > 0 then Pad(indent * times) else ""
  }

  /** One pass of the loop of `xml_node_out`: a child and, below it, its subtree. */
  function ChildOut(c: Node, indent: int, times: int): string
    decreases c
  {
    Indent(indent, times) + "<" + CStr(c.tag) + AttrsOut(c.attrs) +
    if |c.children| == 0 && c.inner.None? then "/>\n"
    else if |c.children| == 0 then
      ">" + "\n" + Pad(indent * (times + 1)) + CStr(c.inner.value) + "\n" + Pad(indent * times) + "</" + CStr(c.tag) + ">\n"
    else
      ">" + "\n" + ChildrenOut(c.children, indent, times + 1) + Indent(indent, times) + "</" + CStr(c.tag) + ">\n"
  }

  /** `xml_node_out` on a node whose children are `cs`. */
  function ChildrenOut(cs: seq<Node>, indent: int, times: int): string
    decreases cs
  {
    if |cs| == 0 then "" else ChildrenOut(cs[..|cs| - 1], indent, times) + ChildOut(cs[|cs| - 1], indent, times)
  }

  /**
   * `xml_doc_write`: the root's start tag, its subtree one level in, and
   * then `<tag/>` where a close tag `</tag>` belongs.
   */
  function DocWrite(root: Node, indent: int): string
  {
    "<" + CStr(root.tag) + AttrsOut(root.attrs) + ">\n" + ChildrenOut(root.children, indent, 1) + "<" + CStr(root.tag) + "/>\n"
  }

  /** The same writer with the root closed by `</tag>`. */
  function DocWriteClosed(root: Node, indent: int): string
  {
    "<" + CStr(root.tag) + AttrsOut(root.attrs) + ">\n" + ChildrenOut(root.children, indent, 1) + "</" + CStr(root.tag) + ">\n"
  }
}
