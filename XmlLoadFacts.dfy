/**
 * What the loader does with inputs the writer never prints: where it
 * fails, and what it accepts although the document is not well formed.
 */
module XmlLoadFacts {
  import opened Wrappers
  import opened XmlTree
  import opened XmlWrite
  import opened XmlLoad
  import opened XmlRoundTrip

  /** `w` lies in a buffer made of `u`, `w` and `v`, right after `u`. */
  lemma InBuffer(b: string, u: string, w: string, v: string)
    requires b == u + w + v
    ensures Occurs(b, |u|, w)
  {
    forall k | 0 <= k < |w| ensures b[|u| + k] == w[k] {
      assert (u + w + v)[|u| + k] == w[k];
    }
  }

  // ---------------------------------------------------------------------
  // Failures
  // ---------------------------------------------------------------------

  /** Text that is not all whitespace before the first element: "Text outside of document". */
  lemma TextBeforeRoot(w: string, rest: string)
    requires IsText(w) && NoSpace(w) != []
    ensures Parse(w + "<" + rest) == Err(TextOutsideDocument)
  {
    var b := w + "<" + rest + [NUL];
    InBuffer(b, [], w, "<" + rest + [NUL]);
    assert b[|w|] == '<';
    RunText(b, 0, w, [], [], NoRoot, |w|);
    var st := Scanner(|w|, [] + NoSpace(w), [], NoRoot);
    assert Step(b, st) == Err(TextOutsideDocument);
  }

  /** Where the parts of a buffer made of a head, a close tag and the rest lie. */
  lemma CloseBuffer(b: string, head: string, u: string, rest: string)
    requires b == head + "</" + u + ">" + rest + [NUL]
    ensures Occurs(b, 0, head) && Occurs(b, |head|, "</" + u + ">")
  {
    InBuffer(b, [], head, "</" + u + ">" + rest + [NUL]);
    InBuffer(b, head, "</" + u + ">", rest + [NUL]);
  }

  /** Where the parts of a close tag `</u>` lie, and where the search for its `>` ends. */
  lemma CloseTagAt(b: string, p: nat, u: string)
    requires Occurs(b, p, "</" + u + ">") && '>' !in u
    ensures p + 1 < |b| && b[p] == '<' && b[p + 1] == '/'
    ensures Find(b, p + 2, '>') == Ok(p + 2 + |u|) && b[p + 2..p + 2 + |u|] == u
  {
    OccursSplit(b, p, "</" + u, ">");
    OccursSplit(b, p, "</", u);
    assert b[p + 0] == "</"[0] && b[p + 1] == "</"[1];
    assert b[p + 2 + |u| + 0] == ">"[0];
    FindAfter(b, p + 2, u, '>');
    OccursSlice(b, p + 2, u);
  }

  /** A close tag when no element is open: "Already at the root". */
  lemma CloseNothingOpen(b: string, p: nat, u: string, doc: Doc)
    requires Occurs(b, p, "</" + u + ">") && '>' !in u
    ensures Run(b, Scanner(p, [], [], doc)) == Err(AlreadyAtRoot)
  {
    CloseTagAt(b, p, u);
  }

  /** A document that starts with a close tag fails at once. */
  lemma CloseBeforeRoot(u: string, rest: string)
    requires '>' !in u
    ensures Parse("</" + u + ">" + rest) == Err(AlreadyAtRoot)
  {
    var b := "</" + u + ">" + rest + [NUL];
    InBuffer(b, [], "</" + u + ">", rest + [NUL]);
    CloseNothingOpen(b, 0, u, NoRoot);
  }

  /** `CloseAfterRoot` once the parts are located. */
  lemma CloseAfterRootAt(b: string, t: string, given: seq<Attr>, u: string, e: nat)
    requires IsName(t) && AttrsOk(given) && '>' !in u
    requires Occurs(b, 0, "<" + t + AttrsOut(given) + "/>\n") && e == 0 + |"<" + t + AttrsOut(given) + "/>\n"|
    requires Occurs(b, e, "</" + u + ">")
    ensures Run(b, Start()) == Err(AlreadyAtRoot)
  {
    var n := Node(t, None, Kept(given), []);
    assert Close([], Opened(NoRoot), n) == ([], RootDone(n));
    RunInline(b, 0, t, given, [], NoRoot, e, n);
    CloseNothingOpen(b, e, u, RootDone(n));
  }

  /** A close tag after the root was closed fails too: the root has no parent to return to. */
  lemma CloseAfterRoot(t: string, given: seq<Attr>, u: string, rest: string)
    requires IsName(t) && AttrsOk(given) && '>' !in u
    ensures Parse("<" + t + AttrsOut(given) + "/>\n" + "</" + u + ">" + rest) == Err(AlreadyAtRoot)
  {
    var head := "<" + t + AttrsOut(given) + "/>\n";
    var b := head + "</" + u + ">" + rest + [NUL];
    CloseBuffer(b, head, u, rest);
    CloseAfterRootAt(b, t, given, u, |head|);
  }

  /** A close tag naming another element than the innermost open one: "Mismatched tags". */
  lemma MismatchAt(b: string, p: nat, u: string, open: seq<Node>, doc: Doc)
    requires |open| > 0 && Occurs(b, p, "</" + u + ">") && '>' !in u && CStr(u) != open[|open| - 1].tag
    ensures Run(b, Scanner(p, [], open, doc)) == Err(MismatchedTags)
  {
    CloseTagAt(b, p, u);
  }

  /** `MismatchedClose` once the parts are located. */
  lemma MismatchedCloseAt(b: string, t: string, given: seq<Attr>, u: string, e: nat)
    requires IsName(t) && AttrsOk(given) && '>' !in u && CStr(u) != t
    requires Occurs(b, 0, "<" + t + AttrsOut(given) + ">") && e == |"<" + t + AttrsOut(given) + ">"|
    requires Occurs(b, e, "</" + u + ">")
    ensures Run(b, Start()) == Err(MismatchedTags)
  {
    RootOpenStep(b, e, t, given);
    MismatchAt(b, e, u, [Node(t, None, Kept(given), [])], RootOpen);
  }

  /** The root closed by a tag of another name fails. */
  lemma MismatchedClose(t: string, given: seq<Attr>, u: string, rest: string)
    requires IsName(t) && AttrsOk(given) && '>' !in u && CStr(u) != t
    ensures Parse("<" + t + AttrsOut(given) + ">" + "</" + u + ">" + rest) == Err(MismatchedTags)
  {
    var head := "<" + t + AttrsOut(given) + ">";
    var b := head + "</" + u + ">" + rest + [NUL];
    CloseBuffer(b, head, u, rest);
    MismatchedCloseAt(b, t, given, u, |head|);
  }

  // ---------------------------------------------------------------------
  // Accepted although not well formed
  // ---------------------------------------------------------------------

  /** `OpenAtEnd` once the parts are located. */
  lemma OpenAtEndAt(b: string, t: string, given: seq<Attr>, u: string, given2: seq<Attr>, e1: nat, e2: nat)
    requires IsName(t) && AttrsOk(given) && IsName(u) && AttrsOk(given2)
    requires Occurs(b, 0, "<" + t + AttrsOut(given) + ">") && e1 == |"<" + t + AttrsOut(given) + ">"|
    requires Occurs(b, e1, "<" + u + AttrsOut(given2) + ">") && e2 == e1 + |"<" + u + AttrsOut(given2) + ">"|
    requires e2 < |b| && b[e2] == NUL
    ensures Run(b, Start()) == Ok(Some(Node(t, None, Kept(given), [Node(u, None, Kept(given2), [])])))
  {
    var nt := Node(t, None, Kept(given), []);
    var nu := Node(u, None, Kept(given2), []);
    assert [nt] + [nu] == [nt, nu];
    assert [nt, nu][..0] + [AddChild(nt, nu)] == [AddChild(nt, nu)];
    assert Collapse([nt, nu]) == Some(AddChild(nt, nu));
    assert AddChild(nt, nu) == Node(t, None, Kept(given), [nu]);
    RootOpenStep(b, e1, t, given);
    RunOpen(b, e1, u, given2, [nt], RootOpen);
    RunEnd(b, e2, [nt, nu], RootOpen);
  }

  /** Elements still open at the end of the input stay in the tree: the loader succeeds. */
  lemma OpenAtEnd(t: string, given: seq<Attr>, u: string, given2: seq<Attr>)
    requires IsName(t) && AttrsOk(given) && IsName(u) && AttrsOk(given2)
    ensures Parse(("<" + t + AttrsOut(given) + ">") + ("<" + u + AttrsOut(given2) + ">")) ==
      Ok(Some(Node(t, None, Kept(given), [Node(u, None, Kept(given2), [])])))
  {
    var first := "<" + t + AttrsOut(given) + ">";
    var second := "<" + u + AttrsOut(given2) + ">";
    var b := first + second + [NUL];
    InBuffer(b, [], first, second + [NUL]);
    InBuffer(b, first, second, [NUL]);
    OpenAtEndAt(b, t, given, u, given2, |first|, |first| + |second|);
  }

  /** At a `<`, the collected text goes to the innermost open element before the tag is read. */
  lemma TextToOpen(b: string, p: nat, lex: string, open: seq<Node>, doc: Doc)
    requires |open| > 0 && p < |b| && b[p] == '<'
    ensures Run(b, Scanner(p, lex, open, doc)) == Run(b, Scanner(p, [], WithText(open, lex), doc))
  {
    assert Step(b, Scanner(p, lex, open, doc)) == Step(b, Scanner(p, [], WithText(open, lex), doc));
  }

  /**
   * `<tag attrs/>` is read up to its `>`, and the character after it is
   * skipped unread: `parse_attrs` moves past the `>` and the loop moves on
   * once more.
   */
  lemma InlineSkipsNext(b: string, p: nat, u: string, given: seq<Attr>, open: seq<Node>, doc: Doc, e: nat, n: Node)
    requires IsName(u) && AttrsOk(given) && Occurs(b, p, "<" + u + AttrsOut(given) + "/>")
    requires e == p + |"<" + u + AttrsOut(given) + "/>"| + 1 && n == Node(u, None, Kept(given), [])
    ensures Run(b, Scanner(p, [], open, doc)) == Run(b, Scanner(e, [], Close(open, Opened(doc), n).0, Close(open, Opened(doc), n).1))
  {
    OpenChars(b, p, u, AttrsOut(given), "/>");
    OpenInline(b, p + 1, u, given);
    InlineStep(b, p, open, doc, p + 1 + |u| + |AttrsOut(given)| + 2, u, Kept(given), e, n);
  }

  /** Text `lex` collected, then `<u attrs/>` and a line break: the text goes to the innermost open element, and `u` becomes its child. */
  lemma TextInline(b: string, p: nat, lex: string, o: seq<Node>, u: string, given2: seq<Attr>, e: nat)
    requires IsName(u) && AttrsOk(given2) && |o| == 1
    requires Occurs(b, p, "<" + u + AttrsOut(given2) + "/>\n") && e == p + |"<" + u + AttrsOut(given2) + "/>\n"|
    ensures Run(b, Scanner(p, lex, o, RootOpen)) ==
      Run(b, Scanner(e, [], [AddChild(WithText(o, lex)[0], Node(u, None, Kept(given2), []))], RootOpen))
  {
    var nu := Node(u, None, Kept(given2), []);
    var w := WithText(o, lex);
    assert |w| == 1 && w[..0] == [];
    assert [] + [AddChild(w[0], nu)] == [AddChild(w[0], nu)];
    assert Close(w, Opened(RootOpen), nu) == ([AddChild(w[0], nu)], RootOpen);
    assert b[p + 0] == ("<" + u + AttrsOut(given2) + "/>\n")[0];
    TextToOpen(b, p, lex, o, RootOpen);
    RunInline(b, p, u, given2, w, RootOpen, e, nu);
  }

  /** `<t attrs>`, text `x`, then `<u attrs/>` and a line break: the text is set on `t`, and `u` becomes its child. */
  lemma TextThenChild(b: string, t: string, given: seq<Attr>, x: string, u: string, given2: seq<Attr>, e1: nat, e2: nat, e3: nat)
    requires IsName(t) && AttrsOk(given) && IsText(x) && IsName(u) && AttrsOk(given2)
    requires Occurs(b, 0, "<" + t + AttrsOut(given) + ">") && e1 == |"<" + t + AttrsOut(given) + ">"|
    requires Occurs(b, e1, x) && e2 == e1 + |x|
    requires Occurs(b, e2, "<" + u + AttrsOut(given2) + "/>\n") && e3 == e2 + |"<" + u + AttrsOut(given2) + "/>\n"|
    ensures var nt := Node(t, None, Kept(given), []);
      Run(b, Start()) ==
      Run(b, Scanner(e3, [], [AddChild(WithText([nt], [] + NoSpace(x))[0], Node(u, None, Kept(given2), []))], RootOpen))
  {
    var nt := Node(t, None, Kept(given), []);
    RootOpenStep(b, e1, t, given);
    RunText(b, e1, x, [], [nt], RootOpen, e2);
    TextInline(b, e2, [] + NoSpace(x), [nt], u, given2, e3);
  }

  /** After the child, text `y` and `</t>`: `y` replaces the text of `t`, and `t` is the root. */
  lemma TextThenClose(b: string, t: string, y: string, n: Node, e3: nat, e4: nat, e5: nat)
    requires IsName(t) && IsText(y) && n.tag == t
    requires Occurs(b, e3, y) && e4 == e3 + |y|
    requires Occurs(b, e4, "</" + t + ">") && e5 == e4 + |"</" + t + ">"|
    requires e5 < |b| && b[e5] == NUL
    ensures Run(b, Scanner(e3, [], [n], RootOpen)) == Ok(Some(WithText([n], [] + NoSpace(y))[0]))
  {
    var o := WithText([n], [] + NoSpace(y));
    assert |o| == 1 && o[..0] == [];
    assert Close(o[..|o| - 1], RootOpen, o[|o| - 1]) == ([], RootDone(o[0]));
    RunText(b, e3, y, [], [n], RootOpen, e4);
    RunClose(b, e4, t, [] + NoSpace(y), [n], RootOpen);
    RunEnd(b, e5, [], RootDone(o[0]));
  }

  /** Where the five parts of a buffer lie. */
  lemma FiveParts(b: string, s1: string, x: string, s3: string, y: string, s5: string)
    requires b == s1 + x + s3 + y + s5 + [NUL]
    ensures Occurs(b, 0, s1) && Occurs(b, |s1|, x) && Occurs(b, |s1| + |x|, s3)
    ensures Occurs(b, |s1| + |x| + |s3|, y) && Occurs(b, |s1| + |x| + |s3| + |y|, s5)
    ensures b[|s1| + |x| + |s3| + |y| + |s5|] == NUL
  {
    InBuffer(b, [], s1, x + s3 + y + s5 + [NUL]);
    InBuffer(b, s1, x, s3 + y + s5 + [NUL]);
    InBuffer(b, s1 + x, s3, y + s5 + [NUL]);
    InBuffer(b, s1 + x + s3, y, s5 + [NUL]);
    InBuffer(b, s1 + x + s3 + y, s5, [NUL]);
  }

  /** The text of the closed root, once `y` replaced the text of `x`. */
  lemma LaterTextNode(t: string, given: seq<Attr>, x: string, nu: Node, y: string)
    requires IsText(y) && NoSpace(y) != []
    ensures var n3 := AddChild(WithText([Node(t, None, Kept(given), [])], [] + NoSpace(x))[0], nu);
      WithText([n3], [] + NoSpace(y))[0] == Node(t, Some(NoSpace(y)), Kept(given), [nu])
  {
    var lex := [] + NoSpace(y);
    assert lex == NoSpace(y);
    NoSpaceChars(y);
    assert NUL !in y;
    assert NUL !in lex;
    CStrNoNul(lex);
    var w := WithText([Node(t, None, Kept(given), [])], [] + NoSpace(x));
    assert w[0].tag == t && w[0].attrs == Kept(given) && w[0].children == [];
    var n3 := AddChild(w[0], nu);
    assert n3.children == [nu];
    assert WithText([n3], lex) == [n3.(inner := Some(lex))];
  }

  /** `LaterTextWins` once the parts are located. */
  lemma LaterTextAt(b: string, t: string, given: seq<Attr>, x: string, u: string, given2: seq<Attr>, y: string,
                    e1: nat, e2: nat, e3: nat, e4: nat, e5: nat)
    requires IsName(t) && AttrsOk(given) && IsName(u) && AttrsOk(given2) && IsText(x) && IsText(y) && NoSpace(y) != []
    requires Occurs(b, 0, "<" + t + AttrsOut(given) + ">") && e1 == |"<" + t + AttrsOut(given) + ">"|
    requires Occurs(b, e1, x) && e2 == e1 + |x|
    requires Occurs(b, e2, "<" + u + AttrsOut(given2) + "/>\n") && e3 == e2 + |"<" + u + AttrsOut(given2) + "/>\n"|
    requires Occurs(b, e3, y) && e4 == e3 + |y|
    requires Occurs(b, e4, "</" + t + ">") && e5 == e4 + |"</" + t + ">"|
    requires e5 < |b| && b[e5] == NUL
    ensures Run(b, Start()) == Ok(Some(Node(t, Some(NoSpace(y)), Kept(given), [Node(u, None, Kept(given2), [])])))
  {
    var nt := Node(t, None, Kept(given), []);
    var nu := Node(u, None, Kept(given2), []);
    var n3 := AddChild(WithText([nt], [] + NoSpace(x))[0], nu);
    LaterTextNode(t, given, x, nu, y);
    TextThenChild(b, t, given, x, u, given2, e1, e2, e3);
    TextThenClose(b, t, y, n3, e3, e4, e5);
  }

  /**
   * Text on both sides of a child: the later text replaces the earlier one,
   * which is lost, and the element keeps its child.
   */
  lemma LaterTextWins(t: string, given: seq<Attr>, x: string, u: string, given2: seq<Attr>, y: string)
    requires IsName(t) && AttrsOk(given) && IsName(u) && AttrsOk(given2) && IsText(x) && IsText(y) && NoSpace(y) != []
    ensures Parse(("<" + t + AttrsOut(given) + ">") + x + ("<" + u + AttrsOut(given2) + "/>\n") + y + ("</" + t + ">")) ==
      Ok(Some(Node(t, Some(NoSpace(y)), Kept(given), [Node(u, None, Kept(given2), [])])))
  {
    var s1 := "<" + t + AttrsOut(given) + ">";
    var s3 := "<" + u + AttrsOut(given2) + "/>\n";
    var s5 := "</" + t + ">";
    var b := s1 + x + s3 + y + s5 + [NUL];
    FiveParts(b, s1, x, s3, y, s5);
    LaterTextAt(b, t, given, x, u, given2, y, |s1|, |s1| + |x|, |s1| + |x| + |s3|, |s1| + |x| + |s3| + |y|, |s1| + |x| + |s3| + |y| + |s5|);
  }

  /**
   * A quoted value with no key before it ends the tag at the closing quote
   * ("Value has no key"), and loading goes on: the quote and what follows
   * it up to `>` are text.
   */
  lemma ValueWithoutKey()
    ensures Parse("<a \"v\">") == Ok(Some(Node("a", None, [], [])))
  {
    var b := "<a \"v\">" + [NUL];
    var open := [Node("a", None, [], [])];
    ValueWithoutKeyTag(b);
    assert b[0] == '<' && b[1] == 'a' && b[6] == '>' && b[7] == NUL && [] + [b[6]] == ">";
    assert StartTagAt(b, 0, [], NoRoot) == Ok(Scanner(6, [], [] + open, RootOpen));
    assert [] + open == open;
    assert Step(b, Start()) == Ok(Scanner(6, [], open, RootOpen));
    assert Run(b, Start()) == Run(b, Scanner(6, [], open, RootOpen));
    assert Run(b, Scanner(7, ">", open, RootOpen)) == Ok(Some(open[0]));
    assert Run(b, Scanner(6, [], open, RootOpen)) == Run(b, Scanner(7, ">", open, RootOpen));
  }

  /** `parse_attrs` on `a "v">`: the tag is `a`, and the quote after `v` ends the tag with no attribute. */
  lemma ValueWithoutKeyTag(b: string)
    requires b == "<a \"v\">" + [NUL]
    ensures ParseAttrsFrom(b, 1, [], None, None, []) == Ok(Tagged(TagStart, 5, "\"v", Some("a"), []))
  {
    assert b[1] == 'a' && b[2] == ' ' && b[3] == '"' && b[4] == 'v' && b[5] == '"';
    CStrNoNul("a");
    assert "\"" + [b[4]] == "\"v" && [] + [b[3]] == "\"" && [] + [b[1]] == "a";
    assert Copied(b, 5, "\"v", Some("a"), None, []) == Ok(Tagged(TagStart, 5, "\"v", Some("a"), []));
    assert ParseAttrsFrom(b, 4, "\"", Some("a"), None, []) == Copied(b, 5, "\"v", Some("a"), None, []);
    assert Copied(b, 4, "\"", Some("a"), None, []) == ParseAttrsFrom(b, 4, "\"", Some("a"), None, []);
    assert ParseAttrsFrom(b, 3, [], Some("a"), None, []) == Copied(b, 4, "\"", Some("a"), None, []);
    assert Copied(b, 2, "a", None, None, []) == ParseAttrsFrom(b, 3, [], Some("a"), None, []);
  }

  /** Where the parts of `<a><b/><c/></a>` lie. */
  lemma SiblingsBuffer(b: string)
    requires b == "<a><b/><c/></a>" + [NUL]
    ensures AttrsOut([]) == "" && Kept([]) == []
    ensures IsName("a") && IsName("b") && IsText("c/>")
    ensures Occurs(b, 0, "<" + "a" + AttrsOut([]) + ">") && Occurs(b, 3, "<" + "b" + AttrsOut([]) + "/>")
    ensures Occurs(b, 8, "c/>") && Occurs(b, 11, "</" + "a" + ">") && b[15] == NUL
  {
    assert "<" + "a" + AttrsOut([]) + ">" == "<a>";
    assert "<" + "b" + AttrsOut([]) + "/>" == "<b/>";
    assert "</" + "a" + ">" == "</a>";
  }

  /** `<a><b/>` read: `b` is the child of the root `a`, and the next `<` was skipped. */
  lemma SiblingsHead(b: string)
    requires b == "<a><b/><c/></a>" + [NUL]
    ensures Run(b, Start()) == Run(b, Scanner(8, [], [Node("a", None, [], [Node("b", None, [], [])])], RootOpen))
  {
    var na := Node("a", None, Kept([]), []);
    var nb := Node("b", None, Kept([]), []);
    SiblingsBuffer(b);
    assert [na][..0] + [AddChild(na, nb)] == [AddChild(na, nb)];
    assert Close([na], Opened(RootOpen), nb) == ([AddChild(na, nb)], RootOpen);
    assert na.children + [nb] == [nb];
    RootOpenStep(b, 3, "a", []);
    InlineSkipsNext(b, 3, "b", [], [na], RootOpen, 8, nb);
  }

  /** The text `c/>` goes to the open root. */
  lemma SiblingsText(b: string, open: seq<Node>)
    requires b == "<a><b/><c/></a>" + [NUL]
    requires open == [Node("a", None, [], [Node("b", None, [], [])])]
    ensures Run(b, Scanner(8, [], open, RootOpen)) == Run(b, Scanner(11, "c/>", open, RootOpen))
  {
    SiblingsBuffer(b);
    assert [] + NoSpace("c/>") == "c/>";
    RunText(b, 8, "c/>", [], open, RootOpen, 11);
  }

  /** `</a>` closes the root with the text `c/>`. */
  lemma SiblingsClose(b: string, open: seq<Node>, root: Node)
    requires b == "<a><b/><c/></a>" + [NUL]
    requires open == [Node("a", None, [], [Node("b", None, [], [])])]
    requires root == Node("a", Some("c/>"), [], [Node("b", None, [], [])])
    ensures Run(b, Scanner(11, "c/>", open, RootOpen)) == Run(b, Scanner(15, [], [], RootDone(root)))
  {
    SiblingsBuffer(b);
    CStrNoNul("c/>");
    var o := WithText(open, "c/>");
    assert o == [root];
    assert o[..0] == [];
    RunClose(b, 11, "a", "c/>", open, RootOpen);
  }

  /** The rest, `c/></a>`: text of the root, which is then closed. */
  lemma SiblingsTail(b: string)
    requires b == "<a><b/><c/></a>" + [NUL]
    ensures Run(b, Scanner(8, [], [Node("a", None, [], [Node("b", None, [], [])])], RootOpen)) ==
      Ok(Some(Node("a", Some("c/>"), [], [Node("b", None, [], [])])))
  {
    var open := [Node("a", None, [], [Node("b", None, [], [])])];
    var root := Node("a", Some("c/>"), [], [Node("b", None, [], [])]);
    SiblingsText(b, open);
    SiblingsClose(b, open, root);
    RunEnd(b, 15, [], RootDone(root));
  }

  /**
   * Two elements without content side by side: the `<` of the second is
   * the character skipped after the first, so the second is read as the
   * text `c/>` of the parent.
   */
  lemma InlineSiblingsLost()
    ensures Parse("<a><b/><c/></a>") == Ok(Some(Node("a", Some("c/>"), [], [Node("b", None, [], [])])))
  {
    var b := "<a><b/><c/></a>" + [NUL];
    SiblingsHead(b);
    SiblingsTail(b);
  }
}
