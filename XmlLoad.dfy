/**
 * The loader: the scanning loop of `xml_load` and `parse_attrs`, on a
 * character buffer that ends with the NUL `xml_load` writes after the
 * file's contents.
 *
 * `curr_node` and the parent pointers become a stack of open elements:
 * the last one is `curr_node`, and an element joins its parent's children
 * when it is closed (a parent gains no other child while a child is
 * open, so the order is the source's). Reading past the end of the
 * buffer, which the source does on an unterminated tag or quote, is the
 * error `Overrun`.
 */
module XmlLoad {
  import opened Wrappers
  import opened XmlTree

  /** Why `xml_load` returns false. */
  datatype LoadError =
    | TextOutsideDocument  // "Text outside of document"
    | AlreadyAtRoot        // "Already at the root"
    | MismatchedTags       // "Mismatched tags"
    | Overrun              // a read past the terminating NUL

  /** `TagType`. */
  datatype TagType = TagStart | TagInline

  /**
   * What `parse_attrs` leaves behind: the tag type it returns, the index
   * `i`, the lexer buffer, and the element's tag (NULL until set) and
   * attributes.
   */
  datatype Tagged = Tagged(kind: TagType, i: nat, lex: string, tag: Option<string>, attrs: seq<Attr>)

  /** `doc->root`: not yet created, created and still open, or closed. */
  datatype Doc = NoRoot | RootOpen | RootDone(root: Node)

  /** The variables of the scanning loop. */
  datatype Scanner = Scanner(i: nat, lex: string, open: seq<Node>, doc: Doc)

  /** `isspace` in the C locale. */
  predicate IsSpace(c: char)
  {
    c == ' ' || c == '\t' || c == '\n' || c == '\U{000B}' || c == '\U{000C}' || c == '\r'
  }

  /** The first index from `j` on that holds `c`. */
  function Find(buf: string, j: nat, c: char): (r: Result<nat, LoadError>)
    ensures r.Ok? ==> j <= r.value < |buf| && buf[r.value] == c && forall m | j <= m < r.value :: buf[m] != c
    ensures r.Err? ==> r.error == Overrun && forall m | j <= m < |buf| :: buf[m] != c
    decreases |buf| - j
  {
    if j >= |buf| then Err(Overrun)
    else if buf[j] == c then Ok(j)
    else Find(buf, j + 1, c)
  }

  /**
   * The loop of `parse_attrs` from index `i`, with the lexer buffer, the
   * tag, the pending attribute key and the attributes so far.
   */
  function ParseAttrsFrom(buf: string, i: nat, lex: string, tag: Option<string>, key: Option<string>, attrs: seq<Attr>)
    : (r: Result<Tagged, LoadError>)
    ensures r.Ok? ==> i <= r.value.i <= |buf| && (r.value.kind == TagStart ==> r.value.i < |buf|)
    ensures r.Ok? && r.value.kind == TagInline ==> r.value.tag.Some?
    decreases |buf| - i, 1
  {
    if i >= |buf| then Err(Overrun)
    else if buf[i] == '>' then Ok(Tagged(TagStart, i, lex, tag, attrs))
    else Copied(buf, i + 1, lex + [buf[i]], tag, key, attrs)
  }

  /**
   * The rest of a pass of that loop, once it has copied `buf[j - 1]` to
   * the lexer: the tests on the next character `buf[j]`.
   */
  function Copied(buf: string, j: nat, lex: string, tag: Option<string>, key: Option<string>, attrs: seq<Attr>)
    : (r: Result<Tagged, LoadError>)
    requires 0 < j <= |buf| && |lex| > 0 && lex[|lex| - 1] == buf[j - 1]
    ensures r.Ok? ==> j <= r.value.i <= |buf| && (r.value.kind == TagStart ==> r.value.i < |buf|)
    ensures r.Ok? && r.value.kind == TagInline ==> r.value.tag.Some?
    decreases |buf| - j + 1, 0
  {
    if j >= |buf| then Err(Overrun)
    // the tag name ends at the first space
    else if buf[j] == ' ' && tag.None? then ParseAttrsFrom(buf, j + 1, [], Some(CStr(lex)), key, attrs)
    else
      // a space just copied is dropped again
      var lex2 := if lex[|lex| - 1] == ' ' then lex[..|lex| - 1] else lex;
      if buf[j] == '=' then ParseAttrsFrom(buf, j, [], tag, Some(CStr(lex2)), attrs)
      else if buf[j] == '"' then
        if key.None? then Ok(Tagged(TagStart, j, lex2, tag, attrs))  // "Value has no key"
        else Quoted(buf, j, tag, key.value, attrs)
      else if buf[j - 1] == '/' && buf[j] == '>' then
        Ok(Tagged(TagInline, j + 1, [], if tag.None? then Some(CStr(lex2[..|lex2| - 1])) else tag, attrs))
      else ParseAttrsFrom(buf, j, lex2, tag, key, attrs)
  }

  /** An attribute value: the characters after the quote at `j` up to the next quote. */
  function Quoted(buf: string, j: nat, tag: Option<string>, key: string, attrs: seq<Attr>)
    : (r: Result<Tagged, LoadError>)
    requires j < |buf|
    ensures r.Ok? ==> j <= r.value.i <= |buf| && (r.value.kind == TagStart ==> r.value.i < |buf|)
    ensures r.Ok? && r.value.kind == TagInline ==> r.value.tag.Some?
    decreases |buf| - j, 0
  {
    match Find(buf, j + 1, '"')
    case Err(e) => Err(e)
    case Ok(k) => ParseAttrsFrom(buf, k + 1, [], tag, None, attrs + [Attr(key, CStr(buf[j + 1..k]))])
  }

  /** The tag an element gets after `parse_attrs` returns `TAG_START`. */
  function StartTag(t: Tagged): string
  {
    if t.tag.Some? then t.tag.value else CStr(t.lex)
  }

  /** `curr_node->inner_text = strdup(lex)` on the innermost open element. */
  function SetInner(open: seq<Node>, text: string): (r: seq<Node>)
    requires |open| > 0
    ensures |r| == |open| && r[..|r| - 1] == open[..|open| - 1]
    ensures r[|r| - 1] == open[|open| - 1].(inner := Some(text))
  {
    open[..|open| - 1] + [open[|open| - 1].(inner := Some(text))]
  }

  /**
   * `curr_node = curr_node->parent` once element `n` is complete: it
   * stays a child of the element below it; without one it is the root,
   * or a node created after the root was closed, which no parent holds.
   */
  function Close(open: seq<Node>, doc: Doc, n: Node): (seq<Node>, Doc)
  {
    if |open| > 0 then (open[..|open| - 1] + [AddChild(open[|open| - 1], n)], doc)
    else if doc.RootOpen? then ([], RootDone(n))
    else ([], doc)
  }

  /** `</name>` at `i`: the name runs to the next `>`, and must close the innermost open element. */
  function EndTag(buf: string, i: nat, open: seq<Node>, doc: Doc): (r: Result<Scanner, LoadError>)
    ensures r.Ok? ==> i < r.value.i <= |buf|
  {
    match Find(buf, i + 2, '>')
    case Err(e) => Err(e)
    case Ok(k) =>
      if |open| == 0 then Err(AlreadyAtRoot)
      else if open[|open| - 1].tag != CStr(buf[i + 2..k]) then Err(MismatchedTags)
      else
        var (o, d) := Close(open[..|open| - 1], doc, open[|open| - 1]);
        Ok(Scanner(k + 1, [], o, d))
  }

  /** A start tag at `i`: a new element, the root if there is none yet. */
  function StartTagAt(buf: string, i: nat, open: seq<Node>, doc: Doc): (r: Result<Scanner, LoadError>)
    ensures r.Ok? ==> i < r.value.i <= |buf| + 1
  {
    var doc' := if doc.NoRoot? then RootOpen else doc;
    match ParseAttrsFrom(buf, i + 1, [], None, None, [])
    case Err(e) => Err(e)
    case Ok(t) =>
      if t.kind == TagInline then
        var (o, d) := Close(open, doc', Node(t.tag.value, None, t.attrs, []));
        Ok(Scanner(t.i + 1, [], o, d))
      else
        Ok(Scanner(t.i + 1, [], open + [Node(StartTag(t), None, t.attrs, [])], doc'))
  }

  /** A `<` at `st.i`: the text before it goes to the innermost open element, then the tag. */
  function TagAt(buf: string, st: Scanner): (r: Result<Scanner, LoadError>)
    requires st.i < |buf|
    ensures r.Ok? ==> st.i < r.value.i <= |buf| + 1
  {
    if |st.lex| > 0 && |st.open| == 0 then Err(TextOutsideDocument)
    else
      var open := if |st.lex| > 0 then SetInner(st.open, CStr(st.lex)) else st.open;
      if st.i + 1 >= |buf| then Err(Overrun)
      else if buf[st.i + 1] == '/' then EndTag(buf, st.i, open, st.doc)
      else StartTagAt(buf, st.i, open, st.doc)
  }

  /** One pass of the scanning loop at a character other than the terminating NUL. */
  function Step(buf: string, st: Scanner): (r: Result<Scanner, LoadError>)
    requires st.i < |buf|
    ensures r.Ok? ==> st.i < r.value.i <= |buf| + 1
  {
    var c := buf[st.i];
    if c == '<' then TagAt(buf, st)
    else if IsSpace(c) then Ok(st.(i := st.i + 1))
    else Ok(st.(i := st.i + 1, lex := st.lex + [c]))
  }

  /** Folds the elements still open into the one below, down to the bottom one. */
  function Collapse(open: seq<Node>): (r: Option<Node>)
    ensures r.Some? <==> |open| > 0
    decreases |open|
  {
    if |open| == 0 then None
    else if |open| == 1 then Some(open[0])
    else Collapse(open[..|open| - 2] + [AddChild(open[|open| - 2], open[|open| - 1])])
  }

  /** `doc->root` when the loop reaches the NUL: elements still open stay in the tree. */
  function Finish(st: Scanner): Option<Node>
  {
    match st.doc
    case NoRoot => None
    case RootDone(r) => Some(r)
    case RootOpen => Collapse(st.open)
  }

  /** The scanning loop from state `st` to the NUL. */
  function Run(buf: string, st: Scanner): Result<Option<Node>, LoadError>
    decreases |buf| + 1 - st.i, 1
  {
    if st.i >= |buf| then Err(Overrun)
    else if buf[st.i] == NUL then Ok(Finish(st))
    else Resume(buf, st, Step(buf, st))
  }

  /** The loop after one pass from `st` gave `r`: it stops at an error, else goes on. */
  function Resume(buf: string, st: Scanner, r: Result<Scanner, LoadError>): Result<Option<Node>, LoadError>
    requires r.Ok? ==> st.i < r.value.i <= |buf| + 1
    decreases |buf| + 1 - st.i, 0
  {
    match r
    case Err(e) => Err(e)
    case Ok(next) => Run(buf, next)
  }

  /** The state `xml_load` starts the loop in. */
  function Start(): Scanner
  {
    Scanner(0, [], [], NoRoot)
  }

  /** `xml_load` on file contents `s`: the root (NULL for a document without elements) or the error. */
  function Parse(s: string): Result<Option<Node>, LoadError>
  {
    Run(s + [NUL], Start())
  }

  // ---------------------------------------------------------------------
  // The loops themselves
  // ---------------------------------------------------------------------

  /** `parse_attrs`, called with `i` just past the `<` and an empty lexer. */
  method ParseAttrs(buf: string, start: nat) returns (r: Result<Tagged, LoadError>)
    ensures r == ParseAttrsFrom(buf, start, [], None, None, [])
  {
    var i := start;
    var lex: string := [];
    var tag: Option<string> := None;
    var key: Option<string> := None;
    var attrs: seq<Attr> := [];
    while true
      invariant ParseAttrsFrom(buf, i, lex, tag, key, attrs) == ParseAttrsFrom(buf, start, [], None, None, [])
      decreases |buf| - i
    {
      if i >= |buf| {
        return Err(Overrun);
      }
      if buf[i] == '>' {
        return Ok(Tagged(TagStart, i, lex, tag, attrs));
      }
      ghost var before := (i, lex);
      lex := lex + [buf[i]];
      i := i + 1;
      assert ParseAttrsFrom(buf, before.0, before.1, tag, key, attrs) == Copied(buf, i, lex, tag, key, attrs);
      if i >= |buf| {
        return Err(Overrun);
      }
      // tag name
      if buf[i] == ' ' && tag.None? {
        tag := Some(CStr(lex));
        lex := [];
        i := i + 1;
        continue;
      }
      // ignore space
      if lex[|lex| - 1] == ' ' {
        lex := lex[..|lex| - 1];
      }
      // attribute key
      if buf[i] == '=' {
        key := Some(CStr(lex));
        lex := [];
        continue;
      }
      // attribute value
      if buf[i] == '"' {
        if key.None? {
          return Ok(Tagged(TagStart, i, lex, tag, attrs));
        }
        ghost var quote := i;
        i, lex := ReadValue(buf, i);
        assert Copied(buf, quote, before.1 + [buf[before.0]], tag, key, attrs) == Quoted(buf, quote, tag, key.value, attrs);
        if i >= |buf| {
          return Err(Overrun);
        }
        attrs := attrs + [Attr(key.value, CStr(lex))];
        key := None;
        lex := [];
        i := i + 1;
        continue;
      }
      // inline node
      if buf[i - 1] == '/' && buf[i] == '>' {
        lex := lex[..|lex| - 1];
        if tag.None? {
          tag := Some(CStr(lex));
        }
        i := i + 1;
        return Ok(Tagged(TagInline, i, [], tag, attrs));
      }
    }
  }

  /** The loop of `parse_attrs` copying an attribute value: from the quote at `quote` to the next quote. */
  method ReadValue(buf: string, quote: nat) returns (i: nat, lex: string)
    requires quote < |buf|
    ensures quote < i <= |buf| && lex == buf[quote + 1..i]
    ensures i < |buf| ==> Find(buf, quote + 1, '"') == Ok(i)
    ensures i >= |buf| ==> Find(buf, quote + 1, '"') == Err(Overrun)
  {
    lex := [];
    i := quote + 1;
    while i < |buf| && buf[i] != '"'
      invariant quote < i <= |buf| && lex == buf[quote + 1..i]
      invariant Find(buf, i, '"') == Find(buf, quote + 1, '"')
      decreases |buf| - i
    {
      lex := lex + [buf[i]];
      i := i + 1;
    }
  }

  /** The end-tag branch of the scanning loop. */
  method CloseNode(buf: string, start: nat, open: seq<Node>, doc: Doc) returns (r: Result<Scanner, LoadError>)
    requires start + 1 < |buf|
    ensures r == EndTag(buf, start, open, doc)
  {
    var i := start + 2;
    var lex: string := [];
    while i < |buf| && buf[i] != '>'
      invariant start + 2 <= i <= |buf| && lex == buf[start + 2..i]
      invariant Find(buf, i, '>') == Find(buf, start + 2, '>')
      decreases |buf| - i
    {
      lex := lex + [buf[i]];
      i := i + 1;
    }
    if i >= |buf| {
      return Err(Overrun);
    }
    if |open| == 0 {
      return Err(AlreadyAtRoot);
    }
    if open[|open| - 1].tag != CStr(lex) {
      return Err(MismatchedTags);
    }
    var (o, d) := Close(open[..|open| - 1], doc, open[|open| - 1]);
    return Ok(Scanner(i + 1, [], o, d));
  }

  /** The start-tag branch of the scanning loop. */
  method OpenNode(buf: string, start: nat, open: seq<Node>, doc: Doc) returns (r: Result<Scanner, LoadError>)
    ensures r == StartTagAt(buf, start, open, doc)
  {
    var doc' := doc;
    if doc'.NoRoot? {
      doc' := RootOpen;
    }
    var t := ParseAttrs(buf, start + 1);
    if t.Err? {
      return Err(t.error);
    }
    if t.value.kind == TagInline {
      var (o, d) := Close(open, doc', Node(t.value.tag.value, None, t.value.attrs, []));
      return Ok(Scanner(t.value.i + 1, [], o, d));
    }
    return Ok(Scanner(t.value.i + 1, [], open + [Node(StartTag(t.value), None, t.value.attrs, [])], doc'));
  }

  /** The scanning loop of `xml_load` on the file contents `s`. */
  method Load(s: string) returns (r: Result<Option<Node>, LoadError>)
    ensures r == Parse(s)
  {
    var buf := s + [NUL];
    var i: nat := 0;
    var lex: string := [];
    var open: seq<Node> := [];
    var doc := NoRoot;
    while i < |buf| && buf[i] != NUL
      invariant Run(buf, Scanner(i, lex, open, doc)) == Parse(s)
      decreases |buf| + 1 - i
    {
      if buf[i] == '<' {
        ghost var st := Scanner(i, lex, open, doc);
        // inner text
        if |lex| > 0 {
          if |open| == 0 {
            return Err(TextOutsideDocument);
          }
          open := SetInner(open, CStr(lex));
          lex := [];
        }
        var next: Result<Scanner, LoadError>;
        if buf[i + 1] == '/' {
          next := CloseNode(buf, i, open, doc);
        } else {
          next := OpenNode(buf, i, open, doc);
        }
        assert next == TagAt(buf, st);
        if next.Err? {
          return Err(next.error);
        }
        i, lex, open, doc := next.value.i, next.value.lex, next.value.open, next.value.doc;
      } else if IsSpace(buf[i]) {
        i := i + 1;
      } else {
        lex := lex + [buf[i]];
        i := i + 1;
      }
    }
    if i >= |buf| {
      return Err(Overrun);
    }
    return Ok(Finish(Scanner(i, lex, open, doc)));
  }
}
