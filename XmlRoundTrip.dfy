/**
 * What loading gives back for a tree the writer wrote.
 *
 * The writer prints no whitespace that the loader keeps, so texts come
 * back without their whitespace and only where they are non-empty; it
 * prints no text beside children, and no attribute with an empty value;
 * and it closes the root with `<tag/>`, which the loader reads as one
 * more, empty, child of the root.
 */
module XmlRoundTrip {
  import opened Wrappers
  import opened XmlTree
  import opened XmlWrite
  import opened XmlLoad

  // ---------------------------------------------------------------------
  // Trees the writer can write back faithfully
  // ---------------------------------------------------------------------

  /** A character that can appear in a tag or key without ending it. */
  predicate NameChar(c: char)
  {
    c != ' ' && c != '=' && c != '"' && c != '/' && c != '>' && c != NUL
  }

  predicate IsName(s: string)
  {
    |s| > 0 && forall k | 0 <= k < |s| :: NameChar(s[k])
  }

  predicate IsValue(s: string)
  {
    forall k | 0 <= k < |s| :: s[k] != '"' && s[k] != NUL
  }

  predicate IsText(s: string)
  {
    forall k | 0 <= k < |s| :: s[k] != '<' && s[k] != NUL
  }

  predicate AttrsOk(attrs: seq<Attr>)
  {
    forall k | 0 <= k < |attrs| :: IsName(attrs[k].key) && IsValue(attrs[k].value)
  }

  predicate WellFormed(n: Node)
    decreases n
  {
    IsName(n.tag) && AttrsOk(n.attrs) && (n.inner.Some? ==> IsText(n.inner.value)) &&
    forall k | 0 <= k < |n.children| :: WellFormed(n.children[k])
  }

  // ---------------------------------------------------------------------
  // What comes back
  // ---------------------------------------------------------------------

  /** A text as the loader collects it: without whitespace. */
  function NoSpace(s: string): string
  {
    if |s| == 0 then [] else (if IsSpace(s[0]) then [] else [s[0]]) + NoSpace(s[1..])
  }

  /** The collected text holds the non-space characters of the text and nothing else. */
  lemma {:induction false} NoSpaceChars(s: string)
    ensures forall c :: c in NoSpace(s) <==> c in s && !IsSpace(c)
  {
    if |s| > 0 {
      NoSpaceChars(s[1..]);
      assert s == [s[0]] + s[1..];
    }
  }

  /** A written and reloaded node. */
  function Normalize(n: Node): Node
    decreases n
  {
    Node(n.tag,
         if |n.children| == 0 && n.inner.Some? && NoSpace(n.inner.value) != [] then Some(NoSpace(n.inner.value)) else None,
         Kept(n.attrs),
         NormalizeAll(n.children))
  }

  function NormalizeAll(cs: seq<Node>): seq<Node>
    decreases cs
  {
    if |cs| == 0 then [] else NormalizeAll(cs[..|cs| - 1]) + [Normalize(cs[|cs| - 1])]
  }

  /** The innermost open element after child `n` joined it. */
  function AddLast(open: seq<Node>, n: Node): seq<Node>
    requires |open| > 0
  {
    open[..|open| - 1] + [AddChild(open[|open| - 1], n)]
  }

  // ---------------------------------------------------------------------
  // Positions in the buffer
  // ---------------------------------------------------------------------

  /** `w` appears in `b` from index `p`. */
  ghost predicate Occurs(b: string, p: nat, w: string)
  {
    p + |w| <= |b| && forall k | 0 <= k < |w| :: b[p + k] == w[k]
  }

  lemma OccursSplit(b: string, p: nat, u: string, v: string)
    requires Occurs(b, p, u + v)
    ensures Occurs(b, p, u) && Occurs(b, p + |u|, v)
  {
    forall k | 0 <= k < |u|
      ensures b[p + k] == u[k]
    {
      assert b[p + k] == (u + v)[k];
    }
    forall k | 0 <= k < |v|
      ensures b[p + |u| + k] == v[k]
    {
      assert b[p + (|u| + k)] == (u + v)[|u| + k];
    }
  }

  lemma OccursSlice(b: string, p: nat, w: string)
    requires Occurs(b, p, w)
    ensures b[p..p + |w|] == w
  {
  }

  /** The first `c` from `j` on, where `w` without `c` lies before it. */
  lemma FindAfter(b: string, j: nat, w: string, c: char)
    requires Occurs(b, j, w) && j + |w| < |b| && b[j + |w|] == c
    requires forall k | 0 <= k < |w| :: w[k] != c
    ensures Find(b, j, c) == Ok(j + |w|)
  {
    forall m | j <= m < j + |w|
      ensures b[m] != c
    {
      assert b[j + (m - j)] == w[m - j];
    }
  }

  // ---------------------------------------------------------------------
  // `parse_attrs` on what the writer prints
  // ---------------------------------------------------------------------

  /** Characters of a name are copied to the lexer one by one and nothing else happens. */
  lemma {:induction false} NamePush(b: string, p: nat, n: nat, lex: string, tag: Option<string>, key: Option<string>, attrs: seq<Attr>)
    requires p + n < |b|
    requires forall m | p <= m < p + n :: NameChar(b[m])
    requires forall m | p < m <= p + n :: b[m] != ' ' && b[m] != '=' && b[m] != '"'
    ensures ParseAttrsFrom(b, p, lex, tag, key, attrs) == ParseAttrsFrom(b, p + n, lex + b[p..p + n], tag, key, attrs)
    decreases n
  {
    if n == 0 {
      assert lex + b[p..p] == lex;
    } else {
      var lex1 := lex + [b[p]];
      assert ParseAttrsFrom(b, p, lex, tag, key, attrs) == Copied(b, p + 1, lex1, tag, key, attrs);
      assert Copied(b, p + 1, lex1, tag, key, attrs) == ParseAttrsFrom(b, p + 1, lex1, tag, key, attrs);
      NamePush(b, p + 1, n - 1, lex1, tag, key, attrs);
      assert lex1 + b[p + 1..p + n] == lex + b[p..p + n];
    }
  }

  /** A space followed by a name character is skipped once the tag is known. */
  lemma SpaceSkip(b: string, q: nat, tag: Option<string>, attrs: seq<Attr>)
    requires q + 1 < |b| && b[q] == ' ' && NameChar(b[q + 1])
    ensures ParseAttrsFrom(b, q, [], tag, None, attrs) == ParseAttrsFrom(b, q + 1, [], tag, None, attrs)
  {
    assert ParseAttrsFrom(b, q, [], tag, None, attrs) == Copied(b, q + 1, [' '], tag, None, attrs);
    assert [' '][..0] == [];
  }

  lemma AttrOutPlain(a: Attr)
    requires IsName(a.key) && IsValue(a.value)
    ensures CStr(a.key) == a.key && CStr(a.value) == a.value
    ensures AttrOut(a) == " " + a.key + "=\"" + a.value + "\""
  {
    CStrNoNul(a.key);
    CStrNoNul(a.value);
  }

  /** The last character of a key, followed by `=`, ends the key. */
  lemma KeyEnd(b: string, j: nat, k: string, tag: Option<string>, attrs: seq<Attr>)
    requires |k| > 0 && j + 1 < |b| && b[j] == k[|k| - 1] && NameChar(k[|k| - 1]) && b[j + 1] == '='
    ensures ParseAttrsFrom(b, j, k[..|k| - 1], tag, None, attrs) == ParseAttrsFrom(b, j + 1, [], tag, Some(CStr(k)), attrs)
  {
    assert k[..|k| - 1] + [b[j]] == k;
    assert ParseAttrsFrom(b, j, k[..|k| - 1], tag, None, attrs) == Copied(b, j + 1, k, tag, None, attrs);
  }

  /** `=` followed by a quote opens the value. */
  lemma EqQuote(b: string, j: nat, tag: Option<string>, key: string, attrs: seq<Attr>)
    requires j + 1 < |b| && b[j] == '=' && b[j + 1] == '"'
    ensures ParseAttrsFrom(b, j, [], tag, Some(key), attrs) == Quoted(b, j + 1, tag, key, attrs)
  {
    assert ParseAttrsFrom(b, j, [], tag, Some(key), attrs) == Copied(b, j + 1, ['='], tag, Some(key), attrs);
  }

  /** A quoted value without quotes is stored with its key. */
  lemma ValueRead(b: string, j: nat, v: string, tag: Option<string>, key: string, attrs: seq<Attr>, e: nat, out: seq<Attr>)
    requires IsValue(v) && Occurs(b, j + 1, v) && j + 1 + |v| < |b| && b[j + 1 + |v|] == '"'
    requires e == j + |v| + 2 && out == attrs + [Attr(key, v)]
    ensures Quoted(b, j, tag, key, attrs) == ParseAttrsFrom(b, e, [], tag, None, out)
  {
    var k := j + 1 + |v|;
    FindAfter(b, j + 1, v, '"');
    OccursSlice(b, j + 1, v);
    assert NUL !in v;
    CStrNoNul(v);
    assert CStr(b[j + 1..k]) == v;
    QuotedFound(b, j, k, tag, key, attrs);
  }

  /** `parse_attrs` after the closing quote of a value found at `k`. */
  lemma QuotedFound(b: string, j: nat, k: nat, tag: Option<string>, key: string, attrs: seq<Attr>)
    requires j < |b| && Find(b, j + 1, '"') == Ok(k)
    ensures Quoted(b, j, tag, key, attrs) == ParseAttrsFrom(b, k + 1, [], tag, None, attrs + [Attr(key, CStr(b[j + 1..k]))])
  {
  }

  /** Where the parts of ` k="v"` lie once it is printed at `q`. */
  lemma PieceChars(b: string, q: nat, k: string, v: string)
    requires |k| > 0 && Occurs(b, q, " " + k + "=\"" + v + "\"")
    ensures b[q] == ' ' && b[q + |k| + 1] == '=' && b[q + |k| + 2] == '"'
    ensures q + |k| + 3 + |v| < |b| && b[q + |k| + 3 + |v|] == '"'
    ensures forall m | q + 1 <= m <= q + |k| :: b[m] == k[m - q - 1]
    ensures Occurs(b, q + |k| + 3, v)
  {
    var w := " " + k + "=\"" + v + "\"";
    var K := |k|;
    forall m | q + 1 <= m <= q + K
      ensures b[m] == k[m - q - 1]
    {
      assert b[q + (m - q)] == w[m - q];
    }
    assert b[q] == w[0];
    assert b[q + K + 1] == w[K + 1];
    assert b[q + K + 2] == w[K + 2];
    assert b[q + K + 3 + |v|] == w[K + 3 + |v|];
    forall m | 0 <= m < |v| ensures b[q + K + 3 + m] == v[m] {
      assert b[q + (K + 3 + m)] == w[K + 3 + m];
    }
  }

  /** Where the parts of a printed attribute lie. */
  lemma AttrPieceChars(b: string, q: nat, a: Attr)
    requires IsName(a.key) && IsValue(a.value) && Occurs(b, q, AttrOut(a))
    ensures |AttrOut(a)| == |a.key| + |a.value| + 4
    ensures b[q] == ' ' && b[q + |a.key| + 1] == '=' && b[q + |a.key| + 2] == '"'
    ensures q + |a.key| + 3 + |a.value| < |b| && b[q + |a.key| + 3 + |a.value|] == '"'
    ensures forall m | q + 1 <= m <= q + |a.key| :: NameChar(b[m])
    ensures b[q + 1..q + |a.key|] == a.key[..|a.key| - 1] && b[q + |a.key|] == a.key[|a.key| - 1]
    ensures Occurs(b, q + |a.key| + 3, a.value)
  {
    AttrOutPlain(a);
    PieceChars(b, q, a.key, a.value);
    var k := a.key;
    forall m | q + 1 <= m <= q + |k| ensures NameChar(b[m]) {
      assert b[m] == k[m - q - 1];
    }
    assert b[q + 1..q + |k|] == k[..|k| - 1];
  }

  /** A space and then name characters: the space is dropped and the name collected. */
  lemma SpaceName(b: string, q: nat, n: nat, tag: string, attrs: seq<Attr>)
    requires q + 1 + n < |b| && b[q] == ' '
    requires forall m | q + 1 <= m <= q + 1 + n :: NameChar(b[m])
    ensures ParseAttrsFrom(b, q, [], Some(tag), None, attrs) == ParseAttrsFrom(b, q + 1 + n, [] + b[q + 1..q + 1 + n], Some(tag), None, attrs)
  {
    SpaceSkip(b, q, Some(tag), attrs);
    NamePush(b, q + 1, n, [], Some(tag), None, attrs);
  }

  /** ` key=`: a space and a key followed by `=` make the key of the next value. */
  lemma KeyRun(b: string, q: nat, k: string, tag: string, attrs: seq<Attr>)
    requires IsName(k) && q + |k| + 1 < |b| && b[q] == ' ' && b[q + |k| + 1] == '='
    requires forall m | q + 1 <= m <= q + |k| :: NameChar(b[m])
    requires b[q + 1..q + |k|] == k[..|k| - 1] && b[q + |k|] == k[|k| - 1]
    ensures ParseAttrsFrom(b, q, [], Some(tag), None, attrs) == ParseAttrsFrom(b, q + |k| + 1, [], Some(tag), Some(CStr(k)), attrs)
  {
    var n := |k| - 1;
    var j := q + 1 + n;
    var lex := [] + b[q + 1..q + 1 + n];
    SpaceName(b, q, n, tag, attrs);
    assert lex == k[..|k| - 1];
    KeyEnd(b, j, k, Some(tag), attrs);
  }

  /** `="value"`: the value is stored under the key. */
  lemma ValueRun(b: string, j: nat, k: string, v: string, tag: string, attrs: seq<Attr>)
    requires IsValue(v) && j + 1 < |b| && b[j] == '=' && b[j + 1] == '"'
    requires Occurs(b, j + 2, v) && j + 2 + |v| < |b| && b[j + 2 + |v|] == '"'
    ensures ParseAttrsFrom(b, j, [], Some(tag), Some(k), attrs) == ParseAttrsFrom(b, j + |v| + 3, [], Some(tag), None, attrs + [Attr(k, v)])
  {
    EqQuote(b, j, Some(tag), k, attrs);
    ValueRead(b, j + 1, v, Some(tag), k, attrs, j + |v| + 3, attrs + [Attr(k, v)]);
  }

  /** One printed attribute ` key="value"` is read back as that attribute. */
  lemma AttrPiece(b: string, q: nat, a: Attr, tag: string, attrs: seq<Attr>)
    requires IsName(a.key) && IsValue(a.value) && Occurs(b, q, AttrOut(a))
    ensures ParseAttrsFrom(b, q, [], Some(tag), None, attrs) ==
      ParseAttrsFrom(b, q + |AttrOut(a)|, [], Some(tag), None, attrs + [a])
  {
    AttrPieceChars(b, q, a);
    AttrOutPlain(a);
    KeyRun(b, q, a.key, tag, attrs);
    ValueRun(b, q + |a.key| + 1, a.key, a.value, tag, attrs);
  }

  /** The writer's and the loader's view of the last attribute. */
  lemma AttrsLast(given: seq<Attr>)
    requires |given| > 0
    ensures var a := given[|given| - 1];
      AttrsOut(given) == AttrsOut(given[..|given| - 1]) + (if CStr(a.value) == [] then "" else AttrOut(a)) &&
      Kept(given) == Kept(given[..|given| - 1]) + (if CStr(a.value) == [] then [] else [a])
  {
  }

  /** What the last attribute adds to the printed and to the kept ones. */
  lemma LastKept(given: seq<Attr>)
    requires AttrsOk(given) && |given| > 0
    ensures var pre, a := given[..|given| - 1], given[|given| - 1];
      && AttrsOk(pre)
      && (CStr(a.value) != [] ==>
            IsName(a.key) && IsValue(a.value) &&
            AttrsOut(given) == AttrsOut(pre) + AttrOut(a) && Kept(given) == Kept(pre) + [a])
      && (CStr(a.value) == [] ==> AttrsOut(given) == AttrsOut(pre) && Kept(given) == Kept(pre))
  {
    AttrsLast(given);
    assert given[|given| - 1] == given[|given| - 1];
  }

  /** The step of `AttrsRun`: once the attributes before the last are read, the last one is (given its end position and the attributes after it). */
  lemma AttrsRunLastAt(b: string, q: nat, p1: nat, a: Attr, tag: string, attrs: seq<Attr>, kept: seq<Attr>,
                       printed: bool, e: nat, out: seq<Attr>)
    requires ParseAttrsFrom(b, q, [], Some(tag), None, attrs) == ParseAttrsFrom(b, p1, [], Some(tag), None, kept)
    requires printed ==> IsName(a.key) && IsValue(a.value) && Occurs(b, p1, AttrOut(a))
    requires printed ==> e == p1 + |AttrOut(a)| && out == kept + [a]
    requires !printed ==> e == p1 && out == kept
    ensures ParseAttrsFrom(b, q, [], Some(tag), None, attrs) == ParseAttrsFrom(b, e, [], Some(tag), None, out)
  {
    if printed {
      AttrPiece(b, p1, a, tag, kept);
    }
  }

  /** The printed attributes lie in `b` from `q`: each one with a value where the writer put it. */
  ghost predicate AttrsAt(b: string, q: nat, given: seq<Attr>)
    decreases |given|
  {
    if |given| == 0 then true
    else
      var pre, a := given[..|given| - 1], given[|given| - 1];
      AttrsAt(b, q, pre) && (CStr(a.value) != [] ==> Occurs(b, q + |AttrsOut(pre)|, AttrOut(a)))
  }

  /** Printed attributes found whole in `b` are found one by one. */
  lemma {:induction false} OccursAttrs(b: string, q: nat, given: seq<Attr>)
    requires AttrsOk(given) && Occurs(b, q, AttrsOut(given))
    ensures AttrsAt(b, q, given)
    decreases |given|
  {
    if |given| > 0 {
      var pre, a := given[..|given| - 1], given[|given| - 1];
      LastKept(given);
      if CStr(a.value) != [] {
        OccursSplit(b, q, AttrsOut(pre), AttrOut(a));
      }
      OccursAttrs(b, q, pre);
    }
  }

  /** The attributes before the last satisfy what all of them do. */
  lemma AttrsOkPrefix(given: seq<Attr>)
    requires AttrsOk(given) && |given| > 0
    ensures AttrsOk(given[..|given| - 1])
  {
  }

  /**
   * The printed attributes are read back as the attributes with a non-empty
   * value: reading from `q` comes to the same as reading from `e`, just
   * after them, with `out` collected.
   */
  lemma {:induction false} AttrsRun(b: string, q: nat, given: seq<Attr>, tag: string, attrs: seq<Attr>, e: nat, out: seq<Attr>)
    requires AttrsOk(given) && AttrsAt(b, q, given)
    requires e == q + |AttrsOut(given)| && out == attrs + Kept(given)
    ensures ParseAttrsFrom(b, q, [], Some(tag), None, attrs) == ParseAttrsFrom(b, e, [], Some(tag), None, out)
    decreases |given|
  {
    if |given| == 0 {
      assert AttrsOut(given) == [] && Kept(given) == [];
      assert out == attrs;
    } else {
      var pre, a := given[..|given| - 1], given[|given| - 1];
      var printed := CStr(a.value) != [];
      var p1, kept := q + |AttrsOut(pre)|, attrs + Kept(pre);
      AttrsOkPrefix(given);
      AttrsRun(b, q, pre, tag, attrs, p1, kept);
      LastKept(given);
      if printed {
        assert out == kept + [a];
      }
      AttrsRunLastAt(b, q, p1, a, tag, attrs, kept, printed, e, out);
    }
  }

  /** The printed attributes are empty exactly when none is kept, and otherwise open with a space and a name. */
  lemma {:induction false} AttrsOutShape(given: seq<Attr>)
    requires AttrsOk(given)
    ensures AttrsOut(given) == [] <==> Kept(given) == []
    ensures AttrsOut(given) != [] ==> |AttrsOut(given)| >= 2 && AttrsOut(given)[0] == ' ' && NameChar(AttrsOut(given)[1])
    decreases |given|
  {
    if |given| > 0 {
      var pre, a := given[..|given| - 1], given[|given| - 1];
      AttrsOutShape(pre);
      AttrOutPlain(a);
      if CStr(a.value) != [] {
        assert (AttrsOut(pre) + AttrOut(a))[0] == if AttrsOut(pre) == [] then AttrOut(a)[0] else AttrsOut(pre)[0];
      }
    }
  }

  /** `>` ends a start tag. */
  lemma CloseStart(b: string, e: nat, lex: string, tag: Option<string>, attrs: seq<Attr>)
    requires e < |b| && b[e] == '>'
    ensures ParseAttrsFrom(b, e, lex, tag, None, attrs) == Ok(Tagged(TagStart, e, lex, tag, attrs))
  {
  }

  /** `/>` ends an element with no content, once its name is known. */
  lemma CloseInline(b: string, e: nat, tag: string, attrs: seq<Attr>)
    requires e + 1 < |b| && b[e] == '/' && b[e + 1] == '>'
    ensures ParseAttrsFrom(b, e, [], Some(tag), None, attrs) == Ok(Tagged(TagInline, e + 2, [], Some(tag), attrs))
  {
    assert ParseAttrsFrom(b, e, [], Some(tag), None, attrs) == Copied(b, e + 1, ['/'], Some(tag), None, attrs);
  }

  /** `/>` right after the name ends an element with no attributes and no content. */
  lemma CloseInlineName(b: string, e: nat, t: string, attrs: seq<Attr>)
    requires IsName(t) && e + 1 < |b| && b[e] == '/' && b[e + 1] == '>'
    ensures ParseAttrsFrom(b, e, t, None, None, attrs) == Ok(Tagged(TagInline, e + 2, [], Some(t), attrs))
  {
    assert (t + ['/'])[..|t|] == t;
    CStrNoNul(t);
    assert ParseAttrsFrom(b, e, t, None, None, attrs) == Copied(b, e + 1, t + ['/'], None, None, attrs);
  }

  /** A name followed by a space: the name is the tag, and attributes follow from `q`, just past the space. */
  lemma TagThenSpace(b: string, p: nat, t: string, q: nat)
    requires IsName(t) && Occurs(b, p, t) && q == p + |t| + 1 && q <= |b| && b[q - 1] == ' '
    ensures ParseAttrsFrom(b, p, [], None, None, []) == ParseAttrsFrom(b, q, [], Some(t), None, [])
  {
    var n := |t| - 1;
    forall m | p <= m <= p + n ensures NameChar(b[m]) {
      assert b[p + (m - p)] == t[m - p];
    }
    NamePush(b, p, n, [], None, None, []);
    var lex := [] + b[p..p + n];
    assert lex == t[..n];
    assert lex + [b[p + n]] == t;
    CStrNoNul(t);
    assert ParseAttrsFrom(b, p + n, lex, None, None, []) == Copied(b, q - 1, t, None, None, []);
  }

  /** A name followed by `>` or `/`: the name is collected. */
  lemma TagThenEnd(b: string, p: nat, t: string)
    requires IsName(t) && Occurs(b, p, t) && p + |t| < |b| && (b[p + |t|] == '>' || b[p + |t|] == '/')
    ensures ParseAttrsFrom(b, p, [], None, None, []) == ParseAttrsFrom(b, p + |t|, t, None, None, [])
  {
    forall m | p <= m < p + |t| ensures NameChar(b[m]) {
      assert b[p + (m - p)] == t[m - p];
    }
    NamePush(b, p, |t|, [], None, None, []);
    OccursSlice(b, p, t);
    assert [] + b[p..p + |t|] == t;
  }

  lemma EmptyConcat<T>(s: seq<T>)
    ensures [] + s == s
  {
  }

  /** Where the name, the space and the first attribute of a start tag lie. */
  lemma TagAndAttrsChars(b: string, p: nat, t: string, given: seq<Attr>)
    requires AttrsOk(given) && Occurs(b, p, t + AttrsOut(given)) && AttrsOut(given) != []
    ensures Occurs(b, p, t) && AttrsAt(b, p + |t|, given)
    ensures p + |t| + 1 < |b| && b[p + |t|] == ' ' && NameChar(b[p + |t| + 1])
  {
    var ao := AttrsOut(given);
    OccursSplit(b, p, t, ao);
    AttrsOutShape(given);
    assert b[p + |t| + 0] == ao[0];
    assert b[p + |t| + 1] == ao[1];
    OccursAttrs(b, p + |t|, given);
  }

  /** A name, then a space before a name character: the tag is read and the reader stands on the space at `q`. */
  lemma TagSpace(b: string, p: nat, t: string, q: nat)
    requires IsName(t) && Occurs(b, p, t) && q == p + |t|
    requires q + 1 < |b| && b[q] == ' ' && NameChar(b[q + 1])
    ensures ParseAttrsFrom(b, p, [], None, None, []) == ParseAttrsFrom(b, q, [], Some(t), None, [])
  {
    TagThenSpace(b, p, t, q + 1);
    SpaceSkip(b, q, Some(t), []);
  }

  /** `TagAndAttrs` once the parts are located, with the space at `q`, the end position and the attributes read given. */
  lemma TagAndAttrsAt(b: string, p: nat, t: string, given: seq<Attr>, q: nat, e: nat, out: seq<Attr>)
    requires IsName(t) && AttrsOk(given) && Occurs(b, p, t) && AttrsAt(b, q, given)
    requires q == p + |t| && q + 1 < |b| && b[q] == ' ' && NameChar(b[q + 1])
    requires e == q + |AttrsOut(given)| && out == Kept(given)
    ensures ParseAttrsFrom(b, p, [], None, None, []) == ParseAttrsFrom(b, e, [], Some(t), None, out)
  {
    EmptyConcat(out);
    TagSpace(b, p, t, q);
    AttrsRun(b, q, given, t, [], e, out);
  }

  /** A name, a space and printed attributes: the name is the tag, and the attributes are collected. */
  lemma TagAndAttrs(b: string, p: nat, t: string, given: seq<Attr>, e: nat, out: seq<Attr>)
    requires IsName(t) && AttrsOk(given) && Occurs(b, p, t + AttrsOut(given)) && AttrsOut(given) != []
    requires e == p + |t| + |AttrsOut(given)| && out == Kept(given)
    ensures ParseAttrsFrom(b, p, [], None, None, []) == ParseAttrsFrom(b, e, [], Some(t), None, out)
  {
    TagAndAttrsChars(b, p, t, given);
    TagAndAttrsAt(b, p, t, given, p + |t|, e, out);
  }

  /** What `parse_attrs` returns for a start tag the writer printed. */
  ghost predicate ReadsStart(r: Result<Tagged, LoadError>, e: nat, t: string, attrs: seq<Attr>)
  {
    r.Ok? && r.value.kind == TagStart && r.value.i == e && StartTag(r.value) == t && r.value.attrs == attrs
  }

  /** `<tag attrs>`: the start tag is read with its name and kept attributes, up to its `>`. */
  lemma OpenTag(b: string, p: nat, t: string, given: seq<Attr>)
    requires IsName(t) && AttrsOk(given) && Occurs(b, p, t + AttrsOut(given) + ">")
    ensures ReadsStart(ParseAttrsFrom(b, p, [], None, None, []), p + |t| + |AttrsOut(given)|, t, Kept(given))
  {
    var ao := AttrsOut(given);
    var e := p + |t| + |ao|;
    OccursSplit(b, p, t + ao, ">");
    assert b[e] == '>' by { assert b[(p + |t + ao|) + 0] == ">"[0]; }
    AttrsOutShape(given);
    if ao == [] {
      assert Occurs(b, p, t) by { assert t + ao == t; }
      TagThenEnd(b, p, t);
      CStrNoNul(t);
      CloseStart(b, e, t, None, []);
    } else {
      TagAndAttrs(b, p, t, given, e, Kept(given));
      CloseStart(b, e, [], Some(t), Kept(given));
    }
  }

  /** `<tag attrs/>`: the element is read with its name and kept attributes, up to after the `>`. */
  lemma OpenInline(b: string, p: nat, t: string, given: seq<Attr>)
    requires IsName(t) && AttrsOk(given) && Occurs(b, p, t + AttrsOut(given) + "/>")
    ensures ParseAttrsFrom(b, p, [], None, None, []) ==
      Ok(Tagged(TagInline, p + |t| + |AttrsOut(given)| + 2, [], Some(t), Kept(given)))
  {
    var ao := AttrsOut(given);
    var e := p + |t| + |ao|;
    OccursSplit(b, p, t + ao, "/>");
    assert b[e] == '/' && b[e + 1] == '>' by {
      assert b[(p + |t + ao|) + 0] == "/>"[0];
      assert b[(p + |t + ao|) + 1] == "/>"[1];
    }
    AttrsOutShape(given);
    if ao == [] {
      assert Occurs(b, p, t) by { assert t + ao == t; }
      TagThenEnd(b, p, t);
      CloseInlineName(b, e, t, []);
    } else {
      TagAndAttrs(b, p, t, given, e, Kept(given));
      CloseInline(b, e, t, Kept(given));
    }
  }

  // ---------------------------------------------------------------------
  // The scanning loop on what the writer prints
  // ---------------------------------------------------------------------

  /** One character of text. */
  lemma TextStep(b: string, p: nat, lex: string, open: seq<Node>, doc: Doc)
    requires p < |b| && b[p] != '<' && b[p] != NUL
    ensures Run(b, Scanner(p, lex, open, doc)) ==
      Run(b, Scanner(p + 1, if IsSpace(b[p]) then lex else lex + [b[p]], open, doc))
  {
  }

  /** Text without `<`: its non-space characters are collected, nothing else happens. */
  lemma {:induction false} RunText(b: string, p: nat, w: string, lex: string, open: seq<Node>, doc: Doc, e: nat)
    requires Occurs(b, p, w) && IsText(w) && e == p + |w|
    ensures Run(b, Scanner(p, lex, open, doc)) == Run(b, Scanner(e, lex + NoSpace(w), open, doc))
    decreases |w|
  {
    if |w| == 0 {
      assert lex + NoSpace(w) == lex;
    } else {
      var lex' := if IsSpace(w[0]) then lex else lex + [w[0]];
      assert lex' + NoSpace(w[1..]) == lex + NoSpace(w);
      OccursRest(b, p, w);
      TextStep(b, p, lex, open, doc);
      RunText(b, p + 1, w[1..], lex', open, doc, e);
    }
  }

  /** A word lying at `p` starts with its first character, and the rest lies right after it. */
  lemma OccursRest(b: string, p: nat, w: string)
    requires Occurs(b, p, w) && |w| > 0
    ensures p < |b| && b[p] == w[0] && Occurs(b, p + 1, w[1..])
  {
    assert b[p + 0] == w[0];
    forall k | 0 <= k < |w[1..]| ensures b[p + 1 + k] == w[1..][k] {
      assert b[p + (1 + k)] == w[1 + k];
    }
  }

  /** The new root, if none was open before. */
  function Opened(doc: Doc): Doc
  {
    if doc.NoRoot? then RootOpen else doc
  }

  /** A start tag, once `parse_attrs` is known to read it: the element is opened. */
  lemma StartStep(b: string, p: nat, open: seq<Node>, doc: Doc, e: nat, t: string, attrs: seq<Attr>, f: nat)
    requires p + 1 < |b| && b[p] == '<' && b[p + 1] != '/'
    requires ReadsStart(ParseAttrsFrom(b, p + 1, [], None, None, []), e, t, attrs) && f == e + 1
    ensures Run(b, Scanner(p, [], open, doc)) == Run(b, Scanner(f, [], open + [Node(t, None, attrs, [])], Opened(doc)))
  {
  }

  /** An element without content, once `parse_attrs` is known to read it: it joins the innermost open element. */
  lemma InlineStep(b: string, p: nat, open: seq<Node>, doc: Doc, e: nat, t: string, attrs: seq<Attr>, f: nat, n: Node)
    requires p + 1 < |b| && b[p] == '<' && b[p + 1] != '/'
    requires ParseAttrsFrom(b, p + 1, [], None, None, []) == Ok(Tagged(TagInline, e, [], Some(t), attrs))
    requires f == e + 1 && n == Node(t, None, attrs, [])
    ensures Run(b, Scanner(p, [], open, doc)) == Run(b, Scanner(f, [], Close(open, Opened(doc), n).0, Close(open, Opened(doc), n).1))
  {
  }

  /** The innermost open element after the text `lex` before a tag went to it. */
  function WithText(open: seq<Node>, lex: string): seq<Node>
    requires |open| > 0
  {
    if |lex| > 0 then SetInner(open, CStr(lex)) else open
  }

  /** A close tag naming the innermost open element: the element is closed. */
  lemma EndStep(b: string, p: nat, lex: string, open: seq<Node>, doc: Doc, k: nat)
    requires |open| > 0 && p + 1 < |b| && b[p] == '<' && b[p + 1] == '/'
    requires Find(b, p + 2, '>') == Ok(k) && CStr(b[p + 2..k]) == open[|open| - 1].tag
    ensures var o := WithText(open, lex);
      Run(b, Scanner(p, lex, open, doc)) ==
      Run(b, Scanner(k + 1, [], Close(o[..|o| - 1], doc, o[|o| - 1]).0, Close(o[..|o| - 1], doc, o[|o| - 1]).1))
  {
  }

  /** Where the parts of a printed start tag `<tag attrs` + `close` lie. */
  lemma OpenChars(b: string, p: nat, t: string, ao: string, close: string)
    requires IsName(t) && Occurs(b, p, "<" + t + ao + close)
    ensures p + 1 < |b| && b[p] == '<' && b[p + 1] != '/'
    ensures Occurs(b, p + 1, t + ao + close)
    ensures |"<" + t + ao + close| == 1 + |t| + |ao| + |close|
  {
    var w := t + ao + close;
    forall k | 0 <= k < |w| ensures b[p + 1 + k] == w[k] {
      assert b[p + (1 + k)] == ("<" + t + ao + close)[1 + k];
    }
    assert b[p + 0] == ("<" + t + ao + close)[0];
    assert b[p + 1 + 0] == w[0] == t[0];
  }

  /** `<tag attrs>`: the element is opened. */
  lemma RunOpen(b: string, p: nat, t: string, given: seq<Attr>, open: seq<Node>, doc: Doc)
    requires IsName(t) && AttrsOk(given) && Occurs(b, p, "<" + t + AttrsOut(given) + ">")
    ensures Run(b, Scanner(p, [], open, doc)) ==
      Run(b, Scanner(p + |"<" + t + AttrsOut(given) + ">"|, [], open + [Node(t, None, Kept(given), [])], Opened(doc)))
  {
    OpenFacts(b, p, t, given);
    StartStep(b, p, open, doc, p + 1 + |t| + |AttrsOut(given)|, t, Kept(given), p + |"<" + t + AttrsOut(given) + ">"|);
  }

  /** What `parse_attrs` reads from a printed `<tag attrs>`. */
  lemma OpenFacts(b: string, p: nat, t: string, given: seq<Attr>)
    requires IsName(t) && AttrsOk(given) && Occurs(b, p, "<" + t + AttrsOut(given) + ">")
    ensures p + 1 < |b| && b[p] == '<' && b[p + 1] != '/'
    ensures ReadsStart(ParseAttrsFrom(b, p + 1, [], None, None, []), p + 1 + |t| + |AttrsOut(given)|, t, Kept(given))
    ensures p + |"<" + t + AttrsOut(given) + ">"| == p + 1 + |t| + |AttrsOut(given)| + 1
  {
    OpenChars(b, p, t, AttrsOut(given), ">");
    OpenTag(b, p + 1, t, given);
  }

  /** Where the parts of a printed `<tag attrs/>` and its line break lie. */
  lemma InlineChars(b: string, p: nat, t: string, ao: string)
    requires IsName(t) && Occurs(b, p, "<" + t + ao + "/>\n")
    ensures p + 1 < |b| && b[p] == '<' && b[p + 1] != '/'
    ensures Occurs(b, p + 1, t + ao + "/>")
    ensures |"<" + t + ao + "/>\n"| == |t| + |ao| + 4
  {
    var w := t + ao + "/>";
    forall k | 0 <= k < |w| ensures b[p + 1 + k] == w[k] {
      assert b[p + (1 + k)] == ("<" + t + ao + "/>\n")[1 + k];
    }
    assert b[p + 0] == ("<" + t + ao + "/>\n")[0];
    assert b[p + 1 + 0] == w[0] == t[0];
  }

  /** `<tag attrs/>` and the line break after it: the element joins the innermost open element. */
  lemma RunInline(b: string, p: nat, t: string, given: seq<Attr>, open: seq<Node>, doc: Doc, e: nat, n: Node)
    requires IsName(t) && AttrsOk(given) && Occurs(b, p, "<" + t + AttrsOut(given) + "/>\n")
    requires e == p + |"<" + t + AttrsOut(given) + "/>\n"| && n == Node(t, None, Kept(given), [])
    ensures Run(b, Scanner(p, [], open, doc)) == Run(b, Scanner(e, [], Close(open, Opened(doc), n).0, Close(open, Opened(doc), n).1))
  {
    InlineFacts(b, p, t, given);
    InlineStep(b, p, open, doc, p + 1 + |t| + |AttrsOut(given)| + 2, t, Kept(given), e, n);
  }

  /** What `parse_attrs` reads from a printed `<tag attrs/>` followed by a line break. */
  lemma InlineFacts(b: string, p: nat, t: string, given: seq<Attr>)
    requires IsName(t) && AttrsOk(given) && Occurs(b, p, "<" + t + AttrsOut(given) + "/>\n")
    ensures p + 1 < |b| && b[p] == '<' && b[p + 1] != '/'
    ensures ParseAttrsFrom(b, p + 1, [], None, None, []) ==
      Ok(Tagged(TagInline, p + 1 + |t| + |AttrsOut(given)| + 2, [], Some(t), Kept(given)))
    ensures p + |"<" + t + AttrsOut(given) + "/>\n"| == p + 1 + |t| + |AttrsOut(given)| + 2 + 1
  {
    InlineChars(b, p, t, AttrsOut(given));
    OpenInline(b, p + 1, t, given);
  }

  /** Where the parts of a printed close tag lie. */
  lemma CloseChars(b: string, p: nat, t: string)
    requires IsName(t) && Occurs(b, p, "</" + t + ">")
    ensures p + 1 < |b| && b[p] == '<' && b[p + 1] == '/'
    ensures Find(b, p + 2, '>') == Ok(p + 2 + |t|) && CStr(b[p + 2..p + 2 + |t|]) == t
    ensures |"</" + t + ">"| == |t| + 3
  {
    OccursSplit(b, p, "</" + t, ">");
    OccursSplit(b, p, "</", t);
    assert b[p + 0] == "</"[0] && b[p + 1] == "</"[1];
    assert b[p + 2 + |t| + 0] == ">"[0];
    FindAfter(b, p + 2, t, '>');
    OccursSlice(b, p + 2, t);
    CStrNoNul(t);
  }

  /** `</tag>` closing the innermost open element, after the text `lex`. */
  lemma RunClose(b: string, p: nat, t: string, lex: string, open: seq<Node>, doc: Doc)
    requires IsName(t) && |open| > 0 && open[|open| - 1].tag == t && Occurs(b, p, "</" + t + ">")
    ensures var o := WithText(open, lex);
      Run(b, Scanner(p, lex, open, doc)) ==
      Run(b, Scanner(p + |"</" + t + ">"|, [], Close(o[..|o| - 1], doc, o[|o| - 1]).0, Close(o[..|o| - 1], doc, o[|o| - 1]).1))
  {
    CloseChars(b, p, t);
    EndStep(b, p, lex, open, doc, p + 2 + |t|);
  }

  // ---------------------------------------------------------------------
  // Whole lines of the writer
  // ---------------------------------------------------------------------

  /** Padding and line breaks are skipped and leave the lexer as it was. */
  lemma {:induction false} NoSpaceBlank(s: string)
    requires forall k | 0 <= k < |s| :: s[k] == ' ' || s[k] == '\n'
    ensures NoSpace(s) == []
  {
    if |s| > 0 {
      NoSpaceBlank(s[1..]);
    }
  }

  lemma RunBlank(b: string, p: nat, w: string, lex: string, open: seq<Node>, doc: Doc, e: nat)
    requires Occurs(b, p, w) && (forall k | 0 <= k < |w| :: w[k] == ' ' || w[k] == '\n') && e == p + |w|
    ensures Run(b, Scanner(p, lex, open, doc)) == Run(b, Scanner(e, lex, open, doc))
  {
    NoSpaceBlank(w);
    RunText(b, p, w, lex, open, doc, e);
    assert lex + NoSpace(w) == lex;
  }

  /** The elements still open after the nodes `cs` joined the innermost one. */
  function Adopt(open: seq<Node>, cs: seq<Node>): seq<Node>
    requires |open| > 0
  {
    open[..|open| - 1] + [open[|open| - 1].(children := open[|open| - 1].children + cs)]
  }

  /** Where the parts of a line `<tag attrs/>` lie. */
  lemma InlineLineChars(b: string, p: nat, ind: string, t: string, ao: string)
    requires Occurs(b, p, ind + "<" + t + ao + "/>\n")
    ensures Occurs(b, p, ind) && Occurs(b, p + |ind|, "<" + t + ao + "/>\n")
    ensures |ind + "<" + t + ao + "/>\n"| == |ind| + |"<" + t + ao + "/>\n"|
  {
    var w := "<" + t + ao + "/>\n";
    forall k | 0 <= k < |ind| ensures b[p + k] == ind[k] {
      assert b[p + k] == (ind + "<" + t + ao + "/>\n")[k];
    }
    forall k | 0 <= k < |w| ensures b[p + |ind| + k] == w[k] {
      assert b[p + (|ind| + k)] == (ind + "<" + t + ao + "/>\n")[|ind| + k];
    }
  }

  /** `<tag attrs/>` inside the root: the element joins the innermost open element. */
  lemma RunInlineChild(b: string, p: nat, e: nat, t: string, given: seq<Attr>, open: seq<Node>)
    requires IsName(t) && AttrsOk(given) && |open| > 0 && Occurs(b, p, "<" + t + AttrsOut(given) + "/>\n")
    requires e == p + |"<" + t + AttrsOut(given) + "/>\n"|
    ensures Run(b, Scanner(p, [], open, RootOpen)) ==
      Run(b, Scanner(e, [], AddLast(open, Node(t, None, Kept(given), [])), RootOpen))
  {
    RunInline(b, p, t, given, open, RootOpen, e, Node(t, None, Kept(given), []));
  }

  /** A line `<tag attrs/>` after padding: the element joins the innermost open element. */
  lemma InlineLine(b: string, p: nat, e: nat, ind: string, t: string, given: seq<Attr>, open: seq<Node>)
    requires IsName(t) && AttrsOk(given) && |open| > 0
    requires Occurs(b, p, ind + "<" + t + AttrsOut(given) + "/>\n") && forall k | 0 <= k < |ind| :: ind[k] == ' '
    requires e == p + |ind + "<" + t + AttrsOut(given) + "/>\n"|
    ensures Run(b, Scanner(p, [], open, RootOpen)) ==
      Run(b, Scanner(e, [], AddLast(open, Node(t, None, Kept(given), [])), RootOpen))
  {
    InlineLineChars(b, p, ind, t, AttrsOut(given));
    RunBlank(b, p, ind, [], open, RootOpen, p + |ind|);
    RunInlineChild(b, p + |ind|, e, t, given, open);
  }

  /** How a child without children or text is printed, and what comes back for it. */
  lemma InlineShape(c: Node, indent: int, times: int)
    requires IsName(c.tag) && |c.children| == 0 && c.inner.None?
    ensures ChildOut(c, indent, times) == Indent(indent, times) + "<" + c.tag + AttrsOut(c.attrs) + "/>\n"
    ensures Normalize(c) == Node(c.tag, None, Kept(c.attrs), [])
  {
    CStrNoNul(c.tag);
  }

  /** A child without children or text, printed as `<tag attrs/>`. */
  lemma ChildInline(b: string, p: nat, e: nat, c: Node, indent: int, times: int, open: seq<Node>)
    requires WellFormed(c) && |c.children| == 0 && c.inner.None? && |open| > 0
    requires Occurs(b, p, ChildOut(c, indent, times)) && e == p + |ChildOut(c, indent, times)|
    ensures Run(b, Scanner(p, [], open, RootOpen)) == Run(b, Scanner(e, [], AddLast(open, Normalize(c)), RootOpen))
  {
    InlineShape(c, indent, times);
    InlineLine(b, p, e, Indent(indent, times), c.tag, c.attrs, open);
  }

  /** `</tag>` closing a child of the innermost open element, after the text `lex`. */
  lemma RunCloseChild(b: string, p: nat, e: nat, lex: string, open: seq<Node>, n: Node)
    requires IsName(n.tag) && |open| > 0 && Occurs(b, p, "</" + n.tag + ">") && e == p + |"</" + n.tag + ">"|
    ensures Run(b, Scanner(p, lex, open + [n], RootOpen)) ==
      Run(b, Scanner(e, [], AddLast(open, Lexed(n, lex)), RootOpen))
  {
    RunClose(b, p, n.tag, lex, open + [n], RootOpen);
    var o := WithText(open + [n], lex);
    assert o[..|o| - 1] == open;
  }

  lemma OccursJoin(b: string, p: nat, u: string, v: string)
    requires Occurs(b, p, u) && Occurs(b, p + |u|, v)
    ensures Occurs(b, p, u + v)
  {
    forall k | 0 <= k < |u + v| ensures b[p + k] == (u + v)[k] {
      if k >= |u| {
        assert b[p + |u| + (k - |u|)] == v[k - |u|];
      }
    }
  }

  /** Where the padding and the start of a printed start tag lie. */
  lemma HeadChars(b: string, p: nat, ind: string, t: string, ao: string)
    requires Occurs(b, p, ind + "<" + t + ao)
    ensures Occurs(b, p, ind) && Occurs(b, p + |ind|, "<" + t + ao)
  {
    var w := ind + "<" + t + ao;
    forall k | 0 <= k < |ind| ensures b[p + k] == ind[k] {
      assert b[p + k] == w[k];
    }
    var u := "<" + t + ao;
    forall k | 0 <= k < |u| ensures b[p + |ind| + k] == u[k] {
      assert b[p + (|ind| + k)] == w[|ind| + k];
    }
  }

  /** Where the parts after the start tag of a child with text lie. */
  lemma TextTailChars(b: string, q: nat, t: string, s1: string, x: string, s2: string,
                      q2: nat, q3: nat, q4: nat, q5: nat, q6: nat)
    requires Occurs(b, q, ">" + "\n" + s1 + x + "\n" + s2 + "</" + t + ">\n")
    requires q2 == q + 1 && q3 == q2 + |"\n" + s1| && q4 == q3 + |x| && q5 == q4 + |"\n" + s2| && q6 == q5 + |"</" + t + ">"|
    ensures Occurs(b, q, ">") && Occurs(b, q2, "\n" + s1) && Occurs(b, q3, x)
    ensures Occurs(b, q4, "\n" + s2) && Occurs(b, q5, "</" + t + ">") && Occurs(b, q6, "\n")
    ensures q + |">" + "\n" + s1 + x + "\n" + s2 + "</" + t + ">\n"| == q6 + 1
  {
    var w := ">" + "\n" + s1 + x + "\n" + s2 + "</" + t + ">\n";
    assert b[q + 0] == w[0];
    var u := "\n" + s1;
    forall k | 0 <= k < |u| ensures b[q2 + k] == u[k] {
      assert b[q + (1 + k)] == w[1 + k];
    }
    forall k | 0 <= k < |x| ensures b[q3 + k] == x[k] {
      assert b[q + (q3 - q + k)] == w[q3 - q + k];
    }
    u := "\n" + s2;
    forall k | 0 <= k < |u| ensures b[q4 + k] == u[k] {
      assert b[q + (q4 - q + k)] == w[q4 - q + k];
    }
    u := "</" + t + ">";
    forall k | 0 <= k < |u| ensures b[q5 + k] == u[k] {
      assert b[q + (q5 - q + k)] == w[q5 - q + k];
    }
    assert b[q + (q6 - q + 0)] == w[q6 - q + 0];
  }

  /** Where the parts of a child with text lie. */
  lemma TextLineChars(b: string, p: nat, ind: string, t: string, ao: string, s1: string, x: string, s2: string,
                      q1: nat, q2: nat, q3: nat, q4: nat, q5: nat, q6: nat)
    requires Occurs(b, p, ind + "<" + t + ao + (">" + "\n" + s1 + x + "\n" + s2 + "</" + t + ">\n"))
    requires q1 == p + |ind| && q2 == q1 + |"<" + t + ao + ">"| && q3 == q2 + |"\n" + s1|
    requires q4 == q3 + |x| && q5 == q4 + |"\n" + s2| && q6 == q5 + |"</" + t + ">"|
    ensures Occurs(b, p, ind) && Occurs(b, q1, "<" + t + ao + ">") && Occurs(b, q2, "\n" + s1) && Occurs(b, q3, x)
    ensures Occurs(b, q4, "\n" + s2) && Occurs(b, q5, "</" + t + ">") && Occurs(b, q6, "\n")
    ensures p + |ind + "<" + t + ao + (">" + "\n" + s1 + x + "\n" + s2 + "</" + t + ">\n")| == q6 + |"\n"|
  {
    var tail := ">" + "\n" + s1 + x + "\n" + s2 + "</" + t + ">\n";
    OccursSplit(b, p, ind + "<" + t + ao, tail);
    HeadChars(b, p, ind, t, ao);
    TextTailChars(b, p + |ind + "<" + t + ao|, t, s1, x, s2, q2, q3, q4, q5, q6);
    OccursJoin(b, q1, "<" + t + ao, ">");
  }

  /** Loop states each of which leads to the same outcome as the next lead to the same outcome as the last. */
  lemma {:induction false} RunChain(b: string, ss: seq<Scanner>)
    requires |ss| > 0 && forall k | 0 <= k < |ss| - 1 :: Run(b, ss[k]) == Run(b, ss[k + 1])
    ensures Run(b, ss[0]) == Run(b, ss[|ss| - 1])
  {
    if |ss| > 1 {
      RunChain(b, ss[1..]);
      assert Run(b, ss[0]) == Run(b, ss[1]);
    }
  }

  /** The element a text leaf becomes once the text `lex` before its close tag went to it. */
  function Lexed(n: Node, lex: string): Node
  {
    if |lex| > 0 then n.(inner := Some(CStr(lex))) else n
  }

  /** `<tag attrs>` inside the root: the element is opened. */
  lemma RunOpenChild(b: string, p: nat, e: nat, t: string, given: seq<Attr>, open: seq<Node>)
    requires IsName(t) && AttrsOk(given) && Occurs(b, p, "<" + t + AttrsOut(given) + ">")
    requires e == p + |"<" + t + AttrsOut(given) + ">"|
    ensures Run(b, Scanner(p, [], open, RootOpen)) == Run(b, Scanner(e, [], open + [Node(t, None, Kept(given), [])], RootOpen))
  {
    RunOpen(b, p, t, given, open, RootOpen);
  }

  /** Padding and then `<tag attrs>` inside the root: the element is opened. */
  lemma OpenLine(b: string, p: nat, ind: string, t: string, given: seq<Attr>, open: seq<Node>, q1: nat, q2: nat)
    requires IsName(t) && AttrsOk(given) && forall k | 0 <= k < |ind| :: ind[k] == ' '
    requires q1 == p + |ind| && q2 == q1 + |"<" + t + AttrsOut(given) + ">"|
    requires Occurs(b, p, ind) && Occurs(b, q1, "<" + t + AttrsOut(given) + ">")
    ensures Run(b, Scanner(p, [], open, RootOpen)) == Run(b, Scanner(q2, [], open + [Node(t, None, Kept(given), [])], RootOpen))
  {
    RunBlank(b, p, ind, [], open, RootOpen, q1);
    RunOpenChild(b, q1, q2, t, given, open);
  }

  /** The padding, start tag and line break before the text of a child: the element is opened. */
  lemma TextOpening(b: string, p: nat, ind: string, t: string, given: seq<Attr>, s1: string, open: seq<Node>, q1: nat, q2: nat, q3: nat)
    requires IsName(t) && AttrsOk(given)
    requires forall k | 0 <= k < |ind| :: ind[k] == ' '
    requires forall k | 0 <= k < |s1| :: s1[k] == ' '
    requires q1 == p + |ind| && q2 == q1 + |"<" + t + AttrsOut(given) + ">"| && q3 == q2 + |"\n" + s1|
    requires Occurs(b, p, ind) && Occurs(b, q1, "<" + t + AttrsOut(given) + ">") && Occurs(b, q2, "\n" + s1)
    ensures Run(b, Scanner(p, [], open, RootOpen)) ==
      Run(b, Scanner(q3, [], open + [Node(t, None, Kept(given), [])], RootOpen))
  {
    OpenLine(b, p, ind, t, given, open, q1, q2);
    RunBlank(b, q2, "\n" + s1, [], open + [Node(t, None, Kept(given), [])], RootOpen, q3);
  }

  /** The text, padding, close tag and line break of a child with text: the element joins the innermost open element. */
  lemma TextClosing(b: string, q3: nat, t: string, x: string, s2: string, n: Node, open: seq<Node>, q4: nat, q5: nat, q6: nat, e: nat)
    requires IsName(t) && n.tag == t && |open| > 0 && IsText(x)
    requires forall k | 0 <= k < |s2| :: s2[k] == ' '
    requires q4 == q3 + |x| && q5 == q4 + |"\n" + s2| && q6 == q5 + |"</" + t + ">"| && e == q6 + |"\n"|
    requires Occurs(b, q3, x) && Occurs(b, q4, "\n" + s2) && Occurs(b, q5, "</" + t + ">") && Occurs(b, q6, "\n")
    ensures Run(b, Scanner(q3, [], open + [n], RootOpen)) ==
      Run(b, Scanner(e, [], AddLast(open, Lexed(n, [] + NoSpace(x))), RootOpen))
  {
    var lex := [] + NoSpace(x);
    RunText(b, q3, x, [], open + [n], RootOpen, q4);
    RunBlank(b, q4, "\n" + s2, lex, open + [n], RootOpen, q5);
    RunCloseChild(b, q5, q6, lex, open, n);
    RunBlank(b, q6, "\n", [], AddLast(open, Lexed(n, lex)), RootOpen, e);
  }

  /** A child with text: the element with its text without whitespace joins the innermost open element. */
  lemma TextLine(b: string, p: nat, ind: string, t: string, given: seq<Attr>, s1: string, x: string, s2: string, open: seq<Node>,
                 e: nat, n: Node)
    requires IsName(t) && AttrsOk(given) && |open| > 0 && IsText(x)
    requires forall k | 0 <= k < |ind| :: ind[k] == ' '
    requires forall k | 0 <= k < |s1| :: s1[k] == ' '
    requires forall k | 0 <= k < |s2| :: s2[k] == ' '
    requires Occurs(b, p, ind + "<" + t + AttrsOut(given) + (">" + "\n" + s1 + x + "\n" + s2 + "</" + t + ">\n"))
    requires e == p + |ind + "<" + t + AttrsOut(given) + (">" + "\n" + s1 + x + "\n" + s2 + "</" + t + ">\n")|
    requires n == Node(t, None, Kept(given), [])
    ensures Run(b, Scanner(p, [], open, RootOpen)) == Run(b, Scanner(e, [], AddLast(open, Lexed(n, [] + NoSpace(x))), RootOpen))
  {
    var q1 := p + |ind|;
    var q2 := q1 + |"<" + t + AttrsOut(given) + ">"|;
    var q3 := q2 + |"\n" + s1|;
    var q4 := q3 + |x|;
    var q5 := q4 + |"\n" + s2|;
    var q6 := q5 + |"</" + t + ">"|;
    TextLineChars(b, p, ind, t, AttrsOut(given), s1, x, s2, q1, q2, q3, q4, q5, q6);
    TextOpening(b, p, ind, t, given, s1, open, q1, q2, q3);
    TextClosing(b, q3, t, x, s2, n, open, q4, q5, q6, e);
  }

  /** How a child with text is printed, and what comes back for it. */
  lemma TextShape(c: Node, indent: int, times: int)
    requires IsName(c.tag) && |c.children| == 0 && c.inner.Some? && IsText(c.inner.value)
    ensures ChildOut(c, indent, times) == Indent(indent, times) + "<" + c.tag + AttrsOut(c.attrs) +
      (">" + "\n" + Pad(indent * (times + 1)) + c.inner.value + "\n" + Pad(indent * times) + "</" + c.tag + ">\n")
    ensures Normalize(c) == Lexed(Node(c.tag, None, Kept(c.attrs), []), [] + NoSpace(c.inner.value))
  {
    var x := c.inner.value;
    CStrNoNul(c.tag);
    CStrNoNul(x);
    NoSpaceChars(x);
    assert [] + NoSpace(x) == NoSpace(x);
    CStrNoNul(NoSpace(x));
  }

  /** A child with text, printed on a line of its own between its tags. */
  lemma ChildText(b: string, p: nat, e: nat, c: Node, indent: int, times: int, open: seq<Node>)
    requires WellFormed(c) && |c.children| == 0 && c.inner.Some? && |open| > 0
    requires Occurs(b, p, ChildOut(c, indent, times)) && e == p + |ChildOut(c, indent, times)|
    ensures Run(b, Scanner(p, [], open, RootOpen)) == Run(b, Scanner(e, [], AddLast(open, Normalize(c)), RootOpen))
  {
    TextShape(c, indent, times);
    TextLine(b, p, Indent(indent, times), c.tag, c.attrs, Pad(indent * (times + 1)), c.inner.value, Pad(indent * times), open,
             e, Node(c.tag, None, Kept(c.attrs), []));
  }

  /** Where the parts after the start tag of a child with children lie. */
  lemma NestedTailChars(b: string, q: nat, t: string, kids: string, ind: string, q2: nat, q3: nat, q4: nat, q5: nat, q6: nat)
    requires Occurs(b, q, ">" + "\n" + kids + ind + "</" + t + ">\n")
    requires q2 == q + 1 && q3 == q2 + |"\n"| && q4 == q3 + |kids| && q5 == q4 + |ind| && q6 == q5 + |"</" + t + ">"|
    ensures Occurs(b, q, ">") && Occurs(b, q2, "\n") && Occurs(b, q3, kids)
    ensures Occurs(b, q4, ind) && Occurs(b, q5, "</" + t + ">") && Occurs(b, q6, "\n")
    ensures q + |">" + "\n" + kids + ind + "</" + t + ">\n"| == q6 + 1
  {
    var w := ">" + "\n" + kids + ind + "</" + t + ">\n";
    assert b[q + 0] == w[0];
    assert b[q + (1 + 0)] == w[1 + 0];
    forall k | 0 <= k < |kids| ensures b[q3 + k] == kids[k] {
      assert b[q + (2 + k)] == w[2 + k];
    }
    forall k | 0 <= k < |ind| ensures b[q4 + k] == ind[k] {
      assert b[q + (q4 - q + k)] == w[q4 - q + k];
    }
    var u := "</" + t + ">";
    forall k | 0 <= k < |u| ensures b[q5 + k] == u[k] {
      assert b[q + (q5 - q + k)] == w[q5 - q + k];
    }
    assert b[q + (q6 - q + 0)] == w[q6 - q + 0];
  }

  /** Where the parts of a child with children lie. */
  lemma NestedLineChars(b: string, p: nat, ind: string, t: string, ao: string, kids: string,
                        q1: nat, q2: nat, q3: nat, q4: nat, q5: nat, q6: nat)
    requires Occurs(b, p, ind + "<" + t + ao + (">" + "\n" + kids + ind + "</" + t + ">\n"))
    requires q1 == p + |ind| && q2 == q1 + |"<" + t + ao + ">"| && q3 == q2 + |"\n"|
    requires q4 == q3 + |kids| && q5 == q4 + |ind| && q6 == q5 + |"</" + t + ">"|
    ensures Occurs(b, p, ind) && Occurs(b, q1, "<" + t + ao + ">") && Occurs(b, q2, "\n") && Occurs(b, q3, kids)
    ensures Occurs(b, q4, ind) && Occurs(b, q5, "</" + t + ">") && Occurs(b, q6, "\n")
    ensures p + |ind + "<" + t + ao + (">" + "\n" + kids + ind + "</" + t + ">\n")| == q6 + |"\n"|
  {
    var tail := ">" + "\n" + kids + ind + "</" + t + ">\n";
    OccursSplit(b, p, ind + "<" + t + ao, tail);
    HeadChars(b, p, ind, t, ao);
    NestedTailChars(b, p + |ind + "<" + t + ao|, t, kids, ind, q2, q3, q4, q5, q6);
    OccursJoin(b, q1, "<" + t + ao, ">");
  }

  /** How a child with children is printed, and what comes back for it. */
  lemma NestedShape(c: Node, indent: int, times: int)
    requires IsName(c.tag) && |c.children| > 0
    ensures ChildOut(c, indent, times) == Indent(indent, times) + "<" + c.tag + AttrsOut(c.attrs) +
      (">" + "\n" + ChildrenOut(c.children, indent, times + 1) + Indent(indent, times) + "</" + c.tag + ">\n")
    ensures Normalize(c) == Node(c.tag, None, Kept(c.attrs), NormalizeAll(c.children))
  {
    CStrNoNul(c.tag);
  }

  lemma AdoptNone(open: seq<Node>)
    requires |open| > 0
    ensures Adopt(open, []) == open
  {
    var last := open[|open| - 1];
    assert last.children + [] == last.children;
    assert last.(children := last.children) == last;
    assert open[..|open| - 1] + [last] == open;
  }

  lemma AdoptLast(open: seq<Node>, xs: seq<Node>, x: Node)
    requires |open| > 0
    ensures AddLast(Adopt(open, xs), x) == Adopt(open, xs + [x])
  {
    var a := Adopt(open, xs);
    var last := open[|open| - 1];
    assert a[..|a| - 1] == open[..|open| - 1];
    assert a[|a| - 1] == last.(children := last.children + xs);
    assert last.children + xs + [x] == last.children + (xs + [x]);
  }

  lemma AdoptNew(open: seq<Node>, n: Node, xs: seq<Node>)
    requires n.children == []
    ensures Adopt(open + [n], xs) == open + [n.(children := xs)]
  {
    assert (open + [n])[..|open|] == open;
    assert (open + [n])[|open|] == n;
    assert [] + xs == xs;
  }

  /** The padding, start tag and line break before the children of a child: the element is opened. */
  lemma NestedOpening(b: string, p: nat, ind: string, t: string, given: seq<Attr>, open: seq<Node>, q1: nat, q2: nat, q3: nat)
    requires IsName(t) && AttrsOk(given) && forall k | 0 <= k < |ind| :: ind[k] == ' '
    requires q1 == p + |ind| && q2 == q1 + |"<" + t + AttrsOut(given) + ">"| && q3 == q2 + |"\n"|
    requires Occurs(b, p, ind) && Occurs(b, q1, "<" + t + AttrsOut(given) + ">") && Occurs(b, q2, "\n")
    ensures Run(b, Scanner(p, [], open, RootOpen)) ==
      Run(b, Scanner(q3, [], open + [Node(t, None, Kept(given), [])], RootOpen))
  {
    OpenLine(b, p, ind, t, given, open, q1, q2);
    RunBlank(b, q2, "\n", [], open + [Node(t, None, Kept(given), [])], RootOpen, q3);
  }

  /** The padding, close tag and line break after the children of a child: the element joins the innermost open element. */
  lemma NestedClosing(b: string, q4: nat, ind: string, n: Node, open: seq<Node>, q5: nat, q6: nat, e: nat)
    requires IsName(n.tag) && |open| > 0 && forall k | 0 <= k < |ind| :: ind[k] == ' '
    requires q5 == q4 + |ind| && q6 == q5 + |"</" + n.tag + ">"| && e == q6 + |"\n"|
    requires Occurs(b, q4, ind) && Occurs(b, q5, "</" + n.tag + ">") && Occurs(b, q6, "\n")
    ensures Run(b, Scanner(q4, [], open + [n], RootOpen)) == Run(b, Scanner(e, [], AddLast(open, n), RootOpen))
  {
    RunBlank(b, q4, ind, [], open + [n], RootOpen, q5);
    RunCloseChild(b, q5, q6, [], open, n);
    RunBlank(b, q6, "\n", [], AddLast(open, Lexed(n, [])), RootOpen, e);
  }

  /** One child, whatever its shape: what comes back for it joins the innermost open element. */
  lemma {:induction false} ChildRun(b: string, p: nat, e: nat, c: Node, indent: int, times: int, open: seq<Node>)
    requires WellFormed(c) && |open| > 0
    requires Occurs(b, p, ChildOut(c, indent, times)) && e == p + |ChildOut(c, indent, times)|
    ensures Run(b, Scanner(p, [], open, RootOpen)) == Run(b, Scanner(e, [], AddLast(open, Normalize(c)), RootOpen))
    decreases c, 2
  {
    if |c.children| > 0 {
      ChildNested(b, p, e, c, indent, times, open);
    } else if c.inner.Some? {
      ChildText(b, p, e, c, indent, times, open);
    } else {
      ChildInline(b, p, e, c, indent, times, open);
    }
  }

  /** A child with children: the element, with what comes back for its children, joins the innermost open element. */
  lemma {:induction false} ChildNested(b: string, p: nat, e: nat, c: Node, indent: int, times: int, open: seq<Node>)
    requires WellFormed(c) && |c.children| > 0 && |open| > 0
    requires Occurs(b, p, ChildOut(c, indent, times)) && e == p + |ChildOut(c, indent, times)|
    ensures Run(b, Scanner(p, [], open, RootOpen)) == Run(b, Scanner(e, [], AddLast(open, Normalize(c)), RootOpen))
    decreases c, 1
  {
    var ind := Indent(indent, times);
    var kids := ChildrenOut(c.children, indent, times + 1);
    var n := Node(c.tag, None, Kept(c.attrs), []);
    var q1 := p + |ind|;
    var q2 := q1 + |"<" + c.tag + AttrsOut(c.attrs) + ">"|;
    var q3 := q2 + |"\n"|;
    var q4 := q3 + |kids|;
    var q5 := q4 + |ind|;
    var q6 := q5 + |"</" + c.tag + ">"|;
    NestedShape(c, indent, times);
    NestedLineChars(b, p, ind, c.tag, AttrsOut(c.attrs), kids, q1, q2, q3, q4, q5, q6);
    AdoptNew(open, n, NormalizeAll(c.children));
    NestedOpening(b, p, ind, c.tag, c.attrs, open, q1, q2, q3);
    ChildrenRun(b, q3, q4, c.children, indent, times + 1, open + [n]);
    NestedClosing(b, q4, ind, Normalize(c), open, q5, q6, e);
  }

  /** Where the last child and the ones before it lie in printed children. */
  lemma ChildrenSplit(b: string, p: nat, cs: seq<Node>, indent: int, times: int)
    requires |cs| > 0 && (forall k | 0 <= k < |cs| :: WellFormed(cs[k])) && Occurs(b, p, ChildrenOut(cs, indent, times))
    ensures var pre, last := cs[..|cs| - 1], cs[|cs| - 1];
      && (forall k | 0 <= k < |pre| :: WellFormed(pre[k])) && WellFormed(last)
      && Occurs(b, p, ChildrenOut(pre, indent, times))
      && Occurs(b, p + |ChildrenOut(pre, indent, times)|, ChildOut(last, indent, times))
      && |ChildrenOut(cs, indent, times)| == |ChildrenOut(pre, indent, times)| + |ChildOut(last, indent, times)|
  {
    var pre, last := cs[..|cs| - 1], cs[|cs| - 1];
    assert ChildrenOut(cs, indent, times) == ChildrenOut(pre, indent, times) + ChildOut(last, indent, times);
    OccursSplit(b, p, ChildrenOut(pre, indent, times), ChildOut(last, indent, times));
  }

  /** The children of the innermost open element, in order: what comes back for each joins it. */
  lemma {:induction false} ChildrenRun(b: string, p: nat, e: nat, cs: seq<Node>, indent: int, times: int, open: seq<Node>)
    requires (forall k | 0 <= k < |cs| :: WellFormed(cs[k])) && |open| > 0
    requires Occurs(b, p, ChildrenOut(cs, indent, times)) && e == p + |ChildrenOut(cs, indent, times)|
    ensures Run(b, Scanner(p, [], open, RootOpen)) == Run(b, Scanner(e, [], Adopt(open, NormalizeAll(cs)), RootOpen))
    decreases cs, 0
  {
    if |cs| == 0 {
      AdoptNone(open);
    } else {
      var pre := cs[..|cs| - 1];
      var last := cs[|cs| - 1];
      var m := p + |ChildrenOut(pre, indent, times)|;
      ChildrenSplit(b, p, cs, indent, times);
      assert NormalizeAll(cs) == NormalizeAll(pre) + [Normalize(last)];
      AdoptLast(open, NormalizeAll(pre), Normalize(last));
      ChildrenRun(b, p, m, pre, indent, times, open);
      ChildRun(b, m, e, last, indent, times, Adopt(open, NormalizeAll(pre)));
    }
  }

  // ---------------------------------------------------------------------
  // Whole documents
  // ---------------------------------------------------------------------

  lemma OccursPrefix(s: string, x: string)
    ensures Occurs(s + x, 0, s)
  {
    forall k | 0 <= k < |s| ensures (s + x)[0 + k] == s[k] {
    }
  }

  lemma AdoptRoot(n: Node, xs: seq<Node>)
    requires n.children == []
    ensures Adopt([n], xs) == [n.(children := xs)]
  {
    assert [] + xs == xs;
  }

  /** The terminating NUL: the loop ends with the document as it stands. */
  lemma RunEnd(b: string, e: nat, open: seq<Node>, doc: Doc)
    requires e < |b| && b[e] == NUL
    ensures Run(b, Scanner(e, [], open, doc)) == Ok(Finish(Scanner(e, [], open, doc)))
  {
  }

  /** The root's start tag at the head of the buffer: it is opened as the root. */
  lemma RootOpenStep(b: string, e: nat, t: string, given: seq<Attr>)
    requires IsName(t) && AttrsOk(given) && Occurs(b, 0, "<" + t + AttrsOut(given) + ">")
    requires e == |"<" + t + AttrsOut(given) + ">"|
    ensures Run(b, Scanner(0, [], [], NoRoot)) == Run(b, Scanner(e, [], [Node(t, None, Kept(given), [])], RootOpen))
  {
    RunOpen(b, 0, t, given, [], NoRoot);
    assert [] + [Node(t, None, Kept(given), [])] == [Node(t, None, Kept(given), [])];
  }

  /** The root's start tag, its line break and the children below it. */
  lemma DocBody(b: string, root: Node, indent: int, q1: nat, q2: nat, q3: nat)
    requires WellFormed(root)
    requires q1 == |"<" + root.tag + AttrsOut(root.attrs) + ">"| && q2 == q1 + |"\n"|
    requires q3 == q2 + |ChildrenOut(root.children, indent, 1)|
    requires Occurs(b, 0, "<" + root.tag + AttrsOut(root.attrs) + ">") && Occurs(b, q1, "\n")
    requires Occurs(b, q2, ChildrenOut(root.children, indent, 1))
    ensures Run(b, Scanner(0, [], [], NoRoot)) ==
      Run(b, Scanner(q3, [], [Node(root.tag, None, Kept(root.attrs), NormalizeAll(root.children))], RootOpen))
  {
    var n := Node(root.tag, None, Kept(root.attrs), []);
    AdoptRoot(n, NormalizeAll(root.children));
    RootOpenStep(b, q1, root.tag, root.attrs);
    RunBlank(b, q1, "\n", [], [n], RootOpen, q2);
    ChildrenRun(b, q2, q3, root.children, indent, 1, [n]);
  }

  /** `<tag/>` after the children of the root: one more, empty, child; then the NUL. */
  lemma DocEndInline(b: string, q3: nat, e: nat, n: Node)
    requires IsName(n.tag) && Occurs(b, q3, "<" + n.tag + "/>\n") && e == q3 + |"<" + n.tag + "/>\n"|
    requires e < |b| && b[e] == NUL
    ensures Run(b, Scanner(q3, [], [n], RootOpen)) == Ok(Some(AddChild(n, Node(n.tag, None, [], []))))
  {
    assert "<" + n.tag + AttrsOut([]) + "/>\n" == "<" + n.tag + "/>\n";
    assert AddLast([n], Node(n.tag, None, Kept([]), [])) == [AddChild(n, Node(n.tag, None, [], []))];
    RunInlineChild(b, q3, e, n.tag, [], [n]);
    RunEnd(b, e, [AddChild(n, Node(n.tag, None, [], []))], RootOpen);
  }

  /** `</tag>` after the children of the root: the root is complete; then the NUL. */
  lemma DocEndClosed(b: string, q3: nat, q4: nat, e: nat, n: Node)
    requires IsName(n.tag) && Occurs(b, q3, "</" + n.tag + ">") && Occurs(b, q4, "\n")
    requires q4 == q3 + |"</" + n.tag + ">"| && e == q4 + |"\n"| && e < |b| && b[e] == NUL
    ensures Run(b, Scanner(q3, [], [n], RootOpen)) == Ok(Some(n))
  {
    RunClose(b, q3, n.tag, [], [n], RootOpen);
    RunBlank(b, q4, "\n", [], [], RootDone(n), e);
    RunEnd(b, e, [], RootDone(n));
  }

  /** Where the parts of a document written by `DocWrite` lie. */
  lemma DocChars(b: string, t: string, ao: string, kids: string, q1: nat, q2: nat, q3: nat)
    requires Occurs(b, 0, "<" + t + ao + ">\n" + kids + "<" + t + "/>\n")
    requires q1 == |"<" + t + ao + ">"| && q2 == q1 + |"\n"| && q3 == q2 + |kids|
    ensures Occurs(b, 0, "<" + t + ao + ">") && Occurs(b, q1, "\n") && Occurs(b, q2, kids) && Occurs(b, q3, "<" + t + "/>\n")
    ensures |"<" + t + ao + ">\n" + kids + "<" + t + "/>\n"| == q3 + |"<" + t + "/>\n"|
  {
    var w := "<" + t + ao + ">\n" + kids + "<" + t + "/>\n";
    var u := "<" + t + ao + ">";
    forall k | 0 <= k < |u| ensures b[0 + k] == u[k] {
      assert b[0 + k] == w[k];
    }
    assert b[0 + q1] == w[q1];
    forall k | 0 <= k < |kids| ensures b[q2 + k] == kids[k] {
      assert b[0 + (q2 + k)] == w[q2 + k];
    }
    u := "<" + t + "/>\n";
    forall k | 0 <= k < |u| ensures b[q3 + k] == u[k] {
      assert b[0 + (q3 + k)] == w[q3 + k];
    }
  }

  /** Where the parts of a document written by `DocWriteClosed` lie. */
  lemma DocClosedChars(b: string, t: string, ao: string, kids: string, q1: nat, q2: nat, q3: nat, q4: nat)
    requires Occurs(b, 0, "<" + t + ao + ">\n" + kids + "</" + t + ">\n")
    requires q1 == |"<" + t + ao + ">"| && q2 == q1 + |"\n"| && q3 == q2 + |kids| && q4 == q3 + |"</" + t + ">"|
    ensures Occurs(b, 0, "<" + t + ao + ">") && Occurs(b, q1, "\n") && Occurs(b, q2, kids)
    ensures Occurs(b, q3, "</" + t + ">") && Occurs(b, q4, "\n")
    ensures |"<" + t + ao + ">\n" + kids + "</" + t + ">\n"| == q4 + |"\n"|
  {
    var w := "<" + t + ao + ">\n" + kids + "</" + t + ">\n";
    var u := "<" + t + ao + ">";
    forall k | 0 <= k < |u| ensures b[0 + k] == u[k] {
      assert b[0 + k] == w[k];
    }
    assert b[0 + q1] == w[q1];
    forall k | 0 <= k < |kids| ensures b[q2 + k] == kids[k] {
      assert b[0 + (q2 + k)] == w[q2 + k];
    }
    u := "</" + t + ">";
    forall k | 0 <= k < |u| ensures b[q3 + k] == u[k] {
      assert b[0 + (q3 + k)] == w[q3 + k];
    }
    assert b[0 + q4] == w[q4];
  }

  /**
   * Loading what `xml_doc_write` wrote: the root with its attributes that
   * have values, its children as `Normalize` describes them, and one more
   * child named like the root, read from the `<tag/>` that ends the file.
   */
  lemma RoundTrip(root: Node, indent: int)
    requires WellFormed(root)
    ensures Parse(DocWrite(root, indent)) ==
      Ok(Some(Node(root.tag, None, Kept(root.attrs), NormalizeAll(root.children) + [Node(root.tag, None, [], [])])))
  {
    var t := root.tag;
    var ao := AttrsOut(root.attrs);
    var kids := ChildrenOut(root.children, indent, 1);
    var s := DocWrite(root, indent);
    var b := s + [NUL];
    var q1 := |"<" + t + ao + ">"|;
    var q2 := q1 + |"\n"|;
    var q3 := q2 + |kids|;
    var e := q3 + |"<" + t + "/>\n"|;
    var n := Node(t, None, Kept(root.attrs), NormalizeAll(root.children));
    CStrNoNul(t);
    assert s == "<" + t + ao + ">\n" + kids + "<" + t + "/>\n";
    OccursPrefix(s, [NUL]);
    DocChars(b, t, ao, kids, q1, q2, q3);
    assert b[e] == NUL;
    DocBody(b, root, indent, q1, q2, q3);
    DocEndInline(b, q3, e, n);
  }

  /** Loading what the corrected writer wrote: the root with its attributes that have values and its children as `Normalize` describes them. */
  lemma RoundTripClosed(root: Node, indent: int)
    requires WellFormed(root)
    ensures Parse(DocWriteClosed(root, indent)) ==
      Ok(Some(Node(root.tag, None, Kept(root.attrs), NormalizeAll(root.children))))
  {
    var t := root.tag;
    var ao := AttrsOut(root.attrs);
    var kids := ChildrenOut(root.children, indent, 1);
    var s := DocWriteClosed(root, indent);
    var b := s + [NUL];
    var q1 := |"<" + t + ao + ">"|;
    var q2 := q1 + |"\n"|;
    var q3 := q2 + |kids|;
    var q4 := q3 + |"</" + t + ">"|;
    var e := q4 + |"\n"|;
    var n := Node(t, None, Kept(root.attrs), NormalizeAll(root.children));
    CStrNoNul(t);
    assert s == "<" + t + ao + ">\n" + kids + "</" + t + ">\n";
    OccursPrefix(s, [NUL]);
    DocClosedChars(b, t, ao, kids, q1, q2, q3, q4);
    assert b[e] == NUL;
    DocBody(b, root, indent, q1, q2, q3);
    DocEndClosed(b, q3, q4, e, n);
  }
  /** Normalizing keeps one node per child. */
  lemma {:induction false} NormalizeAllLength(cs: seq<Node>)
    ensures |NormalizeAll(cs)| == |cs|
    decreases |cs|
  {
    if |cs| > 0 {
      NormalizeAllLength(cs[..|cs| - 1]);
    }
  }

  /**
   * The writer as it stands never gives back the tree it wrote: the loaded
   * root always has one child more than the written one, an empty element
   * named like the root.
   */
  lemma DocWriteGainsChild(root: Node, indent: int)
    requires WellFormed(root)
    ensures Parse(DocWrite(root, indent)).Ok? && Parse(DocWrite(root, indent)).value.Some?
    ensures var loaded := Parse(DocWrite(root, indent)).value.value;
      |loaded.children| == |root.children| + 1 &&
      loaded.children[|root.children|] == Node(root.tag, None, [], [])
  {
    RoundTrip(root, indent);
    NormalizeAllLength(root.children);
  }

  /** A root `a` alone is written as `<a>`, a newline, `<a/>` and a newline, and read back with a child `a`. */
  lemma DocWriteLeafRoot()
    ensures DocWrite(Node("a", None, [], []), 0) == "<a>\n<a/>\n"
    ensures Parse("<a>\n<a/>\n") == Ok(Some(Node("a", None, [], [Node("a", None, [], [])])))
    ensures Parse(DocWriteClosed(Node("a", None, [], []), 0)) == Ok(Some(Node("a", None, [], [])))
  {
    var root := Node("a", None, [], []);
    CStrNoNul("a");
    assert WellFormed(root);
    assert AttrsOut([]) == "" && ChildrenOut([], 0, 1) == "";
    assert Kept([]) == [] && NormalizeAll([]) == [];
    assert NormalizeAll([]) + [root] == [root];
    assert DocWrite(root, 0) == "<a>\n<a/>\n";
    RoundTrip(root, 0);
    RoundTripClosed(root, 0);
  }
}
