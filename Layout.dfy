/**
 * The layout slot allocator of src/layout.c.
 *
 * A `Layout` frame cuts a rectangle into `count` slices along one axis and
 * hands them out one at a time; a stack of frames (a growable array of
 * `Layout` values, as in C) lets a slice be cut again. The C fields are
 * `float`; the model computes over `real`, an idealisation without rounding.
 */
module Layouts {
  import opened Wrappers
  import opened DynArrays

  /** `Layout_Orient`: slices side by side (LO_HORI) or one above the other (LO_VERT). */
  datatype Orient = Hori | Vert

  /** raylib's `Rectangle`. */
  datatype Rect = Rect(x: real, y: real, width: real, height: real)

  /** A frame: the rectangle to cut, the number of slices, the gap between them, and the index of the next slice. */
  datatype Layout = Layout(orient: Orient, rect: Rect, i: nat, count: nat, gap: real)

  /** The one failure of `layout_slot`: "Layout overflow", after which the program exits. */
  datatype LayoutError = Overflow

  /** `layout_make`: a frame whose first slice is the next one. */
  function LayoutMake(orient: Orient, rect: Rect, count: nat, gap: real): (l: Layout)
  {
    Layout(orient, rect, 0, count, gap)
  }

  /**
   * One axis of `layout_slot`: slice `i` of `count` along the span that
   * starts at `start` and is `length` long, as (offset, extent). Every slice
   * is `length / count` long and starts at `start + i * length / count`; the
   * first gives up `gap / 2` at its end, the last `gap / 2` at its start, and
   * the middle ones `gap / 2` at both.
   */
  function Span(start: real, length: real, i: nat, count: nat, gap: real): (real, real)
    requires i < count
  {
    var size := length / count as real;
    var at := start + i as real * size;
    if i == 0 then (at, size - gap / 2.0)
    else if i >= count - 1 then (at + gap / 2.0, size - gap / 2.0)
    else (at + gap / 2.0, size - gap)
  }

  /** Where a rectangle lies along a frame's axis, as (offset, extent). */
  function Along(o: Orient, r: Rect): (real, real)
  {
    match o
    case Hori => (r.x, r.width)
    case Vert => (r.y, r.height)
  }

  /** Where a rectangle lies across a frame's axis, as (offset, extent). */
  function Across(o: Orient, r: Rect): (real, real)
  {
    match o
    case Hori => (r.y, r.height)
    case Vert => (r.x, r.width)
  }

  /** The rectangle of the frame's next slice. */
  function SlotRect(l: Layout): (r: Rect)
    requires l.i < l.count
    ensures Along(l.orient, r) == Span(Along(l.orient, l.rect).0, Along(l.orient, l.rect).1, l.i, l.count, l.gap)
    ensures Across(l.orient, r) == Across(l.orient, l.rect)
  {
    match l.orient
    case Hori =>
      var (x, w) := Span(l.rect.x, l.rect.width, l.i, l.count, l.gap);
      Rect(x, l.rect.y, w, l.rect.height)
    case Vert =>
      var (y, h) := Span(l.rect.y, l.rect.height, l.i, l.count, l.gap);
      Rect(l.rect.x, y, l.rect.width, h)
  }

  /**
   * `layout_slot`: the next slice and the frame with its index moved on by
   * one, or `Overflow` once `count` slices have been handed out (at once when
   * `count` is 0, before any division).
   */
  function Slot(l: Layout): (r: Result<(Rect, Layout), LayoutError>)
    ensures r.Err? <==> l.i >= l.count
    ensures r.Ok? ==> r.value.1.i == l.i + 1 && r.value.1 == l.(i := l.i + 1)
  {
    if l.i >= l.count then Err(Overflow)
    else Ok((SlotRect(l), l.(i := l.i + 1)))
  }

  /** `n` calls of `layout_slot` on one frame: the slices in order and the frame after them. */
  function Take(l: Layout, n: nat): Result<(seq<Rect>, Layout), LayoutError>
    decreases n
  {
    if n == 0 then Ok(([], l))
    else
      match Slot(l)
      case Err(e) => Err(e)
      case Ok((r, next)) =>
        match Take(next, n - 1)
        case Err(e) => Err(e)
        case Ok((rs, last)) => Ok(([r] + rs, last))
  }

  /** From slice `l.i` on, `n` more slices can be taken exactly when `l.i + n <= count`, and they are the next ones in order. */
  lemma {:induction false} TakeSlots(l: Layout, n: nat)
    requires l.i <= l.count
    ensures Take(l, n).Ok? <==> l.i + n <= l.count
    ensures Take(l, n).Ok? ==>
      var (rs, last) := Take(l, n).value;
      |rs| == n && last == l.(i := l.i + n) &&
      forall k | 0 <= k < n :: rs[k] == SlotRect(l.(i := l.i + k))
    decreases n
  {
    if n > 0 && l.i < l.count {
      var next := l.(i := l.i + 1);
      TakeSlots(next, n - 1);
      if Take(l, n).Ok? {
        var (rs, last) := Take(l, n).value;
        var (rs', last') := Take(next, n - 1).value;
        assert rs == [SlotRect(l)] + rs';
        forall k | 0 <= k < n ensures rs[k] == SlotRect(l.(i := l.i + k)) {
          if k > 0 {
            assert rs[k] == rs'[k - 1];
            assert next.(i := next.i + (k - 1)) == l.(i := l.i + k);
          }
        }
      }
    }
  }

  /** A frame made by `layout_make` yields exactly `count` slices: the next call overflows. */
  lemma FrameYieldsCount(o: Orient, rect: Rect, count: nat, gap: real)
    ensures Take(LayoutMake(o, rect, count, gap), count).Ok?
    ensures |Take(LayoutMake(o, rect, count, gap), count).value.0| == count
    ensures Take(LayoutMake(o, rect, count, gap), count + 1) == Err(Overflow)
  {
    var l := LayoutMake(o, rect, count, gap);
    TakeSlots(l, count);
    TakeSlots(l, count + 1);
    TakeFails(l, count + 1);
    var r := Take(l, count + 1);
    assert r.Err? && r.error.Overflow?;
  }

  /**
   * Taking `n` slices from any frame state fails exactly when at least one
   * is asked for and they run past `count`, the frame's index included.
   */
  lemma {:induction false} TakeFails(l: Layout, n: nat)
    ensures Take(l, n).Err? <==> n > 0 && l.i + n > l.count
    decreases n
  {
    if n > 0 && l.i < l.count {
      TakeFails(l.(i := l.i + 1), n - 1);
    }
  }

  /** Consecutive slices are `gap` apart: slice `i` ends `gap` before slice `i + 1` starts. */
  lemma SpanGap(start: real, length: real, i: nat, count: nat, gap: real)
    requires i + 1 < count
    ensures Span(start, length, i, count, gap).0 + Span(start, length, i, count, gap).1 + gap ==
      Span(start, length, i + 1, count, gap).0
  {
    var size := length / count as real;
    assert (i + 1) as real * size == i as real * size + size;
  }

  /** The first slice starts at the start of the span; with two slices or more, the last ends at its end. */
  lemma SpanEnds(start: real, length: real, count: nat, gap: real)
    requires count >= 1
    ensures Span(start, length, 0, count, gap).0 == start
    ensures count >= 2 ==>
      Span(start, length, count - 1, count, gap).0 + Span(start, length, count - 1, count, gap).1 == start + length
  {
    var size := length / count as real;
    assert count as real * size == length;
    assert (count - 1) as real * size + size == count as real * size;
  }

  /** A frame of one slice hands out the whole span less `gap / 2` at its end. */
  lemma SpanSingle(start: real, length: real, gap: real)
    ensures Span(start, length, 0, 1, gap) == (start, length - gap / 2.0)
  {
  }

  /**
   * The slices of a frame of two or more tile its rectangle along the axis:
   * the first starts where the rectangle starts, each ends `gap` before the
   * next starts, the last ends where the rectangle ends, and every slice
   * keeps the rectangle's extent across the axis.
   */
  lemma FrameTiles(o: Orient, rect: Rect, count: nat, gap: real)
    requires count >= 2
    ensures Take(LayoutMake(o, rect, count, gap), count).Ok?
    ensures var rs := Take(LayoutMake(o, rect, count, gap), count).value.0;
      |rs| == count &&
      Along(o, rs[0]).0 == Along(o, rect).0 &&
      Along(o, rs[count - 1]).0 + Along(o, rs[count - 1]).1 == Along(o, rect).0 + Along(o, rect).1 &&
      (forall k | 0 <= k < count - 1 :: Along(o, rs[k]).0 + Along(o, rs[k]).1 + gap == Along(o, rs[k + 1]).0) &&
      (forall k | 0 <= k < count :: Across(o, rs[k]) == Across(o, rect))
  {
    var l := LayoutMake(o, rect, count, gap);
    var (start, length) := Along(o, rect);
    TakeSlots(l, count);
    var rs := Take(l, count).value.0;
    forall k | 0 <= k < count
      ensures Along(o, rs[k]) == Span(start, length, k, count, gap) && Across(o, rs[k]) == Across(o, rect)
    {
      assert rs[k] == SlotRect(l.(i := k));
    }
    SpanEnds(start, length, count, gap);
    forall k | 0 <= k < count - 1
      ensures Along(o, rs[k]).0 + Along(o, rs[k]).1 + gap == Along(o, rs[k + 1]).0
    {
      SpanGap(start, length, k, count, gap);
    }
  }

  /** `layout_stack_push`: a fresh frame on top of the stack. */
  method StackPush(ls: DynArray<Layout>, orient: Orient, rect: Rect, count: nat, gap: real)
    requires ls.Valid()
    modifies ls, ls.data
    ensures ls.Valid()
    ensures ls.Contents() == old(ls.Contents()) + [LayoutMake(orient, rect, count, gap)]
    ensures ls.data == old(ls.data) || fresh(ls.data)
  {
    var l := LayoutMake(orient, rect, count, gap);
    ls.Push(l);
  }

  /** `layout_stack_pop`: the stack must not be empty (an `assert`); its top frame is dropped. */
  method StackPop(ls: DynArray<Layout>)
    requires ls.Valid() && Size(ls) > 0
    modifies ls
    ensures ls.Valid()
    ensures ls.Contents() == old(ls.Contents())[..old(ls.size) - 1]
  {
    var _ := ls.PopLast();
  }

  /**
   * `layout_stack_slot_loc`: the stack must not be empty (an `assert`); the
   * next slice of the top frame, whose index moves on. The frames below are
   * untouched.
   */
  method StackSlotLoc(ls: DynArray<Layout>) returns (r: Result<Rect, LayoutError>)
    requires ls.Valid() && Size(ls) > 0
    modifies ls.data
    ensures ls.Valid()
    ensures var top := old(ls.Last());
      match Slot(top)
      case Err(e) => r == Err(e) && ls.Contents() == old(ls.Contents())
      case Ok((rect, next)) => r == Ok(rect) && ls.Contents() == old(ls.Contents())[..old(ls.size) - 1] + [next]
  {
    var top := ls.data[ls.size - 1];
    match Slot(top)
    case Err(e) =>
      r := Err(e);
    case Ok((rect, next)) =>
      ls.data[ls.size - 1] := next;
      r := Ok(rect);
  }

  /**
   * The `LayoutDrawing` block (src/layout.h) around a body that takes `n`
   * slices of its frame: push the frame, take the slices, pop it. It either
   * overflows, exactly when `n > count`, or returns the frame's first `n`
   * slices and leaves the stack as it found it.
   */
  method Drawing(ls: DynArray<Layout>, orient: Orient, rect: Rect, count: nat, gap: real, n: nat)
    returns (r: Result<seq<Rect>, LayoutError>)
    requires ls.Valid()
    modifies ls, ls.data
    ensures r.Ok? <==> n <= count
    ensures r.Ok? ==> ls.Valid() && ls.Contents() == old(ls.Contents())
    ensures r.Ok? ==> Take(LayoutMake(orient, rect, count, gap), n) == Ok((r.value, LayoutMake(orient, rect, count, gap).(i := n)))
  {
    ghost var below := ls.Contents();
    var frame := LayoutMake(orient, rect, count, gap);
    StackPush(ls, orient, rect, count, gap);
    var rects: seq<Rect> := [];
    var k := 0;
    while k < n
      invariant 0 <= k <= n && k <= count
      invariant ls.Valid() && ls.Contents() == below + [frame.(i := frame.i + k)]
      invariant ls.data == old(ls.data) || fresh(ls.data)
      invariant |rects| == k && forall j | 0 <= j < k :: rects[j] == SlotRect(frame.(i := frame.i + j))
    {
      var s := StackSlotLoc(ls);
      match s {
        case Err(e) =>
          return Err(e);
        case Ok(one) =>
          rects := rects + [one];
          k := k + 1;
      }
    }
    TakeSlots(frame, n);
    ghost var taken := Take(frame, n).value.0;
    assert rects == taken by {
      forall j | 0 <= j < n ensures rects[j] == taken[j] {
      }
    }
    StackPop(ls);
    r := Ok(rects);
  }
}
