/**
 * The header-prefixed growable array of src/array.h.
 *
 * In C an array is a pointer to its first element, with a `{size, capacity}`
 * header stored just before it; every macro updates that header in place,
 * `memmove` shifts elements, and `array_grow` reallocates the buffer. Here a
 * `DynArray` object holds the header fields and the element buffer, whose
 * length is the capacity. A NULL array is a `null` reference: `Size` and
 * `Capacity` accept it, and the growing operations, which abort on it through
 * `ASSERT(*array)` in `array_grow`, are methods of a non-null object. So
 * are the pops and `Clear`: popping or clearing a NULL array, which in C
 * returns false or does nothing, is not modelled.
 *
 * The pure functions `RemoveAt` and `GrownCapacity` state what removal and
 * growth mean; the methods are proved against them.
 */
module DynArrays {

  /** `s` with element `i` taken out, the later elements moved down one place. */
  function RemoveAt<T>(s: seq<T>, i: nat): (r: seq<T>)
    requires i < |s|
    ensures |r| == |s| - 1
  {
    s[..i] + s[i + 1..]
  }

  /** Removal keeps the other elements in their order: those before `i` stay, those after move down one. */
  lemma RemoveAtOrder<T>(s: seq<T>, i: nat)
    requires i < |s|
    ensures forall j | 0 <= j < i :: RemoveAt(s, i)[j] == s[j]
    ensures forall j | i <= j < |s| - 1 :: RemoveAt(s, i)[j] == s[j + 1]
  {
  }

  /** Removal loses exactly element `i`. */
  lemma RemoveAtMultiset<T>(s: seq<T>, i: nat)
    requires i < |s|
    ensures multiset(RemoveAt(s, i)) + multiset{s[i]} == multiset(s)
  {
    assert s == s[..i] + [s[i]] + s[i + 1..];
  }

  /** Removing the first element drops the head; removing the last drops the tail end. */
  lemma RemoveAtEnds<T>(s: seq<T>)
    requires |s| > 0
    ensures RemoveAt(s, 0) == s[1..]
    ensures RemoveAt(s, |s| - 1) == s[..|s| - 1]
  {
  }

  /**
   * The capacity after `array_try_grow(array, n)` on an array with the given
   * header: unchanged while `size + n < capacity`, otherwise `array_grow`'s
   * `2 * capacity + n`.
   */
  function GrownCapacity(size: nat, capacity: nat, n: nat): nat
  {
    if size + n < capacity then capacity else 2 * capacity + n
  }

  /** After `array_try_grow(array, n)` there is room for `n` more elements, and the capacity never shrinks. */
  lemma GrowthRoom(size: nat, capacity: nat, n: nat)
    requires size <= capacity
    ensures size + n <= GrownCapacity(size, capacity, n)
    ensures capacity <= GrownCapacity(size, capacity, n)
  {
  }

  /** The buffer is reallocated exactly when the header says `size + n >= capacity`, and then it strictly grows unless both are 0. */
  lemma GrowthWhen(size: nat, capacity: nat, n: nat)
    ensures GrownCapacity(size, capacity, n) == capacity <==> size + n < capacity || (capacity == 0 && n == 0)
    ensures size + n >= capacity ==> GrownCapacity(size, capacity, n) == 2 * capacity + n
  {
  }

  class DynArray<T(0)> {
    /** The element buffer; its length is the capacity. */
    var data: array<T>
    /** The header's `size`: the number of elements in use. */
    var size: nat
    /** The header's `capacity`. */
    var capacity: nat

    ghost predicate Valid()
      reads this
    {
      data.Length == capacity && size <= capacity
    }

    /** The elements in use, in order. */
    function Contents(): (s: seq<T>)
      requires Valid()
      reads this, data
      ensures |s| == size
    {
      data[..size]
    }

    /** Slots from `from` up to the old capacity hold what `before` held there (memory the operation did not write). */
    ghost predicate SpareKept(before: seq<T>, from: nat)
      reads this, data
    {
      forall k | from <= k < |before| && k < data.Length :: data[k] == before[k]
    }

    /** `array_create_init(capacity, size)`: an empty array with the given capacity. */
    constructor CreateInit(c: nat)
      ensures Valid() && fresh(data)
      ensures Contents() == [] && capacity == c
    {
      data := new T[c];
      size := 0;
      capacity := c;
    }

    /**
     * `array_grow`: `realloc` to `2 * capacity + n` elements, which keeps the
     * whole old buffer. The allocation-failure path is not modelled.
     */
    method Grow(n: nat)
      requires Valid()
      modifies this
      ensures Valid() && fresh(data)
      ensures size == old(size) && capacity == 2 * old(capacity) + n
      ensures data[..old(capacity)] == old(data[..])
    {
      var buffer := new T[2 * capacity + n];
      forall k | 0 <= k < capacity {
        buffer[k] := data[k];
      }
      data := buffer;
      capacity := 2 * capacity + n;
    }

    /** `array_try_grow`: make room for `n` more elements, reallocating only when `size + n >= capacity`. */
    method TryGrow(n: nat)
      requires Valid()
      modifies this
      ensures Valid() && size == old(size)
      ensures capacity == GrownCapacity(old(size), old(capacity), n) && size + n <= capacity
      ensures data[..old(capacity)] == old(data[..])
      ensures old(size) + n < old(capacity) ==> data == old(data)
      ensures old(size) + n >= old(capacity) ==> fresh(data)
    {
      if size + n < capacity {
      } else {
        Grow(n);
      }
    }

    /**
     * `array_expand`: `n` more elements in use. The new ones are whatever the
     * buffer held there: stale elements below the old capacity, fresh memory above.
     */
    method Expand(n: nat)
      requires Valid()
      modifies this
      ensures Valid() && size == old(size) + n
      ensures capacity == GrownCapacity(old(size), old(capacity), n)
      ensures Contents()[..old(size)] == old(Contents())
      ensures data[..old(capacity)] == old(data[..])
    {
      TryGrow(n);
      size := size + n;
    }

    /** `array_push`: append `v` after making room for one element. */
    method Push(v: T)
      requires Valid()
      modifies this, data
      ensures Valid()
      ensures Contents() == old(Contents()) + [v]
      ensures capacity == GrownCapacity(old(size), old(capacity), 1)
      ensures data == old(data) || fresh(data)
      ensures SpareKept(old(data[..]), size)
    {
      TryGrow(1);
      data[size] := v;
      size := size + 1;
    }

    /** `array_pop_front`: on a non-empty array, shift everything down one place (`memmove`) and drop the last slot. */
    method PopFront() returns (ok: bool)
      requires Valid()
      modifies this, data
      ensures Valid() && data == old(data) && capacity == old(capacity)
      ensures ok <==> old(size) > 0
      ensures ok ==> Contents() == RemoveAt(old(Contents()), 0)
      ensures !ok ==> size == old(size)
      ensures SpareKept(old(data[..]), size)
    {
      if size == 0 {
        return false;
      }
      forall k | 0 <= k < size - 1 {
        data[k] := data[k + 1];
      }
      size := size - 1;
      ok := true;
    }

    /** `array_pop_last`: on a non-empty array, `array_resize` to one element fewer. */
    method PopLast() returns (ok: bool)
      requires Valid()
      modifies this
      ensures Valid() && data == old(data) && capacity == old(capacity)
      ensures ok <==> old(size) > 0
      ensures ok ==> Contents() == RemoveAt(old(Contents()), old(size) - 1)
      ensures !ok ==> size == old(size)
    {
      if size == 0 {
        return false;
      }
      Resize(size - 1);
      ok := true;
    }

    /**
     * `array_pop_at(array, index)`: when `index < size`, shift the elements
     * after it down one place (`memmove`) and drop the last slot.
     */
    method PopAt(index: nat) returns (ok: bool)
      requires Valid()
      modifies this, data
      ensures Valid() && data == old(data) && capacity == old(capacity)
      ensures ok <==> index < old(size)
      ensures ok ==> Contents() == RemoveAt(old(Contents()), index)
      ensures !ok ==> size == old(size)
      ensures SpareKept(old(data[..]), size)
    {
      if size == 0 || index >= size {
        return false;
      }
      forall k | index <= k < size - 1 {
        data[k] := data[k + 1];
      }
      size := size - 1;
      ok := true;
    }

    /**
     * `array_resize`: shrinking (or keeping) the size only lowers it and keeps
     * the prefix; growing goes through `array_expand`.
     */
    method Resize(s: nat)
      requires Valid()
      modifies this
      ensures Valid() && size == s
      ensures s <= old(size) ==> Contents() == old(Contents())[..s] && data == old(data) && capacity == old(capacity)
      ensures s > old(size) ==>
        Contents()[..old(size)] == old(Contents()) && capacity == GrownCapacity(old(size), old(capacity), s - old(size))
      ensures data[..old(capacity)] == old(data[..])
    {
      if size >= s {
        size := s;
      } else {
        Expand(s - size);
      }
    }

    /** `array_clear`: no element in use; the buffer and the capacity stay. */
    method Clear()
      requires Valid()
      modifies this
      ensures Valid() && data == old(data) && capacity == old(capacity)
      ensures Contents() == []
    {
      size := 0;
    }

    /** `array_last`: the element at `size - 1`; reading it on an empty array is undefined, hence the precondition. */
    function Last(): (v: T)
      requires Valid() && size > 0
      reads this, data
      ensures Contents() == Contents()[..size - 1] + [v]
    {
      data[size - 1]
    }
  }

  /** `array_size`: 0 for NULL, otherwise the header's size. */
  function Size<T(0)>(a: DynArray?<T>): (n: nat)
    requires a != null ==> a.Valid()
    reads a, if a == null then {} else {a.data}
    ensures a == null ==> n == 0
    ensures a != null ==> n == |a.Contents()|
  {
    if a == null then 0 else a.size
  }

  /** `array_capacity`: 0 for NULL, otherwise the header's capacity. */
  function Capacity<T(0)>(a: DynArray?<T>): (n: nat)
    requires a != null ==> a.Valid()
    reads a
    ensures a == null ==> n == 0
    ensures a != null ==> n == a.data.Length
    ensures Size(a) <= n
  {
    if a == null then 0 else a.capacity
  }
}
