/**
 * The dynamic container `t_arr_d(T)`: a `count`, a `capacity` and a heap
 * buffer `elements` that is NULL until the first growth and after destroy.
 * Growth allocates a buffer of the new capacity and copies the live
 * elements into it, which is what `realloc` does for the slots that matter.
 */
module Dynamic {
  import opened PowerOfTwo
  import opened Access

  /** The smallest capacity `_arr_d_ensure_capacity` ever allocates. */
  const MinCapacity: nat := 8

  /** Capacities a dynamic array can have: 0 before the first growth and after
      destroy, otherwise a power of two no smaller than MinCapacity. */
  predicate CapacityShape(capacity: nat)
  {
    capacity == 0 || (capacity >= MinCapacity && IsPow2(capacity))
  }

  /** The capacity `_arr_d_ensure_capacity` leaves behind when asked for
      `requested` slots. It is unchanged when it already suffices; otherwise it
      is the least admissible capacity that suffices. */
  function GrownCapacity(capacity: nat, requested: nat): (r: nat)
    requires requested <= capacity || requested <= MaxRoundUpArg
    ensures requested <= r && capacity <= r
    ensures requested <= capacity ==> r == capacity
    ensures capacity < requested ==>
              CapacityShape(r) && r > 0 &&
              forall c: nat :: CapacityShape(c) && requested <= c ==> r <= c
    ensures CapacityShape(capacity) ==> CapacityShape(r)
  {
    if requested <= capacity then capacity
    else if requested < MinCapacity then
      assert IsPow2(MinCapacity);
      MinCapacity
    else
      RoundUpPow2IsLeastPow2(requested);
      RoundUpPow2(requested)
  }

  /** Capacity of a zero-initialised dynamic array after n appends, one
      growth step per append. */
  function CapacityAfterAppends(n: nat): nat
    requires n <= MaxRoundUpArg
  {
    if n == 0 then 0 else GrownCapacity(CapacityAfterAppends(n - 1), n)
  }

  /** The closed form of that capacity: 0 for no appends, otherwise the larger
      of MinCapacity and n rounded up to a power of two. */
  function AppendedCapacity(n: nat): nat
    requires n <= MaxRoundUpArg
  {
    if n == 0 then 0 else if n < MinCapacity then MinCapacity else RoundUpPow2(n)
  }

  /** One more append moves the capacity from the closed form at n to the
      closed form at n + 1. */
  lemma AppendStep(n: nat)
    requires n < MaxRoundUpArg
    ensures GrownCapacity(AppendedCapacity(n), n + 1) == AppendedCapacity(n + 1)
  {
    if n >= MinCapacity && AppendedCapacity(n) >= n + 1 {
      // n and n + 1 share the least power of two above them
      RoundUpPow2IsLeastPow2(n);
      RoundUpPow2IsLeastPow2(n + 1);
    } else if n + 1 == MinCapacity {
      RoundUpPow2IsLeastPow2(n + 1);
      assert IsPow2(MinCapacity);
    }
  }

  /** The step-by-step capacity agrees with the closed form for every n. */
  lemma {:induction false} CapacityAfterAppendsClosedForm(n: nat)
    requires n <= MaxRoundUpArg
    ensures CapacityAfterAppends(n) == AppendedCapacity(n)
  {
    if n > 0 {
      CapacityAfterAppendsClosedForm(n - 1);
      AppendStep(n - 1);
    }
  }

  /** The scenario of main.c: 200 appends leave capacity 256. */
  lemma CapacityAfter200Appends()
    ensures AppendedCapacity(200) == 256
  {
  }

  class DynArray<T(0)> {
    var count: nat
    var capacity: nat
    var elements: array?<T>

    ghost predicate Valid()
      reads this
    {
      && count <= capacity
      && CapacityShape(capacity)
      && (elements == null <==> capacity == 0)
      && (elements != null ==> elements.Length == capacity)
    }

    /** The stored sequence: slots [0, count) of the buffer. */
    ghost function Elements(): seq<T>
      reads this, elements
      requires Valid()
    {
      Live(elements, count)
    }

    /** `t_arr_d(T) arr = {0}`: empty, no capacity, no buffer. */
    constructor ()
      ensures Valid()
      ensures count == 0 && capacity == 0 && elements == null
    {
      count, capacity, elements := 0, 0, null;
    }

    /** `arr_count`. */
    function Count(): (n: nat)
      reads this, elements
      requires Valid()
      ensures n == |Elements()|
    {
      count
    }

    /** `arr_capacity` on a dynamic array. */
    function Capacity(): (c: nat)
      reads this
      requires Valid()
      ensures count <= c && CapacityShape(c)
      ensures c == 0 <==> elements == null
    {
      capacity
    }

    /** `_arr_d_ensure_capacity`: grow to GrownCapacity when the capacity is
        short, keeping the live elements at their indices. The request is
        only bounded when growth is needed, because only then does it reach
        the 32-bit rounding helper. */
    method EnsureCapacity(requested: nat)
      requires Valid()
      requires requested <= capacity || requested <= MaxRoundUpArg
      modifies this
      ensures Valid()
      ensures capacity == GrownCapacity(old(capacity), requested)
      ensures requested <= capacity
      ensures count == old(count) && Elements() == old(Elements())
      ensures old(capacity) >= requested ==> elements == old(elements)
      ensures old(capacity) < requested ==> fresh(elements)
    {
      if capacity < requested {
        var newCapacity := if requested < MinCapacity then MinCapacity else RoundUpPow2(requested);
        assert newCapacity == GrownCapacity(capacity, requested);
        var grown := new T[newCapacity];
        var i := 0;
        while i < count
          modifies grown
          invariant i <= count
          invariant grown[..i] == Live(elements, count)[..i]
        {
          grown[i] := elements[i];
          i := i + 1;
        }
        assert grown[..count] == Live(elements, count);
        capacity, elements := newCapacity, grown;
      }
    }

    /** `_arr_d_add_ptr`: make room for one more element, copy the pointed-to
        element into slot `count`, and count it. Always succeeds. The element
        must not live in this array's own buffer when the buffer is about to
        be reallocated: in C it would then be read from freed memory. */
    method AddPtr(element: Ptr<T>) returns (ok: bool)
      requires Valid()
      requires count < MaxRoundUpArg
      requires element.slot < element.buffer.Length
      requires element.buffer == elements ==> count < capacity
      modifies this, elements
      ensures Valid() && ok
      ensures count == old(count) + 1
      ensures Elements() == old(Elements()) + [old(element.buffer[element.slot])]
      ensures capacity == GrownCapacity(old(capacity), old(count) + 1)
      ensures old(count) < old(capacity) ==> elements == old(elements)
      ensures elements == old(elements) || fresh(elements)
    {
      EnsureCapacity(count + 1);
      elements[count] := element.buffer[element.slot];
      count := count + 1;
      assert Elements() == elements[..count - 1] + [elements[count - 1]];
      ok := true;
    }

    /** `arr_add`: copy the value into a temporary and append through a
        pointer to it. */
    method Add(x: T) returns (ok: bool)
      requires Valid()
      requires count < MaxRoundUpArg
      modifies this, elements
      ensures Valid() && ok
      ensures count == old(count) + 1
      ensures Elements() == old(Elements()) + [x]
      ensures capacity == GrownCapacity(old(capacity), old(count) + 1)
      ensures old(count) < old(capacity) ==> elements == old(elements)
      ensures elements == old(elements) || fresh(elements)
    {
      var temporary := new T[1];
      temporary[0] := x;
      ok := AddPtr(Ptr(temporary, 0));
    }

    /** `arr_clear`: forget the elements, keep the buffer and its capacity. */
    method Clear()
      requires Valid()
      modifies this`count
      ensures Valid()
      ensures count == 0 && Elements() == []
      ensures capacity == old(capacity) && elements == old(elements)
    {
      count := 0;
    }

    /** `arr_destroy` on a dynamic array: free the buffer and return to the
        zero-initialised state; calling it again is harmless. */
    method Destroy()
      requires Valid()
      modifies this
      ensures Valid()
      ensures count == 0 && capacity == 0 && elements == null
    {
      elements := null;
      capacity := 0;
      count := 0;
    }
  }
}
