/**
 * The fixed container `t_arr_c(T, N)`: a `count` and inline storage of N
 * elements. The storage never moves and never grows, so `elements` is a
 * constant field whose length is the declared bound.
 */
module Fixed {
  import opened Access

  /** The message `_arr_c_ensure_capacity` passes to `_arr_fatal`. */
  const CannotGrow: string := "Cannot increase capacity of arr_c(...)!"

  /** `_arr_c_ensure_capacity`: asking a fixed array for more than its bound
      is fatal; anything up to the bound is a no-op. */
  function EnsureCapacity(actualCapacity: nat, requested: nat): (r: Result<()>)
    ensures r.Ok? <==> requested <= actualCapacity
    ensures r.Fatal? ==> r.message == CannotGrow
  {
    if actualCapacity < requested then Fatal(CannotGrow) else Ok(())
  }

  class FixedArray<T(0)> {
    /** The bound N of `t_arr_c(T, N)`. */
    const N: nat
    var count: nat
    const elements: array<T>

    ghost predicate Valid()
      reads this
    {
      count <= N && elements.Length == N
    }

    /** The stored sequence: slots [0, count) of the inline storage. */
    ghost function Elements(): seq<T>
      reads this, elements
      requires Valid()
    {
      Live(elements, count)
    }

    /** `t_arr_c(T, N) arr = {0}`: empty, with room for n elements. */
    constructor (n: nat)
      ensures Valid()
      ensures N == n && count == 0 && fresh(elements)
    {
      N := n;
      count := 0;
      elements := new T[n];
    }

    /** `arr_count`. */
    function Count(): (n: nat)
      reads this, elements
      requires Valid()
      ensures n == |Elements()|
    {
      count
    }

    /** `arr_c_capacity`: the size of the storage divided by the size of one
        element, which is the declared bound whatever the array holds. */
    function Capacity(): (c: nat)
      reads this
      requires Valid()
      ensures c == N && count <= c
    {
      elements.Length
    }

    /** `_arr_c_add_ptr`: accept the element exactly when a slot is free;
        a full array is left exactly as it was. */
    method AddPtr(element: Ptr<T>) returns (ok: bool)
      requires Valid()
      requires element.slot < element.buffer.Length
      modifies this`count, elements
      ensures Valid()
      ensures ok <==> old(count) < N
      ensures ok ==> count == old(count) + 1 &&
                     Elements() == old(Elements()) + [old(element.buffer[element.slot])]
      ensures ok ==> forall k :: 0 <= k < N && k != old(count) ==> elements[k] == old(elements[k])
      ensures !ok ==> count == old(count) && Elements() == old(Elements()) && elements[..] == old(elements[..])
    {
      ok := Capacity() > count;
      if ok {
        elements[count] := element.buffer[element.slot];
        count := count + 1;
        assert Elements() == elements[..count - 1] + [elements[count - 1]];
      }
    }

    /** `arr_add`: copy the value into a temporary and append through a
        pointer to it. */
    method Add(x: T) returns (ok: bool)
      requires Valid()
      modifies this`count, elements
      ensures Valid()
      ensures ok <==> old(count) < N
      ensures ok ==> count == old(count) + 1 && Elements() == old(Elements()) + [x]
      ensures ok ==> forall k :: 0 <= k < N && k != old(count) ==> elements[k] == old(elements[k])
      ensures !ok ==> count == old(count) && Elements() == old(Elements()) && elements[..] == old(elements[..])
    {
      var temporary := new T[1];
      temporary[0] := x;
      ok := AddPtr(Ptr(temporary, 0));
    }

    /** `arr_clear`: forget the elements; the storage is not touched. */
    method Clear()
      requires Valid()
      modifies this`count
      ensures Valid()
      ensures count == 0 && Elements() == []
    {
      count := 0;
    }

    /** `arr_destroy` on a fixed array: there is no buffer to free, so only
        the count is reset, as `arr_clear` does; calling it again is harmless. */
    method Destroy()
      requires Valid()
      modifies this`count
      ensures Valid()
      ensures count == 0 && Elements() == []
    {
      count := 0;
    }
  }
}
