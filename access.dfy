/**
 * The operations carr.h writes once as macros and applies to both container
 * layouts: bounds checking, checked and unchecked element access, and the two
 * `for`-loop iteration protocols. Both layouts keep a `count` and an
 * `elements` buffer, so each operation here takes those two.
 *
 * The process-terminating `_arr_fatal` is represented by the `Fatal(message)`
 * alternative of `Result`: a caller that receives it has reached the point
 * where the C program prints the message and exits.
 */
module Access {

  datatype Result<T> = Ok(value: T) | Fatal(message: string)

  /** The message `_arr_check_bounds` passes to `_arr_fatal`. */
  const IndexOutOfRange: string := "Index out of range!"

  /** A C pointer to an element: a slot of a buffer. */
  datatype Ptr<T> = Ptr(buffer: array<T>, slot: nat)

  /** The buffer holds the first `count` elements; a buffer that is NULL
      (the destroyed or never-grown dynamic array) holds none. */
  ghost predicate Holds<T>(elements: array?<T>, count: nat)
  {
    if elements == null then count == 0 else count <= elements.Length
  }

  /** The live elements, slots [0, count) of the buffer. */
  ghost function Live<T>(elements: array?<T>, count: nat): (s: seq<T>)
    reads elements
    requires Holds(elements, count)
    ensures |s| == count
  {
    if elements == null then [] else elements[..count]
  }

  /** `_arr_check_bounds` as intended: fatal exactly when index >= count. */
  function CheckBounds(count: nat, index: nat): (r: Result<()>)
    ensures r.Ok? <==> index < count
    ensures r.Fatal? ==> r.message == IndexOutOfRange
  {
    if index >= count then Fatal(IndexOutOfRange) else Ok(())
  }

  /** `_arr_check_bounds` as written: `_arr_unlikely(index)` normalises the
      index to 0 or 1 before the comparison, so the test is `(index != 0) >= count`. */
  function CheckBoundsAsWritten(count: nat, index: nat): (r: Result<()>)
    ensures count >= 2 ==> r.Ok?
    ensures count == 0 ==> r.Fatal?
  {
    var normalised := if index != 0 then 1 else 0;
    if normalised >= count then Fatal(IndexOutOfRange) else Ok(())
  }

  /** The written check agrees with the intended one on every index exactly
      when the container holds at most one element. */
  lemma AsWrittenAgreesOnlyUpToOne(count: nat)
    ensures (forall index: nat :: CheckBoundsAsWritten(count, index) == CheckBounds(count, index))
            <==> count <= 1
  {
    if count >= 2 {
      assert CheckBoundsAsWritten(count, count) != CheckBounds(count, count);
    }
  }

  /** A concrete index the written check lets through: index 2 of a
      two-element container. */
  lemma AsWrittenAdmitsOutOfRange()
    ensures CheckBoundsAsWritten(2, 2) == Ok(())
    ensures CheckBounds(2, 2) == Fatal(IndexOutOfRange)
  {
  }

  /** `arr_ptr_at`: the address of slot `index`, after the bounds check. */
  function PtrAt<T>(elements: array?<T>, count: nat, index: nat): (r: Result<Ptr<T>>)
    requires Holds(elements, count)
    ensures r.Ok? <==> index < count
    ensures r.Ok? ==> elements != null && r.value.buffer == elements && r.value.slot == index
    ensures r.Fatal? ==> r.message == IndexOutOfRange
  {
    match CheckBounds(count, index)
    case Fatal(m) => Fatal(m)
    case Ok(_) => Ok(Ptr(elements, index))
  }

  /** `arr_at`: the element behind `arr_ptr_at`. */
  function At<T>(elements: array?<T>, count: nat, index: nat): (r: Result<T>)
    reads elements
    requires Holds(elements, count)
    ensures r.Ok? <==> index < count
    ensures r.Ok? ==> r.value == Live(elements, count)[index]
    ensures r.Fatal? ==> r.message == IndexOutOfRange
  {
    match PtrAt(elements, count, index)
    case Fatal(m) => Fatal(m)
    case Ok(p) => Ok(p.buffer[p.slot])
  }

  /** `arr_ptr_at_unsafe`: no check; the caller guarantees the index. Where
      the checked form succeeds, both give the same pointer. */
  function PtrAtUnsafe<T>(elements: array?<T>, count: nat, index: nat): (p: Ptr<T>)
    requires Holds(elements, count) && index < count
    ensures PtrAt(elements, count, index) == Ok(p)
  {
    Ptr(elements, index)
  }

  /** `arr_at_unsafe`: no check; agrees with the checked `arr_at`. */
  function AtUnsafe<T>(elements: array?<T>, count: nat, index: nat): (v: T)
    reads elements
    requires Holds(elements, count) && index < count
    ensures At(elements, count, index) == Ok(v)
  {
    elements[index]
  }

  /** A store through a pointer, `*p = v`: only the addressed slot changes. */
  method Store<T>(p: Ptr<T>, v: T)
    requires p.slot < p.buffer.Length
    modifies p.buffer
    ensures p.buffer[..] == old(p.buffer[..])[p.slot := v]
  {
    p.buffer[p.slot] := v;
  }

  /**
   * `arr_foreach`: the loop starts at index 0, and while `index < count` it
   * copies `elements[index]` into `iter.value`, runs the body and steps the
   * index. `visits` records the (iter.index, iter.value) pair each pass of the
   * body observes.
   */
  method ForEach<T>(elements: array?<T>, count: nat) returns (visits: seq<(nat, T)>)
    requires Holds(elements, count)
    ensures |visits| == count
    ensures forall k :: 0 <= k < |visits| ==> visits[k] == (k, Live(elements, count)[k])
  {
    visits := [];
    var index := 0;
    while index < count
      invariant index <= count
      invariant |visits| == index
      invariant forall k :: 0 <= k < index ==> visits[k] == (k, Live(elements, count)[k])
    {
      var value := elements[index];
      visits := visits + [(index, value)];
      index := index + 1;
    }
  }

  /**
   * `arr_foreach_ptr`: the same loop, but `iter.value` is the address of slot
   * `index`. The body is modelled as a store through that address of
   * `body(iter.index, *iter.value)`; `visited` records the slots in the
   * order the loop hands them out.
   */
  method ForEachPtr<T>(elements: array?<T>, count: nat, body: (nat, T) -> T) returns (visited: seq<nat>)
    requires Holds(elements, count)
    modifies elements
    ensures |visited| == count
    ensures forall k :: 0 <= k < |visited| ==> visited[k] == k
    ensures elements != null ==>
              forall k :: 0 <= k < elements.Length ==>
                elements[k] == if k < count then body(k, old(elements[k])) else old(elements[k])
  {
    visited := [];
    var index := 0;
    while index < count
      invariant index <= count
      invariant |visited| == index
      invariant forall k :: 0 <= k < index ==> visited[k] == k
      invariant elements != null ==>
                  forall k :: 0 <= k < elements.Length ==>
                    elements[k] == if k < index then body(k, old(elements[k])) else old(elements[k])
    {
      var value := Ptr(elements, index);
      Store(value, body(index, value.buffer[value.slot]));
      visited := visited + [index];
      index := index + 1;
    }
  }
}
