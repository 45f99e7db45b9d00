/**
 * Callers of the container, written against the contracts alone: the
 * demonstration in main.c, and the lifecycle of a dynamic array through
 * clear and destroy.
 */
module Scenario {
  import opened Access
  import opened Dynamic
  import opened Fixed

  /**
   * main.c, dynamic half: append 0..199 to a zero-initialised dynamic array,
   * recording each append's result, then iterate over it. Every append is
   * accepted; the array ends with 200 elements and capacity 256, and an index
   * past the end is fatal.
   */
  method DynamicTwoHundred()
    returns (count: nat, capacity: nat, accepted: seq<bool>, visits: seq<(nat, int)>,
             first: Result<int>, last: Result<int>, pastEnd: Result<int>)
    ensures count == 200 && capacity == 256
    ensures |accepted| == 200 && forall k :: 0 <= k < 200 ==> accepted[k]
    ensures |visits| == 200 && forall k :: 0 <= k < 200 ==> visits[k] == (k, k)
    ensures first == Ok(0) && last == Ok(199) && pastEnd == Fatal(IndexOutOfRange)
  {
    var d := new DynArray<int>();
    accepted := [];
    var i := 0;
    while i < 200
      invariant 0 <= i <= 200
      invariant d.Valid() && fresh(d) && (d.elements == null || fresh(d.elements))
      invariant d.count == i && d.capacity == AppendedCapacity(i)
      invariant forall k :: 0 <= k < i ==> d.Elements()[k] == k
      invariant |accepted| == i && forall k :: 0 <= k < i ==> accepted[k]
    {
      AppendStep(i);
      var ok := d.Add(i);
      accepted := accepted + [ok];
      i := i + 1;
    }
    CapacityAfter200Appends();
    count, capacity := d.Count(), d.Capacity();
    first := At(d.elements, d.count, 0);
    last := At(d.elements, d.count, 199);
    pastEnd := At(d.elements, d.count, 200);
    visits := ForEach(d.elements, d.count);
  }

  /**
   * The dynamic half of main.c for any length: append 0..n-1 to a
   * zero-initialised dynamic array. The class reaches exactly the capacity
   * the step-by-step growth rule predicts, and holds 0..n-1 in order.
   */
  method AppendRange(n: nat) returns (count: nat, capacity: nat, visits: seq<(nat, int)>)
    requires n <= PowerOfTwo.MaxRoundUpArg
    ensures count == n && capacity == CapacityAfterAppends(n)
    ensures |visits| == n && forall k :: 0 <= k < n ==> visits[k] == (k, k)
  {
    var d := new DynArray<int>();
    var i := 0;
    while i < n
      invariant 0 <= i <= n
      invariant d.Valid() && fresh(d) && (d.elements == null || fresh(d.elements))
      invariant d.count == i && d.capacity == AppendedCapacity(i)
      invariant forall k :: 0 <= k < i ==> d.Elements()[k] == k
    {
      AppendStep(i);
      var _ := d.Add(i);
      i := i + 1;
    }
    CapacityAfterAppendsClosedForm(n);
    count, capacity := d.Count(), d.Capacity();
    visits := ForEach(d.elements, d.count);
  }

  /**
   * main.c, fixed half: append 0..199 to a zero-initialised fixed array of
   * bound 12. Exactly the first 12 appends are accepted, the array keeps
   * 0..11, and iteration visits those 12 in order.
   */
  method FixedTwoHundred()
    returns (count: nat, capacity: nat, accepted: seq<bool>, visits: seq<(nat, int)>)
    ensures count == 12 && capacity == 12
    ensures |accepted| == 200 && forall k :: 0 <= k < 200 ==> accepted[k] == (k < 12)
    ensures |visits| == 12 && forall k :: 0 <= k < 12 ==> visits[k] == (k, k)
  {
    var c := new FixedArray<int>(12);
    accepted := [];
    var i := 0;
    while i < 200
      invariant 0 <= i <= 200
      invariant c.Valid() && c.N == 12 && fresh(c) && fresh(c.elements)
      invariant c.count == if i < 12 then i else 12
      invariant forall k :: 0 <= k < c.count ==> c.Elements()[k] == k
      invariant |accepted| == i && forall k :: 0 <= k < i ==> accepted[k] == (k < 12)
    {
      var ok := c.Add(i);
      accepted := accepted + [ok];
      i := i + 1;
    }
    count, capacity := c.Count(), c.Capacity();
    visits := ForEach(c.elements, c.count);
  }

  /**
   * Clearing keeps the buffer: after 9 appends (capacity 16) and a clear,
   * 16 further appends fit into the retained buffer without reallocation.
   */
  method ClearThenRefill() returns (capacityBefore: nat, capacityAfter: nat, reallocated: bool)
    ensures capacityBefore == 16 && capacityAfter == 16 && !reallocated
  {
    var d := new DynArray<int>();
    var i := 0;
    while i < 9
      invariant 0 <= i <= 9
      invariant d.Valid() && fresh(d) && (d.elements == null || fresh(d.elements))
      invariant d.count == i && d.capacity == AppendedCapacity(i)
    {
      AppendStep(i);
      var _ := d.Add(i);
      i := i + 1;
    }
    assert PowerOfTwo.BitLength(8) == 4 && PowerOfTwo.Pow2(4) == 16;
    capacityBefore := d.Capacity();
    var buffer := d.elements;
    d.Clear();
    i := 0;
    while i < 16
      invariant 0 <= i <= 16
      invariant d.Valid() && fresh(d) && d.elements == buffer
      invariant d.count == i && d.capacity == 16
    {
      var _ := d.Add(i);
      i := i + 1;
    }
    capacityAfter := d.Capacity();
    reallocated := d.elements != buffer;
  }

  /**
   * Destroy resets a dynamic array to its zero-initialised state, a second
   * destroy is harmless, and an append afterwards behaves as on a fresh array.
   */
  method DestroyTwiceThenAdd(x: int)
    returns (afterDestroy: (nat, nat), afterAdd: (nat, nat), first: Result<int>)
    ensures afterDestroy == (0, 0)
    ensures afterAdd == (1, MinCapacity) && first == Ok(x)
  {
    var d := new DynArray<int>();
    var _ := d.Add(x);
    var _ := d.Add(x);
    d.Destroy();
    d.Destroy();
    afterDestroy := (d.Count(), d.Capacity());
    var _ := d.Add(x);
    afterAdd := (d.Count(), d.Capacity());
    first := At(d.elements, d.count, 0);
  }
}
