# CArr in Dafny

A model of `carr.h`, a generic sequence container for C with two storage
strategies that share one set of operations:

- the **dynamic array** `t_arr_d(T)`: `count`, `capacity`, and a heap buffer
  `elements`. The buffer is NULL until the first append. It grows to at least
  8 slots, and beyond 8 to the next power of two. Append always succeeds.
- the **fixed array** `t_arr_c(T, N)`: `count` and inline storage of N
  elements. Append is rejected once N elements are stored. Asking it to grow
  is fatal.

Both variants share append (`arr_add` / `arr_add_ptr`), `arr_count`,
`arr_capacity`, `arr_clear` and `arr_destroy`. They also share
bounds-checked access (`arr_ptr_at`, `arr_at`), unchecked access, and two
`for`-loop iteration protocols (`arr_foreach`, `arr_foreach_ptr`).

Layout:

- `pow2.dfy`, module `PowerOfTwo`: `_arr_round_up_pow2`. `__builtin_clz` is
  written out through the bit length of its argument. The proof shows the
  helper returns the least power of two that is not below its argument.
- `access.dfy`, module `Access`: the macros that apply to both layouts. They
  take the container's `elements` buffer and its `count`. This module has
  the bounds check (as intended and as written), pointer and value access,
  the unchecked accessors, and both iteration loops. `_arr_fatal` is
  represented by the result `Fatal(message)`.
- `dynamic.dfy`, module `Dynamic`: class `DynArray` and the growth rule.
  `GrownCapacity` is the capacity that `_arr_d_ensure_capacity` leaves
  behind. `CapacityAfterAppends` is the capacity after n appends to a fresh
  array, and `AppendedCapacity` is its closed form.
- `fixed.dfy`, module `Fixed`: class `FixedArray` and `_arr_c_ensure_capacity`.
- `scenario.dfy`, module `Scenario`: callers verified against the contracts
  alone. These are the main.c demonstration and the clear/destroy lifecycle.

Compile-time dispatch through `_Generic` on the `_marker` field becomes the
caller's choice of class. Pointers `T*` are modelled as `Ptr(buffer, slot)`.
`arr_add` copies its value into a temporary and calls `arr_add_ptr` on the
temporary's address. The model does the same with a one-slot array.

`arr_destroy` (carr.h:89-94) sets `count` to 0 for both variants, so on a
fixed array it acts like `arr_clear`. The bounds check at carr.h:229 does not
reject every index `>= count` (see Findings). `PtrAt` and `At` use the
intended check, and the check as written is `CheckBoundsAsWritten`.

## Model

| member | source | states |
|---|---|---|
| PowerOfTwo.BitLength | carr.h:50 | the number of significant bits r of m: m < 2^r, and 2^(r-1) <= m when m > 0 |
| PowerOfTwo.Clz32 | carr.h:50 | `__builtin_clz` of a non-zero 32-bit value: r < 32 leading zeros, so 2^(31-r) <= x < 2^(32-r) |
| PowerOfTwo.RoundUpPow2 | carr.h:44-52 | returns n itself for n < 2; for 2 <= n <= 2^31 the result is at least n and less than 2n |
| PowerOfTwo.RoundUpPow2IsPow2 | carr.h:44-52 | for 2 <= n <= 2^31 the result is a power of two and at most 2^31 |
| PowerOfTwo.RoundUpPow2IsLeast | carr.h:44-52 | for 2 <= n <= 2^31 the result is no larger than any power of two >= n |
| PowerOfTwo.RoundUpPow2IsLeastPow2 | carr.h:44-52 | for 2 <= n <= 2^31 the result is the least power of two >= n |
| Access.CheckBounds | carr.h:222-232 | the intended check: passes exactly when index < count, otherwise fatal with "Index out of range!" |
| Access.CheckBoundsAsWritten | carr.h:227-232 | the check as written: never rejects when count >= 2, and always rejects when count == 0 |
| Access.AsWrittenAgreesOnlyUpToOne | carr.h:229 | the written check agrees with the intended one on every index if and only if count <= 1 |
| Access.AsWrittenAdmitsOutOfRange | carr.h:229 | index 2 of a two-element container passes the written check, but the intended check rejects it |
| Access.PtrAt | carr.h:234-240 | `arr_ptr_at` gives the address of slot index exactly when index < count, and is fatal otherwise |
| Access.At | carr.h:246-247 | `arr_at` gives the element at the index exactly when index < count, and is fatal otherwise |
| Access.PtrAtUnsafe | carr.h:254-255 | the unchecked pointer is the one the checked form returns for every in-range index |
| Access.AtUnsafe | carr.h:261-262 | the unchecked value is the one the checked form returns for every in-range index |
| Access.Store | carr.h:222-225 | a write through a mutable element pointer (from `arr_ptr_at`, or yielded by `arr_foreach_ptr`) changes that slot and no other |
| Access.ForEach | carr.h:291-302 | visits exactly count passes; pass k sees index k and the element at k, in ascending order |
| Access.ForEachPtr | carr.h:271-282 | hands out slots 0..count-1 in ascending order; a write through each changes only that slot; slots from count on are untouched |
| Dynamic.GrownCapacity | carr.h:140-150 | an adequate capacity is kept. Otherwise the result is the least admissible capacity (0, or a power of two >= 8) that covers the request. The admissible shape is preserved |
| Dynamic.AppendStep | carr.h:178-185 | one append, growing through `_arr_d_ensure_capacity(count + 1)`, takes the capacity from the closed form at n to the closed form at n + 1. The closed form is 0 for n = 0, and otherwise max(8, n rounded up to a power of two) |
| Dynamic.CapacityAfterAppendsClosedForm | carr.h:140-153 | the capacity reached by n appends to a fresh dynamic array, one growth step each, equals that closed form for every n |
| Dynamic.CapacityAfter200Appends | main.c:6-17 | the closed form at 200 appends is capacity 256 |
| Dynamic.DynArray.constructor | carr.h:62-68 | a zero-initialised dynamic array: count 0, capacity 0, NULL buffer |
| Dynamic.DynArray.Count | carr.h:100-101 | `arr_count` is the number of stored elements |
| Dynamic.DynArray.Capacity | carr.h:108-112 | the capacity is at least count and is 0 or a power of two >= 8; it is 0 exactly when the buffer is NULL |
| Dynamic.DynArray.EnsureCapacity | carr.h:140-153 | the capacity becomes GrownCapacity and covers the request. The buffer stays the same when no growth is needed, and is fresh otherwise. The count and the live elements are unchanged |
| Dynamic.DynArray.AddPtr | carr.h:178-185 | always returns true and appends the pointed-to element, so count grows by one and earlier elements are unchanged. The capacity follows the growth rule. The invariant is kept |
| Dynamic.DynArray.Add | carr.h:215-220 | `arr_add` on a dynamic array appends the value and always succeeds, with the same growth and preservation as AddPtr |
| Dynamic.DynArray.Clear | carr.h:131-134 | count becomes 0; capacity and buffer are kept |
| Dynamic.DynArray.Destroy | carr.h:81-94 | count 0, capacity 0, buffer NULL, whatever the state before. A second call therefore ends in the same state |
| Fixed.EnsureCapacity | carr.h:155-160 | a no-op exactly when the request is within the bound, and fatal with "Cannot increase capacity of arr_c(...)!" otherwise |
| Fixed.FixedArray.constructor | carr.h:70-75 | a zero-initialised fixed array: count 0, storage of N slots |
| Fixed.FixedArray.Count | carr.h:100-101 | `arr_count` is the number of stored elements |
| Fixed.FixedArray.Capacity | carr.h:114-115 | the capacity is always the declared bound N, and N >= count |
| Fixed.FixedArray.AddPtr | carr.h:187-196 | accepts exactly when count < N. If accepted, slot count receives the element, count grows by one, and no other slot changes. If rejected, nothing changes |
| Fixed.FixedArray.Add | carr.h:215-220 | `arr_add` on a fixed array: the same accept/reject contract as AddPtr for the given value |
| Fixed.FixedArray.Clear | carr.h:131-134 | count becomes 0 |
| Fixed.FixedArray.Destroy | carr.h:89-94 | on a fixed array, destroy only resets count to 0 |
| Scenario.AppendRange | main.c:6-17 | appending 0..n-1 to a fresh dynamic array, for any n <= 2^31: count is n, the capacity equals the step-by-step growth rule CapacityAfterAppends(n), and iteration yields (k, k) for every k < n |
| Scenario.DynamicTwoHundred | main.c:6-21 | appending 0..199 to a dynamic array: every append succeeds, count is 200 and capacity 256. Iteration yields (k, k). Index 0 holds 0, index 199 holds 199, and index 200 is fatal |
| Scenario.FixedTwoHundred | main.c:7-25 | appending 0..199 to a fixed array of bound 12: exactly the first 12 appends succeed, count and capacity are 12, and iteration yields (k, k) for k < 12 |
| Scenario.ClearThenRefill | carr.h:131-153 | after a clear, appends up to the retained capacity reuse the buffer without reallocating |
| Scenario.DestroyTwiceThenAdd | carr.h:81-94 | after two destroys, count and capacity are 0; an append then behaves as on a fresh array (count 1, capacity 8) |

## Left out

- `_arr_fatal` (carr.h:38-42) writes to stderr and exits. The model returns `Fatal(message)` from the checked operations instead of terminating.
- `realloc` and `free` (carr.h:84, carr.h:151) are modelled as allocating a fresh array and copying the `count` live elements. Allocation failure is not checked by the code and is not modelled. Slots from `count` to the old capacity are not copied: their contents are unspecified.
- Invalidation of interior pointers by reallocation is expressed only as `fresh(elements)`. In the model the old buffer stays readable; in C reading it is undefined behaviour.
- Byte-level `memcpy` with `element_size`, and the casts to `t_arr_d(char)` and `t_arr_c(char, 1)` (carr.h:180-192), are replaced by plain assignment of a generic `T`.
- The `_Generic` selector, zero-length `_marker` fields, `__auto_type`, `__builtin_expect`, `always_inline` and the statement-expression macro wrappers (carr.h:14-36) are not modelled. Dispatch is the caller's choice of `DynArray` or `FixedArray`.
- The `arr_ensure_capacity` macro (carr.h:162-172) passes two arguments to the three-parameter dynamic helper and three to the two-parameter fixed helper, so it does not compile as written. The two helpers (carr.h:140-160) are modelled directly.
- PowerOfTwo.RoundUpPow2: the overflow fallback `res < n ? 0 : res` (carr.h:51) is not written out. Within the precondition n <= 2^31 the shifted value is never below n.
- PowerOfTwo.RoundUpPow2 requires n <= 2^31: beyond that the shift at carr.h:50 is undefined. The truncation of the `size_t` request to `unsigned int` at carr.h:149 is not modelled.
- Dynamic.DynArray.EnsureCapacity requires a request of at most 2^31 whenever growth is needed. A request between 2^31 and 2^32 would reach the undefined shift at carr.h:50. A request of 2^32 or more is first truncated to `unsigned int` at carr.h:149 (parameter at carr.h:44), so 2^32 + 5 becomes 5 and yields capacity 8, below the request; that truncation is not modelled.
- Dynamic.DynArray.AddPtr requires count < 2^31, for the same reason.
- Dynamic.DynArray.AddPtr also requires that a pointer into the array's own buffer is passed only when no reallocation follows. Otherwise the C code reads freed memory.
- Dynamic.DynArray.Add requires count < 2^31, for the same reason as AddPtr.
- `size_t` wrap-around of `count`, and overflow of `capacity * element_size`, are not modelled: integers are unbounded.
- The unchecked accessors have only the precondition `index < count`. Out-of-range use is undefined behaviour, not an error.
- The body of an `arr_foreach` loop is represented by recording the (index, value) pair it sees. The body of an `arr_foreach_ptr` loop is represented by a store of `body(index, *value)` through the yielded pointer. Mutating the container during iteration is unsupported by the code and is not modelled.
- The amortised cost of growth (O(log n) reallocations over n appends) is not proved.
- The printing in main.c is not modelled. Its two loops are the callers in `scenario.dfy`.

## Findings

| source | as written | input that shows it | evidently intended | confidence | as-written member | corrected member |
|---|---|---|---|---|---|---|
| carr.h:229 | `_arr_unlikely(index) >= count` expands to `(!!index) >= count`, so it compares 0 or 1 with count | count = 2, index = 2: the check passes and `arr_at` reads slot 2 of a two-element array | fatal exactly when `index >= count`, as the name `_arr_check_bounds` (carr.h:227) and the message "Index out of range!" (carr.h:230) say | high (not executed) | Access.AsWrittenAdmitsOutOfRange | Access.CheckBounds |
