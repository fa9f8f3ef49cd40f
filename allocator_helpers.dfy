/** The helper library of the Vulkan memory sub-allocator: power-of-two
    arithmetic on `int` and `long`, page and alignment arithmetic, the
    buffer/image granularity-conflict table, the binary searches over sorted
    lists, sorted insertion, `FindIndex` and `Validate`. */
module AllocatorHelpers {
  import opened Numerics
  import opened Wrappers

  // ============================================================ powers of two

  lemma WidthPowers(w: Width)
    ensures Pow2(w.Bits()) == w.Modulus()
    ensures Pow2(w.Bits() - 1) == w.Half()
    ensures Pow2(w.Bits() - 2) == w.Half() / 2
  {
    Pow2Constants();
  }

  lemma BitLengthFits(u: nat, w: Width)
    requires u < w.Modulus()
    ensures BitLength(u) <= w.Bits()
  {
    if u > 0 {
      BitLengthBounds(u);
      WidthPowers(w);
      Pow2Order(BitLength(u) - 1, w.Bits());
    }
  }

  /** `IsPow2(int)` / `IsPow2(long)`: exactly one bit is set in the unsigned
      reinterpretation of `v`. For a positive `v` that is "v is a power of two";
      the most negative value (only the sign bit set) also passes. */
  function IsPow2(v: int, w: Width): (r: bool)
    requires InRange(v, w)
    ensures r <==> IsPowerOfTwo(ToUnsigned(v, w))
    ensures 0 < v ==> (r <==> IsPowerOfTwo(v))
  {
    PopCountOneIffPowerOfTwo(ToUnsigned(v, w));
    PopCount(ToUnsigned(v, w)) == 1
  }

  /** `BitOperations.LeadingZeroCount` of a w-bit unsigned value. */
  function LeadingZeroCount(u: nat, w: Width): (n: int)
    requires u < w.Modulus()
    ensures 0 <= n <= w.Bits()
    ensures n == w.Bits() - BitLength(u)
  {
    BitLengthFits(u, w);
    w.Bits() - BitLength(u)
  }

  lemma ShiftFits(count: int, w: Width)
    ensures 0 <= count < w.Bits() - 1 ==> Pow2(count) < w.Half()
  {
    if 0 <= count < w.Bits() - 1 {
      WidthPowers(w);
      Pow2StrictlyMonotone(count, w.Bits() - 1);
    }
  }

  /** `1 << count` on a w-bit signed integer: C# uses only the low 5 (for
      `int`) or 6 (for `long`) bits of the count, and a bit shifted onto the
      sign bit makes the result negative. */
  function ShiftOne(count: int, w: Width): (r: int)
    ensures InRange(r, w)
    ensures 0 <= count < w.Bits() - 1 ==> r == Pow2(count)
  {
    ShiftFits(count, w);
    Wrap(Pow2(count % w.Bits()), w)
  }

  /** `NextPow2(int)` / `NextPow2(long)`. */
  function NextPow2(v: int, w: Width): (r: int)
    requires InRange(v, w)
    ensures InRange(r, w)
  {
    if IsPow2(v, w) then v
    else ShiftOne(w.Bits() - LeadingZeroCount(ToUnsigned(v, w), w), w)
  }

  /** `PrevPow(int)` / `PrevPow(long)`. */
  function PrevPow(v: int, w: Width): (r: int)
    requires InRange(v, w)
    ensures InRange(r, w)
  {
    ShiftOne(w.Bits() - 1 - LeadingZeroCount(ToUnsigned(v, w), w), w)
  }

  /** On `0 < v <= 2^30` (`int`) or `0 < v <= 2^62` (`long`), where the shift
      cannot overflow, `NextPow2` returns `v` itself when it is a power of two
      and otherwise the smallest power of two above `v`. */
  lemma NextPow2IsSmallestPowerOfTwo(v: int, w: Width)
    requires 0 < v <= w.Half() / 2
    ensures v <= NextPow2(v, w) <= w.Half() / 2
    ensures IsPowerOfTwo(NextPow2(v, w))
    ensures IsPowerOfTwo(v) ==> NextPow2(v, w) == v
    ensures forall k: nat :: v <= Pow2(k) ==> NextPow2(v, w) <= Pow2(k)
  {
    WidthPowers(w);
    var r := NextPow2(v, w);
    assert ToUnsigned(v, w) == v;
    if !IsPowerOfTwo(v) {
      var b := BitLength(v);
      BitLengthBounds(v);
      Pow2IsPowerOfTwo(w.Bits() - 2);
      assert v < Pow2(w.Bits() - 2);
      Pow2Order(b - 1, w.Bits() - 2);
      assert r == Pow2(b);
      Pow2IsPowerOfTwo(b);
      Pow2Monotone(b, w.Bits() - 2);
      forall k: nat | v <= Pow2(k)
        ensures r <= Pow2(k)
      {
        Pow2Order(k, b - 1);
        Pow2IsPowerOfTwo(k);
        Pow2Order(b, k);
      }
    } else {
      forall k: nat | v <= Pow2(k)
        ensures r <= Pow2(k)
      {
      }
    }
  }

  /** `1 << count` always has exactly one bit set: a positive power of two,
      or the sign bit alone when the masked count is 31 (or 63). */
  lemma ShiftOneIsPow2(count: int, w: Width)
    ensures IsPow2(ShiftOne(count, w), w)
  {
    WidthPowers(w);
    var j := count % w.Bits();
    Pow2IsPowerOfTwo(j);
    assert Pow2(w.Bits()) == 2 * w.Half();
    if j < w.Bits() - 1 {
      Pow2StrictlyMonotone(j, w.Bits() - 1);
      assert ShiftOne(count, w) == Pow2(j);
    } else {
      assert Pow2(j) == w.Half();
      assert ShiftOne(count, w) == -w.Half();
      assert ToUnsigned(-w.Half(), w) == Pow2(j);
    }
  }

  /** Applying `NextPow2` twice gives the same as applying it once, for
      every value of the type: each result has exactly one bit set, and
      `IsPow2` then returns it unchanged. */
  lemma NextPow2Idempotent(v: int, w: Width)
    requires InRange(v, w)
    ensures NextPow2(NextPow2(v, w), w) == NextPow2(v, w)
  {
    var r := NextPow2(v, w);
    assert IsPow2(r, w) by {
      if !IsPow2(v, w) {
        ShiftOneIsPow2(w.Bits() - LeadingZeroCount(ToUnsigned(v, w), w), w);
      }
    }
  }

  /** For a positive `v`, `PrevPow` returns the largest power of two not above `v`. */
  lemma PrevPowIsLargestPowerOfTwo(v: int, w: Width)
    requires 0 < v && InRange(v, w)
    ensures 0 < PrevPow(v, w) <= v < 2 * PrevPow(v, w)
    ensures IsPowerOfTwo(PrevPow(v, w))
    ensures forall k: nat :: Pow2(k) <= v ==> Pow2(k) <= PrevPow(v, w)
  {
    var r := PrevPow(v, w);
    var b := BitLength(v);
    BitLengthBounds(v);
    assert b - 1 < w.Bits() - 1 by {
      WidthPowers(w);
      Pow2Order(b - 1, w.Bits() - 1);
    }
    assert r == Pow2(b - 1) by {
      assert ToUnsigned(v, w) == v;
    }
    Pow2IsPowerOfTwo(b - 1);
    forall k: nat | Pow2(k) <= v
      ensures Pow2(k) <= r
    {
      assert k < b by {
        Pow2Order(b, k);
      }
      Pow2Order(k, b - 1);
    }
  }

  /** `PrevPow(0)` shifts by `-1`, which C# reads as 31 (or 63): the result is
      the most negative value of the type. */
  lemma PrevPowOfZeroIsMostNegative(w: Width)
    ensures PrevPow(0, w) == -w.Half()
  {
    WidthPowers(w);
    assert LeadingZeroCount(0, w) == w.Bits();
    assert (-1) % w.Bits() == w.Bits() - 1;
    assert ShiftOne(-1, w) == Wrap(w.Half(), w);
    assert w.Half() % w.Modulus() == w.Half();
  }

  // ============================================================ pages and alignment

  /** `x & y` on two longs, through their 64-bit patterns. */
  function And64(x: int, y: int): (r: int)
    requires InRange(x, W64) && InRange(y, W64)
    ensures InRange(r, W64)
  {
    Wrap(BitAnd(ToUnsigned(x, W64), ToUnsigned(y, W64)), W64)
  }

  /** `BlocksOnSamePage`: do the last byte of resource A and the first byte
      of resource B fall in the same page? The page of an address is found by
      masking it with `~(pageSize - 1)`. */
  function BlocksOnSamePage(resourceAOffset: int, resourceASize: int, resourceBOffset: int, pageSize: int): bool
    requires InRange(resourceAOffset, W64) && InRange(resourceASize, W64)
    requires InRange(resourceBOffset, W64) && InRange(pageSize, W64)
  {
    // The debug assertion on the arguments has no effect in a release
    // build, so the computation runs, with wrap-around, on any longs.
    var resourceAEnd := Wrap(resourceAOffset + resourceASize - 1, W64);
    var pageMask := Wrap(-(pageSize - 1) - 1, W64);  // ~(pageSize - 1)
    And64(resourceAEnd, pageMask) == And64(resourceBOffset, pageMask)
  }

  lemma RoundDownEqual(x: nat, y: nat, p: int)
    requires p > 0
    ensures x - x % p == y - y % p <==> x / p == y / p
  {
    assert x - x % p == p * (x / p);
    assert y - y % p == p * (y / p);
    DivModUnique(p * (x / p), p, x / p, 0);
    DivModUnique(p * (y / p), p, y / p, 0);
  }

  /** Masking a non-negative long with `~(2^k - 1)` rounds it down to a
      multiple of `2^k`. */
  lemma PageMaskRoundsDown(x: int, pageSize: int, k: nat)
    requires 0 <= x < TWO_63 && pageSize == Pow2(k) && pageSize < TWO_63
    ensures And64(x, -pageSize) == x - x % pageSize
  {
    assert k <= 64 && Pow2(64) == TWO_64 by {
      Pow2Constants();
      Pow2Order(k, 64);
    }
    var mask := Pow2(64) - Pow2(k);
    assert ToUnsigned(x, W64) == x && ToUnsigned(-pageSize, W64) == mask;
    var rounded := BitAnd(x, mask);
    assert rounded == x - x % pageSize by {
      BitAndHighMask(x, 64, k);
    }
    assert And64(x, -pageSize) == Wrap(rounded, W64);
  }

  /** With a power-of-two page size and non-negative offsets, two blocks share
      a page exactly when the last byte of A and the first byte of B have the
      same page number. */
  lemma BlocksOnSamePageIff(resourceAOffset: int, resourceASize: int, resourceBOffset: int, pageSize: int)
    requires InRange(resourceASize, W64) && InRange(resourceBOffset, W64) && InRange(pageSize, W64)
    requires 0 <= resourceAOffset && resourceAOffset + resourceASize <= resourceBOffset
    requires resourceASize > 0 && pageSize > 0 && IsPowerOfTwo(pageSize)
    ensures BlocksOnSamePage(resourceAOffset, resourceASize, resourceBOffset, pageSize)
        <==> (resourceAOffset + resourceASize - 1) / pageSize == resourceBOffset / pageSize
  {
    var aEnd := resourceAOffset + resourceASize - 1;
    assert BlocksOnSamePage(resourceAOffset, resourceASize, resourceBOffset, pageSize)
        == (And64(aEnd, -pageSize) == And64(resourceBOffset, -pageSize));
    var k := BitLength(pageSize) - 1;
    assert pageSize == Pow2(k) by {
      PowerOfTwoIsPow2(pageSize);
    }
    assert And64(aEnd, -pageSize) == aEnd - aEnd % pageSize by {
      PageMaskRoundsDown(aEnd, pageSize, k);
    }
    assert And64(resourceBOffset, -pageSize) == resourceBOffset - resourceBOffset % pageSize by {
      PageMaskRoundsDown(resourceBOffset, pageSize, k);
    }
    RoundDownEqual(aEnd, resourceBOffset, pageSize);
  }

  /** The exceptions of `long` and `ulong` division. */
  datatype ArithmeticError = DivideByZero | Overflow

  /** `AlignUp`: `(value + alignment - 1) / alignment * alignment` in `long`
      arithmetic, with C#'s truncating division and wrap-around. A zero
      alignment throws `DivideByZeroException`; `long.MinValue / -1` throws
      `OverflowException`. */
  function AlignUp(value: int, alignment: int): (r: Result<int, ArithmeticError>)
    requires InRange(value, W64) && InRange(alignment, W64)
    ensures r.Ok? ==> InRange(r.value, W64)
    ensures r == Err(DivideByZero) <==> alignment == 0
    ensures r == Err(Overflow) <==> alignment == -1 && value == -TWO_63 + 2
  {
    var sum := Wrap(value + alignment - 1, W64);
    if alignment == 0 then Err(DivideByZero)
    else if alignment == -1 && sum == -TWO_63 then Err(Overflow)
    else Ok(Wrap(DivTrunc(sum, alignment) * alignment, W64))
  }

  /** `AlignDown`: the same rounding done on the unsigned reinterpretations;
      a zero alignment throws `DivideByZeroException`. */
  function AlignDown(value: int, alignment: int): (r: Result<int, ArithmeticError>)
    requires InRange(value, W64) && InRange(alignment, W64)
    ensures r.Ok? ==> InRange(r.value, W64)
    ensures r.Err? <==> alignment == 0
  {
    if alignment == 0 then Err(DivideByZero)
    else
      var a := ToUnsigned(alignment, W64);
      Ok(Wrap(ToUnsigned(value, W64) / a * a, W64))
  }

  /** For `value >= 0` and a positive alignment, without overflow, `AlignUp`
      gives the smallest multiple of `alignment` that is at least `value`. */
  lemma AlignUpIsSmallestMultiple(value: int, alignment: int)
    requires 0 <= value && 0 < alignment < TWO_63 && value + alignment - 1 < TWO_63
    ensures AlignUp(value, alignment).Ok?
    ensures AlignUp(value, alignment).value % alignment == 0
    ensures value <= AlignUp(value, alignment).value < value + alignment
  {
    var s := value + alignment - 1;
    var q := s / alignment;
    assert s == alignment * q + s % alignment;
    assert alignment * q <= s;
    assert q * alignment == alignment * q;
    DivModUnique(q * alignment, alignment, q, 0);
  }

  /** For `value >= 0` and a positive alignment, `AlignDown` gives the largest
      multiple of `alignment` that is at most `value`. */
  lemma AlignDownIsLargestMultiple(value: int, alignment: int)
    requires 0 <= value < TWO_63 && 0 < alignment < TWO_63
    ensures AlignDown(value, alignment).Ok?
    ensures AlignDown(value, alignment).value % alignment == 0
    ensures AlignDown(value, alignment).value <= value < AlignDown(value, alignment).value + alignment
  {
    var q := value / alignment;
    assert value == alignment * q + value % alignment;
    assert q * alignment == alignment * q;
    DivModUnique(q * alignment, alignment, q, 0);
  }

  // ============================================================ granularity conflicts

  /** The usage kinds of a suballocation, in the order of their declaration,
      which is the order `IsBufferImageGranularityConflict` sorts a pair by. */
  datatype SuballocationType = Free | Unknown | Buffer | ImageUnknown | ImageLinear | ImageOptimal {
    function Order(): nat {
      match this
      case Free => 0
      case Unknown => 1
      case Buffer => 2
      case ImageUnknown => 3
      case ImageLinear => 4
      case ImageOptimal => 5
    }
  }

  /** The conflict table stated on unordered pairs: which two usage kinds may
      not share a device page. */
  ghost predicate ConflictsPerTable(a: SuballocationType, b: SuballocationType) {
    var pair := {a, b};
    && Free !in pair
    && (|| Unknown in pair
        || pair == {Buffer, ImageUnknown}
        || pair == {Buffer, ImageOptimal}
        || (ImageUnknown in pair && pair <= {ImageUnknown, ImageLinear, ImageOptimal})
        || pair == {ImageLinear, ImageOptimal})
  }

  /** `IsBufferImageGranularityConflict`: the pair is put in declaration order,
      then the smaller kind decides. */
  function IsBufferImageGranularityConflict(type1: SuballocationType, type2: SuballocationType): (r: bool)
    ensures r <==> ConflictsPerTable(type1, type2)
  {
    var (t1, t2) := if type1.Order() > type2.Order() then (type2, type1) else (type1, type2);
    match t1
    case Free => false
    case Unknown => true
    case Buffer => t2 == ImageUnknown || t2 == ImageOptimal
    case ImageUnknown => t2 == ImageUnknown || t2 == ImageLinear || t2 == ImageOptimal
    case ImageLinear => t2 == ImageOptimal
    case ImageOptimal => false
  }

  /** The conflict test does not depend on the order of its arguments. */
  lemma GranularityConflictSymmetric(a: SuballocationType, b: SuballocationType)
    ensures IsBufferImageGranularityConflict(a, b) == IsBufferImageGranularityConflict(b, a)
  {
    assert {a, b} == {b, a};
  }

  // ============================================================ searching sorted lists

  /** `~i`, the bitwise complement of an `int`. */
  function Complement(i: int): int {
    -i - 1
  }

  function Sign(x: int): int {
    if x < 0 then -1 else if x == 0 then 0 else 1
  }

  /** The comparisons of the list's elements against `key` go from negative,
      through zero, to positive: the list is sorted as the search sees it. */
  ghost predicate SortedAgainst<T, S>(list: seq<T>, key: S, compare: (T, S) -> int) {
    forall i, j :: 0 <= i < j < |list| ==> Sign(compare(list[i], key)) <= Sign(compare(list[j], key))
  }

  /** The three exact-match `BinarySearch` overloads (with an
      `IComparer_Normal`, a `Func<T, TState, int>` or a `Comparison<T>`):
      returns the index of an element that compares equal, or the complement
      of the position where `key` would be inserted. Here and in the
      searches below the midpoint `(begin + end) / 2` does not wrap, which
      holds for lists of at most 2^30 elements. */
  method BinarySearch<T, S>(list: seq<T>, key: S, compare: (T, S) -> int) returns (r: int)
    ensures 0 <= r ==> r < |list| && compare(list[r], key) == 0
    ensures r < 0 ==> 0 <= Complement(r) <= |list|
    ensures r < 0 && SortedAgainst(list, key, compare) ==>
              && (forall i :: 0 <= i < Complement(r) ==> compare(list[i], key) < 0)
              && (forall i :: Complement(r) <= i < |list| ==> compare(list[i], key) > 0)
  {
    var begin, end := 0, |list| - 1;
    while begin <= end
      invariant 0 <= begin <= end + 1 <= |list|
      invariant SortedAgainst(list, key, compare) ==> forall i :: 0 <= i < begin ==> compare(list[i], key) < 0
      invariant SortedAgainst(list, key, compare) ==> forall i :: end < i < |list| ==> compare(list[i], key) > 0
    {
      var mid := (begin + end) / 2;
      var comparison := compare(list[mid], key);
      if comparison == 0 {
        return mid;
      }
      if comparison < 0 {
        begin := mid + 1;
      } else {
        end := mid - 1;
      }
    }
    r := Complement(begin);
  }

  /** The loop shared by the two `BinarySearch_Leftmost` overloads, as a
      function: from the range `[begin, end)` and the last comparison made, the
      `begin` it stops at and the last comparison it made. */
  function LeftmostLoop<T>(list: seq<T>, compare: T -> int, begin: nat, end: nat, comparison: int): (res: (nat, int))
    requires begin <= end <= |list|
    ensures begin <= res.0 <= end
    decreases end - begin
  {
    if begin < end then
      var mid := (begin + end) / 2;
      var c := compare(list[mid]);
      if c < 0 then LeftmostLoop(list, compare, mid + 1, end, c)
      else LeftmostLoop(list, compare, begin, mid, c)
    else
      (begin, comparison)
  }

  ghost predicate SortedSingle<T>(list: seq<T>, compare: T -> int) {
    forall i, j :: 0 <= i < j < |list| ==> Sign(compare(list[i])) <= Sign(compare(list[j]))
  }

  /** A last comparison of zero was made against the element the leftmost
      loop stopped at. */
  lemma {:induction false} LeftmostLoopLastComparison<T>(list: seq<T>, compare: T -> int, begin: nat, end: nat, comparison: int)
    requires begin <= end <= |list|
    requires comparison == 0 ==> end < |list| && compare(list[end]) == 0
    ensures LeftmostLoop(list, compare, begin, end, comparison).1 == 0 ==>
              LeftmostLoop(list, compare, begin, end, comparison).0 < |list| &&
              compare(list[LeftmostLoop(list, compare, begin, end, comparison).0]) == 0
    decreases end - begin
  {
    if begin < end {
      var mid := (begin + end) / 2;
      var c := compare(list[mid]);
      if c < 0 {
        LeftmostLoopLastComparison(list, compare, mid + 1, end, c);
      } else {
        LeftmostLoopLastComparison(list, compare, begin, mid, c);
      }
    }
  }

  /** On a sorted list the leftmost loop stops at the first element that does
      not compare less. */
  lemma {:induction false} LeftmostLoopFindsFirstNotLess<T>(list: seq<T>, compare: T -> int, begin: nat, end: nat, comparison: int)
    requires begin <= end <= |list| && SortedSingle(list, compare)
    requires forall i :: 0 <= i < begin ==> compare(list[i]) < 0
    requires forall i :: end <= i < |list| ==> compare(list[i]) >= 0
    ensures var b := LeftmostLoop(list, compare, begin, end, comparison).0;
            (forall i :: 0 <= i < b ==> compare(list[i]) < 0) &&
            (forall i :: b <= i < |list| ==> compare(list[i]) >= 0)
    decreases end - begin
  {
    if begin < end {
      var mid := (begin + end) / 2;
      var c := compare(list[mid]);
      if c < 0 {
        forall i | 0 <= i <= mid
          ensures compare(list[i]) < 0
        {
          if i < mid {
            assert Sign(compare(list[i])) <= Sign(compare(list[mid]));
          }
        }
        LeftmostLoopFindsFirstNotLess(list, compare, mid + 1, end, c);
      } else {
        forall i | mid <= i < |list|
          ensures compare(list[i]) >= 0
        {
          if mid < i {
            assert Sign(compare(list[mid])) <= Sign(compare(list[i]));
          }
        }
        LeftmostLoopFindsFirstNotLess(list, compare, begin, mid, c);
      }
    }
  }

  /** `BinarySearch_Leftmost` with an `IComparer_Single`, as written: the sign
      of the result is decided by the LAST comparison the loop made, not by a
      comparison against the element it stopped at. */
  function LeftmostSingle<T>(list: seq<T>, compare: T -> int): int {
    var (b, c) := LeftmostLoop(list, compare, 0, |list|, -1);
    if c == 0 then b else Complement(b)
  }

  /** What is always true of `LeftmostSingle`: a non-negative result is the
      first element that compares equal, and a negative one encodes the first
      element that does not compare less. */
  lemma LeftmostSingleResult<T>(list: seq<T>, compare: T -> int)
    ensures var r := LeftmostSingle(list, compare);
            && (0 <= r ==> r < |list| && compare(list[r]) == 0)
            && (r < 0 ==> 0 <= Complement(r) <= |list|)
            && (SortedSingle(list, compare) ==>
                  var p := if 0 <= r then r else Complement(r);
                  (forall i :: 0 <= i < p ==> compare(list[i]) < 0) &&
                  (p < |list| ==> compare(list[p]) >= 0))
  {
    LeftmostLoopLastComparison(list, compare, 0, |list|, -1);
    if SortedSingle(list, compare) {
      LeftmostLoopFindsFirstNotLess(list, compare, 0, |list|, -1);
    }
  }

  /** A negative result does not mean that nothing compares equal: on the
      sorted list `[-1, 0]` searched for zero, the last comparison is made
      against `-1`, so the search answers "insert at 1" although element 1 is
      a match. */
  lemma LeftmostSingleMissesMatch()
    ensures var list, compare := [-1, 0], (x: int) => x;
            && SortedSingle(list, compare)
            && LeftmostSingle(list, compare) == Complement(1)
            && compare(list[1]) == 0
  {
    var list, compare := [-1, 0], (x: int) => x;
    assert LeftmostLoop(list, compare, 1, 1, -1) == (1, -1);
    assert LeftmostLoop(list, compare, 0, 1, 0) == (1, -1);
    assert LeftmostLoop(list, compare, 0, 2, -1) == (1, -1);
  }

  /** `BinarySearch_Leftmost` with an `IComparer_Single`. */
  method BinarySearchLeftmost<T>(list: seq<T>, compare: T -> int) returns (r: int)
    ensures r == LeftmostSingle(list, compare)
  {
    var begin, end, comparison := 0, |list|, -1;
    while begin < end
      invariant 0 <= begin <= end <= |list|
      invariant LeftmostLoop(list, compare, begin, end, comparison) == LeftmostLoop(list, compare, 0, |list|, -1)
    {
      var mid := (begin + end) / 2;
      comparison := compare(list[mid]);
      if comparison < 0 {
        begin := mid + 1;
      } else {
        end := mid;
      }
    }
    r := if comparison == 0 then begin else Complement(begin);
  }

  datatype SearchError = IndexOutOfRange

  /** `BinarySearch_Leftmost` with a `Comparison<T>`, as written: after the
      loop it compares `list[begin]`, which is out of range when the loop
      stopped past the last element. */
  function LeftmostBy<T>(list: seq<T>, value: T, comparer: (T, T) -> int): Result<int, SearchError> {
    var b := LeftmostLoop(list, x => comparer(x, value), 0, |list|, -1).0;
    if b == |list| then Err(IndexOutOfRange)
    else if comparer(list[b], value) == 0 then Ok(b)
    else Ok(Complement(b))
  }

  /** On a sorted list the `Comparison<T>` overload fails exactly when every
      element compares less than `value` (the empty list included); otherwise
      its answer is the first element that does not compare less, encoded as
      found or not found by comparing that element. */
  lemma LeftmostByFailsPastTheEnd<T>(list: seq<T>, value: T, comparer: (T, T) -> int)
    requires SortedSingle(list, x => comparer(x, value))
    ensures LeftmostBy(list, value, comparer).Err? <==> forall i :: 0 <= i < |list| ==> comparer(list[i], value) < 0
    ensures LeftmostBy(list, value, comparer).Ok? ==>
              var r := LeftmostBy(list, value, comparer).value;
              var p := if 0 <= r then r else Complement(r);
              && p < |list|
              && (forall i :: 0 <= i < p ==> comparer(list[i], value) < 0)
              && (0 <= r <==> comparer(list[p], value) == 0)
  {
    var compare := x => comparer(x, value);
    LeftmostLoopFindsFirstNotLess(list, compare, 0, |list|, -1);
    var b := LeftmostLoop(list, compare, 0, |list|, -1).0;
    assert forall i :: 0 <= i < |list| ==> compare(list[i]) == comparer(list[i], value);
    if b < |list| {
      assert compare(list[b]) >= 0;
    }
  }

  /** `BinarySearch_Leftmost` with a `Comparison<T>`. */
  method BinarySearchLeftmostBy<T>(list: seq<T>, value: T, comparer: (T, T) -> int) returns (r: Result<int, SearchError>)
    ensures r == LeftmostBy(list, value, comparer)
  {
    var begin, end := 0, |list|;
    ghost var comparison := -1;
    while begin < end
      invariant 0 <= begin <= end <= |list|
      invariant LeftmostLoop(list, x => comparer(x, value), begin, end, comparison)
             == LeftmostLoop(list, x => comparer(x, value), 0, |list|, -1)
    {
      var mid := (begin + end) / 2;
      var c := comparer(list[mid], value);
      comparison := c;
      if c < 0 {
        begin := mid + 1;
      } else {
        end := mid;
      }
    }
    if begin == |list| {
      return Err(IndexOutOfRange);
    }
    r := if comparer(list[begin], value) == 0 then Ok(begin) else Ok(Complement(begin));
  }

  /** The leftmost search as evidently intended: the element the loop stopped
      at is compared, and only when it exists. */
  function LeftmostChecked<T>(list: seq<T>, compare: T -> int): int {
    var b := LeftmostLoop(list, compare, 0, |list|, -1).0;
    if b < |list| && compare(list[b]) == 0 then b else Complement(b)
  }

  /** On a sorted list the intended leftmost search finds the first match when
      there is one, and answers "not found" with the insertion point exactly
      when nothing compares equal. */
  lemma LeftmostCheckedIsLeftmost<T>(list: seq<T>, compare: T -> int)
    requires SortedSingle(list, compare)
    ensures var r := LeftmostChecked(list, compare);
            && (0 <= r <==> exists i :: 0 <= i < |list| && compare(list[i]) == 0)
            && (0 <= r ==> r < |list| && compare(list[r]) == 0 && forall i :: 0 <= i < r ==> compare(list[i]) != 0)
            && (r < 0 ==> 0 <= Complement(r) <= |list|
                          && (forall i :: 0 <= i < Complement(r) ==> compare(list[i]) < 0)
                          && (forall i :: Complement(r) <= i < |list| ==> compare(list[i]) > 0))
  {
    LeftmostLoopFindsFirstNotLess(list, compare, 0, |list|, -1);
    var b := LeftmostLoop(list, compare, 0, |list|, -1).0;
    if b < |list| && compare(list[b]) != 0 {
      forall i | b <= i < |list|
        ensures compare(list[i]) > 0
      {
        if i > b {
          assert Sign(compare(list[b])) <= Sign(compare(list[i]));
        }
      }
    }
  }

  // ============================================================ sorted insertion

  /** `compare` is a comparison in the sense of `Comparison<T>`: antisymmetric
      in sign and transitive. */
  ghost predicate IsTotalPreorder<T(!new)>(compare: (T, T) -> int) {
    && (forall a, b :: compare(a, b) < 0 <==> compare(b, a) > 0)
    && (forall a, b, c :: compare(a, b) <= 0 && compare(b, c) <= 0 ==> compare(a, c) <= 0)
  }

  ghost predicate Sorted<T>(list: seq<T>, compare: (T, T) -> int) {
    forall i, j :: 0 <= i < j < |list| ==> compare(list[i], list[j]) <= 0
  }

  /** A list sorted by a comparison is sorted against every key. */
  lemma SortedIsSortedAgainst<T(!new)>(list: seq<T>, key: T, compare: (T, T) -> int)
    requires IsTotalPreorder(compare) && Sorted(list, compare)
    ensures SortedAgainst(list, key, compare)
  {
    forall i, j | 0 <= i < j < |list|
      ensures Sign(compare(list[i], key)) <= Sign(compare(list[j], key))
    {
      var a, b := list[i], list[j];
      assert compare(a, b) <= 0;
    }
  }

  /** Inserting `value` where everything before compares at most equal and
      everything after at least equal keeps the list sorted. */
  lemma InsertKeepsSorted<T(!new)>(list: seq<T>, i: nat, value: T, compare: (T, T) -> int)
    requires IsTotalPreorder(compare) && Sorted(list, compare) && i <= |list|
    requires forall j :: 0 <= j < i ==> compare(list[j], value) <= 0
    requires forall j :: i <= j < |list| ==> compare(value, list[j]) <= 0
    ensures Sorted(list[..i] + [value] + list[i..], compare)
  {
    var s := list[..i] + [value] + list[i..];
    forall a, b | 0 <= a < b < |s|
      ensures compare(s[a], s[b]) <= 0
    {
      if a < i && b > i {
        assert s[a] == list[a] && s[b] == list[b - 1];
      } else if a > i {
        assert s[a] == list[a - 1] && s[b] == list[b - 1];
      }
    }
  }

  /** A `List<T>` that the helpers change in place. */
  class ListRef<T> {
    var items: seq<T>

    constructor (items: seq<T>)
      ensures this.items == items
    {
      this.items := items;
    }
  }

  /** `InsertSorted`: binary-search the insertion point, then `Insert` there.
      Both overloads are this method: the one without a comparison uses the
      list's default comparer through `List<T>.BinarySearch`, which answers
      like the helper `BinarySearch`. */
  method InsertSorted<T(!new)>(list: ListRef<T>, value: T, compare: (T, T) -> int) returns (i: int)
    modifies list
    ensures 0 <= i <= |old(list.items)|
    ensures list.items == old(list.items)[..i] + [value] + old(list.items)[i..]
    ensures IsTotalPreorder(compare) && Sorted(old(list.items), compare) ==> Sorted(list.items, compare)
  {
    ghost var before := list.items;
    i := BinarySearch(list.items, value, compare);
    if i < 0 {
      i := Complement(i);
    }
    if IsTotalPreorder(compare) && Sorted(before, compare) {
      SortedIsSortedAgainst(before, value, compare);
      forall j | 0 <= j < |before|
        ensures j < i ==> compare(before[j], value) <= 0
        ensures i <= j ==> compare(value, before[j]) <= 0
      {
        if i <= j && compare(before[i], value) == 0 {
          assert compare(value, before[i]) == 0;
          if i < j {
            assert compare(before[i], before[j]) <= 0;
          }
        }
      }
      InsertKeepsSorted(before, i, value, compare);
    }
    list.items := list.items[..i] + [value] + list.items[i..];
  }

  /** A suballocation: a range of a memory block and its usage kind. */
  datatype Suballocation = Suballocation(offset: int, size: int, kind: SuballocationType)

  /** `long.CompareTo`: -1, 0 or 1. */
  function CompareLong(a: int, b: int): (r: int)
    ensures r < 0 <==> a < b
    ensures r == 0 <==> a == b
  {
    if a < b then -1 else if a == b then 0 else 1
  }

  /** `SuballocationItemSizeLess` (and the same comparison on list nodes,
      `SuballocationNodeItemSizeLess`): suballocations ordered by size. */
  function SuballocationItemSizeLess(first: Suballocation, second: Suballocation): (r: int)
    ensures r < 0 <==> first.size < second.size
    ensures r == 0 <==> first.size == second.size
  {
    CompareLong(first.size, second.size)
  }

  /** The size comparison is a valid comparison for `InsertSorted`. */
  lemma SizeComparisonIsTotalPreorder()
    ensures IsTotalPreorder(SuballocationItemSizeLess)
  {
  }

  // ============================================================ FindIndex, Validate

  /** `FindIndex`: the first index whose element satisfies the predicate, or -1. */
  method FindIndex<T, S>(list: seq<T>, state: S, matches: (T, S) -> bool) returns (r: int)
    ensures -1 <= r < |list|
    ensures 0 <= r ==> matches(list[r], state)
    ensures forall j :: 0 <= j < |list| && (r == -1 || j < r) ==> !matches(list[j], state)
  {
    for i := 0 to |list|
      invariant forall j :: 0 <= j < i ==> !matches(list[j], state)
    {
      if matches(list[i], state) {
        return i;
      }
    }
    r := -1;
  }

  datatype ValidationFailed = ValidationFailed

  /** `Validate`: throws `ValidationFailedException` when the assertion is false. */
  function Validate(assertion: bool): (r: Outcome<ValidationFailed>)
    ensures r.Pass? <==> assertion
  {
    if assertion then Pass else Fail(ValidationFailed)
  }
}
