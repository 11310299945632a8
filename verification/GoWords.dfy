/** The fixed-width unsigned integers of the Go source, with their wrap-around written out. */
module GoWords {
  const TWO_63: int := 0x8000_0000_0000_0000
  const TWO_64: int := 0x1_0000_0000_0000_0000
  const TWO_16: int := 0x1_0000

  type uint64 = x: int | 0 <= x < TWO_64
  type uint16 = x: int | 0 <= x < TWO_16

  newtype byte = x: int | 0 <= x < 256
  type bytes = seq<byte>

  /** Go's `x++` on a uint64. */
  function Next(x: uint64): uint64 {
    if x + 1 == TWO_64 then 0 else x + 1
  }

  /** Go's `x++` on a uint16. */
  function Next16(x: uint16): uint16 {
    if x + 1 == TWO_16 then 0 else x + 1
  }

  /** Go's conversion `int64(x)` of a uint64. */
  function ToInt64(x: uint64): int {
    if x < TWO_63 then x else x - TWO_64
  }

  /** The numbers `lo, lo + 1, ..., hi - 1`. */
  function Range(lo: int, hi: int): seq<int>
    decreases hi - lo
  {
    if lo >= hi then [] else Range(lo, hi - 1) + [hi - 1]
  }

  lemma {:induction false} RangeCounts(lo: int, hi: int)
    requires lo <= hi
    ensures |Range(lo, hi)| == hi - lo
    ensures forall i :: 0 <= i < hi - lo ==> Range(lo, hi)[i] == lo + i
    decreases hi - lo
  {
    if lo < hi {
      RangeCounts(lo, hi - 1);
    }
  }

  datatype Option<+T> = None | Some(value: T)
}
