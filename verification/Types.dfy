/**
 * Machine-integer types and the option type shared by every module.
 *
 * The integers are Dafny's, so a value of one of these types never wraps by
 * itself: where the program's arithmetic wraps, the model says so with a
 * remainder by TWO_32 or TWO_64. Offsets are unsigned 64-bit numbers on disk
 * and on the wire, but signed ones in most of the program's interfaces;
 * ToSigned64 and ToUnsigned64 are those casts. The lemma about sizes is for
 * counting brokers, voters and replicas by their sets.
 */
module Types {

  const TWO_16 := 0x1_0000
  const TWO_32 := 0x1_0000_0000
  const TWO_63 := 0x8000_0000_0000_0000
  const TWO_64 := 0x1_0000_0000_0000_0000

  type byte = x: int | 0 <= x < 256
  type u16 = x: int | 0 <= x < TWO_16
  type u32 = x: int | 0 <= x < TWO_32
  type u64 = x: int | 0 <= x < TWO_64

  datatype Option<+T> = None | Some(value: T)

  /** The cast of an unsigned 64-bit value to a signed one. */
  function ToSigned64(v: u64): int {
    if v < TWO_63 then v else v - TWO_64
  }

  function ToUnsigned64(v: int): (u: u64)
    requires -TWO_63 <= v < TWO_63
    ensures ToSigned64(u) == v
  {
    if v < 0 then v + TWO_64 else v
  }

  function Min(a: int, b: int): int {
    if a <= b then a else b
  }

  function Max(a: int, b: int): int {
    if a <= b then b else a
  }

  lemma {:induction false} SubsetSize<T>(a: set<T>, b: set<T>)
    requires a <= b
    ensures |a| <= |b|
  {
    if a != {} {
      var x :| x in a;
      SubsetSize(a - {x}, b - {x});
    }
  }
}
