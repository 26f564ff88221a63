/** Types several modules share. */
module Common {

  datatype Option<+T> = None | Some(value: T)

  newtype byte = x: int | 0 <= x < 256
  type Bytes = seq<byte>

  /** The terminator of a C string. */
  const NUL: char := '\0'

  const TWO31 := 0x8000_0000
  const TWO32 := 0x1_0000_0000
  const TWO63 := 0x8000_0000_0000_0000
  const TWO64 := 0x1_0000_0000_0000_0000

  /** What a C int keeps of a value. */
  function AsInt32(x: int): (i: int)
    ensures -TWO31 <= i < TWO31
    ensures i == x <==> -TWO31 <= x < TWO31
  {
    (x + TWO31) % TWO32 - TWO31
  }

  lemma Regroup<T>(a: seq<T>, b: seq<T>, c: seq<T>)
    ensures a + (b + c) == (a + b) + c
  {
  }
}
