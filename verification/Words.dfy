/** Unsigned 32-bit words, and optional results. */
module Words {
  const WORDS := 0x1_0000_0000

  type Word = x: int | 0 <= x < 0x1_0000_0000

  type Byte = x: int | 0 <= x < 0x100

  datatype Option<T> = None | Some(value: T)

  function Wrap(n: int): Word { n % WORDS }
}
