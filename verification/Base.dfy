/** Vocabulary shared by the models of libkprintf and of the debug libraries. */
module Base {
  datatype Option<+T> = None | Some(value: T)

  type byte = x: int | 0 <= x < 0x100
  type u16 = x: int | 0 <= x < 0x1_0000
  type u32 = x: int | 0 <= x < 0x1_0000_0000

  const NEWLINE: byte := '\n' as int
  const CARRIAGE_RETURN: byte := '\r' as int
  const TAB: byte := '\t' as int
  const SPACE: byte := ' ' as int

  /** What a C assignment to an unsigned short keeps of an integer. */
  function ToU16(n: int): u16 {
    n % 0x1_0000
  }
}
