// Values shared by every model: guest bytes, byte strings and optional results.

module Guest {

  type byte = x: int | 0 <= x < 256

  /** A byte string: a guest C string without its terminator, a host file name, a path. */
  type Bytes = seq<byte>

  /** A 32-bit guest word, the value of a register or a longword in guest memory. */
  type u32 = x: int | 0 <= x < 0x1_0000_0000

  type i32 = x: int | -0x8000_0000 <= x < 0x8000_0000

  datatype Option<+T> = None | Some(value: T)

  const NEWLINE: byte := 10
  const TAB: byte := 9
  const SPACE: byte := 32
  const COLON: byte := 58
  const SLASH: byte := 47

  /** An IoErr() code: 0 means no error. */
  type ErrorCode = x: int | x > 0 witness 1

  /** IoErr() codes that more than one component reports. */
  const ERROR_NO_FREE_STORE: ErrorCode := 103
  const ERROR_OBJECT_NOT_FOUND: ErrorCode := 205
  const ERROR_BAD_TEMPLATE: ErrorCode := 114

  /** The errno of a descriptor that is not open. */
  const EBADF: ErrorCode := 9

  /** ASCII upper case. */
  function Upper(b: byte): byte {
    if 97 <= b <= 122 then b - 32 else b
  }

  function ToUpper(text: Bytes): Bytes {
    seq(|text|, i requires 0 <= i < |text| => Upper(text[i]))
  }

  /** Two bytes are the same but for case exactly when they are equal or one letter of the
      twenty-six, small and large. */
  lemma SameLetter(b: byte, c: byte)
    ensures Upper(b) == Upper(c) <==>
              b == c || (97 <= b < 97 + 26 && c as int == b as int - 32)
              || (97 <= c < 97 + 26 && b as int == c as int - 32)
    ensures Upper(b) != b ==> 97 <= b < 97 + 26
  {
  }

  function Min(a: int, b: int): int { if a < b then a else b }

  function Max(a: int, b: int): int { if a < b then b else a }

  /** The low 32 bits of a number. */
  function Mod32(v: int): u32 { v % 0x1_0000_0000 }

  lemma DividedTwice(v: nat)
    ensures v / 0x1_0000 == v / 0x100 / 0x100
  {
  }

  lemma DividedAgain(v: nat)
    ensures v / 0x100_0000 == v / 0x1_0000 / 0x100
  {
  }

  lemma LowByte(v: nat)
    ensures v == v / 0x100 * 0x100 + v % 0x100
  {
  }

  /** The four bytes of a longword are the longword. */
  lemma FourBytes(v: u32)
    ensures v / 0x100_0000 < 0x100
    ensures v / 0x100_0000 * 0x100_0000 + v / 0x1_0000 % 0x100 * 0x1_0000 + v / 0x100 % 0x100 * 0x100 + v % 0x100 == v
  {
    DividedTwice(v);
    DividedAgain(v);
    LowByte(v);
    LowByte(v / 0x100);
    LowByte(v / 0x1_0000);
  }
}
