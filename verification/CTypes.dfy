/** The C integer conversions that file.cpp relies on, written out on unbounded integers. */
module CTypes {

  const TWO_31 := 0x8000_0000
  const TWO_32 := 0x1_0000_0000
  const TWO_63 := 0x8000_0000_0000_0000
  const TWO_64 := 0x1_0000_0000_0000_0000

  /** (int) x: two's complement, 32 bits. */
  function ToInt32(x: int): int {
    var r := x % TWO_32;
    if r < TWO_31 then r else r - TWO_32
  }

  /** (unsigned int) x, as in uid_t, gid_t and mode_t. */
  function ToUint32(x: int): nat {
    x % TWO_32
  }

  /** (size_t) x: 64 bits, unsigned. */
  function SizeT(x: int): nat {
    x % TWO_64
  }

  /** (off_t) x: 64 bits, two's complement. */
  function OffT(x: int): int {
    var r := x % TWO_64;
    if r < TWO_63 then r else r - TWO_64
  }

  /** C division truncates toward zero; b is positive wherever it is used here. */
  function CDiv(a: int, b: int): int
    requires b > 0
  {
    if a >= 0 then a / b else -((-a) / b)
  }

  /** C remainder: has the sign of the dividend. */
  function CMod(a: int, b: int): int
    requires b > 0
  {
    a - b * CDiv(a, b)
  }

  function Min(a: int, b: int): int {
    if a <= b then a else b
  }

  function Max(a: int, b: int): int {
    if a >= b then a else b
  }

  /** mode | bit, for a single-bit flag. */
  function OrBit(mode: nat, bit: nat): nat
    requires bit > 0
  {
    if HasBit(mode, bit) then mode else mode + bit
  }

  /** (mode & bit) != 0, for a single-bit flag. */
  predicate HasBit(mode: nat, bit: nat)
    requires bit > 0
  {
    (mode / bit) % 2 == 1
  }

  /** Each conversion takes a multiple of its width off, into its range. */
  lemma Conversions(x: int)
    ensures -2147483648 <= ToInt32(x) < 2147483648 && exists k :: ToInt32(x) == x + k * 4294967296
    ensures 0 <= ToUint32(x) < 4294967296 && exists k :: ToUint32(x) == x + k * 4294967296
    ensures 0 <= SizeT(x) < 18446744073709551616 && exists k :: SizeT(x) == x + k * 18446744073709551616
    ensures -9223372036854775808 <= OffT(x) < 9223372036854775808 && exists k :: OffT(x) == x + k * 18446744073709551616
  {
    var m, n := x / TWO_32, x / TWO_64;
    assert x % TWO_32 == x + (-m) * 4294967296 && x % TWO_64 == x + (-n) * 18446744073709551616;
    assert x % TWO_32 - TWO_32 == x + (-m - 1) * 4294967296;
    assert x % TWO_64 - TWO_64 == x + (-n - 1) * 18446744073709551616;
  }

  /** The two file-type bits that are tested and set, in numbers. */
  lemma TypeBits(mode: nat)
    ensures HasBit(mode, 0x4000) <==> mode % 0x8000 >= 0x4000
    ensures HasBit(mode, 0x8000) <==> mode % 0x1_0000 >= 0x8000
    ensures OrBit(mode, 0x4000) == if mode % 0x8000 >= 0x4000 then mode else mode + 0x4000
    ensures OrBit(mode, 0x8000) == if mode % 0x1_0000 >= 0x8000 then mode else mode + 0x8000
  {
  }

  datatype Option<+T> = None | Some(value: T)
}
