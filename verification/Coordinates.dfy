/** Block, chunk and subchunk coordinates, and the integer divisions every
    materialiser rests on. C++ division truncates toward zero; Dafny's is
    Euclidean, so the truncating operators are written out. */
module Coordinates {

  const INT32_MIN := -0x8000_0000
  const INT32_MAX := 0x7fff_ffff
  const OVERWORLD_MIN_Y := -64
  const OVERWORLD_MAX_Y := 319

  datatype BlockPos = BlockPos(x: int, y: int, z: int)
  datatype ChunkPos = ChunkPos(x: int, z: int)
  datatype SubChunkPos = SubChunkPos(x: int, y: int, z: int)
  datatype Size = Size(width: int, height: int, length: int)

  type RuntimeId = id: int | 0 <= id < 0x1_0000_0000

  datatype Placing = Placing(pos: BlockPos, id: RuntimeId)

  predicate IsInt32(value: int) {
    INT32_MIN <= value <= INT32_MAX
  }

  function Smaller(a: int, b: int): int {
    if a <= b then a else b
  }

  function Larger(a: int, b: int): int {
    if a <= b then b else a
  }

  function Abs(value: int): nat {
    if value < 0 then -value else value
  }

  /** `/` of C++: the quotient rounded toward zero. */
  function TruncatedQuotient(value: int, divisor: int): int
    requires divisor != 0
  {
    var magnitude := Abs(value) / Abs(divisor);
    if (value < 0) == (divisor < 0) then magnitude else -magnitude
  }

  /** `%` of C++: the remainder has the sign of the dividend. */
  function TruncatedRemainder(value: int, divisor: int): int
    requires divisor != 0
  {
    var magnitude := Abs(value) % Abs(divisor);
    if value < 0 then -magnitude else magnitude
  }

  function FloorDiv(value: int, divisor: int): int
    requires divisor != 0
  {
    TruncatedQuotient(value, divisor) - (if TruncatedRemainder(value, divisor) < 0 then 1 else 0)
  }

  function FloorMod(value: int, divisor: int): int
    requires divisor != 0
  {
    value - FloorDiv(value, divisor) * divisor
  }

  function FloorDiv64(value: int, divisor: int): int
    requires divisor != 0
  {
    var remainder := TruncatedRemainder(value, divisor);
    TruncatedQuotient(value, divisor) - (if remainder != 0 && (remainder < 0) != (divisor < 0) then 1 else 0)
  }

  /** `q` is the floor of `value / divisor`: the remainder it leaves has the
      sign of the divisor and is smaller than it. */
  predicate IsFloor(value: int, divisor: int, q: int) {
    if divisor > 0 then 0 <= value - q * divisor < divisor else divisor < value - q * divisor <= 0
  }

  lemma TruncatedSplit(value: int, divisor: int)
    requires divisor != 0
    ensures value == TruncatedQuotient(value, divisor) * divisor + TruncatedRemainder(value, divisor)
    ensures Abs(TruncatedRemainder(value, divisor)) < Abs(divisor)
  {
    var m: int, d: int := Abs(value), Abs(divisor);
    var q: int := m / d;
    assert m == q * d + m % d;
    assert (-q) * (-d) == q * d;
    assert (-q) * d == -(q * d) && q * (-d) == -(q * d);
  }

  /** The 64-bit form is a floor for every divisor. */
  lemma FloorDiv64IsFloor(value: int, divisor: int)
    requires divisor != 0
    ensures IsFloor(value, divisor, FloorDiv64(value, divisor))
  {
    TruncatedSplit(value, divisor);
    var q := TruncatedQuotient(value, divisor);
    assert (q - 1) * divisor == q * divisor - divisor;
  }

  /** The 32-bit form tests only the sign of the remainder, so it is a floor
      exactly for positive divisors and for exact divisions. Every caller
      passes 16. */
  lemma FloorDivIsFloorExactlyWhen(value: int, divisor: int)
    requires divisor != 0
    ensures IsFloor(value, divisor, FloorDiv(value, divisor))
      <==> divisor > 0 || TruncatedRemainder(value, divisor) == 0
  {
    TruncatedSplit(value, divisor);
    var q := TruncatedQuotient(value, divisor);
    assert (q - 1) * divisor == q * divisor - divisor;
  }

  /** A concrete case: 7 by -2 gives -3, but the floor is -4. */
  lemma NegativeDivisorIsNoFloor()
    ensures FloorDiv(7, -2) == -3 && !IsFloor(7, -2, -3) && IsFloor(7, -2, -4)
  {
    FloorDivIsFloorExactlyWhen(7, -2);
  }

  lemma FloorBySixteen(value: int)
    ensures FloorDiv(value, 16) == FloorDiv64(value, 16) == value / 16
    ensures FloorMod(value, 16) == value % 16
  {
  }

  /** The position `k` cells further in z. */
  function Along(b: BlockPos, k: int): BlockPos {
    b.(z := b.z + k)
  }

  function ChunkOf(p: SubChunkPos): ChunkPos {
    ChunkPos(p.x, p.z)
  }

  /** The subchunk holding an absolute world position. */
  function SubChunkOf(b: BlockPos): SubChunkPos {
    SubChunkPos(FloorDiv(b.x, 16), FloorDiv(b.y, 16), FloorDiv(b.z, 16))
  }

  /** Bedrock's native cell order, x then y then z. */
  function NativeIndex(b: BlockPos): int {
    FloorMod(b.x, 16) * 256 + FloorMod(b.y, 16) * 16 + FloorMod(b.z, 16)
  }

  /** The inverse of `SubChunkOf` and `NativeIndex` together. */
  function NativeBlock(p: SubChunkPos, index: int): BlockPos {
    BlockPos(p.x * 16 + index / 256, p.y * 16 + index / 16 % 16, p.z * 16 + index % 16)
  }

  lemma NativeBlockUndoesIndex(b: BlockPos)
    ensures 0 <= NativeIndex(b) < 4096 && NativeBlock(SubChunkOf(b), NativeIndex(b)) == b
  {
    FloorBySixteen(b.x);
    FloorBySixteen(b.y);
    FloorBySixteen(b.z);
    IndexDigits(b.x % 16, b.y % 16, b.z % 16);
  }

  lemma IndexDigits(x: int, y: int, z: int)
    requires 0 <= x < 16 && 0 <= y < 16 && 0 <= z < 16
    ensures var i := x * 256 + y * 16 + z;
      i / 256 == x && i / 16 % 16 == y && i % 16 == z
  {
  }

  lemma IndexUndoesNativeBlock(p: SubChunkPos, index: int)
    requires 0 <= index < 4096
    ensures SubChunkOf(NativeBlock(p, index)) == p && NativeIndex(NativeBlock(p, index)) == index
  {
    hide FloorDiv, FloorMod;
    var back := NativeBlock(p, index);
    FloorBySixteen(back.x);
    FloorBySixteen(back.y);
    FloorBySixteen(back.z);
    OffsetBySixteen(p.x, index / 256);
    OffsetBySixteen(p.y, index / 16 % 16);
    OffsetBySixteen(p.z, index % 16);
    DigitsOfIndex(index);
  }

  lemma DigitsOfIndex(index: int)
    requires 0 <= index < 4096
    ensures 0 <= index / 256 < 16 && index == index / 256 * 256 + index / 16 % 16 * 16 + index % 16
  {
  }

  lemma OffsetBySixteen(base: int, offset: int)
    requires 0 <= offset < 16
    ensures (base * 16 + offset) / 16 == base && (base * 16 + offset) % 16 == offset
  {
  }
}
