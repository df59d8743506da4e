/** Canonical 64-bit payloads of numeric constants (instruction.rs). */
module NumericPayload {
  import opened Wrappers

  datatype Type = I8 | I16 | I32 | I64 | U8 | U16 | U32 | U64 | F32 | F64 | OtherType

  newtype i32 = x: int | -0x8000_0000 <= x < 0x8000_0000
  newtype i64 = x: int | -0x8000_0000_0000_0000 <= x < 0x8000_0000_0000_0000
  newtype u32 = x: int | 0 <= x < 0x1_0000_0000
  newtype u64 = x: int | 0 <= x < 0x1_0000_0000_0000_0000

  const WORD: int := 0x1_0000_0000_0000_0000

  /** Floats are their bit patterns, which is also how constants are compared. */
  datatype Operand =
    | Signed32(value: i32)
    | Signed64(number: i64)
    | Unsigned64(word: u64)
    | Float32(bits: u32)
    | Float64(pattern: u64)
    | OtherOperand(tag: nat)

  function Bounds(t: Type): Option<(int, int)> {
    match t
    case I8 => Some((-0x80, 0x7f))
    case I16 => Some((-0x8000, 0x7fff))
    case I32 => Some((-0x8000_0000, 0x7fff_ffff))
    case I64 => Some((-0x8000_0000_0000_0000, 0x7fff_ffff_ffff_ffff))
    case U8 => Some((0, 0xff))
    case U16 => Some((0, 0xffff))
    case U32 => Some((0, 0xffff_ffff))
    case U64 => Some((0, 0xffff_ffff_ffff_ffff))
    case _ => None
  }

  /** The cast of a signed number to a 64-bit word: sign extension. */
  function Wrap(x: int): u64
    requires -WORD < x < WORD
  {
    (if x < 0 then x + WORD else x) as u64
  }

  function Unwrap(bits: u64): int {
    if bits as int < 0x8000_0000_0000_0000 then bits as int else bits as int - WORD
  }

  function Within(t: Type, number: int, bits: u64): Option<u64> {
    match Bounds(t)
    case None => None
    case Some((low, high)) => if low <= number <= high then Some(bits) else None
  }

  function Payload(o: Operand, t: Type): Option<u64> {
    match o
    case Float32(bits) => if t == F32 then Some(bits as u64) else None
    case Float64(bits) => if t == F64 then Some(bits) else None
    case Signed32(v) => if t == I8 || t == I16 || t == I32 then Within(t, v as int, Wrap(v as int)) else None
    case Signed64(v) => if t == I64 || t == U8 || t == U16 || t == U32 then Within(t, v as int, Wrap(v as int)) else None
    case Unsigned64(v) => if t == U64 then Within(t, v as int, v) else None
    case OtherOperand(_) => None
  }

  /** The constant that a payload of the given type stands for; none for words that are no payload. */
  function Decode(t: Type, bits: u64): Option<Operand> {
    if t == F32 then if bits < 0x1_0000_0000 then Some(Float32(bits as u32)) else None
    else if t == F64 then Some(Float64(bits))
    else if t == U64 then Some(Unsigned64(bits))
    else if Within(t, Unwrap(bits), bits).None? then None
    else if t == I8 || t == I16 || t == I32 then Some(Signed32(Unwrap(bits) as i32))
    else Some(Signed64(Unwrap(bits) as i64))
  }

  /** A word is the payload of a constant exactly when it decodes to that constant. */
  lemma PayloadDecodes(o: Operand, t: Type, bits: u64)
    ensures Payload(o, t) == Some(bits) <==> Decode(t, bits) == Some(o)
  {
  }

  /** For one type, payloads are equal exactly when the constants are. */
  lemma PayloadsIdentify(a: Operand, b: Operand, t: Type)
    requires Payload(a, t).Some? && Payload(b, t).Some?
    ensures Payload(a, t) == Payload(b, t) <==> a == b
  {
  }

  // ------------------------------------------------------------ accepted ranges

  function Pow2(n: nat): nat {
    if n == 0 then 1 else 2 * Pow2(n - 1)
  }

  lemma {:induction false} Pow2Add(m: nat, n: nat)
    ensures Pow2(m + n) == Pow2(m) * Pow2(n)
  {
    if m != 0 {
      Pow2Add(m - 1, n);
      assert Pow2(m - 1 + n) == Pow2(m - 1) * Pow2(n);
      assert 2 * (Pow2(m - 1) * Pow2(n)) == (2 * Pow2(m - 1)) * Pow2(n);
    }
  }

  /** The width of an integer type, and whether it is signed. */
  function Layout(t: Type): (layout: Option<(nat, bool)>)
    ensures layout.Some? ==> 8 <= layout.value.0
  {
    match t
    case I8 => Some((8, true))
    case I16 => Some((16, true))
    case I32 => Some((32, true))
    case I64 => Some((64, true))
    case U8 => Some((8, false))
    case U16 => Some((16, false))
    case U32 => Some((32, false))
    case U64 => Some((64, false))
    case _ => None
  }

  /** The number of an integer operand. */
  function Number(o: Operand): Option<int> {
    match o
    case Signed32(v) => Some(v as int)
    case Signed64(v) => Some(v as int)
    case Unsigned64(v) => Some(v as int)
    case _ => None
  }

  /** The operand kind that carries constants of an integer type. */
  predicate CarriedBy(o: Operand, width: nat, signed: bool) {
    if signed && width <= 32 then o.Signed32?
    else if width == 64 && !signed then o.Unsigned64?
    else o.Signed64?
  }

  lemma Powers(n: nat)
    requires n == 8
    ensures Pow2(n - 1) == 0x80 && Pow2(n) == 0x100
    ensures Pow2(2 * n - 1) == 0x8000 && Pow2(2 * n) == 0x1_0000
    ensures Pow2(4 * n - 1) == 0x8000_0000 && Pow2(4 * n) == 0x1_0000_0000
    ensures Pow2(8 * n - 1) == 0x8000_0000_0000_0000 && Pow2(8 * n) == 0x1_0000_0000_0000_0000
  {
    SmallPowers(n);
    Pow2Add(n, n - 1);
    Pow2Add(n, n);
    Pow2Add(2 * n, 2 * n - 1);
    Pow2Add(2 * n, 2 * n);
    Pow2Add(4 * n, 4 * n - 1);
    Pow2Add(4 * n, 4 * n);
  }

  lemma SmallPowers(n: nat)
    requires n == 8
    ensures Pow2(n - 1) == 0x80 && Pow2(n) == 0x100
  {
    assert Pow2(n - 8) == 1;
    assert Pow2(n - 6) == 4;
    assert Pow2(n - 4) == 16;
    assert Pow2(n - 2) == 64;
  }

  function Lowest(width: nat, signed: bool): int
    requires 0 < width
  {
    if signed then 0 - Pow2(width - 1) as int else 0
  }

  function Highest(width: nat, signed: bool): int
    requires 0 < width
  {
    if signed then Pow2(width - 1) - 1 else Pow2(width) - 1
  }

  /** The bounds of an integer type are those of its width in two's complement. */
  lemma BoundsExactly(t: Type, width: nat, signed: bool, n: nat)
    requires Layout(t) == Some((width, signed)) && n == 8
    ensures Bounds(t) == Some((Lowest(width, signed), Highest(width, signed)))
  {
    Powers(n);
    assert width == n || width == 2 * n || width == 4 * n || width == 8 * n;
  }

  /** An integer constant is accepted exactly if its kind carries the type and its number is within the type's width. */
  lemma AcceptedRange(o: Operand, t: Type, width: nat, signed: bool)
    requires Layout(t) == Some((width, signed))
    ensures Payload(o, t).Some? <==>
              CarriedBy(o, width, signed) && Number(o).Some? && Lowest(width, signed) <= Number(o).value <= Highest(width, signed)
  {
    BoundsExactly(t, width, signed, 8);
    AcceptedWithin(o, t, width, signed, Lowest(width, signed), Highest(width, signed));
  }

  lemma AcceptedWithin(o: Operand, t: Type, width: nat, signed: bool, low: int, high: int)
    requires Layout(t) == Some((width, signed)) && Bounds(t) == Some((low, high))
    ensures Payload(o, t).Some? <==> CarriedBy(o, width, signed) && Number(o).Some? && low <= Number(o).value <= high
  {
  }

  /** Floats are accepted at their own type only, and nothing is accepted at a type that is not numeric. */
  lemma AcceptedFloats(o: Operand, t: Type)
    requires Layout(t).None?
    ensures Payload(o, t).Some? <==> (o.Float32? && t == F32) || (o.Float64? && t == F64)
  {
  }
}
