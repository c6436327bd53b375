/** The fixed-width integer types of the services, with the wrap-around their arithmetic has. */
module Width {
  const MAX_INT32: int := 0x7fff_ffff
  const MAX_INT64: int := 0x7fff_ffff_ffff_ffff
  const MAX_UINT64: int := 0xffff_ffff_ffff_ffff

  type int32 = x: int | -0x8000_0000 <= x <= 0x7fff_ffff
  type int64 = x: int | -0x8000_0000_0000_0000 <= x <= 0x7fff_ffff_ffff_ffff
  type uint64 = x: int | 0 <= x <= 0xffff_ffff_ffff_ffff

  /** The int32 that a conversion or an overflowing operation leaves. */
  function Wrap32(x: int): (r: int32)
    ensures 0x8000_0000 <= x < 0x1_8000_0000 ==> r == x - 0x1_0000_0000
    ensures -0x1_8000_0000 <= x < -0x8000_0000 ==> r == x + 0x1_0000_0000
    decreases if x < 0 then -x - 1 else x
  {
    if x > 0x7fff_ffff then Wrap32(x - 0x1_0000_0000)
    else if x < -0x8000_0000 then Wrap32(x + 0x1_0000_0000)
    else x
  }

  /** The int64 that an overflowing operation leaves. */
  function Wrap64(x: int): (r: int64)
    ensures 0x8000_0000_0000_0000 <= x < 0x1_8000_0000_0000_0000 ==> r == x - 0x1_0000_0000_0000_0000
    ensures -0x1_8000_0000_0000_0000 <= x < -0x8000_0000_0000_0000 ==> r == x + 0x1_0000_0000_0000_0000
    decreases if x < 0 then -x - 1 else x
  {
    if x > 0x7fff_ffff_ffff_ffff then Wrap64(x - 0x1_0000_0000_0000_0000)
    else if x < -0x8000_0000_0000_0000 then Wrap64(x + 0x1_0000_0000_0000_0000)
    else x
  }

  /** Wrapping is reduction modulo 2^64. */
  lemma {:induction false} Wrap64Congruent(x: int)
    ensures (x - Wrap64(x)) % 0x1_0000_0000_0000_0000 == 0
    decreases if x < 0 then -x - 1 else x
  {
    if x > 0x7fff_ffff_ffff_ffff {
      Wrap64Congruent(x - 0x1_0000_0000_0000_0000);
    } else if x < -0x8000_0000_0000_0000 {
      Wrap64Congruent(x + 0x1_0000_0000_0000_0000);
    }
  }

  /** An operand that wrapped before gives the same sum. */
  lemma {:induction false} WrapAdd(x: int, y: int)
    ensures Wrap64(Wrap64(x) + y) == Wrap64(x + y)
    decreases if x < 0 then -x - 1 else x
  {
    if x > 0x7fff_ffff_ffff_ffff {
      WrapAdd(x - 0x1_0000_0000_0000_0000, y);
      WrapShift(x - 0x1_0000_0000_0000_0000 + y);
    } else if x < -0x8000_0000_0000_0000 {
      WrapAdd(x + 0x1_0000_0000_0000_0000, y);
      WrapShift(x + y);
    }
  }

  lemma {:induction false} WrapShift(x: int)
    ensures Wrap64(x + 0x1_0000_0000_0000_0000) == Wrap64(x)
    decreases if x < 0 then -x - 1 else x
  {
    if x < -0x8000_0000_0000_0000 {
      if x + 0x1_0000_0000_0000_0000 < -0x8000_0000_0000_0000 {
        WrapShift(x + 0x1_0000_0000_0000_0000);
      }
    }
  }

  datatype Option<+T> = None | Some(value: T)
}
