/** What several components share. */
module Common {

  datatype Option<+T> = None | Some(value: T)

  const INT_MAX: nat := 0x7FFF_FFFF
  const INT_MOD: nat := 0x1_0000_0000

  /** Conversion to a 32-bit int. */
  function ToInt(x: int): (r: int)
    ensures -0x8000_0000 <= r <= INT_MAX
  {
    (x + 0x8000_0000) % INT_MOD - 0x8000_0000
  }

  /** The low 32 bits as two's complement. */
  lemma ToIntIs(x: int)
    requires x >= 0
    ensures ToInt(x) == if x % INT_MOD <= INT_MAX then x % INT_MOD else x % INT_MOD - INT_MOD
    ensures x % INT_MOD <= x
  {
    var low, k := x % INT_MOD, x / INT_MOD;
    assert x == INT_MOD * k + low;
    if low <= INT_MAX {
      assert (x + 0x8000_0000) % INT_MOD == low + 0x8000_0000;
    } else {
      assert x + 0x8000_0000 == INT_MOD * (k + 1) + (low - 0x8000_0000);
      assert (x + 0x8000_0000) % INT_MOD == low - 0x8000_0000;
    }
  }

  /** The pieces of a stream, one behind the other. */
  function Concat(pieces: seq<string>): string {
    if pieces == [] then "" else pieces[0] + Concat(pieces[1..])
  }
}
