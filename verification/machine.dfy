/** The two things the simulation takes from the C++ platform: the width of
    `uint32_t`, and the three `<math.h>` functions it calls. */
module Machine {

  /** C++ `uint32_t`: packed colours, segment counts and tick rates. */
  type uint32 = x: int | 0 <= x < 0x1_0000_0000

  /** `sqrt`, `sinf` and `cosf` as opaque function values. The model assumes
      nothing about them; a lemma that needs a law of one of them states it
      as a precondition. */
  datatype Libm = Libm(sqrt: real -> real, sin: real -> real, cos: real -> real)

  /** The law of the square root that `Vector2::length` relies on. */
  ghost predicate SqrtLaw(m: Libm) {
    forall a: real :: 0.0 <= a ==> 0.0 <= m.sqrt(a) && m.sqrt(a) * m.sqrt(a) == a
  }
}
