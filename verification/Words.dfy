/** 64-bit words, represented by their bits from the least significant one up, with the
    operators of the source's uint64. */
module Words {
  const WIDTH: nat := 64

  type Word = w: seq<bool> | |w| == WIDTH witness seq(WIDTH, i => false)

  function Zero(): Word { seq(WIDTH, i => false) }

  function AllOnes(): Word { seq(WIDTH, i => true) }

  function Or(a: Word, b: Word): Word { seq(WIDTH, i requires 0 <= i < WIDTH => a[i] || b[i]) }

  function And(a: Word, b: Word): Word { seq(WIDTH, i requires 0 <= i < WIDTH => a[i] && b[i]) }

  function Not(a: Word): Word { seq(WIDTH, i requires 0 <= i < WIDTH => !a[i]) }

  /** `a << n`: bits shifted past the top are lost. */
  function Shl(a: Word, n: nat): Word { seq(WIDTH, i requires 0 <= i < WIDTH => i >= n && a[i - n]) }

  /** `1 << n`. */
  function One(n: nat): Word { seq(WIDTH, i => i == n) }

  /** Bit `i` is set. */
  predicate Has(w: Word, i: nat)
    requires i < WIDTH
  {
    w[i]
  }
}
