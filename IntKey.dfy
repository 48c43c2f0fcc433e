/** The radix MAX of the packed-integer n-gram keys, derived from the tokenizer's
    vocabulary size: the power-of-ten rule and the rounding rule. */
module IntKey {
  import opened Common
  import opened Packing

  /** The number of decimal digits of x, i.e. `len(str(x))` for x >= 0. */
  function Digits(x: nat): (d: nat)
    ensures d >= 1
  {
    if x < 10 then 1 else 1 + Digits(x / 10)
  }

  /** x lies between 10^(Digits(x)-1) and 10^Digits(x). */
  lemma {:induction false} DigitsBounds(x: nat)
    ensures x < Pow(10, Digits(x))
    ensures x >= 1 ==> Pow(10, Digits(x) - 1) <= x
  {
    if x >= 10 {
      DigitsBounds(x / 10);
      var p := Pow(10, Digits(x / 10));
      assert Pow(10, Digits(x)) == 10 * p;
      assert Pow(10, Digits(x) - 1) == p;
      MulLe(x / 10 + 1, p, 10);
      MulLe(Pow(10, Digits(x / 10) - 1), x / 10, 10);
    }
  }

  /** Python's `%`: floor division remainder, which takes the sign of the divisor. */
  function PyMod(a: int, b: int): (r: int)
    requires b != 0
    ensures b > 0 ==> 0 <= r < b
    ensures b < 0 ==> b < r <= 0
  {
    var e := a % b;
    if b > 0 || e == 0 then e else e + b
  }

  /** `_generate_int_key`, integer branch: `x -= x % -(10 ** len(str(x)))`.
      `math.log` rejects a non-positive size with a ValueError. */
  function GenerateIntKey(x: int): Result<int>
  {
    if x <= 0 then Err(ValueError)
    else
      PowPositive(10, Digits(x));
      Ok(x - PyMod(x, -(Pow(10, Digits(x)) as int)))
  }

  /** For 0 < x < p, Python's `x % -p` is x - p. */
  lemma PyModNegativeBelow(x: int, p: int)
    requires 0 < x < p
    ensures PyMod(x, -p) == x - p
  {
    assert x % -p == x;
  }

  /** For a positive size the key is the power of ten just above it: 10^(digits of x),
      strictly greater than x, so every id below the vocabulary size is a digit. */
  lemma GenerateIntKeyIsPowerOfTen(x: int)
    requires x >= 1
    ensures GenerateIntKey(x) == Ok(Pow(10, Digits(x)))
    ensures x < Pow(10, Digits(x)) <= 10 * x
  {
    DigitsBounds(x);
    var p: int := Pow(10, Digits(x));
    PyModNegativeBelow(x, p);
    assert p == 10 * Pow(10, Digits(x) - 1);
    MulLe(Pow(10, Digits(x) - 1), x, 10);
  }

  /** The value recorded in the source comment: BART's 50265 ids give MAX = 100000. */
  lemma GenerateIntKeyBart()
    ensures GenerateIntKey(50265) == Ok(100000)
  {
    GenerateIntKeyIsPowerOfTen(50265);
    assert Digits(50265) == 1 + Digits(5026) == 2 + Digits(502) == 3 + Digits(50) == 4 + Digits(5) == 5;
  }

  /** Any id sequence of a vocabulary of size x packs injectively under the generated key. */
  lemma GenerateIntKeyInjective(x: int, key: nat, a: seq<nat>, b: seq<nat>)
    requires GenerateIntKey(x) == Ok(key) && |a| == |b|
    requires forall i :: 0 <= i < |a| ==> a[i] < x
    requires forall i :: 0 <= i < |b| ==> b[i] < x
    requires Pack(a, key) == Pack(b, key)
    ensures a == b
  {
    GenerateIntKeyIsPowerOfTen(x);
    PackInjective(a, b, Pow(10, Digits(x)));
  }

  /** Python's `round(x, -k)` on an int: the nearest multiple of unit = 10^k, ties to the
      even multiple. */
  function RoundHalfEven(x: nat, unit: nat): (r: nat)
    requires unit > 0
  {
    var q, rem := x / unit, x % unit;
    if 2 * rem < unit then q * unit
    else if 2 * rem > unit then (q + 1) * unit
    else if q % 2 == 0 then q * unit
    else (q + 1) * unit
  }

  /** Rounding lands on a multiple of unit at most half a unit away, and on a tie it
      picks the even multiple. */
  lemma RoundHalfEvenNearest(x: nat, unit: nat)
    requires unit > 0
    ensures RoundHalfEven(x, unit) % unit == 0
    ensures 2 * (RoundHalfEven(x, unit) - x) <= unit && 2 * (x - RoundHalfEven(x, unit)) <= unit
    ensures 2 * (RoundHalfEven(x, unit) - x) == unit || 2 * (x - RoundHalfEven(x, unit)) == unit
            ==> (RoundHalfEven(x, unit) / unit) % 2 == 0
  {
    var q, rem := x / unit, x % unit;
    assert x == q * unit + rem;
    assert (q + 1) * unit == q * unit + unit;
    ModOfMultiplePlus(q, unit, 0);
    ModOfMultiplePlus(q + 1, unit, 0);
    DivOfMultiple(q, unit);
    DivOfMultiple(q + 1, unit);
  }

  lemma DivOfMultiple(q: nat, unit: nat)
    requires unit > 0
    ensures (q * unit) / unit == q
  {
    var d, m := (q * unit) / unit, (q * unit) % unit;
    DivModUnique(d, m, q, 0, unit);
  }

  /** The rounded radix of the bigram summary lookup: `round(vocab_size, -5)`. */
  function RoundedKey(vocabSize: nat): nat
  {
    RoundHalfEven(vocabSize, 100000)
  }

  /** The rounded radix is right for BART (50265 -> 100000) but not in general: a BERT-sized
      vocabulary (30522) rounds to 0, and 149999 rounds to 100000, below the largest id,
      so the distinct bigrams (1, 100000) and (2, 0) share the key 200000. */
  lemma RoundedKeyTooSmall()
    ensures RoundedKey(50265) == 100000
    ensures RoundedKey(30522) == 0
    ensures RoundedKey(149999) == 100000
    ensures [1, 100000] != [2, 0]
    ensures Pack([1, 100000], RoundedKey(149999)) == Pack([2, 0], RoundedKey(149999)) == 200000
  {
    assert [1, 100000][..1] == [1];
    assert [2, 0][..1] == [2];
    assert [1][..0] == [] && [2][..0] == [];
  }
}
