/** Car records: the values that lists hold and messages carry, and their validation. */
module Data {

  datatype Option<+T> = None | Some(value: T)

  /** A price is kept as the bit pattern of a 32-bit float; the source only ever copies it
      and tests whether it is below zero. */
  type Price = bits: int | 0 <= bits < 0x1_0000_0000

  datatype Car = Car(ano: int, preco: Price, marca: int, modelo: string, combustivel: int)

  const FIRST_YEAR := 1886
  const MARCA_TOYOTA := 0
  const MARCA_MERCEDES := 4
  const COMBUSTIVEL_GASOLINA := 0
  const COMBUSTIVEL_HIBRIDO := 3

  /** `preco < 0.0f` on the bit pattern: the sign bit is set, and the rest is neither
      zero (negative zero) nor above infinity (a NaN). */
  predicate Negative(p: Price) {
    0x8000_0000 < p <= 0xFF80_0000
  }

  /** The same by the fields of the format: a set sign, on a value that is neither a NaN (all
      exponent bits set over a nonzero fraction) nor a zero. */
  lemma NegativeByFields(p: Price)
    ensures var (sign, exponent, fraction) := (p / 0x8000_0000, p / 0x80_0000 % 256, p % 0x80_0000);
            Negative(p) <==> sign == 1 && !(exponent == 255 && fraction != 0) && !(exponent == 0 && fraction == 0)
  {
    var rest := p % 0x8000_0000;
    assert rest / 0x80_0000 == p / 0x80_0000 % 256 && rest % 0x80_0000 == p % 0x80_0000;
  }

  /** The check that guards every construction of a car; `year` is the current year. */
  predicate Validated(year: int, c: Car) {
    && FIRST_YEAR <= c.ano <= year
    && !Negative(c.preco)
    && MARCA_TOYOTA <= c.marca <= MARCA_MERCEDES
    && COMBUSTIVEL_GASOLINA <= c.combustivel <= COMBUSTIVEL_HIBRIDO
  }

  ghost predicate AllValidated(year: int, s: seq<Car>) {
    forall k :: 0 <= k < |s| ==> Validated(year, s[k])
  }

  /** An allocated record. Nothing in the modelled code assigns to its fields after creation,
      so its content is constant; what matters is which pointer is which. */
  class CarData {
    const value: Car

    constructor (c: Car)
      ensures value == c
    {
      value := c;
    }
  }

  /** Years from 1886 to the current one, prices not below zero (by the fields of the format), five
      brands and four fuels. */
  method DataCreate(year: int, c: Car) returns (r: CarData?)
    ensures r != null <==> Validated(year, c)
    ensures var (sign, exponent, fraction) := (c.preco / 0x8000_0000, c.preco / 0x80_0000 % 256, c.preco % 0x80_0000);
            r != null <==>
              && 1886 <= c.ano <= year && 0 <= c.marca <= 4 && 0 <= c.combustivel <= 3
              && (sign == 0 || (exponent == 255 && fraction != 0) || (exponent == 0 && fraction == 0))
    ensures r != null ==> fresh(r) && r.value == c
  {
    NegativeByFields(c.preco);
    if !Validated(year, c) {
      return null;
    }
    r := new CarData(c);
  }

  /** Duplication goes through creation, so it validates once more. */
  method DataDup(year: int, d: CarData?) returns (r: CarData?)
    ensures r != null <==> d != null && Validated(year, d.value)
    ensures r != null ==> fresh(r) && r.value == d.value
  {
    if d == null {
      return null;
    }
    r := DataCreate(year, d.value);
  }
}
