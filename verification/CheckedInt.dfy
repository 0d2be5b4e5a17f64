/** The checked 64-bit arithmetic that native programs are compiled with. Values are
    of a range-checked type, so every intermediate step is shown to be representable. */
module CheckedInt {
  const TWO_63: int := 0x8000_0000_0000_0000
  const TWO_64: int := 0x1_0000_0000_0000_0000

  newtype int64 = x: int | -0x8000_0000_0000_0000 <= x < 0x8000_0000_0000_0000

  const INT64_MIN: int64 := -0x8000_0000_0000_0000
  const INT64_MAX: int64 := 0x7FFF_FFFF_FFFF_FFFF

  datatype Status = Ok | Overflow | DivZero

  /** The storage an operation writes its result to. */
  class Slot {
    var value: int64
    constructor (value: int64)
      ensures this.value == value
    {
      this.value := value;
    }
  }

  predicate Fits(x: int)
  {
    -TWO_63 <= x < TWO_63
  }

  // ---------- division ----------

  function Magnitude(x: int): nat
  {
    if x < 0 then -x else x
  }

  /** Division that truncates toward zero. */
  function Quotient(a: int, b: int): int
    requires b != 0
  {
    var q := Magnitude(a) / Magnitude(b);
    if (a < 0) == (b < 0) then q else -q
  }

  function Remainder(a: int, b: int): int
    requires b != 0
  {
    a - Quotient(a, b) * b
  }

  /** The remainder is smaller than the divisor and has the sign of the dividend. */
  predicate Truncates(a: int, b: int, q: int, r: int)
  {
    a == q * b + r && Magnitude(r) < Magnitude(b) && (r == 0 || (r < 0) == (a < 0))
  }

  /** Truncating division exists. */
  lemma DivisionTruncates(a: int, b: int)
    requires b != 0
    ensures Truncates(a, b, Quotient(a, b), Remainder(a, b))
  {
    var n, d: int := Magnitude(a), Magnitude(b);
    var m := n / d;
    Euclid(n, d);
    SignedProduct(a, b, m, d);
    assert Quotient(a, b) * b == if a < 0 then -(m * d) else m * d;
  }

  lemma Euclid(n: nat, d: nat)
    requires d > 0
    ensures n / d * d <= n < n / d * d + d
  {
  }

  /** The sign of a truncated quotient times its divisor is that of the dividend. */
  lemma SignedProduct(a: int, b: int, m: int, d: int)
    requires b != 0 && d == Magnitude(b)
    ensures (if (a < 0) == (b < 0) then m else -m) * b == if a < 0 then -(m * d) else m * d
  {
    NegatedProduct(m, d);
    if b < 0 {
      assert m * b == -(m * d);
      assert (-m) * b == m * d;
    }
  }

  lemma NegatedProduct(m: int, d: int)
    ensures (-m) * d == -(m * d)
  {
  }

  /** Truncating division is unique, so it is what the C standard and Rust compute. */
  lemma DivisionIsUnique(a: int, b: int, q: int, r: int)
    requires b != 0 && Truncates(a, b, q, r)
    ensures q == Quotient(a, b) && r == Remainder(a, b)
  {
    DivisionTruncates(a, b);
    var q', r' := Quotient(a, b), Remainder(a, b);
    hide Quotient, Remainder;
    Distributes(q, q', b);
    SmallMultiple(q - q', b, r' - r);
  }

  lemma Distributes(x: int, y: int, b: int)
    ensures (x - y) * b == x * b - y * b
  {
  }

  /** A multiple of `b` smaller than `b` is zero. */
  lemma SmallMultiple(k: int, b: int, x: int)
    requires b != 0 && k * b == x && Magnitude(x) < Magnitude(b)
    ensures k == 0 && x == 0
  {
    if k >= 1 {
      Grows(k, Magnitude(b));
    } else if k <= -1 {
      Grows(-k, Magnitude(b));
    }
  }

  lemma Grows(k: int, d: nat)
    requires k >= 1
    ensures k * d >= d
  {
  }

  /** The remainder and quotient of representable values are representable, except MIN by -1. */
  lemma DivisionFits(a: int64, b: int64)
    requires b != 0
    ensures Fits(Quotient(a as int, b as int)) <==> !(a == INT64_MIN && b == -1)
    ensures Fits(Remainder(a as int, b as int))
  {
    QuotientSize(Magnitude(a as int), Magnitude(b as int));
    RemainderFits(a as int, b as int);
    hide Remainder;
  }

  lemma RemainderFits(a: int, b: int)
    requires b != 0 && Fits(a) && Fits(b)
    ensures Fits(Remainder(a, b))
  {
    DivisionTruncates(a, b);
    hide Quotient, Remainder;
  }

  lemma QuotientSize(n: nat, d: nat)
    requires d > 0
    ensures if d == 1 then n / d == n else 2 * (n / d) <= n
  {
    var q := n / d;
    assert q * d <= n;
    if d > 1 {
      Monotone(2, d, q);
    }
  }

  // ---------- addition and subtraction ----------

  /** The value kept in 64 bits, as an overflow builtin stores it. */
  function Wrap(x: int): (r: int64)
    ensures (r as int - x) % TWO_64 == 0
  {
    ((x + TWO_63) % TWO_64 - TWO_63) as int64
  }

  /** The builtin's flag: the stored value is not the true result. */
  predicate BuiltinOverflows(x: int)
  {
    Wrap(x) as int != x
  }

  predicate PortableAddOverflows(left: int64, right: int64)
  {
    (right > 0 && left > INT64_MAX - right) || (right < 0 && left < INT64_MIN - right)
  }

  predicate PortableSubOverflows(left: int64, right: int64)
  {
    (right > 0 && left < INT64_MIN + right) || (right < 0 && left > INT64_MAX + right)
  }

  lemma BuiltinIsExact(x: int)
    ensures BuiltinOverflows(x) <==> !Fits(x)
  {
    if Fits(x) {
      assert (x + TWO_63) % TWO_64 == x + TWO_63;
    }
  }

  /** Both compilations of each helper refuse the same inputs. */
  lemma PortableAgreesWithBuiltin(left: int64, right: int64)
    ensures PortableAddOverflows(left, right) <==> BuiltinOverflows(left as int + right as int)
    ensures PortableSubOverflows(left, right) <==> BuiltinOverflows(left as int - right as int)
  {
    BuiltinIsExact(left as int + right as int);
    BuiltinIsExact(left as int - right as int);
  }

  /** `ku_int_neg`. */
  method Neg(value: int64, out: Slot) returns (s: Status)
    modifies out
    ensures s == (if Fits(-(value as int)) then Ok else Overflow)
    ensures out.value as int == if s == Ok then -(value as int) else old(out.value) as int
  {
    if value == INT64_MIN {
      return Overflow;
    }
    out.value := -value;
    s := Ok;
  }

  /** `ku_int_add`, compiled with or without the overflow builtins. */
  method Add(builtins: bool, left: int64, right: int64, out: Slot) returns (s: Status)
    modifies out
    ensures s == (if Fits(left as int + right as int) then Ok else Overflow)
    ensures out.value as int == if s == Ok then left as int + right as int else old(out.value) as int
  {
    PortableAgreesWithBuiltin(left, right);
    BuiltinIsExact(left as int + right as int);
    if builtins {
      var result := Wrap(left as int + right as int);
      if BuiltinOverflows(left as int + right as int) {
        return Overflow;
      }
      out.value := result;
    } else {
      if PortableAddOverflows(left, right) {
        return Overflow;
      }
      out.value := left + right;
    }
    s := Ok;
  }

  /** `ku_int_sub`, compiled with or without the overflow builtins. */
  method Sub(builtins: bool, left: int64, right: int64, out: Slot) returns (s: Status)
    modifies out
    ensures s == (if Fits(left as int - right as int) then Ok else Overflow)
    ensures out.value as int == if s == Ok then left as int - right as int else old(out.value) as int
  {
    PortableAgreesWithBuiltin(left, right);
    BuiltinIsExact(left as int - right as int);
    if builtins {
      var result := Wrap(left as int - right as int);
      if BuiltinOverflows(left as int - right as int) {
        return Overflow;
      }
      out.value := result;
    } else {
      if PortableSubOverflows(left, right) {
        return Overflow;
      }
      out.value := left - right;
    }
    s := Ok;
  }

  // ---------- multiplication ----------

  /** The machine's division; the only quotient that is not representable is excluded. */
  function Divide(a: int64, b: int64): (q: int64)
    requires b != 0 && !(a == INT64_MIN && b == -1)
    ensures q as int == Quotient(a as int, b as int)
  {
    DivisionFits(a, b);
    Quotient(a as int, b as int) as int64
  }

  /** The test before the product: one comparison with a quotient per pair of signs. */
  predicate ProductOverflows(left: int64, right: int64)
  {
    if left > 0 && right > 0 then left > Divide(INT64_MAX, right)
    else if left > 0 && right < 0 then right < Divide(INT64_MIN, left)
    else if left < 0 && right > 0 then left < Divide(INT64_MIN, right)
    else if left < 0 && right < 0 then left < Divide(INT64_MAX, right)
    else false
  }

  lemma DivideBound(x: nat, d: nat, n: nat)
    requires d > 0
    ensures x * d <= n <==> x <= n / d
  {
    var q := n / d;
    assert q * d <= n < (q + 1) * d;
    if x <= q {
      Monotone(x, q, d);
    } else {
      Monotone(q + 1, x, d);
    }
  }

  lemma Monotone(a: nat, b: nat, d: nat)
    requires a <= b
    ensures a * d <= b * d
  {
  }

  /** The test refuses exactly the products that are not representable. */
  lemma ProductTestIsExact(left: int64, right: int64)
    ensures ProductOverflows(left, right) <==> !Fits(left as int * right as int)
  {
    var l, r := left as int, right as int;
    var a, b := Magnitude(l), Magnitude(r);
    ProductSign(l, r);
    var limit := if (l < 0) == (r < 0) then TWO_63 - 1 else TWO_63;
    if left > 0 && right < 0 {
      DivideBound(b, a, limit);
    } else if left != 0 && right != 0 {
      DivideBound(a, b, limit);
    }
  }

  lemma ProductSign(l: int, r: int)
    ensures l * r == if (l < 0) == (r < 0) then Magnitude(l) * Magnitude(r) else -(Magnitude(l) * Magnitude(r))
    ensures Magnitude(l) * Magnitude(r) == Magnitude(r) * Magnitude(l)
  {
  }

  /** `ku_int_mul`. */
  method Mul(left: int64, right: int64, out: Slot) returns (s: Status)
    modifies out
    ensures s == (if Fits(left as int * right as int) then Ok else Overflow)
    ensures out.value as int == if s == Ok then left as int * right as int else old(out.value) as int
  {
    ProductTestIsExact(left, right);
    if left > 0 {
      if right > 0 {
        if left > Divide(INT64_MAX, right) { return Overflow; }
      } else if right < 0 {
        if right < Divide(INT64_MIN, left) { return Overflow; }
      }
    } else if left < 0 {
      if right > 0 {
        if left < Divide(INT64_MIN, right) { return Overflow; }
      } else if right < 0 {
        if left < Divide(INT64_MAX, right) { return Overflow; }
      }
    }
    out.value := left * right;
    s := Ok;
  }

  // ---------- division and remainder ----------

  /** The status both division helpers return. */
  function DivisionStatus(left: int64, right: int64): Status
  {
    if right == 0 then DivZero
    else if Fits(Quotient(left as int, right as int)) then Ok
    else Overflow
  }

  /** `ku_int_div`. */
  method Div(left: int64, right: int64, out: Slot) returns (s: Status)
    modifies out
    ensures s == DivisionStatus(left, right)
    ensures s == Ok ==> out.value as int == Quotient(left as int, right as int)
    ensures s != Ok ==> out.value == old(out.value)
  {
    if right == 0 {
      return DivZero;
    }
    DivisionFits(left, right);
    if left == INT64_MIN && right == -1 {
      return Overflow;
    }
    out.value := Divide(left, right);
    s := Ok;
  }

  /** `ku_int_rem`: refused together with the quotient, also where the remainder
      itself would be representable. */
  method Rem(left: int64, right: int64, out: Slot) returns (s: Status)
    modifies out
    ensures s == DivisionStatus(left, right)
    ensures s == Ok ==> out.value as int == Remainder(left as int, right as int)
    ensures s != Ok ==> out.value == old(out.value)
  {
    if right == 0 {
      return DivZero;
    }
    DivisionFits(left, right);
    if left == INT64_MIN && right == -1 {
      return Overflow;
    }
    out.value := Remainder(left as int, right as int) as int64;
    s := Ok;
  }

  /** The one refused remainder that is representable. */
  lemma RefusedRemainder()
    ensures DivisionStatus(INT64_MIN, -1) == Overflow && Remainder(INT64_MIN as int, -1) == 0
    ensures Fits(Remainder(INT64_MIN as int, -1))
  {
  }
}
