/**
 Fixed-point amounts with 64-bit whole part and 32-bit decimal part, and timestamps.
 Wrap-around of the machine integers is written out.
 */
module Values {

  const TWO32: nat := 0x1_0000_0000
  const TWO64: nat := 0x1_0000_0000_0000_0000
  const BASE: nat := 1_000_000

  type Uint32 = x: int | 0 <= x < 0x1_0000_0000
  type Uint64 = x: int | 0 <= x < 0x1_0000_0000_0000_0000

  datatype Option<T> = None | Some(value: T)

  datatype Value = Value(amount: Uint64, decimal: Uint32)

  const Zero := Value(0, 0)

  /** What a value is worth, in millionths. */
  function Units(v: Value): nat
  {
    v.amount * BASE + v.decimal
  }

  function Add(a: Value, b: Value): Value
  {
    var amount: Uint64 := (a.amount + b.amount) % TWO64;
    var decimal: Uint32 := (a.decimal + b.decimal) % TWO32;
    if decimal >= BASE then Value((amount + 1) % TWO64, decimal - BASE) else Value(amount, decimal)
  }

  predicate Less(a: Value, b: Value)
  {
    a.amount < b.amount || (a.amount == b.amount && a.decimal < b.decimal)
  }

  /** `None` is the exception "less than zero". */
  function Sub(a: Value, b: Value): (d: Option<Value>)
    ensures d.None? <==> Less(a, b)
  {
    if Less(a, b) then None
    else if a.decimal >= b.decimal then Some(Value(a.amount - b.amount, a.decimal - b.decimal))
    else Some(Value(a.amount - b.amount - 1, (BASE - (b.decimal - a.decimal)) % TWO32))
  }

  predicate Normal(v: Value)
  {
    v.decimal < BASE
  }

  /** No machine integer wraps in `Add`. */
  predicate AddFits(a: Value, b: Value)
  {
    && a.decimal + b.decimal < TWO32
    && a.amount + b.amount + (if a.decimal + b.decimal >= BASE then 1 else 0) < TWO64
  }

  /** Addition is exact, with its carry, if and only if no machine integer wraps. */
  lemma AddExactIff(a: Value, b: Value)
    ensures Units(Add(a, b)) == Units(a) + Units(b) <==> AddFits(a, b)
  {
    var amount, decimal := a.amount + b.amount, a.decimal + b.decimal;
    assert decimal % TWO32 == if decimal < TWO32 then decimal else decimal - TWO32;
    assert amount % TWO64 == if amount < TWO64 then amount else amount - TWO64;
  }

  /** Subtraction is exact, with its borrow, if and only if the decimal part that is
      taken away exceeds the other one by at most one whole unit. */
  lemma SubExactIff(a: Value, b: Value)
    requires !Less(a, b)
    ensures Units(Sub(a, b).value) == Units(a) - Units(b) <==> b.decimal - a.decimal <= BASE
  {
    var d := b.decimal - a.decimal;
    if d > 0 {
      assert (BASE - d) % TWO32 == if d <= BASE then BASE - d else BASE - d + TWO32;
    }
  }

  /** On normalised values the comparison is the order of what they are worth. */
  lemma LessIsOrder(a: Value, b: Value)
    requires Normal(a) && Normal(b)
    ensures Less(a, b) <==> Units(a) < Units(b)
  {
  }

  /** On normalised values subtraction throws exactly when the difference would be negative, and
      otherwise gives it, normalised. */
  lemma SubOfNormal(a: Value, b: Value)
    requires Normal(a) && Normal(b)
    ensures Sub(a, b).None? <==> Units(a) < Units(b)
    ensures Sub(a, b).Some? ==> Normal(Sub(a, b).value) && Units(Sub(a, b).value) == Units(a) - Units(b)
  {
    LessIsOrder(a, b);
    if !Less(a, b) {
      SubExactIff(a, b);
    }
  }

  lemma AddThenSub(a: Value, b: Value)
    requires Normal(a) && Normal(b) && AddFits(a, b)
    ensures Normal(Add(a, b)) && Sub(Add(a, b), b) == Some(a)
  {
  }

  /** Adding leaves a value as it is exactly when zero is added to a normalised value. */
  lemma AddIsIdentityIff(a: Value, b: Value)
    requires Normal(b)
    ensures Add(a, b) == a <==> b == Zero && Normal(a)
  {
    var amount, decimal := a.amount + b.amount, a.decimal + b.decimal;
    assert decimal % TWO32 == if decimal < TWO32 then decimal else decimal - TWO32;
    assert amount % TWO64 == if amount < TWO64 then amount else amount - TWO64;
  }

  lemma SubIsIdentityIff(a: Value, b: Value)
    requires !Less(a, b)
    ensures Sub(a, b) == Some(a) <==> b == Zero
  {
  }

  datatype Timestamp = Timestamp(seconds: int, nanos: int)

  const ZeroTime := Timestamp(0, 0)

  function Minus(a: Timestamp, b: Timestamp): Timestamp
  {
    if a.nanos >= b.nanos then Timestamp(a.seconds - b.seconds, a.nanos - b.nanos)
    else Timestamp(a.seconds - b.seconds - 1, BILLION - (b.nanos - a.nanos))
  }

  const BILLION: int := 1_000_000_000

  /** A time in nanoseconds. */
  function Nanos(t: Timestamp): int
  {
    t.seconds * BILLION + t.nanos
  }

  /** The whole seconds from one time to another, rounded down. */
  function WholeSeconds(from: Timestamp, to: Timestamp): int
  {
    (Nanos(to) - Nanos(from)) / BILLION
  }

  /** The difference of two times is exact, and its seconds are the whole seconds between them if and
      only if the nanoseconds differ by less than one second. */
  lemma MinusExact(to: Timestamp, from: Timestamp)
    ensures Nanos(Minus(to, from)) == Nanos(to) - Nanos(from)
    ensures Minus(to, from).seconds == WholeSeconds(from, to) <==> -BILLION <= to.nanos - from.nanos < BILLION
  {
  }
}
