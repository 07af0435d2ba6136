/** `VTLInteger`, the integer variant of the typed values: it wraps a Java
    `Long` that may be `null`, so a null integer is still an integer. */
module VtlIntegers {

  import opened Wrappers
  import opened JavaInts

  /** The value variants; `getVTLType` names the variant's class. */
  datatype VtlType = IntegerType | FloatType | StringType | BooleanType | ObjectType

  /** An integer value; `value` is what `get()` returns, `None` for `null`. */
  datatype VtlInteger = VtlInteger(value: Option<Int64>) {

    /** `get()` */
    function Get(): Option<Int64> {
      value
    }

    /** `getVTLType()` */
    function VtlTypeOf(): VtlType {
      IntegerType
    }
  }

  /** `VTLInteger.of(Long)`: wraps the argument as it is, `null` included. */
  function OfLong(v: Option<Int64>): (r: VtlInteger)
    ensures r.Get() == v
  {
    VtlInteger(v)
  }

  /** `VTLInteger.of(Integer)`: a non-null argument is widened to `long`; a
      `null` argument gives the null integer rather than a failure. */
  function OfInteger(v: Option<Int32>): (r: VtlInteger)
    ensures v.None? ==> r.Get().None?
    ensures v.Some? ==> r.Get() == Some(v.value as Int64)
  {
    OfLong(if v.Some? then Some(v.value as Int64) else None)
  }

  /** `VTLInteger.NULL` */
  const NULL: VtlInteger := OfInteger(None)

  lemma NullIsNull()
    ensures NULL.Get().None?
    ensures NULL == OfLong(None)
  {
  }

  /** `get()` gives back what `of(Long)` was given, so `of(Long)` is
      injective, and every integer value is `of(Long)` of its own `get()`. */
  lemma OfLongGet(v: Option<Int64>, x: VtlInteger)
    ensures OfLong(v).Get() == v
    ensures OfLong(x.Get()) == x
  {
  }

  /** The `Integer` factory agrees with the `Long` factory on the widened
      argument, and what it holds narrows back to the argument. */
  lemma OfIntegerIsOfLongWidened(v: Int32)
    ensures OfInteger(Some(v)) == OfLong(Some(v as Int64))
    ensures var g := OfInteger(Some(v)).Get().value; INT_MIN <= g <= INT_MAX && g as Int32 == v
  {
  }

  /** The type does not depend on the value, null or not. */
  lemma TypeIgnoresValue(a: VtlInteger, b: VtlInteger)
    ensures a.VtlTypeOf() == b.VtlTypeOf() == IntegerType
  {
  }
}
