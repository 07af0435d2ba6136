/** `equals` and `hashCode` of `AbstractComponent`: two components are equal
    when they are the same object, or when they have the same runtime class
    and equal name, type and value; the hash is `Objects.hash` of that same
    triple. */
module Components {

  import opened Wrappers
  import opened JavaInts

  /** A component object as `equals` sees it: `ref` is the object's identity
      (what `==` on references compares), `cls` its runtime class, and
      `name`, `typ` and `value` what `name()`, `type()` and `get()` return,
      `None` standing for `null`. The type is identified by its class name
      and values are compared with value equality. */
  datatype ComponentObject<V> =
    ComponentObject(ref: nat, cls: string, name: Option<string>, typ: Option<string>, value: Option<V>)
  {
    /** The triple `equals` and `hashCode` are defined over. */
    function Triple(): (Option<string>, Option<string>, Option<V>) {
      (name, typ, value)
    }
  }

  /** `c.equals(o)`, with `o == None` for a `null` argument. */
  function Equals<V(==)>(c: ComponentObject<V>, o: Option<ComponentObject<V>>): (r: bool)
    ensures o.None? ==> !r
    ensures o.Some? && o.value.ref == c.ref ==> r
    ensures o.Some? && o.value.ref != c.ref ==>
      (r <==> o.value.cls == c.cls && o.value.Triple() == c.Triple())
  {
    if o.Some? && o.value.ref == c.ref then true
    else if o.None? || c.cls != o.value.cls then false
    else
      var that := o.value;
      that.name == c.name && that.typ == c.typ && that.value == c.value
  }

  /** Two snapshots of the heap agree: one reference denotes one object. */
  predicate SameHeap<V(==)>(a: ComponentObject<V>, b: ComponentObject<V>) {
    a.ref == b.ref ==> a == b
  }

  /** On a consistent heap, equality is exactly "same class and same
      triple", in both directions. */
  lemma EqualsIsClassAndTriple<V>(a: ComponentObject<V>, b: ComponentObject<V>)
    requires SameHeap(a, b)
    ensures Equals(a, Some(b)) <==> a.cls == b.cls && a.Triple() == b.Triple()
  {
  }

  /** Every component equals itself. */
  lemma EqualsReflexive<V>(a: ComponentObject<V>)
    ensures Equals(a, Some(a))
  {
  }

  /** `a.equals(b)` and `b.equals(a)` agree. */
  lemma EqualsSymmetric<V>(a: ComponentObject<V>, b: ComponentObject<V>)
    ensures Equals(a, Some(b)) == Equals(b, Some(a))
  {
  }

  lemma EqualsTransitive<V>(a: ComponentObject<V>, b: ComponentObject<V>, c: ComponentObject<V>)
    requires SameHeap(a, b) && SameHeap(b, c) && SameHeap(a, c)
    requires Equals(a, Some(b)) && Equals(b, Some(c))
    ensures Equals(a, Some(c))
  {
    EqualsIsClassAndTriple(a, b);
    EqualsIsClassAndTriple(b, c);
    EqualsIsClassAndTriple(a, c);
  }

  // ----------------------------------------------------------------- hash

  /** The UTF-16 code units Java stores for one character: the character
      itself below 0x10000, otherwise a high surrogate carrying the upper
      ten bits of `c - 0x10000` followed by a low surrogate carrying the
      lower ten. */
  function CodeUnits(c: char): (u: seq<int>)
    ensures c as int < 0x1_0000 ==> u == [c as int]
    ensures c as int >= 0x1_0000 ==>
      |u| == 2 && 0xD800 <= u[0] < 0xDC00 && 0xDC00 <= u[1] < 0xE000 &&
      0x1_0000 + (u[0] - 0xD800) * 0x400 + (u[1] - 0xDC00) == c as int
  {
    var v := c as int;
    if v < 0x1_0000 then [v]
    else [0xD800 + (v - 0x1_0000) / 0x400, 0xDC00 + (v - 0x1_0000) % 0x400]
  }

  /** The UTF-16 encoding of a string, the `char` array `String.hashCode`
      runs over. */
  function Utf16(s: string): (u: seq<int>)
    ensures |u| >= |s|
    ensures forall k :: 0 <= k < |u| ==> 0 <= u[k] < 0x1_0000
  {
    if |s| == 0 then [] else Utf16(s[..|s| - 1]) + CodeUnits(s[|s| - 1])
  }

  /** A string without supplementary characters is its own encoding. */
  lemma {:induction false} Utf16OfBasic(s: string)
    requires forall k :: 0 <= k < |s| ==> s[k] as int < 0x1_0000
    ensures |Utf16(s)| == |s|
    ensures forall k :: 0 <= k < |s| ==> Utf16(s)[k] == s[k] as int
  {
    if |s| > 0 {
      Utf16OfBasic(s[..|s| - 1]);
    }
  }

  /** The exact value of a hash fold before wrapping:
      `u[0]*31^(n-1) + ... + u[n-1]`. */
  function Polynomial(u: seq<int>): int {
    if |u| == 0 then 0 else 31 * Polynomial(u[..|u| - 1]) + u[|u| - 1]
  }

  /** The loop of `String.hashCode`: `h = 31 * h + val[i]` over the code
      units, in `int` arithmetic, starting from 0. */
  function UnitsHash(u: seq<int>): Int32
    requires forall k :: 0 <= k < |u| ==> 0 <= u[k] < 0x1_0000
  {
    if |u| == 0 then 0 else HashStep(UnitsHash(u[..|u| - 1]), u[|u| - 1])
  }

  /** The loop's result is its polynomial reduced to an `int`. */
  lemma {:induction false} UnitsHashIsPolynomial(u: seq<int>)
    requires forall k :: 0 <= k < |u| ==> 0 <= u[k] < 0x1_0000
    ensures UnitsHash(u) == Wrap32(Polynomial(u))
  {
    if |u| > 0 {
      var p := u[..|u| - 1];
      UnitsHashIsPolynomial(p);
      HashStepOfWrapped(Polynomial(p), u[|u| - 1]);
    }
  }

  /** `String.hashCode`: the hash loop over the string's UTF-16 code
      units. */
  function StringHash(s: string): (h: Int32)
    ensures h == Wrap32(Polynomial(Utf16(s)))
  {
    UnitsHashIsPolynomial(Utf16(s));
    UnitsHash(Utf16(s))
  }

  /** `Arrays.hashCode` of element hashes: `r = 31 * r + h` from 1, which
      is the polynomial of the hashes with a leading 1. */
  function ArraysHash(hs: seq<Int32>): (h: Int32)
    ensures h == Wrap32(Polynomial([1] + hs))
  {
    if |hs| == 0 then 1
    else
      var front := hs[..|hs| - 1];
      assert ([1] + hs)[..|hs|] == [1] + front;
      HashStepOfWrapped(Polynomial([1] + front), hs[|hs| - 1]);
      HashStep(ArraysHash(front), hs[|hs| - 1])
  }

  /** `Objects.hash(x, y, z)` is `31^3 + 31^2*h(x) + 31*h(y) + h(z)` reduced
      to an `int`. */
  lemma ArraysHashOfThree(a: Int32, b: Int32, c: Int32)
    ensures ArraysHash([a, b, c]) == Wrap32(29791 + 961 * a + 31 * b + c)
  {
    assert [a, b, c][..2] == [a, b];
    assert [a, b][..1] == [a];
    assert [a][..0] == [];
    assert ArraysHash([]) == 1;
    assert ArraysHash([a]) == HashStep(1, a);
    HashStepOfWrapped(31 + a, b);
    assert ArraysHash([a, b]) == Wrap32(961 + 31 * a + b);
    HashStepOfWrapped(961 + 31 * a + b, c);
  }

  /** The hash of a nullable reference: 0 for `null`. */
  function NullableHash<T>(x: Option<T>, hash: T -> Int32): Int32 {
    match x
    case None => 0
    case Some(v) => hash(v)
  }

  /** `hashCode()`: `Objects.hash(name(), type(), get())`. The identity
      hash of the type's class and the value's own hash are parameters. */
  function HashCode<V>(c: ComponentObject<V>, classHash: string -> Int32, valueHash: V -> Int32): (h: Int32)
    ensures h == Wrap32(29791 + 961 * NullableHash(c.name, StringHash)
      + 31 * NullableHash(c.typ, classHash) + NullableHash(c.value, valueHash))
  {
    var hs := [NullableHash(c.name, StringHash), NullableHash(c.typ, classHash), NullableHash(c.value, valueHash)];
    ArraysHashOfThree(hs[0], hs[1], hs[2]);
    ArraysHash(hs)
  }

  /** The hash reads nothing but the triple: not the identity, not the
      class. */
  lemma HashOfTriple<V>(a: ComponentObject<V>, b: ComponentObject<V>, classHash: string -> Int32, valueHash: V -> Int32)
    requires a.Triple() == b.Triple()
    ensures HashCode(a, classHash, valueHash) == HashCode(b, classHash, valueHash)
  {
  }

  /** Equal components have equal hashes. */
  lemma EqualsImpliesEqualHash<V>(a: ComponentObject<V>, b: ComponentObject<V>, classHash: string -> Int32, valueHash: V -> Int32)
    requires SameHeap(a, b) && Equals(a, Some(b))
    ensures HashCode(a, classHash, valueHash) == HashCode(b, classHash, valueHash)
  {
    EqualsIsClassAndTriple(a, b);
    HashOfTriple(a, b, classHash, valueHash);
  }

  /** `"m1".hashCode()` is 3428, as `31 * 'm' + '1'`. */
  lemma StringHashExample()
    ensures StringHash("m1") == 3428
  {
    Utf16OfBasic("m1");
    var u := Utf16("m1");
    assert u == [109, 49];
    assert u[..1] == [109] && [109][..0] == [];
  }

  /** A character outside the Basic Multilingual Plane is hashed as its
      two surrogates: U+1D538 is 0xD835 0xDD38, and 31 * 0xD835 + 0xDD38
      is 1772451. */
  lemma SupplementaryHashExample()
    ensures StringHash("\U{1D538}") == 1772451
  {
    var s := "\U{1D538}";
    assert s[..0] == [];
    var u := Utf16(s);
    assert u == [0xD835, 0xDD38];
    assert u[..1] == [0xD835] && [0xD835][..0] == [];
  }
}
