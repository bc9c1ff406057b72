/**
 * The converters (`Gateway<V, JSONValue>`) between property values and JSON,
 * as built by the factory methods of PropertyObject.
 */
module Gateways {
  import opened Outcomes
  import opened Json
  import opened Values

  /** The widths of Java's integral types with a property factory. */
  datatype Width = Byte | Int | Long

  function Modulus(w: Width): (m: nat)
    ensures m > 0 && m % 2 == 0
  {
    match w
    case Byte => 0x100
    case Int => 0x1_0000_0000
    case Long => 0x1_0000_0000_0000_0000
  }

  predicate InRange(n: int, w: Width) {
    -(Modulus(w) / 2) <= n < Modulus(w) / 2
  }

  /**
   * Java's narrowing of a `long` to `w` bits (`intValue`, `byteValue`,
   * `longValue`): keep the low bits, read them in two's complement.
   */
  function Narrow(m: int, w: Width): (r: int)
    ensures InRange(r, w)
    ensures (m - r) % Modulus(w) == 0
    ensures InRange(m, w) ==> r == m
  {
    var k := m % Modulus(w);
    if k >= Modulus(w) / 2 then k - Modulus(w) else k
  }

  /** The Java type `V` of a `Property<V>`. */
  datatype JavaType =
    | IntegralType(width: Width)
    | StringType
    | EnumType(constants: seq<string>)
    | CanonicalType(kind: CanonicalKind)

  /** The converters built by `integralJsonGateway`, `stringProperty`, `enumProperty`,
      `enumStringProperty` and `toStringGateway`. */
  datatype Gateway =
    | NumberGateway(width: Width)                          // JSONNumber(longValue) / JSONNumber::xxxValue
    | StringGateway                                        // JSONString / getValue
    | OrdinalGateway(constants: seq<string>)               // JSONNumber(ordinal) / getEnumConstants()[intValue]
    | EnumNameGateway(constants: seq<string>, key: string) // JSONString(name) / Enum.valueOf(type, key)
    | ParsedGateway(kind: CanonicalKind)                   // JSONString(toString) / parse

  function TypeOf(g: Gateway): JavaType {
    match g
    case NumberGateway(w) => IntegralType(w)
    case StringGateway => StringType
    case OrdinalGateway(cs) => EnumType(cs)
    case EnumNameGateway(cs, _) => EnumType(cs)
    case ParsedGateway(k) => CanonicalType(k)
  }

  /** A value of Java type `t`: null, or an object of that type. */
  predicate Conforms(t: JavaType, v: Value) {
    match v
    case Null => true
    case Box(_, c) =>
      match t
      case IntegralType(w) => c.Integral? && InRange(c.n, w)
      case StringType => c.Text?
      case EnumType(cs) => c.EnumConstant? && c.ordinal < |cs|
      case CanonicalType(k) => c.Canonical? && c.kind == k
  }

  predicate TypedFor(g: Gateway, v: Value) {
    Conforms(TypeOf(g), v)
  }

  /** The first position of `name` in `names`. */
  function IndexOf(names: seq<string>, name: string): (i: nat)
    requires name in names
    ensures i < |names| && names[i] == name
    ensures forall j :: 0 <= j < i ==> names[j] != name
  {
    if names[0] == name then 0 else 1 + IndexOf(names[1..], name)
  }

  /**
   * `converter.to(value)`. The string converter wraps its argument, null
   * included, in a JSONString; every other converter dereferences it, so null
   * throws NullPointerException. A value of the wrong class throws ClassCastException.
   */
  function To(g: Gateway, v: Value): (r: Result<Json>)
    ensures r.Failure? ==> (v.Null? && r.error == NullPointer) || !TypedFor(g, v)
    ensures r.Failure? && v.Box? ==> r.error == ClassCast
    ensures v.Null? ==> (r.Success? <==> g.StringGateway?)
    ensures v.Null? && !g.StringGateway? ==> r == Failure(NullPointer)
    ensures TypedFor(g, v) && (v.Box? || g.StringGateway?) ==> r.Success?
  {
    match v
    case Null => if g.StringGateway? then Success(JNullString) else Failure(NullPointer)
    case Box(_, c) =>
      match g
      case NumberGateway(w) => if c.Integral? && InRange(c.n, w) then Success(JNumber(c.n)) else Failure(ClassCast)
      case StringGateway => if c.Text? then Success(JString(c.s)) else Failure(ClassCast)
      case OrdinalGateway(cs) =>
        if c.EnumConstant? && c.ordinal < |cs| then Success(JNumber(c.ordinal)) else Failure(ClassCast)
      case EnumNameGateway(cs, _) =>
        if c.EnumConstant? && c.ordinal < |cs| then Success(JString(cs[c.ordinal])) else Failure(ClassCast)
      case ParsedGateway(k) =>
        if c.Canonical? && c.kind == k then Success(JString(c.text)) else Failure(ClassCast)
  }

  /**
   * `converter.from(properties.get(key))`: decodes a stored entry, None being
   * the null that `get` returns for a missing key. The result is the content of
   * the decoded object, or None when the converter yields null (the string
   * converter reading a JSONString that wraps null).
   */
  function From(g: Gateway, j: Option<Json>): (r: Result<Option<Content>>)
    ensures j.None? ==> r == Failure(NullPointer)
    ensures r.Success? && r.value.Some? ==> TypedFor(g, Box(0, r.value.value))
    ensures r.Success? && r.value.None? ==> g.StringGateway?
  {
    match j
    case None => Failure(NullPointer)
    case Some(json) =>
      match g
      case NumberGateway(w) => if json.JNumber? then Success(Some(Integral(Narrow(json.n, w)))) else Failure(ClassCast)
      case StringGateway =>
        if json.JString? then Success(Some(Text(json.s)))
        else if json.JNullString? then Success(None)
        else Failure(ClassCast)
      case OrdinalGateway(cs) =>
        if !json.JNumber? then Failure(ClassCast)
        else
          var i := Narrow(json.n, Int);
          if 0 <= i < |cs| then Success(Some(EnumConstant(i))) else Failure(IndexOutOfBounds)
      case EnumNameGateway(cs, key) =>
        if !(json.JString? || json.JNullString?) then Failure(ClassCast)
        else if key in cs then Success(Some(EnumConstant(IndexOf(cs, key))))
        else Failure(IllegalArgument("No enum constant " + key))
      case ParsedGateway(k) =>
        if json.JString? then Success(Some(Canonical(k, json.s)))
        else if json.JNullString? then Failure(NullPointer)
        else Failure(ClassCast)
  }

  /** The value a decoded content becomes once allocated as object `id`. */
  function Materialize(d: Option<Content>, id: nat): (v: Value)
    ensures v.Null? <==> d.None?
    ensures v.Box? ==> v.content == d.value
  {
    if d.Some? then Box(id, d.value) else Null
  }

  /**
   * A converter that gives back what it wrote: the content of every non-null
   * value of its type, and null when it can write null at all.
   */
  ghost predicate RoundTrips(g: Gateway) {
    && (forall v :: TypedFor(g, v) && v.Box? ==>
          To(g, v).Success? && From(g, Some(To(g, v).value)) == Success(Some(v.content)))
    && (To(g, Null).Success? ==> From(g, Some(To(g, Null).value)) == Success(None))
  }

  /** int -> long -> int (and byte, long): writing then reading an in-range number is the identity. */
  lemma IntegralRoundTrip(w: Width)
    ensures RoundTrips(NumberGateway(w))
  {
  }

  /** A number outside `int` that reaches an int property's JSON is read back wrapped around. */
  lemma IntegralNarrowsOnRead()
    ensures From(NumberGateway(Int), Some(JNumber(0x8000_0000))) == Success(Some(Integral(-0x8000_0000)))
  {
  }

  /**
   * Enum constants stored by ordinal come back as the same constant (an enum
   * has fewer constants than a Java array can hold, 2^31).
   */
  lemma OrdinalRoundTrip(cs: seq<string>)
    requires |cs| < 0x8000_0000
    ensures RoundTrips(OrdinalGateway(cs))
  {
    forall v | TypedFor(OrdinalGateway(cs), v) && v.Box?
      ensures From(OrdinalGateway(cs), Some(To(OrdinalGateway(cs), v).value)) == Success(Some(v.content))
    {
      assert InRange(v.content.ordinal, Int);
    }
  }

  /** Strings round-trip, and so does null: `new JSONString(null).getValue()` is null. */
  lemma TextRoundTrip()
    ensures RoundTrips(StringGateway)
  {
  }

  /**
   * `enumStringProperty` decodes with `Enum.valueOf(enumType, key)`: the
   * property's key, not the stored string. Whatever constant was written, reading
   * gives the constant named like the key, or IllegalArgumentException.
   */
  lemma EnumNameReadsKey(cs: seq<string>, key: string, v: Value)
    requires TypedFor(EnumNameGateway(cs, key), v) && v.Box?
    ensures To(EnumNameGateway(cs, key), v).Success?
    ensures key !in cs ==> From(EnumNameGateway(cs, key), Some(To(EnumNameGateway(cs, key), v).value)).Failure?
    ensures key in cs ==> From(EnumNameGateway(cs, key), Some(To(EnumNameGateway(cs, key), v).value))
                          == Success(Some(EnumConstant(IndexOf(cs, key))))
  {
  }

  /** A constant written under key "rarity" cannot be read back. */
  lemma EnumNameRoundTripFails()
    ensures From(EnumNameGateway(["COMMON", "RARE"], "rarity"),
                 Some(To(EnumNameGateway(["COMMON", "RARE"], "rarity"), Box(0, EnumConstant(1))).value)).Failure?
  {
  }

  /** Distinct names: the position of the `i`-th name is `i`. */
  predicate DistinctNames(names: seq<string>) {
    forall i, j :: 0 <= i < j < |names| ==> names[i] != names[j]
  }

  lemma {:induction false} IndexOfDistinct(names: seq<string>, i: nat)
    requires DistinctNames(names) && i < |names|
    ensures IndexOf(names, names[i]) == i
  {
    if i > 0 {
      assert names[0] != names[i];
      assert names[1..][i - 1] == names[i];
      IndexOfDistinct(names[1..], i - 1);
    }
  }

  /** The decoding `enumStringProperty` evidently intends: parse the stored name. */
  function FromEnumName(cs: seq<string>, j: Option<Json>): (r: Result<Content>)
    ensures r.Success? ==> r.value.EnumConstant? && r.value.ordinal < |cs|
    ensures r.Success? ==> j.Some? && j.value.JString? && cs[r.value.ordinal] == j.value.s
  {
    match j
    case None => Failure(NullPointer)
    case Some(json) =>
      if json.JNullString? then Failure(NullPointer)
      else if !json.JString? then Failure(ClassCast)
      else if json.s in cs then Success(EnumConstant(IndexOf(cs, json.s)))
      else Failure(IllegalArgument("No enum constant " + json.s))
  }

  /** Reading by the stored name gives back every constant that was written. */
  lemma EnumNameIntendedRoundTrip(cs: seq<string>, key: string, v: Value)
    requires DistinctNames(cs)
    requires TypedFor(EnumNameGateway(cs, key), v) && v.Box?
    ensures To(EnumNameGateway(cs, key), v).Success?
    ensures FromEnumName(cs, Some(To(EnumNameGateway(cs, key), v).value)) == Success(v.content)
  {
    IndexOfDistinct(cs, v.content.ordinal);
  }
}
