/**
 * Java values held by properties. A value is either null or a reference to an
 * object; the reference carries an identity (`id`) besides its content, so the
 * model can tell Java's `==` (reference identity) from `Objects.equals`.
 */
module Values {

  /** The string-encoded library types (parsed with `::new` or `::parse`). */
  datatype CanonicalKind = BigDecimal | BigInteger | Instant | Duration

  /** What an object holds, independent of where it lives. */
  datatype Content =
    | Integral(n: int)                               // Byte, Integer or Long
    | Text(s: string)                                // String
    | EnumConstant(ordinal: nat)                     // a constant of an enum type
    | Canonical(kind: CanonicalKind, text: string)   // a library value, by its canonical string

  datatype Value = Null | Box(id: nat, content: Content)

  /** `Objects.equals(a, b)`: both null, or equal contents. */
  predicate Equal(a: Value, b: Value) {
    (a.Null? && b.Null?) || (a.Box? && b.Box? && a.content == b.content)
  }

  /**
   * Java's `a == b` on references: the same object. Enum constants are
   * singletons, so two references to the same constant are always identical.
   */
  predicate Identical(a: Value, b: Value) {
    a == b || (a.Box? && b.Box? && a.content.EnumConstant? && a.content == b.content)
  }

  lemma IdenticalIsEqual(a: Value, b: Value)
    requires Identical(a, b)
    ensures Equal(a, b)
  {
  }

  /**
   * Two distinct objects with the same content are equal but not identical,
   * unless they hold an enum constant (those are singletons).
   */
  lemma EqualButNotIdentical(i: nat, j: nat, c: Content)
    requires i != j && !c.EnumConstant?
    ensures Equal(Box(i, c), Box(j, c))
    ensures !Identical(Box(i, c), Box(j, c))
  {
  }
}
