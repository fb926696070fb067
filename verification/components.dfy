/**
  The behaviour a key borrows from its two components. In Java a key's id and
  its content type are arbitrary objects, and `Key` only ever calls their
  `equals`, `hashCode` and `toString` methods. Those methods are user code,
  so here they are parameters: a `Component<X>` bundles them for values of
  type `X`. The contracts Java asks of them (equality is an equivalence,
  equal values hash alike) are predicates that lemmas may assume.
*/
module Components {

  /** The `equals`, `hashCode` and `toString` of one component type. A Java
      `int` hash is a 32-bit pattern, hence `bv32`. */
  datatype Component<!X> = Component(eq: (X, X) -> bool, hash: X -> bv32, show: X -> string)

  ghost predicate Reflexive<X(!new)>(c: Component<X>) {
    forall x :: c.eq(x, x)
  }

  ghost predicate Symmetric<X(!new)>(c: Component<X>) {
    forall x, y :: c.eq(x, y) ==> c.eq(y, x)
  }

  ghost predicate Transitive<X(!new)>(c: Component<X>) {
    forall x, y, z :: c.eq(x, y) && c.eq(y, z) ==> c.eq(x, z)
  }

  /** The `hashCode` contract of `java.lang.Object`: equal values have equal hashes. */
  ghost predicate HashAgrees<X(!new)>(c: Component<X>) {
    forall x, y :: c.eq(x, y) ==> c.hash(x) == c.hash(y)
  }

  /** The component's `equals` is plain value identity (as for strings and enums). */
  ghost predicate IsIdentity<X(!new)>(c: Component<X>) {
    forall x, y :: c.eq(x, y) <==> x == y
  }
}
