# JBuildStore keys in Dafny

This project models `jbuildstore.core.Key`, the value object that names one
piece of content in a JBuildStore content store. A key pairs an opaque
identifier (type parameter `S`) with a content type (type parameter `T`).
The model covers the following behaviour:

- the constructor, which rejects a `null` id or a `null` content type and checks the id first;
- the `id()` and `contentType()` accessors;
- `equals`, which compares content types and then ids;
- `hashCode`, the XOR of the two component hashes, as a 32-bit pattern;
- `toString`, which joins the id's string and the content type's string with a colon.

Java's `null` arguments become `Option.None`. The thrown
`IllegalArgumentException` becomes `Result.Failure(InvalidArgument(message))`,
with the source's two messages. The argument of `equals` is an `Object`: either
another key or any other value, where the other case also stands for `null`.

A key never implements `equals`, `hashCode` or `toString` for its components.
It calls theirs, and those are user code. So each component's three methods
are a parameter, `Component<X>`, made of total functions. The Java contracts
for those methods are predicates in `Components`:

- `equals` is reflexive, symmetric and transitive;
- `hashCode` agrees with `equals`.

Lemmas assume these predicates only where the key's property depends on them.

Files:
- `results.dfy`: `Option` and `Result`.
- `components.dfy`: `Component` and the contracts of Java's `equals` and `hashCode`.
- `key.dfy`: the `Key` datatype, constructor, equality, hash, string form and their lemmas.
- `key_string.dfy`: splitting a key's string form back into its two parts.

## Model

| member | source | states |
|---|---|---|
| Keys.New | src/main/java/jbuildstore/core/Key.java:59-67 | Construction succeeds exactly when both id and content type are present, and the key then holds those two values. A missing id fails with "identifier cannot be null", even when the content type is missing too. A present id with a missing content type fails with "content type cannot be null". |
| Keys.NewFromAccessors | src/main/java/jbuildstore/core/Key.java:56-76 | Building a key from the values its `id()` and `contentType()` return gives back that same key, so the key stores nothing else. |
| Keys.Equals | src/main/java/jbuildstore/core/Key.java:78-85 | `equals` returns true only when its argument is a key. It is false for any other object and for null. |
| Keys.EqualsIffComponentsEqual | src/main/java/jbuildstore/core/Key.java:79-82 | Two keys are equal exactly when their content types are equal and their ids are equal, each by the component's own `equals`. |
| Keys.EqualsIsIdentity | src/main/java/jbuildstore/core/Key.java:79-84 | When both components compare by value identity, a key equals an object exactly when that object is the same (id, content type) pair. |
| Keys.EqualsReflexive | src/main/java/jbuildstore/core/Key.java:82 | Every key equals itself when both component equalities are reflexive. |
| Keys.EqualsSymmetric | src/main/java/jbuildstore/core/Key.java:82 | Key equality is symmetric when both component equalities are symmetric. |
| Keys.EqualsTransitive | src/main/java/jbuildstore/core/Key.java:82 | Key equality is transitive when both component equalities are transitive. |
| Keys.HashCode | src/main/java/jbuildstore/core/Key.java:88-90 | The key's 32-bit hash XORed with either component's hash gives the other component's hash. So the key hash is the XOR of the two component hashes. |
| Keys.HashZeroWhenComponentsCollide | src/main/java/jbuildstore/core/Key.java:89 | A key whose id and content type have the same hash gets hash zero. |
| Keys.HashAgreesWithEquals | src/main/java/jbuildstore/core/Key.java:78-90 | Equal keys have equal hash codes whenever each component's hash agrees with that component's equality. |
| Keys.ToString | src/main/java/jbuildstore/core/Key.java:93-95 | The string form is the id's string, then one colon at the position just after it, then the content type's string. Nothing else is in it. |
| KeyStrings.SplitJoin | src/main/java/jbuildstore/core/Key.java:94 | Splitting at the first colon undoes the join with a colon, provided the left part contains no colon. |
| KeyStrings.ToStringSplits | src/main/java/jbuildstore/core/Key.java:93-95 | If the id's string contains no colon, the key's string form determines both the id's string and the content type's string. |
| KeyStrings.ToStringAmbiguous | src/main/java/jbuildstore/core/Key.java:94 | Without that condition the string form is ambiguous: the unequal keys ("a:b", "c") and ("a", "b:c") have the same string form. |

## Left out

- `Key.Mapping` (`encode`/`decode`, Key.java:38-54) is an interface with no implementation. The code fixes no round-trip or absence behaviour for it, so there is nothing to model.
- `Content.java` declares only interfaces: `Content`, `Entry`, `Type`, `Source`, `Sink` and `Store`. It has no behaviour to check. Store put/get coherence, matching, synchronisation and the ledger would all have to be invented. The ledger and its diffs do not appear in these files at all.
- `Content.Type.read`/`write` are stream I/O with formats chosen per content type. Here a content type is the opaque parameter `T`, which has only equality, a hash and a string form.
- The `implements Content.Key<T>` supertype (Key.java:28) is not modelled. That interface does not appear in `Content.java`.
- Keys.Equals: the argument ranges over keys with the same type parameters `S` and `T`. Java's `instanceof Key` also accepts keys with other type parameters, because generics are erased. Such a key is compared through the same two component `equals` calls. The model does not cover it.
- Component methods may throw or fail to terminate in Java. Here they are total functions.
