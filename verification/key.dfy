/**
  The `Key` value object: an identifier paired with a content type, with a
  guarded constructor, structural equality, an XOR hash and a string form.
*/
module Keys {
  import opened Results
  import opened Components

  /** A constructed key. It stores exactly the two values it was built from. */
  datatype Key<S, T> = Key(id: S, contentType: T)

  /** The exception the constructor throws (`IllegalArgumentException`). */
  datatype Error = InvalidArgument(message: string)

  const IdNullMessage: string := "identifier cannot be null"
  const TypeNullMessage: string := "content type cannot be null"

  /** The argument of `equals`: another key, or any other object (including `null`). */
  datatype Object<S, T> = KeyObject(key: Key<S, T>) | OtherObject

  /** The constructor: the id is checked first, then the content type. */
  function New<S, T>(id: Option<S>, contentType: Option<T>): (r: Result<Key<S, T>, Error>)
    ensures r.Success? <==> id.Some? && contentType.Some?
    ensures r.Success? ==> r.value.id == id.value && r.value.contentType == contentType.value
    ensures id.None? ==> r == Failure(InvalidArgument(IdNullMessage))
    ensures id.Some? && contentType.None? ==> r == Failure(InvalidArgument(TypeNullMessage))
  {
    if id.None? then
      Failure(InvalidArgument(IdNullMessage))
    else if contentType.None? then
      Failure(InvalidArgument(TypeNullMessage))
    else
      Success(Key(id.value, contentType.value))
  }

  /** `equals`: the receiver's components are asked about the argument's.
      A key is never equal to something that is not a key. */
  function Equals<S, T>(ids: Component<S>, types: Component<T>, k: Key<S, T>, o: Object<S, T>): (r: bool)
    ensures r ==> o.KeyObject?
  {
    match o
    case KeyObject(other) => types.eq(k.contentType, other.contentType) && ids.eq(k.id, other.id)
    case OtherObject => false
  }

  /** `hashCode`: the content type's hash XOR the id's hash, so that either
      component's hash is recovered from the key's hash and the other's. */
  function HashCode<S, T>(ids: Component<S>, types: Component<T>, k: Key<S, T>): (r: bv32)
    ensures r ^ ids.hash(k.id) == types.hash(k.contentType)
    ensures r ^ types.hash(k.contentType) == ids.hash(k.id)
  {
    types.hash(k.contentType) ^ ids.hash(k.id)
  }

  /** `toString`: the id's string, a colon, then the content type's string. */
  function ToString<S, T>(ids: Component<S>, types: Component<T>, k: Key<S, T>): (r: string)
    ensures |r| == |ids.show(k.id)| + 1 + |types.show(k.contentType)|
    ensures r[..|ids.show(k.id)|] == ids.show(k.id)
    ensures r[|ids.show(k.id)|] == ':'
    ensures r[|ids.show(k.id)| + 1..] == types.show(k.contentType)
  {
    ids.show(k.id) + ":" + types.show(k.contentType)
  }

  /** Every key is what the constructor builds from its two accessors. */
  lemma NewFromAccessors<S, T>(k: Key<S, T>)
    ensures New(Some(k.id), Some(k.contentType)) == Success(k)
  {
  }

  /** Two keys are equal exactly when their content types and their ids are. */
  lemma EqualsIffComponentsEqual<S, T>(ids: Component<S>, types: Component<T>, a: Key<S, T>, b: Key<S, T>)
    ensures Equals(ids, types, a, KeyObject(b)) <==> types.eq(a.contentType, b.contentType) && ids.eq(a.id, b.id)
  {
  }

  /** When both components compare by identity, key equality is identity of the pair. */
  lemma EqualsIsIdentity<S(!new), T(!new)>(ids: Component<S>, types: Component<T>, k: Key<S, T>, o: Object<S, T>)
    requires IsIdentity(ids) && IsIdentity(types)
    ensures Equals(ids, types, k, o) <==> o == KeyObject(k)
  {
  }

  lemma EqualsReflexive<S(!new), T(!new)>(ids: Component<S>, types: Component<T>, k: Key<S, T>)
    requires Reflexive(ids) && Reflexive(types)
    ensures Equals(ids, types, k, KeyObject(k))
  {
  }

  lemma EqualsSymmetric<S(!new), T(!new)>(ids: Component<S>, types: Component<T>, a: Key<S, T>, b: Key<S, T>)
    requires Symmetric(ids) && Symmetric(types)
    ensures Equals(ids, types, a, KeyObject(b)) ==> Equals(ids, types, b, KeyObject(a))
  {
  }

  lemma EqualsTransitive<S(!new), T(!new)>(ids: Component<S>, types: Component<T>, a: Key<S, T>, b: Key<S, T>, c: Key<S, T>)
    requires Transitive(ids) && Transitive(types)
    ensures Equals(ids, types, a, KeyObject(b)) && Equals(ids, types, b, KeyObject(c)) ==> Equals(ids, types, a, KeyObject(c))
  {
  }

  /** A weakness of combining by XOR: a key whose two components hash alike
      hashes to zero, whatever that common hash is. */
  lemma HashZeroWhenComponentsCollide<S, T>(ids: Component<S>, types: Component<T>, k: Key<S, T>)
    requires ids.hash(k.id) == types.hash(k.contentType)
    ensures HashCode(ids, types, k) == 0
  {
  }

  /** The `hashCode` contract of the key follows from those of its components. */
  lemma HashAgreesWithEquals<S(!new), T(!new)>(ids: Component<S>, types: Component<T>, a: Key<S, T>, b: Key<S, T>)
    requires HashAgrees(ids) && HashAgrees(types)
    ensures Equals(ids, types, a, KeyObject(b)) ==> HashCode(ids, types, a) == HashCode(ids, types, b)
  {
  }
}
