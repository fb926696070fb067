/**
  Reading a key's string form back. `toString` joins the id's string and the
  content type's string with a colon; splitting at the first colon recovers
  both parts whenever the id's string holds no colon of its own.
*/
module KeyStrings {
  import opened Results
  import opened Components
  import opened Keys

  /** The position of the first `c` in `s`, if any. */
  function IndexOf(s: string, c: char): (r: Option<nat>)
    ensures r.None? <==> c !in s
    ensures r.Some? ==> r.value < |s| && s[r.value] == c && c !in s[..r.value]
    decreases |s|
  {
    if |s| == 0 then None
    else if s[0] == c then Some(0)
    else
      match IndexOf(s[1..], c)
      case None => None
      case Some(i) => Some(i + 1)
  }

  /** Splits `s` around its first `sep`; absent when `s` has none. */
  function SplitAtFirst(s: string, sep: char): (r: Option<(string, string)>)
    ensures r.None? <==> sep !in s
    ensures r.Some? ==> s == r.value.0 + [sep] + r.value.1 && sep !in r.value.0
  {
    match IndexOf(s, sep)
    case None => None
    case Some(i) =>
      assert s == s[..i] + [sep] + s[i + 1..];
      Some((s[..i], s[i + 1..]))
  }

  /** Splitting at the first separator undoes joining with it, provided the
      left part does not contain the separator. */
  lemma {:induction false} SplitJoin(a: string, sep: char, b: string)
    requires sep !in a
    ensures SplitAtFirst(a + [sep] + b, sep) == Some((a, b))
  {
    var s := a + [sep] + b;
    assert s[|a|] == sep;
    var i := IndexOf(s, sep).value;
    assert s[..|a|] == a;
    assert i == |a|;
    assert s[..i] == a;
    assert s[i + 1..] == b;
  }

  /** A key's string form determines the strings of its id and content type
      when the id's string contains no colon. */
  lemma ToStringSplits<S, T>(ids: Component<S>, types: Component<T>, k: Key<S, T>)
    requires ':' !in ids.show(k.id)
    ensures SplitAtFirst(ToString(ids, types, k), ':') == Some((ids.show(k.id), types.show(k.contentType)))
  {
    SplitJoin(ids.show(k.id), ':', types.show(k.contentType));
  }

  /** Strings compared with `String.equals` and printed as themselves. The
      hash plays no part below, so any constant will do. */
  function StringComponent(): Component<string> {
    Component((x: string, y: string) => x == y, (x: string) => 0, (x: string) => x)
  }

  /** Without that proviso the string form is ambiguous: two keys that are
      not equal can print the same. */
  lemma ToStringAmbiguous()
    ensures var a := Key("a:b", "c");
            var b := Key("a", "b:c");
            && ToString(StringComponent(), StringComponent(), a) == ToString(StringComponent(), StringComponent(), b)
            && !Equals(StringComponent(), StringComponent(), a, KeyObject(b))
  {
  }
}
