/** A JavaScript `Map` with string keys: it remembers the order in which keys were first inserted. */
module JsMaps {

  datatype JsMap<V> = JsMap(keys: seq<string>, values: map<string, V>) {
    /** What every JavaScript map satisfies: one entry per key. */
    ghost predicate WellFormed() {
      && (forall i, j :: 0 <= i < j < |keys| ==> keys[i] != keys[j])
      && (forall k :: k in values <==> k in keys)
    }

    /** `map.set(key, value)`: a known key keeps its place. */
    function Set(key: string, value: V): JsMap<V> {
      JsMap(if key in values then keys else keys + [key], values[key := value])
    }

    /** `map.delete(key)` */
    function Delete(key: string): JsMap<V> {
      JsMap(Without(keys, key), values - {key})
    }

    /** `later` has the same entries at the same places, and maybe more after them. */
    ghost predicate ExtendedBy(later: JsMap<V>) {
      && keys <= later.keys
      && forall k :: k in values ==> k in later.values && later.values[k] == values[k]
    }
  }

  function Empty<V>(): JsMap<V> {
    JsMap([], map[])
  }

  function Without(keys: seq<string>, key: string): seq<string> {
    if keys == [] then []
    else (if keys[0] == key then [] else [keys[0]]) + Without(keys[1..], key)
  }

  lemma SetKeepsWellFormed<V>(m: JsMap<V>, key: string, value: V)
    requires m.WellFormed()
    ensures m.Set(key, value).WellFormed()
  {
  }

  lemma {:induction false} WithoutContents(keys: seq<string>, key: string)
    requires forall i, j :: 0 <= i < j < |keys| ==> keys[i] != keys[j]
    ensures forall i, j :: 0 <= i < j < |Without(keys, key)| ==> Without(keys, key)[i] != Without(keys, key)[j]
    ensures forall k :: k in Without(keys, key) <==> k in keys && k != key
    decreases keys
  {
    if keys != [] {
      WithoutContents(keys[1..], key);
      assert keys[0] !in keys[1..];
    }
  }

  lemma DeleteKeepsWellFormed<V>(m: JsMap<V>, key: string)
    requires m.WellFormed()
    ensures m.Delete(key).WellFormed()
    ensures forall k :: k in m.Delete(key).keys <==> k in m.keys && k != key
  {
    WithoutContents(m.keys, key);
  }

  // ----- insertion order -----

  /** `a` occurs in the list, and `b` nowhere up to there. */
  ghost predicate ComesBefore(names: seq<string>, a: string, b: string) {
    exists i :: 0 <= i < |names| && names[i] == a && b !in names[..i + 1]
  }

  /** The keys are the names in the list, each once, in the order in which they first occur. */
  ghost predicate InOrderOf(keys: seq<string>, names: seq<string>) {
    && (forall i, j :: 0 <= i < j < |keys| ==> keys[i] != keys[j] && ComesBefore(names, keys[i], keys[j]))
    && (forall k :: k in keys <==> k in names)
  }

  lemma StillBefore(names: seq<string>, a: string, b: string, name: string)
    requires ComesBefore(names, a, b)
    ensures ComesBefore(names + [name], a, b)
  {
    var i :| 0 <= i < |names| && names[i] == a && b !in names[..i + 1];
    assert (names + [name])[..i + 1] == names[..i + 1];
  }

  lemma NewComesLast(names: seq<string>, a: string, name: string)
    requires a in names && name !in names
    ensures ComesBefore(names + [name], a, name)
  {
    var i :| 0 <= i < |names| && names[i] == a;
    assert (names + [name])[..i + 1] == names[..i + 1];
  }

  /** Setting one more key, known or not, keeps the keys in order. */
  lemma SetKeepsOrder(keys: seq<string>, names: seq<string>, name: string)
    requires InOrderOf(keys, names)
    ensures InOrderOf(if name in keys then keys else keys + [name], names + [name])
  {
    hide ComesBefore;
    var keys' := if name in keys then keys else keys + [name];
    forall i, j | 0 <= i < j < |keys'|
      ensures keys'[i] != keys'[j] && ComesBefore(names + [name], keys'[i], keys'[j])
    {
      if j < |keys| {
        StillBefore(names, keys[i], keys[j], name);
      } else {
        assert keys[i] in keys;
        NewComesLast(names, keys[i], name);
      }
    }
  }

  /** A list without repetition is in its own order. */
  lemma KeysInOwnOrder(keys: seq<string>)
    requires forall i, j :: 0 <= i < j < |keys| ==> keys[i] != keys[j]
    ensures InOrderOf(keys, keys)
  {
    forall i, j | 0 <= i < j < |keys| ensures ComesBefore(keys, keys[i], keys[j]) {
      assert keys[j] !in keys[..i + 1];
    }
  }
}
