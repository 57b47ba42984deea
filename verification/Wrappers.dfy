/** What several modules need: a value that may be missing, where the program has a null pointer or stops on an
    assertion, and sequences without repetition. */
module Wrappers {

  datatype Option<+T> = None | Some(value: T)

  predicate NoRepeats<T(==)>(s: seq<T>) {
    forall i, j :: 0 <= i < j < |s| ==> s[i] != s[j]
  }

  ghost function Members<T>(s: seq<T>): set<T> {
    set x | x in s
  }

  /** A sequence without repetition is as long as its set of members is large. */
  lemma {:induction false} NoRepeatsSize<T>(s: seq<T>)
    requires NoRepeats(s)
    ensures |Members(s)| == |s|
  {
    if s != [] {
      NoRepeatsSize(s[1..]);
      assert Members(s) == {s[0]} + Members(s[1..]);
    }
  }

  lemma NoRepeatsMore<T>(s: seq<T>, x: T)
    ensures NoRepeats(s + [x]) <==> NoRepeats(s) && x !in s
  {
    var r := s + [x];
    if NoRepeats(r) {
      assert forall i :: 0 <= i < |s| ==> r[i] == s[i] && r[i] != r[|s|];
    }
  }

  /** The map that emplace makes of a list of keys: it is as large as the list exactly when no key is in it twice. */
  ghost predicate Collected<K, V>(m: map<K, V>, keys: seq<K>, values: seq<V>)
    requires |keys| == |values|
  {
    && |m| <= |keys| && (|m| == |keys| <==> NoRepeats(keys))
    && m.Keys == Members(keys)
    && (forall k :: k in m ==> m[k] in values)
    && (NoRepeats(keys) ==> forall i :: 0 <= i < |keys| ==> keys[i] in m && m[keys[i]] == values[i])
  }

  lemma CollectOne<K, V>(m: map<K, V>, keys: seq<K>, values: seq<V>, k: K, v: V)
    requires |keys| == |values| && Collected(m, keys, values)
    ensures Collected(if k in m then m else m[k := v], keys + [k], values + [v])
  {
    hide NoRepeats;
    NoRepeatsMore(keys, k);
    var r := if k in m then m else m[k := v];
    assert k !in m ==> |r| == |m| + 1;
    assert forall x :: x in values ==> x in values + [v];
  }

  lemma NothingCollected<K, V>()
    ensures Collected<K, V>(map[], [], [])
  {
  }
}
