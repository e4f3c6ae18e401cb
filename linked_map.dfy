/** The insertion-ordered map from request to result that a task carries
    (a java.util.LinkedHashMap<String, String>), as a sequence of entries
    whose keys are pairwise distinct. */
module LinkedMap {
  import opened Common

  /** One request and its result; a null result is None. */
  datatype Entry = Entry(key: string, value: Option<string>)

  /** The keys in iteration order (keySet()). */
  function Keys(e: seq<Entry>): seq<string> {
    seq(|e|, i requires 0 <= i < |e| => e[i].key)
  }

  /** No key occurs twice: what a Map guarantees of its key set. */
  predicate DistinctKeys(e: seq<Entry>) {
    forall i, j :: 0 <= i < j < |e| ==> e[i].key != e[j].key
  }

  /** Pairwise distinct strings. */
  predicate Distinct(ks: seq<string>) {
    forall i, j :: 0 <= i < j < |ks| ==> ks[i] != ks[j]
  }

  /** containsKey. */
  predicate ContainsKey(e: seq<Entry>, k: string) {
    exists i :: 0 <= i < |e| && e[i].key == k
  }

  /** The position of key k, or -1 when k is absent. */
  function IndexOf(e: seq<Entry>, k: string): (i: int)
    ensures -1 <= i < |e|
    ensures 0 <= i ==> e[i].key == k
    ensures i == -1 <==> !ContainsKey(e, k)
  {
    if e == [] then -1
    else if e[|e| - 1].key == k then |e| - 1
    else IndexOf(e[..|e| - 1], k)
  }

  /** get: the value stored under k, None when k is absent (or maps to null). */
  function Get(e: seq<Entry>, k: string): (v: Option<string>)
    requires DistinctKeys(e)
    ensures forall i :: 0 <= i < |e| && e[i].key == k ==> v == e[i].value
    ensures !ContainsKey(e, k) ==> v == None
  {
    var i := IndexOf(e, k);
    if i < 0 then None else e[i].value
  }

  /** put: an existing key keeps its position and takes the new value;
      a new key is appended at the end. */
  function Put(e: seq<Entry>, k: string, v: Option<string>): (r: seq<Entry>)
    requires DistinctKeys(e)
    ensures DistinctKeys(r)
    ensures ContainsKey(e, k) ==> Keys(r) == Keys(e)
    ensures !ContainsKey(e, k) ==> Keys(r) == Keys(e) + [k]
    ensures Get(r, k) == v
    ensures forall i :: 0 <= i < |e| && e[i].key != k ==> r[i] == e[i]
  {
    var i := IndexOf(e, k);
    if 0 <= i then
      var r := e[i := Entry(k, v)];
      assert r[i].key == k;
      r
    else e + [Entry(k, v)]
  }

  /** Distinct keys in an entry sequence are distinct keys in its key sequence. */
  lemma DistinctKeysIff(e: seq<Entry>)
    ensures DistinctKeys(e) <==> Distinct(Keys(e))
  {
    assert forall i :: 0 <= i < |e| ==> Keys(e)[i] == e[i].key;
  }

  /** The key set of a map with distinct keys has as many members as the map
      has entries: size() counts entries, not keys seen. */
  lemma {:induction false} KeySetSize(e: seq<Entry>)
    requires DistinctKeys(e)
    ensures |set i | 0 <= i < |e| :: e[i].key| == |e|
  {
    if e != [] {
      var init := e[..|e| - 1];
      KeySetSize(init);
      var s := set i | 0 <= i < |init| :: init[i].key;
      var t := set i | 0 <= i < |e| :: e[i].key;
      assert t == s + {e[|e| - 1].key};
      assert e[|e| - 1].key !in s;
    }
  }

  /** Keys distribute over concatenation. */
  lemma KeysAppend(a: seq<Entry>, b: seq<Entry>)
    ensures Keys(a + b) == Keys(a) + Keys(b)
  {
  }
}
