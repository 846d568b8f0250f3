/**
 * The part of the ECMAScript `Map` the page's cache relies on, for string keys
 * and values: entries kept in insertion order, `get` by key, and `set`, which
 * overwrites the value of a key already present in its original position and
 * appends a new key at the end.
 */
module JsMap {
  import opened Types

  datatype Entry = Entry(key: string, value: string)

  /** The keys in iteration order. */
  function Keys(entries: seq<Entry>): (keys: seq<string>)
    ensures |keys| == |entries|
    ensures forall i :: 0 <= i < |entries| ==> keys[i] == entries[i].key
  {
    seq(|entries|, i requires 0 <= i < |entries| => entries[i].key)
  }

  /** No key occurs twice: what every `Map` keeps. */
  predicate DistinctKeys(entries: seq<Entry>)
  {
    forall i, j :: 0 <= i < j < |entries| ==> entries[i].key != entries[j].key
  }

  /** Where the key stands among the entries, or -1 when it is absent. */
  function IndexOf(entries: seq<Entry>, k: string): (i: int)
    ensures -1 <= i < |entries|
    ensures i >= 0 ==> entries[i].key == k && forall j :: 0 <= j < i ==> entries[j].key != k
    ensures i < 0 ==> forall j :: 0 <= j < |entries| ==> entries[j].key != k
  {
    if |entries| == 0 then -1
    else if entries[0].key == k then 0
    else
      var i := IndexOf(entries[1..], k);
      if i < 0 then -1 else i + 1
  }

  /** `Map.prototype.get`: the value stored under the key, if any. */
  function Get(entries: seq<Entry>, k: string): (v: Option<string>)
    ensures v.Some? <==> k in Keys(entries)
  {
    var i := IndexOf(entries, k);
    if i < 0 then None else Some(entries[i].value)
  }

  /** `Map.prototype.set`: overwrite in place when the key is present, append otherwise. */
  function MapSet(entries: seq<Entry>, k: string, v: string): (r: seq<Entry>)
    ensures DistinctKeys(entries) ==> DistinctKeys(r)
  {
    var i := IndexOf(entries, k);
    if i < 0 then entries + [Entry(k, v)] else entries[i := Entry(k, v)]
  }

  /** After `set`, the key reads back as the new value and every other key as before. */
  lemma MapSetGet(entries: seq<Entry>, k: string, v: string, other: string)
    ensures Get(MapSet(entries, k, v), k) == Some(v)
    ensures other != k ==> Get(MapSet(entries, k, v), other) == Get(entries, other)
  {
    MapSetPositions(entries, k, v);
    var r := MapSet(entries, k, v);
    var i := IndexOf(entries, k);
    IndexOfFirst(r, k, if i < 0 then |entries| else i);
    if other != k {
      var j := IndexOf(entries, other);
      if j >= 0 {
        IndexOfFirst(r, other, j);
      } else {
        assert forall x :: 0 <= x < |r| ==> r[x].key != other;
      }
    }
  }

  /** `set` rewrites only the entry of its key, or adds one entry at the end. */
  lemma MapSetPositions(entries: seq<Entry>, k: string, v: string)
    ensures var r := MapSet(entries, k, v); var i := IndexOf(entries, k);
      && |r| == (if i < 0 then |entries| + 1 else |entries|)
      && (forall j :: 0 <= j < |entries| ==> r[j].key == entries[j].key)
      && r[if i < 0 then |entries| else i] == Entry(k, v)
  {
  }

  /** The first position holding a key is where `IndexOf` finds it. */
  lemma IndexOfFirst(entries: seq<Entry>, k: string, i: nat)
    requires i < |entries| && entries[i].key == k
    requires forall j :: 0 <= j < i ==> entries[j].key != k
    ensures IndexOf(entries, k) == i
  {
  }

  /** `set` keeps the key order: a present key stays where it is, a new key goes last. */
  lemma MapSetKeys(entries: seq<Entry>, k: string, v: string)
    ensures k in Keys(entries) ==> Keys(MapSet(entries, k, v)) == Keys(entries)
    ensures k !in Keys(entries) ==> Keys(MapSet(entries, k, v)) == Keys(entries) + [k]
  {
    var i := IndexOf(entries, k);
    if k in Keys(entries) {
      var j :| 0 <= j < |entries| && Keys(entries)[j] == k;
      assert i >= 0;
    }
  }
}
