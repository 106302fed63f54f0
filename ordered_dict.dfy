/**
 * A Python `dict` from strings to strings, as the record builder uses it:
 * the keys in the order they were first inserted, and the value each key
 * maps to. Assigning to a key that is already present replaces its value
 * and leaves the key where it stands.
 */
module OrderedDict {
  import opened Wrappers

  datatype Dict = Dict(keys: seq<string>, values: map<string, string>)

  /** What every Python dict satisfies: no key occurs twice in the iteration
      order, and the keys iterated are exactly the keys mapped. */
  ghost predicate Valid(d: Dict) {
    && (forall i, j :: 0 <= i < j < |d.keys| ==> d.keys[i] != d.keys[j])
    && (forall k :: k in d.values <==> k in d.keys)
  }

  /** `{k: v}` */
  function Singleton(k: string, v: string): (d: Dict)
    ensures Valid(d) && d.keys == [k]
    ensures Get(d, k) == Some(v)
  {
    Dict([k], map[k := v])
  }

  /** `len(d)` */
  function Size(d: Dict): nat {
    |d.keys|
  }

  /** `d.get(k)` */
  function Get(d: Dict, k: string): Option<string> {
    if k in d.values then Some(d.values[k]) else None
  }

  /** `d[k] = v`: a new key goes to the end of the iteration order, a present
      key keeps its position and the number of keys does not change. */
  function Put(d: Dict, k: string, v: string): (r: Dict)
    ensures Valid(d) ==> Valid(r)
    ensures Valid(d) ==> r.keys == if k in d.keys then d.keys else d.keys + [k]
  {
    if k in d.values then Dict(d.keys, d.values[k := v])
    else
      var r := Dict(d.keys + [k], d.values[k := v]);
      assert Valid(d) ==> Valid(r) by {
        if Valid(d) {
          forall i, j | 0 <= i < j < |r.keys| ensures r.keys[i] != r.keys[j] {
            if j == |d.keys| { assert r.keys[i] == d.keys[i]; }
          }
        }
      }
      r
  }

  /** After `d[k] = v`, looking up `k` gives `v` and looking up any other key
      gives what it gave before. */
  lemma {:induction false} PutGet(d: Dict, k: string, v: string, k': string)
    ensures Get(Put(d, k, v), k') == if k' == k then Some(v) else Get(d, k')
  {
  }

  /** `d[k] = v` keeps whatever keys `d` starts with at its front. */
  lemma {:induction false} PutKeepsPrefix(d: Dict, p: seq<string>, k: string, v: string)
    requires Valid(d) && p <= d.keys
    ensures p <= Put(d, k, v).keys
  {
  }

  /** The (key, value) pairs in iteration order, as `list(d.items())`. */
  function Items(d: Dict): (items: seq<(string, string)>)
    requires Valid(d)
    ensures |items| == |d.keys|
    ensures forall i, j :: 0 <= i < j < |items| ==> items[i].0 != items[j].0
    ensures forall i :: 0 <= i < |items| ==> items[i].0 == d.keys[i] && Get(d, items[i].0) == Some(items[i].1)
  {
    seq(|d.keys|, i requires 0 <= i < |d.keys| => (d.keys[i], d.values[d.keys[i]]))
  }

  /** `d[k] = v` on the pairs: the pair of a present key is replaced where it
      stands and no pair is added; a new key adds its pair at the end; every
      other pair is unchanged. */
  lemma {:induction false} PutItems(d: Dict, k: string, v: string)
    requires Valid(d)
    ensures var r := Items(Put(d, k, v));
            && (forall i :: 0 <= i < |d.keys| ==> r[i] == if d.keys[i] == k then (k, v) else Items(d)[i])
            && (k in d.keys ==> |r| == |d.keys|)
            && (k !in d.keys ==> |r| == |d.keys| + 1 && r[|d.keys|] == (k, v))
  {
  }

  /** A key is found exactly when it is one of the keys iterated. */
  lemma {:induction false} GetIffKey(d: Dict, k: string)
    requires Valid(d)
    ensures Get(d, k).Some? <==> k in d.keys
  {
  }
}
