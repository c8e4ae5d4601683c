/** Python's `dict`: pairs in insertion order with distinct keys. Assigning
    to a present key replaces its value in place; a new key goes at the end;
    `pop` removes a key and keeps the order of the others. */
module OrderedDict {
  import opened Wrappers

  type Dict<K, V> = seq<(K, V)>

  predicate Valid<K(==), V>(d: Dict<K, V>) {
    forall i, j :: 0 <= i < j < |d| ==> d[i].0 != d[j].0
  }

  function Keys<K, V>(d: Dict<K, V>): (r: seq<K>)
    ensures |r| == |d| && forall i :: 0 <= i < |d| ==> r[i] == d[i].0
  {
    if d == [] then [] else [d[0].0] + Keys(d[1..])
  }

  /** Position of key `k`, if present. */
  function Find<K(==), V>(d: Dict<K, V>, k: K): (r: Option<nat>)
    ensures r.Some? ==> r.value < |d| && d[r.value].0 == k
    ensures r.Some? ==> forall j :: 0 <= j < r.value ==> d[j].0 != k
    ensures r.None? <==> forall j :: 0 <= j < |d| ==> d[j].0 != k
  {
    if d == [] then None
    else if d[0].0 == k then Some(0)
    else match Find(d[1..], k)
      case None => None
      case Some(i) => Some(i + 1)
  }

  /** `Find` is the first position holding the key. */
  lemma FindAt<K, V>(d: Dict<K, V>, k: K, i: nat)
    requires i < |d| && d[i].0 == k
    requires forall j :: 0 <= j < i ==> d[j].0 != k
    ensures Find(d, k) == Some(i)
  {
  }

  predicate Contains<K(==), V>(d: Dict<K, V>, k: K) {
    Find(d, k).Some?
  }

  /** `d.get(k)`. */
  function Get<K(==), V>(d: Dict<K, V>, k: K): (r: Option<V>)
    ensures r.Some? <==> Contains(d, k)
  {
    match Find(d, k)
    case None => None
    case Some(i) => Some(d[i].1)
  }

  /** `d[k] = v`. */
  function Put<K(==), V>(d: Dict<K, V>, k: K, v: V): (r: Dict<K, V>)
    ensures Valid(d) ==> Valid(r)
    ensures Find(d, k).Some? ==> r == d[Find(d, k).value := (k, v)]
    ensures Find(d, k).None? ==> r == d + [(k, v)]
  {
    match Find(d, k)
    case None => d + [(k, v)]
    case Some(i) => d[i := (k, v)]
  }

  /** `d.pop(k, None)`: the dictionary without `k`, and the value it had. */
  function Pop<K(==), V>(d: Dict<K, V>, k: K): (r: (Dict<K, V>, Option<V>))
    ensures r.1 == Get(d, k)
    ensures Valid(d) ==> Valid(r.0) && !Contains(r.0, k)
    ensures Find(d, k).None? ==> r.0 == d
  {
    match Find(d, k)
    case None => (d, None)
    case Some(i) => (d[..i] + d[i + 1..], Some(d[i].1))
  }

  lemma GetPut<K, V>(d: Dict<K, V>, k: K, v: V, k': K)
    requires Valid(d)
    ensures Get(Put(d, k, v), k') == if k' == k then Some(v) else Get(d, k')
  {
    var r := Put(d, k, v);
    match Find(d, k)
    case None =>
      if k' != k {
        match Find(d, k')
        case None =>
          assert forall j :: 0 <= j < |r| ==> r[j].0 != k';
        case Some(i) =>
          assert r[i] == d[i];
          assert Find(r, k') == Some(i);
      } else {
        FindAt(r, k, |d|);
      }
    case Some(i) =>
      FindAt(r, k, i);
      if k' != k {
        match Find(d, k')
        case None =>
          assert forall j :: 0 <= j < |r| ==> r[j].0 != k';
        case Some(i') =>
          FindAt(r, k', i');
      }
  }

  lemma KeysPut<K, V>(d: Dict<K, V>, k: K, v: V)
    ensures Keys(Put(d, k, v)) == if Contains(d, k) then Keys(d) else Keys(d) + [k]
  {
  }

  /** Popping a key leaves every other key's value alone. */
  lemma GetPop<K, V>(d: Dict<K, V>, k: K, k': K)
    requires Valid(d)
    ensures Get(Pop(d, k).0, k') == if k' == k then None else Get(d, k')
  {
    match Find(d, k)
    case None =>
    case Some(i) =>
      var r := Pop(d, k).0;
      assert |r| == |d| - 1;
      assert forall j :: 0 <= j < |r| ==> r[j] == if j < i then d[j] else d[j + 1];
      if k' != k {
        match Find(d, k')
        case None =>
          assert forall j :: 0 <= j < |r| ==> r[j].0 != k';
        case Some(i') =>
          if i' < i {
            FindAt(r, k', i');
          } else {
            FindAt(r, k', i' - 1);
          }
      }
  }

  /** Assigning each entry in turn: `for k, v in entries: d[k] = v`. */
  function PutAll<K(==), V>(d: Dict<K, V>, entries: seq<(K, V)>): (r: Dict<K, V>)
    ensures Valid(d) ==> Valid(r)
    decreases |entries|
  {
    if entries == [] then d else PutAll(Put(d, entries[0].0, entries[0].1), entries[1..])
  }

  /** The value of the last entry with key `k`. */
  function LastValue<K(==), V>(entries: seq<(K, V)>, k: K): (r: Option<V>)
    ensures r.None? <==> forall i :: 0 <= i < |entries| ==> entries[i].0 != k
    ensures r.Some? ==> exists i :: 0 <= i < |entries| && entries[i] == (k, r.value)
                                    && forall j :: i < j < |entries| ==> entries[j].0 != k
    decreases |entries|
  {
    if entries == [] then None
    else
      var last := LastValue(entries[1..], k);
      assert forall i :: 1 <= i < |entries| ==> entries[i] == entries[1..][i - 1];
      if last.Some? then last
      else if entries[0].0 == k then Some(entries[0].1)
      else None
  }

  /** Last write wins: after the assignments a key holds the value of its
      last entry, and a key no entry names keeps its value. */
  lemma {:induction false} GetPutAll<K, V>(d: Dict<K, V>, entries: seq<(K, V)>, k: K)
    requires Valid(d)
    ensures Get(PutAll(d, entries), k) == if LastValue(entries, k).Some? then LastValue(entries, k) else Get(d, k)
    decreases |entries|
  {
    if entries != [] {
      var d' := Put(d, entries[0].0, entries[0].1);
      GetPut(d, entries[0].0, entries[0].1, k);
      GetPutAll(d', entries[1..], k);
    }
  }

  /** A key already present keeps its position under any assignments. */
  lemma {:induction false} PutAllKeepsPosition<K, V>(d: Dict<K, V>, entries: seq<(K, V)>, i: nat)
    requires i < |d|
    ensures |d| <= |PutAll(d, entries)| && PutAll(d, entries)[i].0 == d[i].0
    decreases |entries|
  {
    if entries != [] {
      var d' := Put(d, entries[0].0, entries[0].1);
      PutAllKeepsPosition(d', entries[1..], i);
    }
  }
}
