/** A Python dict from strings to strings: an association list that keeps the
    keys in first-insertion order, because the order in which the metadata
    tool iterates a dict decides the order of the header lines it writes. */
module Dict {
  import opened Wrappers

  datatype Entry = Entry(key: string, value: string)

  type Dict = seq<Entry>

  /** No key is stored twice: what every dict satisfies. */
  ghost predicate UniqueKeys(d: Dict) {
    forall i, j :: 0 <= i < j < |d| ==> d[i].key != d[j].key
  }

  predicate HasKey(d: Dict, k: string) {
    exists i :: 0 <= i < |d| && d[i].key == k
  }

  /** The position of key k, if stored. */
  function IndexOf(d: Dict, k: string): (r: Option<nat>)
    ensures r.Some? ==> r.value < |d| && d[r.value].key == k
    ensures r.Some? ==> forall j :: 0 <= j < r.value ==> d[j].key != k
    ensures r.None? ==> forall j :: 0 <= j < |d| ==> d[j].key != k
  {
    if d == [] then None
    else if d[0].key == k then Some(0)
    else match IndexOf(d[1..], k)
      case None => None
      case Some(i) => Some(i + 1)
  }

  /** d.get(k) */
  function Get(d: Dict, k: string): Option<string> {
    match IndexOf(d, k)
    case None => None
    case Some(i) => Some(d[i].value)
  }

  /** The keys in iteration order. */
  function Keys(d: Dict): (r: seq<string>)
    ensures |r| == |d| && forall i :: 0 <= i < |d| ==> r[i] == d[i].key
  {
    seq(|d|, i requires 0 <= i < |d| => d[i].key)
  }

  /** d[k] = v: overwrite in place when k is present, append otherwise. */
  function Put(d: Dict, k: string, v: string): (r: Dict)
    ensures Get(r, k) == Some(v)
    ensures forall k' :: k' != k ==> Get(r, k') == Get(d, k')
    ensures HasKey(d, k) ==> |r| == |d|
    ensures !HasKey(d, k) ==> r == d + [Entry(k, v)]
    ensures forall i :: 0 <= i < |d| ==> r[i].key == d[i].key
    ensures UniqueKeys(d) ==> UniqueKeys(r)
  {
    match IndexOf(d, k)
    case None =>
      var r := d + [Entry(k, v)];
      forall k' ensures IndexOf(r, k') == if k' == k then Some(|d|) else IndexOf(d, k') {
        IndexOfAppend(d, Entry(k, v), k');
      }
      r
    case Some(i) =>
      var r := d[i := Entry(k, v)];
      SameKeysSameIndex(d, r, k);
      assert forall k' :: k' != k ==> IndexOf(r, k') == IndexOf(d, k') by {
        forall k' | k' != k ensures IndexOf(r, k') == IndexOf(d, k') {
          SameKeysSameIndex(d, r, k');
        }
      }
      r
  }

  lemma {:induction false} IndexOfAppend(d: Dict, e: Entry, k: string)
    ensures IndexOf(d + [e], k) ==
      if IndexOf(d, k).Some? then IndexOf(d, k) else if e.key == k then Some(|d|) else None
  {
    if d != [] && d[0].key != k {
      assert (d + [e])[1..] == d[1..] + [e];
      IndexOfAppend(d[1..], e, k);
    }
  }

  lemma {:induction false} SameKeysSameIndex(d: Dict, e: Dict, k: string)
    requires |d| == |e| && forall i :: 0 <= i < |d| ==> d[i].key == e[i].key
    ensures IndexOf(d, k) == IndexOf(e, k)
  {
    if d != [] && d[0].key != k {
      SameKeysSameIndex(d[1..], e[1..], k);
    }
  }

  /** A dict filled by assigning the pairs of ps one after the other. */
  function FromPairs(ps: seq<Entry>): (d: Dict)
    ensures UniqueKeys(d)
  {
    if ps == [] then [] else
      var last := ps[|ps| - 1];
      Put(FromPairs(ps[..|ps| - 1]), last.key, last.value)
  }

  /** The value assigned last to k among the pairs ps. */
  function LastValue(ps: seq<Entry>, k: string): Option<string> {
    if ps == [] then None
    else if ps[|ps| - 1].key == k then Some(ps[|ps| - 1].value)
    else LastValue(ps[..|ps| - 1], k)
  }

  /** Later assignments win: each key maps to the value assigned to it last. */
  lemma {:induction false} FromPairsGet(ps: seq<Entry>, k: string)
    ensures Get(FromPairs(ps), k) == LastValue(ps, k)
  {
    if ps != [] {
      FromPairsGet(ps[..|ps| - 1], k);
    }
  }

  /** Assigning pairs whose keys are all distinct stores exactly those pairs, in order. */
  lemma {:induction false} FromPairsDistinct(ps: seq<Entry>)
    requires UniqueKeys(ps)
    ensures FromPairs(ps) == ps
  {
    if ps != [] {
      var init := ps[..|ps| - 1];
      FromPairsDistinct(init);
      assert !HasKey(init, ps[|ps| - 1].key);
      assert init + [ps[|ps| - 1]] == ps;
    }
  }
}
