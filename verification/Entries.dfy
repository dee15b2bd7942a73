/** The playlist entry the parser produces, the cleaner rewrites and the
    writer serialises: a Python dict whose keys may be missing. */
module Entries {
  import opened Wrappers
  import opened Text

  predicate UniqueKeys(d: seq<(string, string)>)
  {
    forall i, j :: 0 <= i < j < |d| ==> d[i].0 != d[j].0
  }

  /** A Python `dict` from strings to strings: pairs in insertion order, each key once. */
  type Dict = d: seq<(string, string)> | UniqueKeys(d)

  function Keys(d: Dict): (ks: seq<string>)
    ensures |ks| == |d| && forall i :: 0 <= i < |d| ==> ks[i] == d[i].0
  {
    seq(|d|, i requires 0 <= i < |d| => d[i].0)
  }

  /** The position of key `k` in `d`, or `|d|` when `k` is absent. */
  function FindKey(d: Dict, k: string): (i: nat)
    ensures i <= |d|
    ensures i < |d| ==> d[i].0 == k
    ensures i == |d| ==> k !in Keys(d)
  {
    if d == [] then 0
    else if d[0].0 == k then 0
    else
      var i := FindKey(d[1..], k);
      assert Keys(d) == [d[0].0] + Keys(d[1..]);
      1 + i
  }

  /** Python's `d.get(k)`. */
  function Lookup(d: Dict, k: string): Option<string>
  {
    var i := FindKey(d, k);
    if i < |d| then Some(d[i].1) else None
  }

  /** Python's `d[k] = v`: an existing key keeps its place, a new key goes last. */
  function Put(d: Dict, k: string, v: string): (r: Dict)
    ensures Keys(r) == if k in Keys(d) then Keys(d) else Keys(d) + [k]
    ensures Lookup(r, k) == Some(v)
    ensures forall k' :: k' != k ==> Lookup(r, k') == Lookup(d, k')
  {
    var i := FindKey(d, k);
    if i < |d| then
      var r := d[i := (k, v)];
      assert forall j :: 0 <= j < |r| ==> r[j].0 == d[j].0;
      assert FindKey(r, k) == i by { PositionIsUnique(r, k, i); }
      assert forall k' :: FindKey(r, k') == FindKey(d, k') by {
        forall k' ensures FindKey(r, k') == FindKey(d, k') {
          var p := FindKey(d, k');
          if p < |d| { PositionIsUnique(r, k', p); }
          else { assert Keys(r) == Keys(d); }
        }
      }
      r
    else
      var r := d + [(k, v)];
      assert Keys(r) == Keys(d) + [k];
      assert FindKey(r, k) == |d| by { PositionIsUnique(r, k, |d|); }
      assert forall k' :: k' != k ==> Lookup(r, k') == Lookup(d, k') by {
        forall k' | k' != k ensures Lookup(r, k') == Lookup(d, k') {
          var p := FindKey(d, k');
          if p < |d| { PositionIsUnique(r, k', p); }
          else { assert k' !in Keys(r); }
        }
      }
      r
  }

  /** Assigning to a key already present replaces its pair in place. */
  lemma PutExisting(d: Dict, i: nat, v: string)
    requires i < |d|
    ensures UniqueKeys(d[i := (d[i].0, v)])
    ensures Put(d, d[i].0, v) == d[i := (d[i].0, v)]
  {
    PositionIsUnique(d, d[i].0, i);
    var r := d[i := (d[i].0, v)];
    assert forall j :: 0 <= j < |r| ==> r[j].0 == d[j].0;
  }

  /** In a dict, a key that sits at position `i` is found at position `i`. */
  lemma PositionIsUnique(d: Dict, k: string, i: nat)
    requires i < |d| && d[i].0 == k
    ensures FindKey(d, k) == i
  {
  }

  /** A stream URL as `validate_stream` and `clean_url` recognise it. */
  predicate HasStreamScheme(url: string)
  {
    "http://" <= url || "https://" <= url || "rtmp://" <= url || "rtsp://" <= url
  }

  /** The first line of an extended-M3U playlist: the writer emits it and the
      parser demands it. */
  const Header := "#EXTM3U"

  /** One playlist entry. Every key of the Python dict except `attributes` may
      be missing; a missing `attributes` behaves as an empty dict everywhere. */
  datatype Entry = Entry(
    url: Option<string>,
    name: Option<string>,
    duration: Option<string>,
    attributes: Dict,
    rawInfo: Option<string>,
    additionalInfo: Option<seq<string>>)
}
