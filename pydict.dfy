/** A Python `dict` with string keys: its items in insertion order. Assigning to a
    present key replaces the value in place; a new key goes to the end. */
module PyDict {

  type Dict<V> = seq<(string, V)>

  function Keys<V>(d: Dict<V>): (ks: seq<string>)
    ensures |ks| == |d| && forall i :: 0 <= i < |d| ==> ks[i] == d[i].0
  {
    seq(|d|, i requires 0 <= i < |d| => d[i].0)
  }

  function Values<V>(d: Dict<V>): (vs: seq<V>)
    ensures |vs| == |d| && forall i :: 0 <= i < |d| ==> vs[i] == d[i].1
  {
    seq(|d|, i requires 0 <= i < |d| => d[i].1)
  }

  predicate HasKey<V>(d: Dict<V>, k: string) {
    k in Keys(d)
  }

  /** No key occurs twice, as in every Python dict. */
  predicate Valid<V>(d: Dict<V>) {
    forall i, j :: 0 <= i < j < |d| ==> d[i].0 != d[j].0
  }

  /** Position of `k`, or `|d|` when absent. */
  function Position<V>(d: Dict<V>, k: string): (p: nat)
    ensures p <= |d|
    ensures p < |d| ==> d[p].0 == k
    ensures forall i :: 0 <= i < p ==> d[i].0 != k
    ensures p == |d| <==> !HasKey(d, k)
  {
    if d == [] then 0
    else if d[0].0 == k then 0
    else 1 + Position(d[1..], k)
  }

  /** `d[k]`. */
  function Get<V>(d: Dict<V>, k: string): V
    requires HasKey(d, k)
  {
    d[Position(d, k)].1
  }

  /** `d[k] = v`. */
  function Insert<V>(d: Dict<V>, k: string, v: V): (r: Dict<V>)
    ensures HasKey(r, k) && Get(r, k) == v
    ensures forall k' :: HasKey(r, k') <==> HasKey(d, k') || k' == k
    ensures Valid(d) ==> Valid(r)
    ensures HasKey(d, k) ==> Keys(r) == Keys(d)
    ensures !HasKey(d, k) ==> Keys(r) == Keys(d) + [k]
    ensures forall e :: e in r ==> e == (k, v) || e in d
  {
    var p := Position(d, k);
    if p < |d| then
      var r := d[p := (k, v)];
      assert Keys(r) == Keys(d);
      assert Position(r, k) == p;
      r
    else
      var r := d + [(k, v)];
      assert Keys(r) == Keys(d) + [k];
      assert Position(r, k) == |d|;
      r
  }

  /** Inserting `k` leaves the value of every other key as it was. */
  lemma InsertOther<V>(d: Dict<V>, k: string, v: V, k': string)
    requires Valid(d) && k' != k && HasKey(d, k')
    ensures Get(Insert(d, k, v), k') == Get(d, k')
  {
    var r := Insert(d, k, v);
    var p := Position(d, k');
    if HasKey(d, k) {
      assert Keys(r) == Keys(d);
      assert r[p] == d[p];
      assert Position(r, k') == p;
    } else {
      assert r[p] == d[p];
      assert Position(r, k') == p;
    }
  }
}
