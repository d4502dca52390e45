/** A parsed YAML document as the validators see it. Mappings keep their pairs in
    document order (the order Python iterates a dict in); the loader has already
    rendered every Home Assistant tag as a string of the form "!tag value". */
module ConfigTree {

  datatype Tree =
    | Map(entries: seq<(string, Tree)>)
    | Seq(items: seq<Tree>)
    | Str(s: string)
    | Bool(b: bool)
    | Num(n: int)
    | Null

  function KeysOf(es: seq<(string, Tree)>): (ks: seq<string>)
    ensures |ks| == |es| && forall i :: 0 <= i < |es| ==> ks[i] == es[i].0
  {
    seq(|es|, i requires 0 <= i < |es| => es[i].0)
  }

  /** `k in d` for a mapping. */
  predicate Has(es: seq<(string, Tree)>, k: string) {
    k in KeysOf(es)
  }

  /** `d[k]`: the value paired with the first occurrence of `k`. */
  function Get(es: seq<(string, Tree)>, k: string): (v: Tree)
    requires Has(es, k)
    ensures exists i :: 0 <= i < |es| && es[i] == (k, v)
  {
    if es[0].0 == k then es[0].1 else Get(es[1..], k)
  }

  /** `d.get(k, default)`. */
  function GetOr(es: seq<(string, Tree)>, k: string, default: Tree): Tree {
    if Has(es, k) then Get(es, k) else default
  }

  /** Python truthiness of a node. */
  predicate Truthy(t: Tree) {
    match t
    case Map(es) => es != []
    case Seq(ts) => ts != []
    case Str(s) => s != ""
    case Bool(b) => b
    case Num(n) => n != 0
    case Null => false
  }
}
