/**
 * Python values as the processor sees them: the JSON-like tree built by json.loads,
 * by Docling's metadata and by the processor's own dictionary literals.
 */
module Json {
  import opened Wrappers

  /** A dictionary key. Keys that are not strings carry the text that str(k) gives for them. */
  datatype Key = StrKey(s: string) | OtherKey(shown: string)

  /**
   * A Python value. Floats are classified rather than computed with: Num is a finite
   * float, NaN and Inf the non-finite ones. Other stands for every object of another
   * type (tuple, set, datetime, ...): repr is what str() gives for it and dumps says
   * whether json.dumps accepts it.
   */
  datatype Value =
    | Null
    | Bool(b: bool)
    | Int(i: int)
    | Num(x: real)
    | NaN
    | Inf(negative: bool)
    | Str(s: string)
    | List(items: seq<Value>)
    | Dict(entries: seq<(Key, Value)>)
    | Other(repr: string, dumps: bool)

  /** The outcome of json.loads on a reply of the language model. */
  datatype Parse = Parsed(value: Value) | Malformed

  /** The name type(v).__name__ gives, as it appears in Python's error messages. */
  function TypeName(v: Value): string
  {
    match v
    case Null => "NoneType"
    case Bool(_) => "bool"
    case Int(_) => "int"
    case Num(_) => "float"
    case NaN => "float"
    case Inf(_) => "float"
    case Str(_) => "str"
    case List(_) => "list"
    case Dict(_) => "dict"
    case Other(_, _) => "object"
  }

  /** The text str(k) gives for a key. */
  function KeyText(k: Key): string
  {
    match k
    case StrKey(s) => s
    case OtherKey(shown) => shown
  }

  /** The keys of an entry list, in insertion order. */
  function KeysOf(es: seq<(Key, Value)>): seq<Key>
  {
    seq(|es|, i requires 0 <= i < |es| => es[i].0)
  }

  /** The keys of a Python dict are pairwise distinct. */
  predicate DistinctKeys(es: seq<(Key, Value)>)
  {
    forall i, j :: 0 <= i < j < |es| ==> es[i].0 != es[j].0
  }

  /** dict.get(key): the value stored under key, or None when key is absent. */
  function Get(es: seq<(Key, Value)>, key: Key): (r: Option<Value>)
    ensures r.None? <==> forall i :: 0 <= i < |es| ==> es[i].0 != key
    ensures r.Some? ==> exists i :: 0 <= i < |es| && es[i] == (key, r.value)
  {
    if es == [] then None
    else if es[0].0 == key then Some(es[0].1)
    else Get(es[1..], key)
  }

  /** dict.get(key, default). */
  function GetOr(es: seq<(Key, Value)>, key: Key, default: Value): (r: Value)
    ensures (key, r) in es || (r == default && forall i :: 0 <= i < |es| ==> es[i].0 != key)
    ensures DistinctKeys(es) ==> forall i :: 0 <= i < |es| && es[i].0 == key ==> r == es[i].1
  {
    match Get(es, key)
    case Some(v) => v
    case None => default
  }

  /** A string-keyed dictionary literal {k1: v1, ...}. */
  function Lit(kvs: seq<(string, Value)>): seq<(Key, Value)>
  {
    seq(|kvs|, i requires 0 <= i < |kvs| => (StrKey(kvs[i].0), kvs[i].1))
  }

  /** In a dict with distinct keys, the entry at position i is what get returns for its key. */
  lemma GetDistinct(es: seq<(Key, Value)>, i: nat)
    requires DistinctKeys(es)
    requires i < |es|
    ensures Get(es, es[i].0) == Some(es[i].1)
  {
  }
}
