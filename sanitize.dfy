/**
 * sanitize_for_json: the rewrite that makes a metadata tree safe to hand to a JSON
 * encoder. Non-finite floats become the string "NaN", dictionary keys become str(k),
 * lists are rewritten element by element, and any other object that json.dumps
 * refuses becomes its str() form.
 */
module Sanitize {
  import opened Wrappers
  import opened Json

  /** Position of key k in d, if it is there. */
  function IndexOf(d: seq<(Key, Value)>, k: Key): (r: Option<nat>)
    ensures r.Some? ==> r.value < |d| && d[r.value].0 == k
    ensures r.None? ==> forall i :: 0 <= i < |d| ==> d[i].0 != k
  {
    if d == [] then None
    else if d[0].0 == k then Some(0)
    else match IndexOf(d[1..], k)
      case Some(j) => Some(j + 1)
      case None => None
  }

  /** dict[k] = v on an insertion-ordered dict: an existing key keeps its place, a new key goes last. */
  function Put(d: seq<(Key, Value)>, k: Key, v: Value): (r: seq<(Key, Value)>)
    ensures forall e :: e in r ==> e in d || e == (k, v)
    ensures (k, v) in r
    ensures (forall i :: 0 <= i < |d| ==> d[i].0 != k) ==> r == d + [(k, v)]
    ensures IndexOf(d, k).Some? ==> |r| == |d| && r[IndexOf(d, k).value] == (k, v)
    ensures IndexOf(d, k).Some? ==>
      forall j :: 0 <= j < |d| && j != IndexOf(d, k).value ==> r[j] == d[j]
  {
    match IndexOf(d, k)
    case Some(i) =>
      var r := d[i := (k, v)];
      assert r[i] == (k, v);
      r
    case None => d + [(k, v)]
  }

  /** Assigning into a dict keeps its keys distinct. */
  lemma PutDistinct(d: seq<(Key, Value)>, k: Key, v: Value)
    requires DistinctKeys(d)
    ensures DistinctKeys(Put(d, k, v))
  {
    var r := Put(d, k, v);
    match IndexOf(d, k)
    case Some(i) =>
      assert forall a :: 0 <= a < |r| ==> r[a].0 == d[a].0;
    case None =>
      assert forall a :: 0 <= a < |d| ==> r[a] == d[a];
  }

  /** After dict[k] = v, looking up k gives v and every other key gives what it gave before. */
  lemma PutGet(d: seq<(Key, Value)>, k: Key, v: Value)
    requires DistinctKeys(d)
    ensures Get(Put(d, k, v), k) == Some(v)
    ensures forall k' :: k' != k ==> Get(Put(d, k, v), k') == Get(d, k')
  {
    var r := Put(d, k, v);
    PutDistinct(d, k, v);
    var j :| 0 <= j < |r| && r[j] == (k, v);
    GetDistinct(r, j);
    forall k' | k' != k ensures Get(r, k') == Get(d, k') {
      match Get(d, k')
      case None =>
        forall a | 0 <= a < |r| ensures r[a].0 != k' {
          assert r[a] in r;
        }
      case Some(w) =>
        var i :| 0 <= i < |d| && d[i] == (k', w);
        assert r[i] == d[i];
        GetDistinct(r, i);
    }
  }

  /** Entry i of es is the last one with its key. */
  predicate LastFor(es: seq<(Key, Value)>, i: nat)
  {
    forall j :: i < j < |es| ==> es[j].0 != es[i].0
  }

  /**
   * Builds a dict by assigning the entries in order, as a dict comprehension does:
   * every key of es is in the result, holding the value of its last entry.
   */
  function Collect(es: seq<(Key, Value)>): (r: seq<(Key, Value)>)
    ensures DistinctKeys(r)
    ensures forall e :: e in r ==> e in es
    ensures forall i :: 0 <= i < |es| ==> Get(r, es[i].0).Some?
    ensures forall i :: 0 <= i < |es| && LastFor(es, i) ==> Get(r, es[i].0) == Some(es[i].1)
  {
    if es == [] then []
    else
      var n := |es| - 1;
      assert es[..n] + [es[n]] == es;
      CollectStep(es[..n], es[n].0, es[n].1, Collect(es[..n]));
      Put(Collect(es[..n]), es[n].0, es[n].1)
  }

  /** One assignment of the comprehension keeps what Collect promises. */
  lemma CollectStep(init: seq<(Key, Value)>, k: Key, v: Value, d: seq<(Key, Value)>)
    requires DistinctKeys(d)
    requires forall e :: e in d ==> e in init
    requires forall i :: 0 <= i < |init| ==> Get(d, init[i].0).Some?
    requires forall i :: 0 <= i < |init| && LastFor(init, i) ==> Get(d, init[i].0) == Some(init[i].1)
    ensures var es, r := init + [(k, v)], Put(d, k, v);
      && DistinctKeys(r)
      && (forall e :: e in r ==> e in es)
      && (forall i :: 0 <= i < |es| ==> Get(r, es[i].0).Some?)
      && (forall i :: 0 <= i < |es| && LastFor(es, i) ==> Get(r, es[i].0) == Some(es[i].1))
  {
    var es, r := init + [(k, v)], Put(d, k, v);
    var n := |init|;
    assert es[n] == (k, v);
    PutDistinct(d, k, v);
    PutGet(d, k, v);
    forall i | 0 <= i < |es| ensures Get(r, es[i].0).Some? {
      if i < n {
        assert es[i] == init[i];
      }
    }
    forall i | 0 <= i < |es| && LastFor(es, i) ensures Get(r, es[i].0) == Some(es[i].1) {
      if i < n {
        assert es[i] == init[i];
        assert LastFor(init, i) by {
          forall j | i < j < |init| ensures init[j].0 != init[i].0 {
            assert init[j] == es[j];
          }
        }
      }
    }
  }

  /**
   * What the encoder can take: no NaN or infinity anywhere in the list and dict
   * structure, string keys only, and no object json.dumps refuses.
   */
  predicate Clean(v: Value)
  {
    match v
    case NaN => false
    case Inf(_) => false
    case List(items) => forall i :: 0 <= i < |items| ==> Clean(items[i])
    case Dict(es) =>
      && DistinctKeys(es)
      && forall i :: 0 <= i < |es| ==> es[i].0.StrKey? && Clean(es[i].1)
    case Other(_, dumps) => dumps
    case _ => true
  }

  /** sanitize_for_json(data). */
  function SanitizeForJson(v: Value): (r: Value)
    ensures Clean(r)
  {
    match v
    case Num(_) => v
    case NaN => Str("NaN")
    case Inf(_) => Str("NaN")
    case Dict(es) =>
      var stringified := seq(|es|, i requires 0 <= i < |es| =>
        (StrKey(KeyText(es[i].0)), SanitizeForJson(es[i].1)));
      var c := Collect(stringified);
      assert forall j :: 0 <= j < |c| ==> c[j].0.StrKey? && Clean(c[j].1) by {
        forall j | 0 <= j < |c| ensures c[j].0.StrKey? && Clean(c[j].1) {
          assert c[j] in stringified;
        }
      }
      Dict(c)
    case List(items) =>
      List(seq(|items|, i requires 0 <= i < |items| => SanitizeForJson(items[i])))
    case Other(repr, dumps) => if dumps then v else Str(repr)
    case _ => v
  }

  /** Assigning entries with distinct keys in order rebuilds exactly the same dict. */
  lemma {:induction false} CollectDistinct(es: seq<(Key, Value)>)
    requires DistinctKeys(es)
    ensures Collect(es) == es
  {
    if es != [] {
      var n := |es| - 1;
      var init := es[..n];
      DistinctInit(es);
      CollectDistinct(init);
      assert init + [es[n]] == es;
      assert Collect(es) == Put(Collect(init), es[n].0, es[n].1);
    }
  }

  /** Dropping the last entry of a dict with distinct keys leaves distinct keys, none of them the last one's. */
  lemma DistinctInit(es: seq<(Key, Value)>)
    requires es != [] && DistinctKeys(es)
    ensures DistinctKeys(es[..|es| - 1])
    ensures forall i :: 0 <= i < |es| - 1 ==> es[i].0 != es[|es| - 1].0
  {
    var init := es[..|es| - 1];
    forall a, b | 0 <= a < b < |init| ensures init[a].0 != init[b].0 {
      assert init[a] == es[a] && init[b] == es[b];
    }
  }

  /** A value that is already clean comes back unchanged. */
  lemma {:induction false} SanitizeFixesClean(v: Value)
    requires Clean(v)
    ensures SanitizeForJson(v) == v
  {
    match v
    case List(items) =>
      forall i | 0 <= i < |items| ensures SanitizeForJson(items[i]) == items[i] {
        SanitizeFixesClean(items[i]);
      }
    case Dict(es) =>
      var stringified := seq(|es|, i requires 0 <= i < |es| =>
        (StrKey(KeyText(es[i].0)), SanitizeForJson(es[i].1)));
      forall i | 0 <= i < |es| ensures stringified[i] == es[i] {
        SanitizeFixesClean(es[i].1);
      }
      assert stringified == es;
      CollectDistinct(es);
    case _ =>
  }

  /** Sanitising twice is the same as sanitising once. */
  lemma SanitizeIdempotent(v: Value)
    ensures SanitizeForJson(SanitizeForJson(v)) == SanitizeForJson(v)
  {
    SanitizeFixesClean(SanitizeForJson(v));
  }

  /** Floats: finite ones are kept, NaN and both infinities become the string "NaN". */
  lemma SanitizeFloats(x: real, negative: bool)
    ensures SanitizeForJson(Num(x)) == Num(x)
    ensures SanitizeForJson(NaN) == Str("NaN")
    ensures SanitizeForJson(Inf(negative)) == Str("NaN")
  {
  }

  /** An object json.dumps refuses becomes its str() form; one it accepts is kept. */
  lemma SanitizeOther(repr: string)
    ensures SanitizeForJson(Other(repr, false)) == Str(repr)
    ensures SanitizeForJson(Other(repr, true)) == Other(repr, true)
  {
  }

  /**
   * Every key of a dict survives as str(k), holding the sanitised value of the last
   * entry whose key prints the same; nothing else is in the result.
   */
  lemma SanitizeDictLastWins(es: seq<(Key, Value)>)
    ensures SanitizeForJson(Dict(es)).Dict?
    ensures forall i :: 0 <= i < |es| ==>
      Get(SanitizeForJson(Dict(es)).entries, StrKey(KeyText(es[i].0))).Some?
    ensures forall i :: 0 <= i < |es| && (forall j :: i < j < |es| ==> KeyText(es[j].0) != KeyText(es[i].0)) ==>
      Get(SanitizeForJson(Dict(es)).entries, StrKey(KeyText(es[i].0))) == Some(SanitizeForJson(es[i].1))
    ensures forall e :: e in SanitizeForJson(Dict(es)).entries ==>
      exists i :: 0 <= i < |es| && e == (StrKey(KeyText(es[i].0)), SanitizeForJson(es[i].1))
  {
    var stringified := seq(|es|, i requires 0 <= i < |es| =>
      (StrKey(KeyText(es[i].0)), SanitizeForJson(es[i].1)));
    var c := Collect(stringified);
    assert SanitizeForJson(Dict(es)).entries == c;
    forall i | 0 <= i < |es| ensures Get(c, StrKey(KeyText(es[i].0))).Some? {
      assert stringified[i].0 == StrKey(KeyText(es[i].0));
    }
    forall i | 0 <= i < |es| && (forall j :: i < j < |es| ==> KeyText(es[j].0) != KeyText(es[i].0))
      ensures Get(c, StrKey(KeyText(es[i].0))) == Some(SanitizeForJson(es[i].1))
    {
      assert stringified[i] == (StrKey(KeyText(es[i].0)), SanitizeForJson(es[i].1));
      assert LastFor(stringified, i);
    }
    forall e | e in c
      ensures exists i :: 0 <= i < |es| && e == (StrKey(KeyText(es[i].0)), SanitizeForJson(es[i].1))
    {
      var i :| 0 <= i < |stringified| && stringified[i] == e;
    }
  }

  /** A list keeps its length and order; each element is sanitised on its own. */
  lemma SanitizeList(items: seq<Value>)
    ensures SanitizeForJson(List(items)).List?
    ensures |SanitizeForJson(List(items)).items| == |items|
    ensures forall i :: 0 <= i < |items| ==>
      SanitizeForJson(List(items)).items[i] == SanitizeForJson(items[i])
  {
  }

  /**
   * When no two keys of a dict print the same, the result keeps every entry in its
   * place, with key str(k) and the sanitised value.
   */
  lemma SanitizeDictOrder(es: seq<(Key, Value)>)
    requires forall i, j :: 0 <= i < j < |es| ==> KeyText(es[i].0) != KeyText(es[j].0)
    ensures SanitizeForJson(Dict(es)).Dict?
    ensures |SanitizeForJson(Dict(es)).entries| == |es|
    ensures forall i :: 0 <= i < |es| ==>
      SanitizeForJson(Dict(es)).entries[i] == (StrKey(KeyText(es[i].0)), SanitizeForJson(es[i].1))
  {
    var stringified := seq(|es|, i requires 0 <= i < |es| =>
      (StrKey(KeyText(es[i].0)), SanitizeForJson(es[i].1)));
    StringifiedDistinct(es);
    CollectDistinct(stringified);
    assert SanitizeForJson(Dict(es)).entries == stringified;
  }

  /** Keys that print differently stay different once replaced by str(k). */
  lemma StringifiedDistinct(es: seq<(Key, Value)>)
    requires forall i, j :: 0 <= i < j < |es| ==> KeyText(es[i].0) != KeyText(es[j].0)
    ensures DistinctKeys(seq(|es|, i requires 0 <= i < |es| =>
      (StrKey(KeyText(es[i].0)), SanitizeForJson(es[i].1))))
  {
  }

  /**
   * Two keys that print the same (the int 1 and the string "1") collapse into one
   * entry: it sits where the first was and holds the later value.
   */
  lemma SanitizeDictCollision(k1: Key, k2: Key, v1: Value, v2: Value)
    requires k1 != k2 && KeyText(k1) == KeyText(k2)
    ensures SanitizeForJson(Dict([(k1, v1), (k2, v2)]))
         == Dict([(StrKey(KeyText(k1)), SanitizeForJson(v2))])
  {
    var k := StrKey(KeyText(k1));
    var s1, s2 := SanitizeForJson(v1), SanitizeForJson(v2);
    SanitizePair(k1, k2, v1, v2);
    CollectSameKey(k, s1, s2);
  }

  /** The dict comprehension over two entries, spelled out. */
  lemma SanitizePair(k1: Key, k2: Key, v1: Value, v2: Value)
    ensures SanitizeForJson(Dict([(k1, v1), (k2, v2)]))
         == Dict(Collect([(StrKey(KeyText(k1)), SanitizeForJson(v1)), (StrKey(KeyText(k2)), SanitizeForJson(v2))]))
  {
    var es := [(k1, v1), (k2, v2)];
    var stringified := seq(|es|, i requires 0 <= i < |es| =>
      (StrKey(KeyText(es[i].0)), SanitizeForJson(es[i].1)));
    var pair := [(StrKey(KeyText(k1)), SanitizeForJson(v1)), (StrKey(KeyText(k2)), SanitizeForJson(v2))];
    assert stringified[0] == pair[0] && stringified[1] == pair[1];
    assert stringified == pair;
  }

  /** Assigning the same key twice leaves one entry with the second value. */
  lemma CollectSameKey(k: Key, a: Value, b: Value)
    ensures Collect([(k, a), (k, b)]) == [(k, b)]
  {
    var es := [(k, a), (k, b)];
    assert es[..1] == [(k, a)];
    assert [(k, a)][..0] == [];
    assert Collect([(k, a)]) == Put([], k, a);
  }
}
