/** Building a PHP array by a run of assignments `$a[$k] = $v`, which is how every
    row of the converters is made: a later assignment to a key overwrites the value
    and keeps the key's first place. */
module PhpArrays {
  import opened Bytes
  import opened Php

  /** The array made by assigning the entries of `es`, in order, to an empty array. */
  function Build(es: seq<Entry>): Row
  {
    if es == [] then [] else Set(Build(es[..|es| - 1]), es[|es| - 1].key, es[|es| - 1].val)
  }

  /** One more assignment. */
  lemma BuildAppend(es: seq<Entry>, e: Entry)
    ensures Build(es + [e]) == Set(Build(es), e.key, e.val)
  {
    assert (es + [e])[..|es|] == es;
  }

  /** The value of the last entry of `es` whose key is `k`. */
  function LastValue(es: seq<Entry>, k: string): Option<Value>
  {
    if es == [] then None
    else if es[|es| - 1].key == k then Some(es[|es| - 1].val)
    else LastValue(es[..|es| - 1], k)
  }

  /** Reading a key of the built array gives the last value assigned to it, and
      nothing when it was never assigned. */
  lemma {:induction false} BuildGet(es: seq<Entry>, k: string)
    ensures Get(Build(es), k) == LastValue(es, k)
  {
    if es != [] {
      BuildGet(es[..|es| - 1], k);
      SetGet(Build(es[..|es| - 1]), es[|es| - 1].key, es[|es| - 1].val, k);
    }
  }

  /** The built array holds each assigned key once. */
  lemma {:induction false} BuildDistinct(es: seq<Entry>)
    ensures Distinct(Keys(Build(es)))
  {
    if es != [] {
      var init := es[..|es| - 1];
      BuildDistinct(init);
      SetKeepsDistinct(Build(init), es[|es| - 1].key, es[|es| - 1].val);
    }
  }

  /** Its keys are exactly the assigned keys. */
  lemma {:induction false} BuildKeySet(es: seq<Entry>, k: string)
    ensures k in Keys(Build(es)) <==> k in Keys(es)
  {
    if es != [] {
      var init := es[..|es| - 1];
      BuildKeySet(init, k);
      SetKeys(Build(init), es[|es| - 1].key, es[|es| - 1].val);
      assert Keys(es) == Keys(init) + [es[|es| - 1].key];
    }
  }

  /** No key is assigned twice. */
  predicate DistinctKeys(es: seq<Entry>)
  {
    forall i, j :: 0 <= i < j < |es| ==> es[i].key != es[j].key
  }

  /** Under distinct keys, the last key was not assigned before. */
  lemma LastKeyIsNew(es: seq<Entry>)
    requires es != [] && DistinctKeys(es)
    ensures es[|es| - 1].key !in Keys(es[..|es| - 1])
  {
    var init := es[..|es| - 1];
    forall i | 0 <= i < |init| ensures Keys(init)[i] != es[|es| - 1].key {
      assert init[i] == es[i];
    }
  }

  /** When no key repeats, the built array is the entries themselves: the keys
      in assignment order, each with its value. */
  lemma {:induction false} BuildOfDistinct(es: seq<Entry>)
    requires DistinctKeys(es)
    ensures Build(es) == es
  {
    if es != [] {
      var init := es[..|es| - 1];
      var e := es[|es| - 1];
      BuildOfDistinct(init);
      LastKeyIsNew(es);
      SetNew(init, e.key, e.val);
      assert es == init + [e];
    }
  }
}
