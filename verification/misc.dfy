/**
 * `pick` from src/util/misc.ts: splits a record into the listed keys and the
 * rest. It copies the target, then for each listed key in turn reads the
 * copy, deletes the key from it and writes the value read into `picked`.
 */
module Misc {
  import opened Wrappers
  import opened Records
  import opened JsValues

  /** The listed keys without repeats, each at its first occurrence. */
  function Dedup(ks: seq<string>): (r: seq<string>)
    ensures forall k :: k in r <==> k in ks
    ensures forall i, j :: 0 <= i < j < |r| ==> r[i] != r[j]
  {
    if ks == [] then []
    else
      var d := Dedup(ks[..|ks| - 1]);
      var last := ks[|ks| - 1];
      assert ks == ks[..|ks| - 1] + [last];
      if last in d then d else d + [last]
  }

  /**
   * What `picked[k]` holds for a listed key: the target's value when the key
   * is listed once; `undefined` when it is listed again, because the earlier
   * round already deleted it from the copy the later round reads.
   */
  function PickedValue(target: Props<Value>, keys: seq<string>, k: string): Value {
    if multiset(keys)[k] == 1 then Lookup(target, k).GetOr(Undefined) else Undefined
  }

  method Pick(target: Props<Value>, keys: seq<string>) returns (picked: Props<Value>, remaining: Props<Value>)
    requires DistinctKeys(target)
    ensures remaining == Without(target, keys)
    ensures Keys(picked) == Dedup(keys)
    ensures forall k :: k in keys ==> Lookup(picked, k) == Some(PickedValue(target, keys, k))
    ensures forall k :: Has(target, k) <==> Has(remaining, k) || (Has(target, k) && Has(picked, k))
    ensures forall k :: !(Has(remaining, k) && Has(picked, k))
  {
    picked := [];
    remaining := target;
    WithoutNothing(target);
    var i := 0;
    while i < |keys|
      invariant 0 <= i <= |keys|
      invariant remaining == Without(target, keys[..i])
      invariant Keys(picked) == Dedup(keys[..i])
      invariant forall k :: k in keys[..i] ==> Lookup(picked, k) == Some(PickedValue(target, keys[..i], k))
    {
      var key := keys[i];
      var value := Lookup(remaining, key).GetOr(Undefined);
      PickStep(target, keys[..i], key, picked, value);
      WithoutSnoc(target, keys[..i], key);
      assert keys[..i + 1] == keys[..i] + [key];
      remaining := Remove(remaining, key);
      picked := Put(picked, key, value);
      i := i + 1;
    }
    assert keys[..i] == keys;
    forall k ensures Has(target, k) <==> Has(remaining, k) || (Has(target, k) && Has(picked, k))
      ensures !(Has(remaining, k) && Has(picked, k))
    {
      HasWithout(target, keys, k);
    }
  }

  /** One round of the loop in `Pick` keeps its invariant. */
  lemma PickStep(target: Props<Value>, done: seq<string>, key: string, picked: Props<Value>, value: Value)
    requires DistinctKeys(target)
    requires Keys(picked) == Dedup(done)
    requires forall k :: k in done ==> Lookup(picked, k) == Some(PickedValue(target, done, k))
    requires value == Lookup(Without(target, done), key).GetOr(Undefined)
    ensures Keys(Put(picked, key, value)) == Dedup(done + [key])
    ensures forall k :: k in done + [key] ==> Lookup(Put(picked, key, value), k) == Some(PickedValue(target, done + [key], k))
  {
    var next := done + [key];
    assert next[..|next| - 1] == done;
    KeysPut(picked, key, value);
    LookupWithout(target, done, key);
    forall k | k in next ensures Lookup(Put(picked, key, value), k) == Some(PickedValue(target, next, k)) {
      LookupPut(picked, key, value, k);
      assert multiset(next)[k] == multiset(done)[k] + (if k == key then 1 else 0);
    }
  }

  /** With distinct listed keys, `picked[key]` is exactly `target[key]`. */
  lemma {:induction false} PickedDistinct(target: Props<Value>, keys: seq<string>, k: string)
    requires forall i, j :: 0 <= i < j < |keys| ==> keys[i] != keys[j]
    requires k in keys
    ensures PickedValue(target, keys, k) == Lookup(target, k).GetOr(Undefined)
  {
    CountDistinct(keys, k);
  }

  lemma {:induction false} CountDistinct(ks: seq<string>, k: string)
    requires forall i, j :: 0 <= i < j < |ks| ==> ks[i] != ks[j]
    requires k in ks
    ensures multiset(ks)[k] == 1
  {
    assert ks == [ks[0]] + ks[1..];
    if ks[0] == k {
      assert k !in ks[1..];
    } else {
      CountDistinct(ks[1..], k);
    }
  }
}
