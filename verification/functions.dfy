/**
 * `splitObject` from src/common/functions.ts: walks the own keys of a record
 * and assigns each property into one of two caller-supplied objects, the
 * first for the listed keys and the second for all others.
 */
module CommonFunctions {
  import opened Wrappers
  import opened Records
  import opened JsValues

  method SplitObject(target: Props<Value>, picked: JsObject, remaining: JsObject, keys: seq<string>)
    requires DistinctKeys(target)
    modifies picked, remaining
    ensures picked != remaining ==> picked.props == Assign(old(picked.props), Only(target, keys))
    ensures picked != remaining ==> remaining.props == Assign(old(remaining.props), Without(target, keys))
    ensures picked == remaining ==> picked.props == Assign(old(picked.props), target)
  {
    var i := 0;
    while i < |target|
      invariant 0 <= i <= |target|
      invariant picked != remaining ==> picked.props == Assign(old(picked.props), Only(target[..i], keys))
      invariant picked != remaining ==> remaining.props == Assign(old(remaining.props), Without(target[..i], keys))
      invariant picked == remaining ==> picked.props == Assign(old(picked.props), target[..i])
    {
      var key := target[i].0;
      LookupAt(target, i);
      var value := Lookup(target, key).GetOr(Undefined);
      assert target[..i + 1] == target[..i] + [target[i]];
      OnlyAppend(target[..i], target[i], keys);
      WithoutAppend(target[..i], target[i], keys);
      AssignAppend(old(picked.props), Only(target[..i], keys), target[i]);
      AssignAppend(old(remaining.props), Without(target[..i], keys), target[i]);
      AssignAppend(old(picked.props), target[..i], target[i]);
      if key in keys {
        picked.props := Put(picked.props, key, value);
      } else {
        remaining.props := Put(remaining.props, key, value);
      }
      i := i + 1;
    }
    assert target[..i] == target;
  }

  /**
   * Where a property ends up after `SplitObject` with two distinct
   * destinations: a listed key of the target lands in the first with the
   * target's value, an unlisted key of the target in the second, and a
   * destination property whose key the target lacks keeps its value.
   */
  lemma SplitRouting(target: Props<Value>, before: Props<Value>, keys: seq<string>, k: string)
    requires DistinctKeys(target)
    ensures Lookup(Assign(before, Only(target, keys)), k)
         == if Has(target, k) && k in keys then Lookup(target, k) else Lookup(before, k)
    ensures Lookup(Assign(before, Without(target, keys)), k)
         == if Has(target, k) && k !in keys then Lookup(target, k) else Lookup(before, k)
  {
    DistinctOnly(target, keys);
    DistinctWithout(target, keys);
    LookupAssign(before, Only(target, keys), k);
    LookupAssign(before, Without(target, keys), k);
    LookupOnly(target, keys, k);
    LookupWithout(target, keys, k);
    HasOnly(target, keys, k);
    HasWithout(target, keys, k);
  }

  /** Every own key of the target is written to exactly one of the two destinations. */
  lemma SplitPartition(target: Props<Value>, keys: seq<string>, k: string)
    ensures Has(target, k) <==> Has(Only(target, keys), k) || Has(Without(target, keys), k)
    ensures !(Has(Only(target, keys), k) && Has(Without(target, keys), k))
  {
    HasOnly(target, keys, k);
    HasWithout(target, keys, k);
  }

  /** A listed key the target lacks is not created in either destination. */
  lemma SplitCreatesNothing(target: Props<Value>, before: Props<Value>, keys: seq<string>, k: string)
    requires !Has(target, k)
    ensures Has(Assign(before, Only(target, keys)), k) <==> Has(before, k)
    ensures Has(Assign(before, Without(target, keys)), k) <==> Has(before, k)
  {
    KeysAssign(before, Only(target, keys), k);
    KeysAssign(before, Without(target, keys), k);
    HasOnly(target, keys, k);
    HasWithout(target, keys, k);
  }
}
