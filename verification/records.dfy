/**
 * Key-ordered string records: the own string-keyed properties of a
 * JavaScript object, in the order `Object.keys` and `Object.entries` report
 * them (insertion order). Assigning to a present key keeps its position,
 * assigning to an absent key appends it, and `delete` removes it.
 */
module Records {
  import opened Wrappers

  type Props<V> = seq<(string, V)>

  /** `Object.keys` of a record. */
  function Keys<V>(p: Props<V>): seq<string> {
    seq(|p|, i requires 0 <= i < |p| => p[i].0)
  }

  /** The record has an own property `k` (`k in object`). */
  predicate Has<V>(p: Props<V>, k: string) {
    k in Keys(p)
  }

  /** No key occurs twice: true of every JavaScript object. */
  predicate DistinctKeys<V>(p: Props<V>) {
    forall i, j :: 0 <= i < j < |p| ==> p[i].0 != p[j].0
  }

  /** `object[k]`, with None for a missing property. */
  function Lookup<V>(p: Props<V>, k: string): Option<V> {
    if p == [] then None
    else if p[0].0 == k then Some(p[0].1)
    else Lookup(p[1..], k)
  }

  /** `object[k] = v`: replaces in place when present, appends otherwise. */
  function Put<V>(p: Props<V>, k: string, v: V): Props<V> {
    if p == [] then [(k, v)]
    else if p[0].0 == k then [(k, v)] + p[1..]
    else [p[0]] + Put(p[1..], k, v)
  }

  /** `delete object[k]`. */
  function Remove<V>(p: Props<V>, k: string): Props<V> {
    if p == [] then []
    else if p[0].0 == k then Remove(p[1..], k)
    else [p[0]] + Remove(p[1..], k)
  }

  /** The record with every key listed in `ks` deleted, the rest in order. */
  function Without<V>(p: Props<V>, ks: seq<string>): Props<V> {
    if p == [] then []
    else if p[0].0 in ks then Without(p[1..], ks)
    else [p[0]] + Without(p[1..], ks)
  }

  /** Only the entries whose key is listed in `ks`, in record order. */
  function Only<V>(p: Props<V>, ks: seq<string>): Props<V> {
    if p == [] then []
    else if p[0].0 in ks then [p[0]] + Only(p[1..], ks)
    else Only(p[1..], ks)
  }

  /** `{...p, ...q}` (equivalently `Object.assign(p, q)`): every entry of `q` assigned into `p` in order. */
  function Assign<V>(p: Props<V>, q: Props<V>): Props<V>
    decreases |q|
  {
    if q == [] then p else Assign(Put(p, q[0].0, q[0].1), q[1..])
  }

  /** The two records hold the same properties, whatever their order. */
  ghost predicate SameEntries<V>(p: Props<V>, q: Props<V>) {
    forall k :: Lookup(p, k) == Lookup(q, k)
  }

  // ---------------------------------------------------------------------------
  // Lemmas

  /** Taking one more element of a sequence appends that element. */
  lemma TakeSnoc<T>(s: seq<T>, i: nat)
    requires i < |s|
    ensures s[..i + 1] == s[..i] + [s[i]]
  {
  }

  lemma KeysMember<V>(p: Props<V>, k: string)
    ensures Has(p, k) <==> exists e :: e in p && e.0 == k
  {
    if Has(p, k) {
      var i :| 0 <= i < |p| && Keys(p)[i] == k;
      assert p[i] in p;
    }
    if exists e :: e in p && e.0 == k {
      var e :| e in p && e.0 == k;
      var i :| 0 <= i < |p| && p[i] == e;
      assert Keys(p)[i] == k;
    }
  }

  /** The first key of a record with distinct keys does not recur in its tail. */
  lemma DistinctHead<V>(p: Props<V>)
    requires DistinctKeys(p) && p != []
    ensures DistinctKeys(p[1..])
    ensures !Has(p[1..], p[0].0)
  {
    assert forall i :: 0 <= i < |p| - 1 ==> Keys(p[1..])[i] == p[i + 1].0;
  }

  lemma NotHeadKey<V>(p: Props<V>, e: (string, V))
    requires DistinctKeys(p) && p != [] && e in p[1..]
    ensures e.0 != p[0].0
  {
    var i :| 0 <= i < |p[1..]| && p[1..][i] == e;
    assert p[i + 1] == e;
  }

  lemma {:induction false} LookupHas<V>(p: Props<V>, k: string)
    ensures Lookup(p, k).Some? <==> Has(p, k)
    ensures Lookup(p, k).Some? ==> (k, Lookup(p, k).value) in p
  {
    if p != [] {
      LookupHas(p[1..], k);
      assert Keys(p) == [p[0].0] + Keys(p[1..]);
    }
  }

  lemma {:induction false} LookupAt<V>(p: Props<V>, i: nat)
    requires DistinctKeys(p) && i < |p|
    ensures Lookup(p, p[i].0) == Some(p[i].1)
  {
    if i > 0 {
      LookupAt(p[1..], i - 1);
    }
  }

  /** In a record with distinct keys, an entry is present exactly when Lookup finds it. */
  lemma LookupIn<V>(p: Props<V>, k: string, v: V)
    requires DistinctKeys(p)
    ensures (k, v) in p <==> Lookup(p, k) == Some(v)
  {
    LookupHas(p, k);
    if (k, v) in p {
      var i :| 0 <= i < |p| && p[i] == (k, v);
      LookupAt(p, i);
    }
  }

  lemma {:induction false} KeysPut<V>(p: Props<V>, k: string, v: V)
    ensures Keys(Put(p, k, v)) == if Has(p, k) then Keys(p) else Keys(p) + [k]
    ensures |Put(p, k, v)| == if Has(p, k) then |p| else |p| + 1
  {
    if p != [] {
      KeysPut(p[1..], k, v);
      assert Keys(p) == [p[0].0] + Keys(p[1..]);
      assert Keys(Put(p, k, v)) == [Put(p, k, v)[0].0] + Keys(Put(p, k, v)[1..]);
    }
  }

  lemma {:induction false} LookupPut<V>(p: Props<V>, k: string, v: V, k': string)
    ensures Lookup(Put(p, k, v), k') == if k' == k then Some(v) else Lookup(p, k')
  {
    if p != [] && p[0].0 != k {
      LookupPut(p[1..], k, v, k');
    }
  }

  lemma {:induction false} PutEntry<V>(p: Props<V>, k: string, v: V, e: (string, V))
    ensures e in Put(p, k, v) ==> e in p || e == (k, v)
  {
    if p != [] && p[0].0 != k {
      PutEntry(p[1..], k, v, e);
    }
  }

  lemma {:induction false} DistinctPut<V>(p: Props<V>, k: string, v: V)
    requires DistinctKeys(p)
    ensures DistinctKeys(Put(p, k, v))
  {
    if p != [] && p[0].0 != k {
      DistinctHead(p);
      DistinctPut(p[1..], k, v);
      var r := Put(p, k, v);
      forall j | 0 < j < |r| ensures r[0].0 != r[j].0 {
        var e := Put(p[1..], k, v)[j - 1];
        assert r[j] == e;
        PutEntry(p[1..], k, v, e);
        if e in p[1..] {
          NotHeadKey(p, e);
        }
      }
    }
  }

  lemma KeysRemove<V>(p: Props<V>, k: string)
    ensures forall k' :: Has(Remove(p, k), k') <==> Has(p, k') && k' != k
  {
    forall k' ensures Has(Remove(p, k), k') <==> Has(p, k') && k' != k {
      KeysMember(p, k');
      KeysMember(Remove(p, k), k');
      if Has(p, k') && k' != k {
        var e :| e in p && e.0 == k';
        RemoveEntry(p, k, e);
      }
      if Has(Remove(p, k), k') {
        var e :| e in Remove(p, k) && e.0 == k';
        RemoveEntry(p, k, e);
      }
    }
  }

  lemma {:induction false} LookupRemove<V>(p: Props<V>, k: string, k': string)
    requires DistinctKeys(p)
    ensures Lookup(Remove(p, k), k') == if k' == k then None else Lookup(p, k')
  {
    if p != [] {
      DistinctHead(p);
      LookupRemove(p[1..], k, k');
      if p[0].0 == k && k' == k {
        LookupHas(Remove(p[1..], k), k);
        KeysRemove(p[1..], k);
      }
    }
  }

  lemma {:induction false} RemoveEntry<V>(p: Props<V>, k: string, e: (string, V))
    ensures e in Remove(p, k) <==> e in p && e.0 != k
  {
    if p != [] {
      RemoveEntry(p[1..], k, e);
    }
  }

  lemma {:induction false} DistinctRemove<V>(p: Props<V>, k: string)
    requires DistinctKeys(p)
    ensures DistinctKeys(Remove(p, k))
  {
    if p != [] {
      DistinctHead(p);
      DistinctRemove(p[1..], k);
      if p[0].0 != k {
        var r := Remove(p, k);
        forall j | 0 < j < |r| ensures r[0].0 != r[j].0 {
          var e := Remove(p[1..], k)[j - 1];
          assert r[j] == e;
          RemoveEntry(p[1..], k, e);
          NotHeadKey(p, e);
        }
      }
    }
  }

  lemma {:induction false} WithoutEntry<V>(p: Props<V>, ks: seq<string>, e: (string, V))
    ensures e in Without(p, ks) <==> e in p && e.0 !in ks
  {
    if p != [] {
      WithoutEntry(p[1..], ks, e);
    }
  }

  lemma {:induction false} OnlyEntry<V>(p: Props<V>, ks: seq<string>, e: (string, V))
    ensures e in Only(p, ks) <==> e in p && e.0 in ks
  {
    if p != [] {
      OnlyEntry(p[1..], ks, e);
    }
  }

  lemma {:induction false} DistinctWithout<V>(p: Props<V>, ks: seq<string>)
    requires DistinctKeys(p)
    ensures DistinctKeys(Without(p, ks))
  {
    if p != [] {
      DistinctHead(p);
      DistinctWithout(p[1..], ks);
      if p[0].0 !in ks {
        var r := Without(p, ks);
        forall j | 0 < j < |r| ensures r[0].0 != r[j].0 {
          var e := Without(p[1..], ks)[j - 1];
          assert r[j] == e;
          WithoutEntry(p[1..], ks, e);
          NotHeadKey(p, e);
        }
      }
    }
  }

  lemma {:induction false} DistinctOnly<V>(p: Props<V>, ks: seq<string>)
    requires DistinctKeys(p)
    ensures DistinctKeys(Only(p, ks))
  {
    if p != [] {
      DistinctHead(p);
      DistinctOnly(p[1..], ks);
      if p[0].0 in ks {
        var r := Only(p, ks);
        forall j | 0 < j < |r| ensures r[0].0 != r[j].0 {
          var e := Only(p[1..], ks)[j - 1];
          assert r[j] == e;
          OnlyEntry(p[1..], ks, e);
          NotHeadKey(p, e);
        }
      }
    }
  }

  /** Deleting the listed keys leaves every other property untouched. */
  lemma LookupWithout<V>(p: Props<V>, ks: seq<string>, k: string)
    requires DistinctKeys(p)
    ensures Lookup(Without(p, ks), k) == if k in ks then None else Lookup(p, k)
  {
    DistinctWithout(p, ks);
    LookupHas(Without(p, ks), k);
    LookupHas(p, k);
    if Lookup(Without(p, ks), k).Some? {
      var v := Lookup(Without(p, ks), k).value;
      WithoutEntry(p, ks, (k, v));
      LookupIn(p, k, v);
    } else if k !in ks && Lookup(p, k).Some? {
      var v := Lookup(p, k).value;
      WithoutEntry(p, ks, (k, v));
      LookupIn(Without(p, ks), k, v);
    }
  }


  lemma LookupOnly<V>(p: Props<V>, ks: seq<string>, k: string)
    requires DistinctKeys(p)
    ensures Lookup(Only(p, ks), k) == if k in ks then Lookup(p, k) else None
  {
    DistinctOnly(p, ks);
    LookupHas(Only(p, ks), k);
    LookupHas(p, k);
    if Lookup(Only(p, ks), k).Some? {
      var v := Lookup(Only(p, ks), k).value;
      OnlyEntry(p, ks, (k, v));
      LookupIn(p, k, v);
    } else if k in ks && Lookup(p, k).Some? {
      var v := Lookup(p, k).value;
      OnlyEntry(p, ks, (k, v));
      LookupIn(Only(p, ks), k, v);
    }
  }


  lemma {:induction false} DistinctAssign<V>(p: Props<V>, q: Props<V>)
    requires DistinctKeys(p)
    ensures DistinctKeys(Assign(p, q))
    decreases |q|
  {
    if q != [] {
      DistinctPut(p, q[0].0, q[0].1);
      DistinctAssign(Put(p, q[0].0, q[0].1), q[1..]);
    }
  }

  /** A spread copies each property of the source, the last one of a key winning. */
  lemma {:induction false} LookupAssign<V>(p: Props<V>, q: Props<V>, k: string)
    requires DistinctKeys(q)
    ensures Lookup(Assign(p, q), k) == if Has(q, k) then Lookup(q, k) else Lookup(p, k)
    decreases |q|
  {
    if q != [] {
      DistinctHead(q);
      LookupAssign(Put(p, q[0].0, q[0].1), q[1..], k);
      LookupPut(p, q[0].0, q[0].1, k);
      assert Keys(q) == [q[0].0] + Keys(q[1..]);
      DistinctHead(q);
      LookupHas(q, k);
    }
  }

  lemma {:induction false} KeysAssign<V>(p: Props<V>, q: Props<V>, k: string)
    ensures Has(Assign(p, q), k) <==> Has(p, k) || Has(q, k)
    decreases |q|
  {
    if q != [] {
      KeysAssign(Put(p, q[0].0, q[0].1), q[1..], k);
      KeysPut(p, q[0].0, q[0].1);
      assert Keys(q) == [q[0].0] + Keys(q[1..]);
    }
  }

  /** Two records with distinct keys that agree on every lookup hold the same entries. */
  lemma SameEntriesAsSets<V>(p: Props<V>, q: Props<V>)
    requires DistinctKeys(p) && DistinctKeys(q) && SameEntries(p, q)
    ensures forall e :: e in p <==> e in q
  {
    forall e ensures e in p <==> e in q {
      LookupIn(p, e.0, e.1);
      LookupIn(q, e.0, e.1);
      assert Lookup(p, e.0) == Lookup(q, e.0);
    }
  }

  /** Deleting one more listed key is one more `delete`. */
  lemma {:induction false} WithoutSnoc<V>(p: Props<V>, ks: seq<string>, k: string)
    ensures Without(p, ks + [k]) == Remove(Without(p, ks), k)
  {
    if p != [] {
      WithoutSnoc(p[1..], ks, k);
    }
  }

  lemma {:induction false} OnlyAppend<V>(p: Props<V>, e: (string, V), ks: seq<string>)
    ensures Only(p + [e], ks) == if e.0 in ks then Only(p, ks) + [e] else Only(p, ks)
  {
    if p != [] {
      assert (p + [e])[1..] == p[1..] + [e];
      OnlyAppend(p[1..], e, ks);
    }
  }

  lemma {:induction false} WithoutAppend<V>(p: Props<V>, e: (string, V), ks: seq<string>)
    ensures Without(p + [e], ks) == if e.0 in ks then Without(p, ks) else Without(p, ks) + [e]
  {
    if p != [] {
      assert (p + [e])[1..] == p[1..] + [e];
      WithoutAppend(p[1..], e, ks);
    }
  }

  /** Spreading one more property is one more assignment. */
  lemma {:induction false} AssignAppend<V>(p: Props<V>, q: Props<V>, e: (string, V))
    ensures Assign(p, q + [e]) == Put(Assign(p, q), e.0, e.1)
    decreases |q|
  {
    if q != [] {
      assert (q + [e])[1..] == q[1..] + [e];
      AssignAppend(Put(p, q[0].0, q[0].1), q[1..], e);
    }
  }

  lemma HasWithout<V>(p: Props<V>, ks: seq<string>, k: string)
    ensures Has(Without(p, ks), k) <==> Has(p, k) && k !in ks
  {
    KeysMember(p, k);
    KeysMember(Without(p, ks), k);
    if Has(p, k) && k !in ks {
      var e :| e in p && e.0 == k;
      WithoutEntry(p, ks, e);
    }
    if Has(Without(p, ks), k) {
      var e :| e in Without(p, ks) && e.0 == k;
      WithoutEntry(p, ks, e);
    }
  }

  lemma HasOnly<V>(p: Props<V>, ks: seq<string>, k: string)
    ensures Has(Only(p, ks), k) <==> Has(p, k) && k in ks
  {
    KeysMember(p, k);
    KeysMember(Only(p, ks), k);
    if Has(p, k) && k in ks {
      var e :| e in p && e.0 == k;
      OnlyEntry(p, ks, e);
    }
    if Has(Only(p, ks), k) {
      var e :| e in Only(p, ks) && e.0 == k;
      OnlyEntry(p, ks, e);
    }
  }

  lemma {:induction false} WithoutNothing<V>(p: Props<V>)
    ensures Without(p, []) == p
  {
    if p != [] {
      WithoutNothing(p[1..]);
    }
  }

  /** Assigning an absent key appends it. */
  lemma {:induction false} PutAbsent<V>(p: Props<V>, k: string, v: V)
    requires !Has(p, k)
    ensures Put(p, k, v) == p + [(k, v)]
  {
    if p != [] {
      assert Keys(p) == [p[0].0] + Keys(p[1..]);
      PutAbsent(p[1..], k, v);
    }
  }

  /** Spreading properties none of which the target has appends them all, in order. */
  lemma {:induction false} AssignDisjoint<V>(p: Props<V>, q: Props<V>)
    requires DistinctKeys(q)
    requires forall i :: 0 <= i < |q| ==> !Has(p, q[i].0)
    ensures Assign(p, q) == p + q
    decreases |q|
  {
    if q != [] {
      PutAbsent(p, q[0].0, q[0].1);
      var p' := p + [q[0]];
      assert Keys(p') == Keys(p) + [q[0].0];
      AssignDisjoint(p', q[1..]);
      assert p' + q[1..] == p + q;
    }
  }

  lemma KeysConcat<V>(a: Props<V>, b: Props<V>)
    ensures Keys(a + b) == Keys(a) + Keys(b)
  {
    assert forall i :: 0 <= i < |a| + |b| ==> Keys(a + b)[i] == (Keys(a) + Keys(b))[i];
  }

  lemma HasConcat<V>(a: Props<V>, b: Props<V>, k: string)
    ensures Has(a + b, k) <==> Has(a, k) || Has(b, k)
  {
    KeysConcat(a, b);
  }

  /** Looking a key up in two records laid end to end finds it in the first one that has it. */
  lemma {:induction false} LookupConcat<V>(a: Props<V>, b: Props<V>, k: string)
    ensures Lookup(a + b, k) == if Has(a, k) then Lookup(a, k) else Lookup(b, k)
  {
    LookupHas(a, k);
    if a != [] {
      assert (a + b)[1..] == a[1..] + b;
      LookupConcat(a[1..], b, k);
      assert Keys(a) == [a[0].0] + Keys(a[1..]);
    } else {
      assert a + b == b;
    }
  }

  lemma {:induction false} RemoveConcat<V>(a: Props<V>, b: Props<V>, k: string)
    ensures Remove(a + b, k) == Remove(a, k) + Remove(b, k)
  {
    if a != [] {
      assert (a + b)[1..] == a[1..] + b;
      RemoveConcat(a[1..], b, k);
    } else {
      assert a + b == b;
    }
  }

  lemma {:induction false} WithoutConcat<V>(a: Props<V>, b: Props<V>, ks: seq<string>)
    ensures Without(a + b, ks) == Without(a, ks) + Without(b, ks)
  {
    if a != [] {
      assert (a + b)[1..] == a[1..] + b;
      WithoutConcat(a[1..], b, ks);
    } else {
      assert a + b == b;
    }
  }

  /** Deleting an absent key changes nothing. */
  lemma {:induction false} RemoveAbsent<V>(p: Props<V>, k: string)
    requires !Has(p, k)
    ensures Remove(p, k) == p
  {
    if p != [] {
      assert Keys(p) == [p[0].0] + Keys(p[1..]);
      RemoveAbsent(p[1..], k);
    }
  }

  /** Two records with distinct keys and no key in common lay end to end into one with distinct keys. */
  lemma DistinctConcat<V>(a: Props<V>, b: Props<V>)
    requires DistinctKeys(a) && DistinctKeys(b)
    requires forall i :: 0 <= i < |b| ==> !Has(a, b[i].0)
    ensures DistinctKeys(a + b)
  {
    forall i, j | 0 <= i < j < |a + b| ensures (a + b)[i].0 != (a + b)[j].0 {
      if i < |a| <= j {
        assert Keys(a)[i] == a[i].0;
        assert (a + b)[j] == b[j - |a|];
      }
    }
  }
}
