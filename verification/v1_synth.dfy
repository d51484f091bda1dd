/**
 * The lockfile-version-1 synthesiser (src/v1/synth.ts): the inverse
 * direction of the v1 parser. It turns a parsed graph back into a lockfile
 * object in two passes over the root buckets, then sorts the root table by
 * name and puts the lockfile's fields into their canonical order.
 */
module V1Synth {
  import opened Wrappers
  import opened Records
  import opened JsValues
  import V1Parse

  /** The canonical field order of a lockfile. */
  const LockfileOrder: seq<string> := ["name", "version", "lockfileVersion", "requires", "dependencies"]

  /** The canonical field order of a package entry. */
  const PackageOrder: seq<string> := ["version", "resolved", "integrity", "dev", "requires"]

  /** No string is listed twice. */
  predicate Distinct(ks: seq<string>) {
    forall i, j :: 0 <= i < j < |ks| ==> ks[i] != ks[j]
  }

  // ---------------------------------------------------------------------------
  // reorderObject

  /** The entries of `p` whose keys are listed in `ks`, in the order of `ks`. */
  function InOrder<V>(p: Props<V>, ks: seq<string>): Props<V>
    decreases |ks|
  {
    if ks == [] then []
    else
      var k := ks[|ks| - 1];
      InOrder(p, ks[..|ks| - 1]) + match Lookup(p, k) case Some(v) => [(k, v)] case None => []
  }

  /**
   * The record after `reorderObject(p, known)`: the listed keys that are
   * present, in listed order, then every other key in its original order.
   */
  function Reordered<V>(p: Props<V>, known: seq<string>): Props<V> {
    InOrder(p, known) + Without(p, known)
  }

  /**
   * Moves every listed key that is present to the end of the object, in
   * listed order, and then every other key, in its original order; each
   * move is a `delete` followed by an assignment of the same value.
   */
  method ReorderObject(o: JsObject, known: seq<string>)
    requires DistinctKeys(o.props) && Distinct(known)
    modifies o
    ensures o.props == Reordered(old(o.props), known)
  {
    ghost var p := o.props;
    var order := known + Keys(Without(o.props, known));
    OrderDistinct(p, known);
    WithoutNothing(p);
    assert Progress(p, order[..0]) == p + [];
    var i := 0;
    while i < |order|
      invariant 0 <= i <= |order|
      invariant o.props == Progress(p, order[..i])
    {
      var key := order[i];
      NotBefore(order, i);
      TakeSnoc(order, i);
      ReorderStep(p, order[..i], key, o.props);
      if Has(o.props, key) {
        var value := Lookup(o.props, key).value;
        o.props := Remove(o.props, key);
        o.props := Put(o.props, key, value);
      }
      i := i + 1;
    }
    assert order[..i] == order;
    ReorderEnd(p, known);
  }

  /** The object after `reorderObject` has visited the keys `done`: the unvisited keys in place, the visited ones moved behind. */
  function Progress<V>(p: Props<V>, done: seq<string>): Props<V> {
    Without(p, done) + InOrder(p, done)
  }

  lemma NotBefore(s: seq<string>, i: nat)
    requires Distinct(s) && i < |s|
    ensures s[i] !in s[..i]
  {
  }

  /** A key that `InOrder` keeps is a listed one. */
  lemma {:induction false} InOrderHas<V>(p: Props<V>, ks: seq<string>, k: string)
    ensures Has(InOrder(p, ks), k) ==> k in ks
    decreases |ks|
  {
    if ks != [] {
      var init := ks[..|ks| - 1];
      var last := ks[|ks| - 1];
      InOrderHas(p, init, k);
      var tail: Props<V> := match Lookup(p, last) case Some(v) => [(last, v)] case None => [];
      HasConcat(InOrder(p, init), tail, k);
      assert Keys(tail) == if tail == [] then [] else [last];
      assert ks == init + [last];
    }
  }

  /** `InOrder` finds every listed key where the record has it, and nothing else. */
  lemma {:induction false} LookupInOrder<V>(p: Props<V>, ks: seq<string>, k: string)
    ensures Lookup(InOrder(p, ks), k) == if k in ks then Lookup(p, k) else None
    decreases |ks|
  {
    if ks != [] {
      var init := ks[..|ks| - 1];
      var last := ks[|ks| - 1];
      LookupInOrder(p, init, k);
      var tail: Props<V> := match Lookup(p, last) case Some(v) => [(last, v)] case None => [];
      LookupConcat(InOrder(p, init), tail, k);
      LookupHas(InOrder(p, init), k);
      assert ks == init + [last];
    }
  }

  lemma {:induction false} InOrderDistinct<V>(p: Props<V>, ks: seq<string>)
    requires Distinct(ks)
    ensures DistinctKeys(InOrder(p, ks))
    decreases |ks|
  {
    if ks != [] {
      var init := ks[..|ks| - 1];
      var last := ks[|ks| - 1];
      InOrderDistinct(p, init);
      InOrderHas(p, init, last);
      assert last !in init;
      var tail: Props<V> := match Lookup(p, last) case Some(v) => [(last, v)] case None => [];
      DistinctConcat(InOrder(p, init), tail);
    }
  }

  lemma {:induction false} InOrderAppend<V>(p: Props<V>, a: seq<string>, b: seq<string>)
    ensures InOrder(p, a + b) == InOrder(p, a) + InOrder(p, b)
    decreases |b|
  {
    if b == [] {
      assert a + b == a;
    } else {
      var ab := a + b;
      assert ab[..|ab| - 1] == a + b[..|b| - 1];
      assert ab[|ab| - 1] == b[|b| - 1];
      InOrderAppend(p, a, b[..|b| - 1]);
    }
  }

  /** Listing the keys of a part of a record, in its own order, gives that part back. */
  lemma {:induction false} InOrderPart<V>(p: Props<V>, q: Props<V>)
    requires forall i :: 0 <= i < |q| ==> Lookup(p, q[i].0) == Some(q[i].1)
    ensures InOrder(p, Keys(q)) == q
    decreases |q|
  {
    if q != [] {
      var init := q[..|q| - 1];
      assert Keys(q)[..|q| - 1] == Keys(init);
      assert forall i :: 0 <= i < |init| ==> init[i] == q[i];
      InOrderPart(p, init);
      assert Lookup(p, q[|q| - 1].0) == Some(q[|q| - 1].1);
      assert q == init + [q[|q| - 1]];
    }
  }

  lemma {:induction false} WithoutEverything<V>(p: Props<V>, ks: seq<string>)
    requires forall i :: 0 <= i < |p| ==> p[i].0 in ks
    ensures Without(p, ks) == []
  {
    if p != [] {
      assert forall i :: 0 <= i < |p| - 1 ==> p[1..][i] == p[i + 1];
      WithoutEverything(p[1..], ks);
    }
  }

  /** The visiting order of `reorderObject` lists no key twice. */
  lemma OrderDistinct<V>(p: Props<V>, known: seq<string>)
    requires DistinctKeys(p) && Distinct(known)
    ensures Distinct(known + Keys(Without(p, known)))
  {
    var w := Without(p, known);
    DistinctWithout(p, known);
    var order := known + Keys(w);
    forall i, j | 0 <= i < j < |order| ensures order[i] != order[j] {
      if j >= |known| {
        var e := w[j - |known|];
        assert order[j] == e.0;
        WithoutEntry(p, known, e);
        if i >= |known| {
          assert order[i] == w[i - |known|].0;
        }
      }
    }
  }

  /** One round of `reorderObject`'s loop moves the visited key, if present, behind the keys visited before it. */
  lemma ReorderStep<V>(p: Props<V>, done: seq<string>, key: string, cur: Props<V>)
    requires DistinctKeys(p) && key !in done
    requires cur == Progress(p, done)
    ensures Has(cur, key) ==> Lookup(cur, key).Some? && Put(Remove(cur, key), key, Lookup(cur, key).value) == Progress(p, done + [key])
    ensures !Has(cur, key) ==> cur == Progress(p, done + [key])
  {
    var w := Without(p, done);
    var io := InOrder(p, done);
    InOrderHas(p, done, key);
    HasConcat(w, io, key);
    HasWithout(p, done, key);
    LookupConcat(w, io, key);
    LookupWithout(p, done, key);
    LookupHas(p, key);
    RemoveConcat(w, io, key);
    RemoveAbsent(io, key);
    WithoutSnoc(p, done, key);
    var ks := done + [key];
    assert ks[..|ks| - 1] == done;
    if Has(p, key) {
      var v := Lookup(p, key).value;
      KeysRemove(cur, key);
      PutAbsent(Remove(cur, key), key, v);
      assert InOrder(p, ks) == io + [(key, v)];
    } else {
      RemoveAbsent(w, key);
      assert InOrder(p, ks) == io + [];
    }
  }

  /** After the last round every key has been moved, in the order `Reordered` describes. */
  lemma ReorderEnd<V>(p: Props<V>, known: seq<string>)
    requires DistinctKeys(p)
    ensures Progress(p, known + Keys(Without(p, known))) == Reordered(p, known)
  {
    var w := Without(p, known);
    var order := known + Keys(w);
    InOrderAppend(p, known, Keys(w));
    forall i | 0 <= i < |w| ensures Lookup(p, w[i].0) == Some(w[i].1) {
      WithoutEntry(p, known, w[i]);
      LookupIn(p, w[i].0, w[i].1);
    }
    InOrderPart(p, w);
    forall i | 0 <= i < |p| ensures p[i].0 in order {
      if p[i].0 !in known {
        assert Keys(p)[i] == p[i].0;
        HasWithout(p, known, p[i].0);
      }
    }
    WithoutEverything(p, order);
  }

  /** Reordering keeps every property and its value, and keys stay distinct. */
  lemma ReorderedEntries<V>(p: Props<V>, known: seq<string>)
    requires DistinctKeys(p) && Distinct(known)
    ensures SameEntries(p, Reordered(p, known))
    ensures DistinctKeys(Reordered(p, known))
  {
    var io := InOrder(p, known);
    var w := Without(p, known);
    forall k ensures Lookup(Reordered(p, known), k) == Lookup(p, k) {
      LookupConcat(io, w, k);
      LookupInOrder(p, known, k);
      LookupWithout(p, known, k);
      LookupHas(io, k);
    }
    InOrderDistinct(p, known);
    DistinctWithout(p, known);
    forall i | 0 <= i < |w| ensures !Has(io, w[i].0) {
      WithoutEntry(p, known, w[i]);
      InOrderHas(p, known, w[i].0);
    }
    DistinctConcat(io, w);
  }

  /** Reordering an already reordered record changes nothing: the canonical order is a fixed point. */
  lemma ReorderedIdempotent<V>(p: Props<V>, known: seq<string>)
    requires DistinctKeys(p) && Distinct(known)
    ensures Reordered(Reordered(p, known), known) == Reordered(p, known)
  {
    var r := Reordered(p, known);
    var io := InOrder(p, known);
    var w := Without(p, known);
    ReorderedEntries(p, known);
    SameInOrder(p, r, known);
    WithoutConcat(io, w, known);
    forall i | 0 <= i < |io| ensures io[i].0 in known {
      assert Keys(io)[i] == io[i].0;
      InOrderHas(p, known, io[i].0);
    }
    WithoutEverything(io, known);
    forall i | 0 <= i < |w| ensures w[i].0 !in known {
      WithoutEntry(p, known, w[i]);
    }
    WithoutNone(w, known);
    assert Without(r, known) == w;
  }

  /** Deleting a key before `InOrder` or after it comes to the same. */
  lemma {:induction false} InOrderRemove<V>(p: Props<V>, ks: seq<string>, k: string)
    requires DistinctKeys(p)
    ensures InOrder(Remove(p, k), ks) == Remove(InOrder(p, ks), k)
    decreases |ks|
  {
    if ks != [] {
      var init := ks[..|ks| - 1];
      var last := ks[|ks| - 1];
      InOrderRemove(p, init, k);
      var tail: Props<V> := match Lookup(p, last) case Some(v) => [(last, v)] case None => [];
      LookupRemove(p, k, last);
      RemoveConcat(InOrder(p, init), tail, k);
      assert Remove(tail, k) == if last == k then [] else tail;
    }
  }

  /** Deleting a key before `Without` or after it comes to the same. */
  lemma {:induction false} WithoutRemove<V>(p: Props<V>, ks: seq<string>, k: string)
    ensures Without(Remove(p, k), ks) == Remove(Without(p, ks), k)
  {
    if p != [] {
      WithoutRemove(p[1..], ks, k);
    }
  }

  /** Deleting a key keeps a record's order: it commutes with reordering. */
  lemma RemoveReordered<V>(p: Props<V>, known: seq<string>, k: string)
    requires DistinctKeys(p)
    ensures Reordered(Remove(p, k), known) == Remove(Reordered(p, known), k)
  {
    InOrderRemove(p, known, k);
    WithoutRemove(p, known, k);
    RemoveConcat(InOrder(p, known), Without(p, known), k);
  }

  /** `InOrder` sees a record only through its lookups. */
  lemma {:induction false} SameInOrder<V>(p: Props<V>, q: Props<V>, ks: seq<string>)
    requires SameEntries(p, q)
    ensures InOrder(p, ks) == InOrder(q, ks)
    decreases |ks|
  {
    if ks != [] {
      SameInOrder(p, q, ks[..|ks| - 1]);
      assert Lookup(p, ks[|ks| - 1]) == Lookup(q, ks[|ks| - 1]);
    }
  }

  lemma {:induction false} WithoutNone<V>(p: Props<V>, ks: seq<string>)
    requires forall i :: 0 <= i < |p| ==> p[i].0 !in ks
    ensures Without(p, ks) == p
  {
    if p != [] {
      assert forall i :: 0 <= i < |p| - 1 ==> p[1..][i] == p[i + 1];
      WithoutNone(p[1..], ks);
    }
  }

  // ---------------------------------------------------------------------------
  // alphabeticalEntries

  /** `a < b` on strings: the first differing character decides, and a proper prefix comes first. */
  predicate StrLess(a: string, b: string)
    decreases |a|
  {
    if a == [] then b != []
    else if b == [] then false
    else if a[0] != b[0] then a[0] < b[0]
    else StrLess(a[1..], b[1..])
  }

  lemma {:induction false} StrLessIrreflexive(a: string)
    ensures !StrLess(a, a)
    decreases |a|
  {
    if a != [] {
      StrLessIrreflexive(a[1..]);
    }
  }

  lemma {:induction false} StrLessTransitive(a: string, b: string, c: string)
    requires StrLess(a, b) && StrLess(b, c)
    ensures StrLess(a, c)
    decreases |a|
  {
    if a != [] && b != [] && c != [] && a[0] == b[0] == c[0] {
      StrLessTransitive(a[1..], b[1..], c[1..]);
    }
  }

  lemma {:induction false} StrLessTotal(a: string, b: string)
    ensures a == b || StrLess(a, b) || StrLess(b, a)
    decreases |a|
  {
    if a != [] && b != [] && a[0] == b[0] {
      StrLessTotal(a[1..], b[1..]);
      if a[1..] == b[1..] {
        assert a == [a[0]] + a[1..] && b == [b[0]] + b[1..];
      }
    }
  }

  lemma StrLessAsymmetric(a: string, b: string)
    requires StrLess(a, b)
    ensures !StrLess(b, a)
  {
    if StrLess(b, a) {
      StrLessTransitive(a, b, a);
      StrLessIrreflexive(a);
    }
  }

  /** "Not after" is transitive. */
  lemma NotAfterTransitive(a: string, b: string, c: string)
    requires !StrLess(b, a) && !StrLess(c, b)
    ensures !StrLess(c, a)
  {
    StrLessTotal(a, b);
    if StrLess(c, a) && a != b {
      StrLessTransitive(c, a, b);
    }
  }

  /** The entries are in ascending order of their keys. */
  predicate SortedByKey<V>(s: Props<V>) {
    forall i, j :: 0 <= i < j < |s| ==> !StrLess(s[j].0, s[i].0)
  }

  /** `e` inserted into `s` just before the first entry whose key is not less than its own. */
  function Insert<V>(e: (string, V), s: Props<V>): (r: Props<V>)
    ensures multiset(r) == multiset(s) + multiset{e}
  {
    if s == [] then [e]
    else if StrLess(s[0].0, e.0) then
      assert s == [s[0]] + s[1..];
      [s[0]] + Insert(e, s[1..])
    else [e] + s
  }

  lemma {:induction false} InsertSorted<V>(e: (string, V), s: Props<V>)
    requires SortedByKey(s)
    ensures SortedByKey(Insert(e, s))
  {
    if s != [] {
      if StrLess(s[0].0, e.0) {
        var rest := Insert(e, s[1..]);
        assert SortedByKey(s[1..]) by {
          assert forall i :: 0 <= i < |s| - 1 ==> s[1..][i] == s[i + 1];
        }
        InsertSorted(e, s[1..]);
        var r := [s[0]] + rest;
        forall j | 0 <= j < |rest| ensures !StrLess(rest[j].0, s[0].0) {
          var x := rest[j];
          assert x in multiset(rest);
          if x == e {
            StrLessAsymmetric(s[0].0, e.0);
          } else {
            assert x in multiset(s[1..]);
            var k :| 0 <= k < |s[1..]| && s[1..][k] == x;
            assert s[k + 1] == x;
          }
        }
        forall i, j | 0 <= i < j < |r| ensures !StrLess(r[j].0, r[i].0) {
          assert r[j] == rest[j - 1];
          if i > 0 {
            assert r[i] == rest[i - 1];
          }
        }
      } else {
        forall j | 0 <= j < |s| ensures !StrLess(s[j].0, e.0) {
          if j > 0 {
            NotAfterTransitive(e.0, s[0].0, s[j].0);
          }
        }
        var r := [e] + s;
        forall i, j | 0 <= i < j < |r| ensures !StrLess(r[j].0, r[i].0) {
          assert r[j] == s[j - 1];
          if i > 0 {
            assert r[i] == s[i - 1];
          }
        }
      }
    }
  }

  /**
   * `alphabeticalEntries`: the entries of a record, sorted ascending by key.
   * The comparator orders strings by `<` and keeps equal keys as they are.
   */
  function AlphabeticalEntries<V>(p: Props<V>): (r: Props<V>)
    ensures multiset(r) == multiset(p)
    ensures SortedByKey(r)
  {
    if p == [] then []
    else
      var rest := AlphabeticalEntries(p[1..]);
      InsertSorted(p[0], rest);
      assert p == [p[0]] + p[1..];
      Insert(p[0], rest)
  }

  // ---------------------------------------------------------------------------
  // Package objects

  datatype PackageType = Regular | Dev | Peer

  /** `{version, ...stash}` with the type's flag set: the fields `makePackage` writes before reordering. */
  function TypedFields(kind: PackageType, n: V1Parse.Node): Props<Value> {
    var base := Assign([("version", n.version)], n.unsupported);
    match kind
    case Regular => base
    case Dev => Put(base, "dev", Bool(true))
    case Peer => Put(base, "peer", Bool(true))
  }

  /** The fields of the package object `makePackage` builds from a node. */
  function PackageFields(kind: PackageType, n: V1Parse.Node): Props<Value> {
    Reordered(TypedFields(kind, n), PackageOrder)
  }

  /**
   * A new package object holds the node's version unless its stash has one,
   * every stashed field, `dev: true` for a dev package and `peer: true` for a
   * peer package, and nothing else; its keys are distinct and already in the
   * canonical package order.
   */
  lemma PackageFieldsEntries(kind: PackageType, n: V1Parse.Node, k: string)
    requires DistinctKeys(n.unsupported)
    ensures DistinctKeys(PackageFields(kind, n))
    ensures Lookup(PackageFields(kind, n), k) ==
      if k == "dev" && kind == Dev then Some(Bool(true))
      else if k == "peer" && kind == Peer then Some(Bool(true))
      else if Has(n.unsupported, k) then Lookup(n.unsupported, k)
      else if k == "version" then Some(n.version)
      else None
    ensures Reordered(PackageFields(kind, n), PackageOrder) == PackageFields(kind, n)
  {
    var base := Assign([("version", n.version)], n.unsupported);
    DistinctAssign([("version", n.version)], n.unsupported);
    LookupAssign([("version", n.version)], n.unsupported, k);
    DistinctPut(base, "dev", Bool(true));
    DistinctPut(base, "peer", Bool(true));
    LookupPut(base, "dev", Bool(true), k);
    LookupPut(base, "peer", Bool(true), k);
    ReorderedEntries(TypedFields(kind, n), PackageOrder);
    ReorderedIdempotent(TypedFields(kind, n), PackageOrder);
    assert Lookup(PackageFields(kind, n), k) == Lookup(TypedFields(kind, n), k);
  }

  /** The fields after `ensureProperType`: a regular package loses `dev` and `peer`. */
  function ProperType(kind: PackageType, fields: Props<Value>): Props<Value> {
    if kind == Regular then Remove(Remove(fields, "dev"), "peer") else fields
  }

  /** `ensureProperType` deletes `dev` and `peer` only for a regular package, and keeps everything else. */
  lemma ProperTypeEntries(kind: PackageType, fields: Props<Value>, k: string)
    requires DistinctKeys(fields)
    ensures DistinctKeys(ProperType(kind, fields))
    ensures Lookup(ProperType(kind, fields), k) ==
      if kind == Regular && (k == "dev" || k == "peer") then None else Lookup(fields, k)
  {
    DistinctRemove(fields, "dev");
    DistinctRemove(Remove(fields, "dev"), "peer");
    LookupRemove(fields, "dev", k);
    LookupRemove(Remove(fields, "dev"), "peer", k);
  }

  /** `ensureProperType` twice is `ensureProperType` once. */
  lemma ProperTypeIdempotent(kind: PackageType, fields: Props<Value>)
    ensures ProperType(kind, ProperType(kind, fields)) == ProperType(kind, fields)
  {
    if kind == Regular {
      var once := ProperType(kind, fields);
      KeysRemove(fields, "dev");
      KeysRemove(Remove(fields, "dev"), "peer");
      RemoveAbsent(once, "dev");
      RemoveAbsent(once, "peer");
    }
  }

  /**
   * Retyping a package object to the kind it was made as changes nothing
   * when the node's stash has no `dev` or `peer`, as for every node the
   * parser builds.
   */
  lemma ProperTypeOwnKind(kind: PackageType, n: V1Parse.Node)
    requires DistinctKeys(n.unsupported) && !Has(n.unsupported, "dev") && !Has(n.unsupported, "peer")
    ensures ProperType(kind, PackageFields(kind, n)) == PackageFields(kind, n)
  {
    if kind == Regular {
      var fields := PackageFields(kind, n);
      PackageFieldsEntries(kind, n, "dev");
      PackageFieldsEntries(kind, n, "peer");
      LookupHas(fields, "dev");
      LookupHas(fields, "peer");
      RemoveAbsent(fields, "dev");
      RemoveAbsent(fields, "peer");
    }
  }

  /** `fields` are `base`, or `base` after `ensureProperType(kind, ...)`. */
  predicate RetypedFrom(kind: PackageType, base: Props<Value>, fields: Props<Value>) {
    fields == base || fields == ProperType(kind, base)
  }

  /**
   * The fields of the package object made for node `n` as a `kind` package,
   * after any number of `ensureProperType` calls: only a regular retyping
   * changes them, and it only deletes `dev` and `peer`.
   */
  predicate Typed(fields: Props<Value>, kind: PackageType, n: V1Parse.Node) {
    RetypedFrom(Regular, PackageFields(kind, n), fields)
  }

  /** Retyping again, to any kind, keeps a package object's fields what `makePackage` and retyping can make them. */
  lemma RetypedTyped(fields: Props<Value>, kind: PackageType, n: V1Parse.Node, again: PackageType, after: Props<Value>)
    requires Typed(fields, kind, n) && RetypedFrom(again, fields, after)
    ensures Typed(after, kind, n)
  {
    ProperTypeIdempotent(Regular, PackageFields(kind, n));
  }

  /**
   * A package object made for node `n`, whatever retyping it went through,
   * holds the entries `makePackage` wrote except that `dev` and `peer` may be
   * gone; its keys are distinct and still in canonical package order.
   */
  lemma TypedEntries(fields: Props<Value>, kind: PackageType, n: V1Parse.Node, k: string)
    requires Typed(fields, kind, n) && DistinctKeys(n.unsupported)
    ensures DistinctKeys(fields)
    ensures Reordered(fields, PackageOrder) == fields
    ensures k != "dev" && k != "peer" ==> Lookup(fields, k) == Lookup(PackageFields(kind, n), k)
    ensures Lookup(fields, k) == Lookup(PackageFields(kind, n), k) || Lookup(fields, k) == None
  {
    var made := PackageFields(kind, n);
    PackageFieldsEntries(kind, n, k);
    ProperTypeEntries(Regular, made, k);
    if fields != made {
      DistinctRemove(made, "dev");
      RemoveReordered(made, PackageOrder, "dev");
      RemoveReordered(Remove(made, "dev"), PackageOrder, "peer");
    }
  }

  /**
   * A synthesised package object: its own fields, and the nested
   * `dependencies` table the synthesiser may add to it later, which refers
   * to other package objects by their index in the arena.
   */
  datatype Raw = Raw(fields: Props<Value>, nested: Option<Props<nat>>)

  /** A nested table only refers to package objects created after its owner. */
  ghost predicate NestAt(raws: seq<Raw>, i: int, k: int) {
    0 <= i < |raws| && raws[i].nested.Some? && 0 <= k < |raws[i].nested.value| ==>
      i < raws[i].nested.value[k].1 < |raws|
  }

  ghost predicate NestOk(raws: seq<Raw>) {
    forall i, k :: NestAt(raws, i, k)
  }

  /** The JSON value of package object `id`, nested packages written out in full. */
  function PackageValue(raws: seq<Raw>, id: nat): Value
    requires NestOk(raws) && id < |raws|
    decreases |raws| - id, 1, 0
  {
    match raws[id].nested
    case None => Obj(raws[id].fields)
    case Some(table) => Obj(raws[id].fields + [("dependencies", Obj(TableValue(raws, id, 0)))])
  }

  /** The JSON entries of the nested table of package object `parent`, from its entry `j` on. */
  function TableValue(raws: seq<Raw>, parent: nat, j: nat): (r: Props<Value>)
    requires NestOk(raws) && parent < |raws| && raws[parent].nested.Some?
    requires j <= |raws[parent].nested.value|
    ensures Keys(r) == Keys(raws[parent].nested.value[j..])
    decreases |raws| - parent, 0, |raws[parent].nested.value| - j
  {
    var table := raws[parent].nested.value;
    if j == |table| then []
    else
      assert NestAt(raws, parent, j);
      assert Keys(table[j..]) == [table[j].0] + Keys(table[j + 1..]);
      [(table[j].0, PackageValue(raws, table[j].1))] + TableValue(raws, parent, j + 1)
  }

  /** Every entry of a table refers to a package object of the arena. */
  ghost predicate TableIds(raws: seq<Raw>, t: Props<nat>) {
    forall k :: 0 <= k < |t| ==> t[k].1 < |raws|
  }

  /** The JSON value of a table of package objects. */
  function TableOf(raws: seq<Raw>, t: Props<nat>): (r: Props<Value>)
    requires NestOk(raws) && TableIds(raws, t)
    ensures Keys(r) == Keys(t)
  {
    if t == [] then []
    else
      assert Keys(t) == [t[0].0] + Keys(t[1..]);
      [(t[0].0, PackageValue(raws, t[0].1))] + TableOf(raws, t[1..])
  }

  // ---------------------------------------------------------------------------
  // The graph handed to the synthesiser

  /** Dependency `k` of node `i` refers to a node of the arena. */
  ghost predicate DepAt(nodes: seq<V1Parse.Node>, i: int, k: int) {
    0 <= i < |nodes| && 0 <= k < |nodes[i].dependencies| ==> nodes[i].dependencies[k].1 < |nodes|
  }

  ghost predicate GraphIds(nodes: seq<V1Parse.Node>) {
    forall i, k :: DepAt(nodes, i, k)
  }

  ghost predicate BucketIds(nodes: seq<V1Parse.Node>, bucket: Props<nat>) {
    forall k :: 0 <= k < |bucket| ==> bucket[k].1 < |nodes|
  }

  /** The numbers below `n`. */
  ghost function Below(n: nat): (r: set<nat>)
    ensures forall i: nat :: i in r <==> i < n
  {
    if n == 0 then {} else Below(n - 1) + {n - 1}
  }

  /** The cached package object of node `n` exists in an arena of `size` objects. */
  ghost predicate CacheAt(cache: map<nat, nat>, size: nat, n: nat) {
    n in cache ==> cache[n] < size
  }

  /** Root entry `k` refers to a package object of an arena of `size` objects. */
  ghost predicate RootAt(root: Props<nat>, size: nat, k: int) {
    0 <= k < |root| ==> root[k].1 < size
  }

  /** The cache entry of node `n`, if any, is still there and unchanged. */
  ghost predicate KeptAt(before: map<nat, nat>, after: map<nat, nat>, n: nat) {
    n in before ==> n in after && after[n] == before[n]
  }

  ghost predicate Kept(before: map<nat, nat>, after: map<nat, nat>) {
    forall n :: KeptAt(before, after, n)
  }

  /** The package `child` was saved under `name`: at the root, or in the nested table of `parent`. */
  ghost predicate Placed(root: Props<nat>, raws: seq<Raw>, name: string, child: nat, parent: nat) {
    || Lookup(root, name) == Some(child)
    || (parent < |raws| && raws[parent].nested.Some? && Lookup(raws[parent].nested.value, name) == Some(child))
  }

  /** Package object `i`, if it existed before, is still there and has at most been retyped to `kind`. */
  ghost predicate RetypedAt(kind: PackageType, before: seq<Raw>, after: seq<Raw>, i: int) {
    0 <= i < |before| ==> i < |after| && RetypedFrom(kind, before[i].fields, after[i].fields)
  }

  /** Every package object is still there and has at most been retyped to `kind`. */
  ghost predicate Retyped(kind: PackageType, before: seq<Raw>, after: seq<Raw>) {
    |before| <= |after| && forall i :: RetypedAt(kind, before, after, i)
  }

  /** Node `deps[k].1` has a package object and the name `deps[k].0` a root slot. */
  ghost predicate LinkedAt(deps: Props<nat>, cache: map<nat, nat>, root: Props<nat>, k: int) {
    0 <= k < |deps| ==> deps[k].1 in cache && Has(root, deps[k].0)
  }

  /** The root slot of `name` holds a package object made at or after `from`, as `makePackage` made it for node `nodeId`. */
  ghost predicate FreshClaim(root: Props<nat>, raws: seq<Raw>, nodes: seq<V1Parse.Node>, name: string, kind: PackageType, nodeId: nat, from: nat) {
    && nodeId < |nodes|
    && Lookup<nat>(root, name).Some?
    && from <= Lookup<nat>(root, name).value < |raws|
    && raws[Lookup<nat>(root, name).value] == Raw(PackageFields(kind, nodes[nodeId]), None)
  }

  /** The root slot of `name` holds the package object made for node `nodeId` as a `kind` package, retyped at most. */
  ghost predicate Claims(root: Props<nat>, raws: seq<Raw>, nodes: seq<V1Parse.Node>, name: string, kind: PackageType, nodeId: nat) {
    && nodeId < |nodes|
    && Lookup<nat>(root, name).Some? && Lookup<nat>(root, name).value < |raws|
    && Typed(raws[Lookup<nat>(root, name).value].fields, kind, nodes[nodeId])
  }

  /** Some bucket of `buckets` lists `name`. */
  predicate Listed(buckets: seq<(PackageType, Props<nat>)>, name: string) {
    buckets != [] && (Has(buckets[|buckets| - 1].1, name) || Listed(buckets[..|buckets| - 1], name))
  }

  /**
   * The kind and the node of the last of `buckets` that lists `name`: the
   * first passes run over the buckets in order, each writing the root slot
   * of every name it lists, so the last one wins.
   */
  function RootSource(buckets: seq<(PackageType, Props<nat>)>, name: string): (PackageType, nat) {
    if buckets == [] then (Regular, 0)
    else
      var (kind, bucket) := buckets[|buckets| - 1];
      if Has(bucket, name) then (kind, Lookup<nat>(bucket, name).GetOr(0)) else RootSource(buckets[..|buckets| - 1], name)
  }

  /** A name some bucket lists has its root slot held by the package object of the last bucket listing it. */
  ghost predicate SourceClaims(root: Props<nat>, raws: seq<Raw>, nodes: seq<V1Parse.Node>, buckets: seq<(PackageType, Props<nat>)>, name: string) {
    Listed(buckets, name) ==> Claims(root, raws, nodes, name, RootSource(buckets, name).0, RootSource(buckets, name).1)
  }

  /**
   * The synthesiser's workbench and the lockfile it builds: the cache from
   * parsed nodes to the package objects made for them, the arena of package
   * objects, and the lockfile's root `dependencies` table.
   */
  class SynthState {
    /** The parsed graph's nodes, which synthesis only reads. */
    const nodes: seq<V1Parse.Node>
    /** `workbench.cache`: the package object made for each parsed node. */
    var cache: map<nat, nat>
    /** Every package object made so far, referred to by its index. */
    var raws: seq<Raw>
    /** `synthedLockfile.dependencies`. */
    var root: Props<nat>

    ghost predicate Valid()
      reads this
    {
      && GraphIds(nodes)
      && (forall n :: CacheAt(cache, |raws|, n))
      && (forall k :: RootAt(root, |raws|, k))
      && DistinctKeys(root)
      && NestOk(raws)
    }

    /** The nodes not yet synthesised bound the depth of the recursion. */
    ghost function Ids(): set<nat> {
      Below(|nodes|)
    }

    constructor (nodes: seq<V1Parse.Node>)
      requires GraphIds(nodes)
      ensures Valid()
      ensures this.nodes == nodes && cache == map[] && raws == [] && root == []
    {
      this.nodes := nodes;
      cache := map[];
      raws := [];
      root := [];
    }

    /** `makePackage`: a new package object for node `nodeId`, recorded in the cache. */
    method MakePackage(kind: PackageType, nodeId: nat) returns (id: nat)
      requires Valid() && nodeId < |nodes|
      modifies this
      ensures Valid()
      ensures id == old(|raws|)
      ensures raws == old(raws) + [Raw(PackageFields(kind, nodes[nodeId]), None)]
      ensures cache == old(cache)[nodeId := id] && root == old(root)
    {
      var n := nodes[nodeId];
      var o := new JsObject(Assign([("version", n.version)], n.unsupported));
      DistinctAssign([("version", n.version)], n.unsupported);
      match kind {
        case Regular =>
        case Dev =>
          DistinctPut(o.props, "dev", Bool(true));
          o.props := Put(o.props, "dev", Bool(true));
        case Peer =>
          DistinctPut(o.props, "peer", Bool(true));
          o.props := Put(o.props, "peer", Bool(true));
      }
      ReorderObject(o, PackageOrder);
      id := |raws|;
      ghost var before := raws;
      raws := raws + [Raw(o.props, None)];
      cache := cache[nodeId := id];
      forall i, k ensures NestAt(raws, i, k) {
        assert NestAt(before, i, k);
      }
      forall m ensures CacheAt(cache, |raws|, m) {
        assert CacheAt(old(cache), |before|, m);
      }
      forall k ensures RootAt(root, |raws|, k) {
        assert RootAt(root, |before|, k);
      }
    }

    /** `ensureProperType`, applied to package object `id`. */
    method EnsureProperType(kind: PackageType, id: nat)
      requires Valid() && id < |raws|
      modifies this
      ensures Valid()
      ensures raws == old(raws)[id := Raw(ProperType(kind, old(raws)[id].fields), old(raws)[id].nested)]
      ensures cache == old(cache) && root == old(root)
    {
      if kind == Regular {
        ghost var before := raws;
        raws := raws[id := raws[id].(fields := Remove(Remove(raws[id].fields, "dev"), "peer"))];
        forall i, k ensures NestAt(raws, i, k) {
          assert NestAt(before, i, k);
        }
      }
    }

    /**
     * `savePackage`: a name that is free at the root takes the root slot;
     * otherwise the package goes into the parent's nested table, created
     * empty when the parent has none.
     */
    method SavePackage(name: string, child: nat, parent: nat)
      requires Valid() && child < |raws| && parent < |raws|
      requires Has(root, name) ==> parent < child
      modifies this
      ensures Valid()
      ensures cache == old(cache)
      ensures Has(old(root), name) ==>
        && root == old(root)
        && raws == old(raws)[parent := Raw(old(raws)[parent].fields, Some(Put(old(raws)[parent].nested.GetOr([]), name, child)))]
      ensures !Has(old(root), name) ==> root == old(root) + [(name, child)] && raws == old(raws)
    {
      if Has(root, name) {
        var table := raws[parent].nested.GetOr([]);
        ghost var before := raws;
        raws := raws[parent := raws[parent].(nested := Some(Put(table, name, child)))];
        forall i, k ensures NestAt(raws, i, k) {
          if i == parent && 0 <= k < |raws[parent].nested.value| {
            var e := raws[parent].nested.value[k];
            PutEntry(table, name, child, e);
            if e in table {
              var k' :| 0 <= k' < |table| && table[k'] == e;
              assert NestAt(before, i, k');
            }
          } else {
            assert NestAt(before, i, k);
          }
        }
      } else {
        PutAbsent(root, name, child);
        DistinctPut(root, name, child);
        ghost var before := root;
        root := Put(root, name, child);
        forall k ensures RootAt(root, |raws|, k) {
          assert RootAt(before, |raws|, k);
        }
      }
    }

    /**
     * One dependency of a package: a dependency that was already synthesised
     * gets its kind fixed and is saved only if its name is free at the root;
     * any other dependency is synthesised and then saved.
     */
    method Link(kind: PackageType, name: string, dep: nat, parent: nat)
      requires Valid() && dep < |nodes| && parent < |raws|
      modifies this
      decreases |Ids() - cache.Keys|, 1
      ensures Valid()
      ensures Kept(old(cache), cache) && old(root) <= root && Retyped(kind, old(raws), raws)
      ensures dep in cache && Has(root, name)
      ensures dep in old(cache) ==>
        var hit := old(cache)[dep];
        && hit < |old(raws)|
        && cache == old(cache)
        && raws == old(raws)[hit := Raw(ProperType(kind, old(raws)[hit].fields), old(raws)[hit].nested)]
        && root == if Has(old(root), name) then old(root) else old(root) + [(name, hit)]
      ensures dep !in old(cache) ==> dep in cache && cache[dep] == old(|raws|) && Placed(root, raws, name, old(|raws|), parent)
    {
      if dep in cache {
        var hit := cache[dep];
        assert CacheAt(cache, |raws|, dep);
        EnsureProperType(kind, hit);
        RetypedUpdate(kind, old(raws), hit, raws[hit]);
        if !Has(root, name) {
          SavePackage(name, hit, parent);
          HasConcat(old(root), [(name, hit)], name);
          assert Keys([(name, hit)]) == [name];
        }
      } else {
        var child := SynthPackage(kind, dep);
        ghost var r1, t1, w1 := root, raws[parent].nested.GetOr([]), raws;
        SavePackage(name, child, parent);
        if Has(r1, name) {
          LookupPut(t1, name, child, name);
          RetypedUpdate(kind, w1, parent, raws[parent]);
          RetypedTransitive(kind, old(raws), w1, raws);
        } else {
          LookupPut(r1, name, child, name);
          PutAbsent(r1, name, child);
          HasConcat(r1, [(name, child)], name);
          assert Keys([(name, child)]) == [name];
        }
        V1Parse.Prefixes(old(root), r1, root);
      }
    }

    /** `synthPackage`: a new package object for node `nodeId`, then each of its dependencies linked under it. */
    method SynthPackage(kind: PackageType, nodeId: nat) returns (id: nat)
      requires Valid() && nodeId < |nodes| && nodeId !in cache
      modifies this
      decreases |Ids() - cache.Keys|, 0
      ensures Valid()
      ensures id == old(|raws|) && id < |raws|
      ensures nodeId in cache && cache[nodeId] == id
      ensures Kept(old(cache), cache) && old(root) <= root && Retyped(kind, old(raws), raws)
      ensures RetypedFrom(kind, PackageFields(kind, nodes[nodeId]), raws[id].fields)
      ensures forall k :: LinkedAt(nodes[nodeId].dependencies, cache, root, k)
    {
      id := MakePackage(kind, nodeId);
      forall n ensures KeptAt(old(cache), cache, n) {
      }
      ghost var made := raws;
      var deps := nodes[nodeId].dependencies;
      var i := 0;
      while i < |deps|
        invariant 0 <= i <= |deps|
        invariant Valid() && id < |raws|
        invariant nodeId in cache && cache[nodeId] == id
        invariant Kept(old(cache), cache) && old(root) <= root && Retyped(kind, made, raws)
        invariant forall k :: k < i ==> LinkedAt(deps, cache, root, k)
      {
        KeptKeys(old(cache), cache);
        V1Parse.SmallerRemainder(Ids(), old(cache).Keys, cache.Keys, nodeId);
        assert DepAt(nodes, nodeId, i);
        ghost var c0, r0, w0 := cache, root, raws;
        Link(kind, deps[i].0, deps[i].1, id);
        KeptTransitive(old(cache), c0, cache);
        assert KeptAt(c0, cache, nodeId);
        V1Parse.Prefixes(old(root), r0, root);
        RetypedTransitive(kind, made, w0, raws);
        LinkedStep(deps, c0, r0, cache, root, i);
        i := i + 1;
      }
      assert RetypedAt(kind, made, raws, id);
      RetypedPrefix(kind, old(raws), made);
      RetypedTransitive(kind, old(raws), made, raws);
    }

    /** One round of the first pass: a new package object for the node, written into the root slot of `name`. */
    method Claim(kind: PackageType, name: string, nodeId: nat)
      requires Valid() && nodeId < |nodes|
      modifies this
      ensures Valid()
      ensures raws == old(raws) + [Raw(PackageFields(kind, nodes[nodeId]), None)]
      ensures cache == old(cache)[nodeId := old(|raws|)]
      ensures root == Put<nat>(old(root), name, old(|raws|))
    {
      var id := MakePackage(kind, nodeId);
      RootPut(root, |raws|, name, id);
      DistinctPut(root, name, id);
      root := Put(root, name, id);
    }

    /**
     * The first pass over one bucket: a new package object for each entry,
     * in alphabetical order, written into the root slot of its name.
     */
    method FirstPass(kind: PackageType, bucket: Props<nat>)
      requires Valid() && BucketIds(nodes, bucket) && DistinctKeys(bucket)
      modifies this
      ensures Valid() && old(raws) <= raws
      ensures forall k :: Has(root, k) <==> Has(old(root), k) || Has(bucket, k)
      ensures forall k :: Has(bucket, k) ==> FreshClaim(root, raws, nodes, k, kind, Lookup<nat>(bucket, k).GetOr(0), |old(raws)|)
      ensures forall k :: !Has(bucket, k) ==> Lookup<nat>(root, k) == Lookup<nat>(old(root), k)
    {
      var entries := AlphabeticalEntries(bucket);
      PermutationDistinct(bucket, entries);
      var i := 0;
      NoneClaimed(root, raws, nodes, entries, kind);
      while i < |entries|
        invariant 0 <= i <= |entries| && Valid() && old(raws) <= raws
        invariant FirstPassed(old(root), root, raws, nodes, entries, i, kind, |old(raws)|)
      {
        EntryOf(nodes, bucket, entries, i);
        ghost var made, before := raws, root;
        Claim(kind, entries[i].0, entries[i].1);
        ClaimStep(old(root), before, made, raws, nodes, entries, i, kind, |old(raws)|);
        i := i + 1;
      }
      ClaimedBucket(old(root), root, raws, nodes, bucket, entries, kind, |old(raws)|);
    }

    /**
     * The second pass over one bucket: each entry's dependencies, in
     * alphabetical order of the entries, linked under the package object at
     * the root slot of the entry's name.
     */
    method SecondPass(kind: PackageType, bucket: Props<nat>)
      requires Valid() && BucketIds(nodes, bucket)
      requires forall k :: Has(bucket, k) ==> Has(root, k)
      modifies this
      ensures Valid() && old(root) <= root && Retyped(kind, old(raws), raws)
    {
      var entries := AlphabeticalEntries(bucket);
      RetypedPrefix(kind, raws, raws);
      var i := 0;
      while i < |entries|
        invariant 0 <= i <= |entries| && Valid() && old(root) <= root && Retyped(kind, old(raws), raws)
      {
        var packageName, nodeId := entries[i].0, entries[i].1;
        EntryOf(nodes, bucket, entries, i);
        HasPermutation(entries, bucket, packageName);
        assert Keys(entries)[i] == packageName;
        HasPrefix(old(root), root, packageName);
        var deps := nodes[nodeId].dependencies;
        var j := 0;
        while j < |deps|
          invariant 0 <= j <= |deps| && Valid() && old(root) <= root && Has(root, packageName)
          invariant Retyped(kind, old(raws), raws)
        {
          RootLookup(root, |raws|, packageName);
          var parent := Lookup<nat>(root, packageName).value;
          assert DepAt(nodes, nodeId, j);
          ghost var r0, w0 := root, raws;
          Link(kind, deps[j].0, deps[j].1, parent);
          V1Parse.Prefixes(old(root), r0, root);
          RetypedTransitive(kind, old(raws), w0, raws);
          HasPrefix(r0, root, packageName);
          j := j + 1;
        }
        i := i + 1;
      }
    }

    /** The first passes over the three buckets, then the second passes. */
    method Passes(dependencies: Props<nat>, devDependencies: Props<nat>, peerDependencies: Props<nat>)
      requires Valid()
      requires BucketIds(nodes, dependencies) && BucketIds(nodes, devDependencies) && BucketIds(nodes, peerDependencies)
      requires DistinctKeys(dependencies) && DistinctKeys(devDependencies) && DistinctKeys(peerDependencies)
      modifies this
      ensures Valid()
      ensures forall name :: Has(dependencies, name) || Has(devDependencies, name) || Has(peerDependencies, name) ==> Has(root, name)
      ensures forall name :: SourceClaims(root, raws, nodes, [(Regular, dependencies), (Dev, devDependencies), (Peer, peerDependencies)], name)
    {
      ghost var b0: seq<(PackageType, Props<nat>)> := [];
      ghost var b1 := b0 + [(Regular, dependencies)];
      ghost var b2 := b1 + [(Dev, devDependencies)];
      ghost var b3 := b2 + [(Peer, peerDependencies)];
      forall name ensures SourceClaims(root, raws, nodes, b0, name) {
      }
      ghost var r0, w0 := root, raws;
      FirstPass(Regular, dependencies);
      FirstPassClaims(r0, w0, root, raws, nodes, b0, Regular, dependencies);
      r0, w0 := root, raws;
      FirstPass(Dev, devDependencies);
      FirstPassClaims(r0, w0, root, raws, nodes, b1, Dev, devDependencies);
      r0, w0 := root, raws;
      FirstPass(Peer, peerDependencies);
      FirstPassClaims(r0, w0, root, raws, nodes, b2, Peer, peerDependencies);
      ghost var claimed := root;
      r0, w0 := root, raws;
      SecondPass(Regular, dependencies);
      ClaimsKept(r0, w0, root, raws, nodes, b3, Regular);
      ghost var r1 := root;
      forall k | Has(devDependencies, k) ensures Has(root, k) {
        HasPrefix(claimed, root, k);
      }
      w0 := raws;
      SecondPass(Dev, devDependencies);
      ClaimsKept(r1, w0, root, raws, nodes, b3, Dev);
      ghost var r2 := root;
      V1Parse.Prefixes(claimed, r1, r2);
      forall k | Has(peerDependencies, k) ensures Has(root, k) {
        HasPrefix(claimed, root, k);
      }
      w0 := raws;
      SecondPass(Peer, peerDependencies);
      ClaimsKept(r2, w0, root, raws, nodes, b3, Peer);
      V1Parse.Prefixes(claimed, r2, root);
      forall k | Has(dependencies, k) || Has(devDependencies, k) || Has(peerDependencies, k) ensures Has(root, k) {
        HasPrefix(claimed, root, k);
      }
      assert b3 == [(Regular, dependencies), (Dev, devDependencies), (Peer, peerDependencies)];
    }
  }

  lemma KeptKeys(a: map<nat, nat>, b: map<nat, nat>)
    requires Kept(a, b)
    ensures a.Keys <= b.Keys
  {
    forall n | n in a ensures n in b {
      assert KeptAt(a, b, n);
    }
  }

  lemma KeptTransitive(a: map<nat, nat>, b: map<nat, nat>, c: map<nat, nat>)
    requires Kept(a, b) && Kept(b, c)
    ensures Kept(a, c) && a.Keys <= c.Keys
  {
    forall n ensures KeptAt(a, c, n) {
      assert KeptAt(a, b, n) && KeptAt(b, c, n);
    }
    KeptKeys(a, c);
  }

  /** An entry of a bucket's alphabetical order is an entry of the bucket, so it refers to a node. */
  lemma EntryOf(nodes: seq<V1Parse.Node>, bucket: Props<nat>, entries: Props<nat>, i: nat)
    requires BucketIds(nodes, bucket) && multiset(entries) == multiset(bucket) && i < |entries|
    ensures entries[i].1 < |nodes|
  {
    assert entries[i] in multiset(bucket);
    var k :| 0 <= k < |bucket| && bucket[k] == entries[i];
  }

  lemma HasPermutation<V>(a: Props<V>, b: Props<V>, k: string)
    requires multiset(a) == multiset(b)
    ensures Has(a, k) <==> Has(b, k)
  {
    KeysMember(a, k);
    KeysMember(b, k);
    if Has(a, k) {
      var e :| e in a && e.0 == k;
      assert e in multiset(b);
    }
    if Has(b, k) {
      var e :| e in b && e.0 == k;
      assert e in multiset(a);
    }
  }

  lemma HasPrefix<V>(a: Props<V>, b: Props<V>, k: string)
    requires a <= b && Has(a, k)
    ensures Has(b, k)
  {
    assert b == a + b[|a|..];
    HasConcat(a, b[|a|..], k);
  }

  /** Assigning a root slot keeps every root entry inside the arena. */
  lemma RootPut(root: Props<nat>, size: nat, name: string, id: nat)
    requires (forall k :: RootAt(root, size, k)) && id < size
    ensures forall k :: RootAt(Put(root, name, id), size, k)
  {
    var r := Put(root, name, id);
    forall k ensures RootAt(r, size, k) {
      if 0 <= k < |r| {
        PutEntry(root, name, id, r[k]);
        if r[k] in root {
          var k' :| 0 <= k' < |root| && root[k'] == r[k];
          assert RootAt(root, size, k');
        }
      }
    }
  }

  lemma RootLookup(root: Props<nat>, size: nat, name: string)
    requires (forall k :: RootAt(root, size, k)) && Has(root, name)
    ensures Lookup<nat>(root, name).Some? && Lookup<nat>(root, name).value < size
  {
    LookupHas<nat>(root, name);
    var v := Lookup<nat>(root, name).value;
    assert (name, v) in root;
    var k :| 0 <= k < |root| && root[k] == (name, v);
    assert RootAt(root, size, k);
  }

  /** Linking dependency `i` keeps the earlier ones linked, the cache and the root only growing. */
  lemma LinkedStep(deps: Props<nat>, c0: map<nat, nat>, r0: Props<nat>, cache: map<nat, nat>, root: Props<nat>, i: nat)
    requires forall k :: k < i ==> LinkedAt(deps, c0, r0, k)
    requires Kept(c0, cache) && r0 <= root
    requires i < |deps| && deps[i].1 in cache && Has(root, deps[i].0)
    ensures forall k :: k < i + 1 ==> LinkedAt(deps, cache, root, k)
  {
    forall k | k < i + 1 ensures LinkedAt(deps, cache, root, k) {
      if 0 <= k < i {
        assert LinkedAt(deps, c0, r0, k);
        assert KeptAt(c0, cache, deps[k].1);
        HasPrefix(r0, root, deps[k].0);
      }
    }
  }

  /**
   * The first `i` entries of a first pass are done: each claims its name's
   * root slot, the root gained exactly their names, and no other slot moved.
   */
  ghost predicate FirstPassed(root0: Props<nat>, root: Props<nat>, raws: seq<Raw>, nodes: seq<V1Parse.Node>,
                              entries: Props<nat>, i: nat, kind: PackageType, from: nat) {
    && i <= |entries|
    && (forall j :: 0 <= j < i ==> FreshClaim(root, raws, nodes, entries[j].0, kind, entries[j].1, from))
    && (forall k :: Has(root, k) <==> Has(root0, k) || Has(entries[..i], k))
    && (forall k :: !Has(entries[..i], k) ==> Lookup<nat>(root, k) == Lookup<nat>(root0, k))
  }

  /** Before the first round of a first pass nothing is claimed and nothing moved. */
  lemma NoneClaimed(root: Props<nat>, raws: seq<Raw>, nodes: seq<V1Parse.Node>, entries: Props<nat>, kind: PackageType)
    ensures FirstPassed(root, root, raws, nodes, entries, 0, kind, |raws|)
  {
    assert Keys(entries[..0]) == [];
  }

  /** One round of a first pass: entry `i` claims its name's root slot with the object just made for it. */
  lemma ClaimStep(root0: Props<nat>, before: Props<nat>, made: seq<Raw>, raws: seq<Raw>, nodes: seq<V1Parse.Node>,
                  entries: Props<nat>, i: nat, kind: PackageType, from: nat)
    requires DistinctKeys(entries) && i < |entries| && entries[i].1 < |nodes| && from <= |made|
    requires raws == made + [Raw(PackageFields(kind, nodes[entries[i].1]), None)]
    requires FirstPassed(root0, before, made, nodes, entries, i, kind, from)
    ensures FirstPassed(root0, Put<nat>(before, entries[i].0, |made|), raws, nodes, entries, i + 1, kind, from)
  {
    var id: nat := |made|;
    var root := Put<nat>(before, entries[i].0, id);
    forall j | 0 <= j < i + 1 ensures FreshClaim(root, raws, nodes, entries[j].0, kind, entries[j].1, from) {
      if j < i {
        FreshClaimPut(before, made, nodes, entries[j].0, kind, entries[j].1, from, entries[i].0, id, raws[id]);
      } else {
        LookupPut<nat>(before, entries[i].0, id, entries[i].0);
      }
    }
    forall k ensures (Has(root, k) <==> Has(root0, k) || Has(entries[..i + 1], k))
      && (!Has(entries[..i + 1], k) ==> Lookup<nat>(root, k) == Lookup<nat>(root0, k))
    {
      KeysPut(before, entries[i].0, id);
      TakeSnoc(entries, i);
      HasConcat(entries[..i], [entries[i]], k);
      assert Keys([entries[i]]) == [entries[i].0];
      LookupPut<nat>(before, entries[i].0, id, k);
    }
  }

  /** After a first pass over all of a bucket's entries, in any order, every name it lists is claimed. */
  lemma ClaimedBucket(root0: Props<nat>, root: Props<nat>, raws: seq<Raw>, nodes: seq<V1Parse.Node>,
                      bucket: Props<nat>, entries: Props<nat>, kind: PackageType, from: nat)
    requires multiset(entries) == multiset(bucket)
    requires FirstPassed(root0, root, raws, nodes, entries, |entries|, kind, from)
    ensures forall k :: Has(root, k) <==> Has(root0, k) || Has(bucket, k)
    ensures forall k :: Has(bucket, k) ==> FreshClaim(root, raws, nodes, k, kind, Lookup<nat>(bucket, k).GetOr(0), from)
    ensures forall k :: !Has(bucket, k) ==> Lookup<nat>(root, k) == Lookup<nat>(root0, k)
  {
    assert entries[..|entries|] == entries;
    forall k ensures (Has(root, k) <==> Has(root0, k) || Has(bucket, k)) && (!Has(bucket, k) ==> Lookup<nat>(root, k) == Lookup<nat>(root0, k)) {
      HasPermutation(entries, bucket, k);
    }
    forall k | Has(bucket, k) ensures FreshClaim(root, raws, nodes, k, kind, Lookup<nat>(bucket, k).GetOr(0), from) {
      LookupHas<nat>(bucket, k);
      var v := Lookup<nat>(bucket, k).value;
      assert (k, v) in multiset(entries);
      var j :| 0 <= j < |entries| && entries[j] == (k, v);
    }
  }

  lemma RetypedPrefix(kind: PackageType, a: seq<Raw>, b: seq<Raw>)
    requires a <= b
    ensures Retyped(kind, a, b)
  {
    forall i ensures RetypedAt(kind, a, b, i) {
      if 0 <= i < |a| {
        assert b[i] == a[i];
      }
    }
  }

  lemma RetypedTransitive(kind: PackageType, a: seq<Raw>, b: seq<Raw>, c: seq<Raw>)
    requires Retyped(kind, a, b) && Retyped(kind, b, c)
    ensures Retyped(kind, a, c)
  {
    forall i ensures RetypedAt(kind, a, c, i) {
      if 0 <= i < |a| {
        assert RetypedAt(kind, a, b, i) && RetypedAt(kind, b, c, i);
        ProperTypeIdempotent(kind, a[i].fields);
      }
    }
  }

  /** Replacing one package object by a retyping of it. */
  lemma RetypedUpdate(kind: PackageType, a: seq<Raw>, i: nat, r: Raw)
    requires i < |a| && RetypedFrom(kind, a[i].fields, r.fields)
    ensures Retyped(kind, a, a[i := r])
  {
    var b := a[i := r];
    forall j ensures RetypedAt(kind, a, b, j) {
    }
  }

  /** A slot claimed at the first pass of a bucket: the fresh object is a claim. */
  lemma FreshClaims(root: Props<nat>, raws: seq<Raw>, nodes: seq<V1Parse.Node>, name: string, kind: PackageType, nodeId: nat, from: nat)
    requires FreshClaim(root, raws, nodes, name, kind, nodeId, from)
    ensures Claims(root, raws, nodes, name, kind, nodeId)
  {
  }

  /** Another name claiming its slot leaves a fresh claim in place. */
  lemma FreshClaimPut(root: Props<nat>, raws: seq<Raw>, nodes: seq<V1Parse.Node>, name: string, kind: PackageType, nodeId: nat, from: nat,
                      other: string, id: nat, r: Raw)
    requires FreshClaim(root, raws, nodes, name, kind, nodeId, from) && other != name
    ensures FreshClaim(Put(root, other, id), raws + [r], nodes, name, kind, nodeId, from)
  {
    LookupPut<nat>(root, other, id, name);
    var at := Lookup<nat>(root, name).value;
    assert (raws + [r])[at] == raws[at];
  }

  /**
   * The first pass of one more bucket: the names it lists are claimed by it,
   * the other names keep their slot, so every listed name is claimed by the
   * last bucket listing it.
   */
  lemma FirstPassClaims(root: Props<nat>, raws: seq<Raw>, root': Props<nat>, raws': seq<Raw>, nodes: seq<V1Parse.Node>,
                        buckets: seq<(PackageType, Props<nat>)>, kind: PackageType, bucket: Props<nat>)
    requires forall name :: SourceClaims(root, raws, nodes, buckets, name)
    requires raws <= raws'
    requires forall k :: Has(bucket, k) ==> FreshClaim(root', raws', nodes, k, kind, Lookup<nat>(bucket, k).GetOr(0), |raws|)
    requires forall k :: !Has(bucket, k) ==> Lookup<nat>(root', k) == Lookup<nat>(root, k)
    ensures forall name :: SourceClaims(root', raws', nodes, buckets + [(kind, bucket)], name)
  {
    var more := buckets + [(kind, bucket)];
    assert more[..|more| - 1] == buckets;
    forall name ensures SourceClaims(root', raws', nodes, more, name) {
      if Has(bucket, name) {
        FreshClaims(root', raws', nodes, name, kind, Lookup<nat>(bucket, name).GetOr(0), |raws|);
      } else if Listed(more, name) {
        assert SourceClaims(root, raws, nodes, buckets, name);
        var at := Lookup<nat>(root, name).value;
        assert raws'[at] == raws[at];
      }
    }
  }

  /** Slots only added at the root and objects at most retyped keep every claim. */
  lemma ClaimsKept(root: Props<nat>, raws: seq<Raw>, root': Props<nat>, raws': seq<Raw>, nodes: seq<V1Parse.Node>,
                   buckets: seq<(PackageType, Props<nat>)>, kind: PackageType)
    requires forall name :: SourceClaims(root, raws, nodes, buckets, name)
    requires root <= root' && Retyped(kind, raws, raws')
    ensures forall name :: SourceClaims(root', raws', nodes, buckets, name)
  {
    forall name ensures SourceClaims(root', raws', nodes, buckets, name) {
      if Listed(buckets, name) {
        assert SourceClaims(root, raws, nodes, buckets, name);
        var (k, nodeId) := RootSource(buckets, name);
        var at := Lookup<nat>(root, name).value;
        assert root' == root + root'[|root|..];
        LookupConcat<nat>(root, root'[|root|..], name);
        LookupHas<nat>(root, name);
        assert RetypedAt(kind, raws, raws', at);
        RetypedTyped(raws[at].fields, k, nodes[nodeId], kind, raws'[at].fields);
      }
    }
  }

  /** Lookup in a rearranged record with distinct keys finds the same. */
  lemma LookupPermutation<V>(a: Props<V>, b: Props<V>, k: string)
    requires multiset(a) == multiset(b) && DistinctKeys(a)
    ensures Lookup(b, k) == Lookup(a, k)
  {
    PermutationDistinct(a, b);
    LookupHas(a, k);
    LookupHas(b, k);
    HasPermutation(a, b, k);
    if Lookup(a, k).Some? {
      var v := Lookup(a, k).value;
      assert (k, v) in multiset(b);
      LookupIn(b, k, v);
    }
  }

  /** The entry of a written-out table is the written-out package object of the table's entry. */
  lemma {:induction false} LookupTableOf(raws: seq<Raw>, t: Props<nat>, name: string)
    requires NestOk(raws) && TableIds(raws, t) && Lookup<nat>(t, name).Some?
    ensures Lookup<nat>(t, name).value < |raws|
    ensures Lookup(TableOf(raws, t), name) == Some(PackageValue(raws, Lookup<nat>(t, name).value))
    decreases |t|
  {
    if t[0].0 != name {
      assert TableIds(raws, t[1..]);
      LookupTableOf(raws, t[1..], name);
      assert TableOf(raws, t)[1..] == TableOf(raws, t[1..]);
    }
  }

  /**
   * A root-table entry written out for node `n`'s package object: an object
   * whose own fields are those `makePackage` wrote for `n` as a `kind`
   * package, less `dev` and `peer` if a regular retyping deleted them, in
   * canonical package order, followed by its nested `dependencies` table if
   * it has one.
   */
  ghost predicate PackageEntry(v: Value, kind: PackageType, n: V1Parse.Node) {
    && v.Obj?
    && var own := Remove(v.props, "dependencies");
    && Typed(own, kind, n)
    && Reordered(own, PackageOrder) == own
    && (v.props == own || (v.props == own + [("dependencies", Get(v, "dependencies"))] && Get(v, "dependencies").Obj?))
  }

  /** A package object, written out, is such an entry. */
  lemma PackageValueEntry(raws: seq<Raw>, id: nat, kind: PackageType, n: V1Parse.Node)
    requires NestOk(raws) && id < |raws| && Typed(raws[id].fields, kind, n)
    requires DistinctKeys(n.unsupported) && !Has(n.unsupported, "dependencies")
    ensures PackageEntry(PackageValue(raws, id), kind, n)
  {
    var f := raws[id].fields;
    TypedEntries(f, kind, n, "dependencies");
    PackageFieldsEntries(kind, n, "dependencies");
    LookupHas(f, "dependencies");
    RemoveAbsent(f, "dependencies");
    if raws[id].nested.Some? {
      var d := ("dependencies", Obj(TableValue(raws, id, 0)));
      RemoveConcat(f, [d], "dependencies");
      assert Remove([d], "dependencies") == [];
      LookupConcat(f, [d], "dependencies");
    }
  }

  /** The root-table entry of a claimed name, once the table is sorted and written out. */
  lemma ClaimedEntry(raws: seq<Raw>, root: Props<nat>, sorted: Props<nat>, nodes: seq<V1Parse.Node>, name: string, kind: PackageType, nodeId: nat)
    requires NestOk(raws) && DistinctKeys(root) && multiset(sorted) == multiset(root) && TableIds(raws, sorted)
    requires Claims(root, raws, nodes, name, kind, nodeId)
    requires DistinctKeys(nodes[nodeId].unsupported) && !Has(nodes[nodeId].unsupported, "dependencies")
    ensures Lookup(TableOf(raws, sorted), name).Some?
    ensures PackageEntry(Lookup(TableOf(raws, sorted), name).value, kind, nodes[nodeId])
  {
    LookupPermutation<nat>(root, sorted, name);
    LookupTableOf(raws, sorted, name);
    PackageValueEntry(raws, Lookup<nat>(root, name).value, kind, nodes[nodeId]);
  }

  // ---------------------------------------------------------------------------
  // synth

  /** `{lockfileVersion, dependencies: {}, ...stash}`, the lockfile object before the passes. */
  function LockfileBase(version: Value, stash: Props<Value>): Props<Value> {
    Assign([("lockfileVersion", version), ("dependencies", Obj([]))], stash)
  }

  /** The lockfile's fields once its root table is `deps` and its fields are reordered. */
  function LockfileFields(version: Value, stash: Props<Value>, deps: Value): Props<Value> {
    Reordered(Put(LockfileBase(version, stash), "dependencies", deps), LockfileOrder)
  }

  /**
   * The synthesised lockfile holds the root table under `dependencies`,
   * every stashed field, and the parsed version as `lockfileVersion` unless
   * the stash has one; its keys are distinct and in canonical order.
   */
  lemma LockfileFieldsEntries(version: Value, stash: Props<Value>, deps: Value, k: string)
    requires DistinctKeys(stash)
    ensures DistinctKeys(LockfileFields(version, stash, deps))
    ensures Lookup(LockfileFields(version, stash, deps), k) ==
      if k == "dependencies" then Some(deps)
      else if Has(stash, k) then Lookup(stash, k)
      else if k == "lockfileVersion" then Some(version)
      else None
    ensures Reordered(LockfileFields(version, stash, deps), LockfileOrder) == LockfileFields(version, stash, deps)
  {
    var base := [("lockfileVersion", version), ("dependencies", Obj([]))];
    var fields := Put(LockfileBase(version, stash), "dependencies", deps);
    assert Lookup(base[1..], k) == if k == "dependencies" then Some(Obj([])) else Lookup(base[1..][1..], k);
    assert base[1..][1..] == [];
    assert Lookup(base, k) == if k == "lockfileVersion" then Some(version) else Lookup(base[1..], k);
    DistinctAssign(base, stash);
    LookupAssign(base, stash, k);
    DistinctPut(LockfileBase(version, stash), "dependencies", deps);
    LookupPut(LockfileBase(version, stash), "dependencies", deps, k);
    ReorderedEntries(fields, LockfileOrder);
    ReorderedIdempotent(fields, LockfileOrder);
    assert Lookup(LockfileFields(version, stash, deps), k) == Lookup(fields, k);
  }

  /** What `synth` promises of the lockfile's own fields. */
  lemma LockfileShape(version: Value, stash: Props<Value>, deps: Value)
    requires DistinctKeys(stash)
    ensures var f := LockfileFields(version, stash, deps);
      && DistinctKeys(f)
      && Reordered(f, LockfileOrder) == f
      && Get(Obj(f), "lockfileVersion") == Lookup(stash, "lockfileVersion").GetOr(version)
      && Get(Obj(f), "dependencies") == deps
      && forall k :: k != "lockfileVersion" && k != "dependencies" ==> Lookup(f, k) == Lookup(stash, k)
  {
    var f := LockfileFields(version, stash, deps);
    forall k | k != "lockfileVersion" && k != "dependencies" ensures Lookup(f, k) == Lookup(stash, k) {
      LockfileFieldsEntries(version, stash, deps, k);
      LookupHas(stash, k);
    }
    LockfileFieldsEntries(version, stash, deps, "lockfileVersion");
    LockfileFieldsEntries(version, stash, deps, "dependencies");
    LookupHas(stash, "lockfileVersion");
  }

  /** A record with distinct keys holds each entry at most once. */
  lemma {:induction false} AtMostOnce<V>(p: Props<V>, e: (string, V))
    requires DistinctKeys(p)
    ensures multiset(p)[e] <= 1
  {
    if p != [] {
      DistinctHead(p);
      AtMostOnce(p[1..], e);
      assert p == [p[0]] + p[1..];
      if e == p[0] && e in p[1..] {
        NotHeadKey(p, e);
      }
    }
  }

  /** Rearranging a record with distinct keys keeps them distinct. */
  lemma PermutationDistinct<V>(a: Props<V>, b: Props<V>)
    requires multiset(a) == multiset(b) && DistinctKeys(a)
    ensures DistinctKeys(b)
  {
    forall i, j | 0 <= i < j < |b| ensures b[i].0 != b[j].0 {
      if b[i].0 == b[j].0 {
        assert b[i] in multiset(a);
        var p :| 0 <= p < |a| && a[p] == b[i];
        assert b[j] in multiset(a);
        var q :| 0 <= q < |a| && a[q] == b[j];
        if p == q {
          assert b == b[..j] + b[j..];
          assert b[i] in b[..j] && b[j] in b[j..];
          assert multiset(b)[b[i]] == multiset(b[..j])[b[i]] + multiset(b[j..])[b[i]];
          AtMostOnce(a, b[i]);
        }
      }
    }
  }

  /** Sortedness and distinctness see a table only through its keys. */
  lemma SameKeys<V, W>(a: Props<V>, b: Props<W>)
    requires Keys(a) == Keys(b)
    ensures SortedByKey(a) <==> SortedByKey(b)
    ensures DistinctKeys(a) <==> DistinctKeys(b)
  {
    assert |a| == |Keys(a)| == |Keys(b)| == |b|;
    assert forall i :: 0 <= i < |a| ==> a[i].0 == Keys(a)[i] == Keys(b)[i] == b[i].0;
  }

  lemma SortedTableIds(raws: seq<Raw>, root: Props<nat>, sorted: Props<nat>)
    requires (forall k :: RootAt(root, |raws|, k)) && multiset(sorted) == multiset(root)
    ensures TableIds(raws, sorted)
  {
    forall k | 0 <= k < |sorted| ensures sorted[k].1 < |raws| {
      assert sorted[k] in multiset(root);
      var k' :| 0 <= k' < |root| && root[k'] == sorted[k];
      assert RootAt(root, |raws|, k');
    }
  }

  /**
   * `synth`: the lockfile object made from a parsed graph. The first pass
   * claims a root slot for every bucket entry, the second pass links the
   * dependencies below them, and then the root table is sorted by name and
   * the lockfile's fields are put into canonical order.
   */
  method Synth(g: V1Parse.Graph) returns (lockfile: Value)
    requires GraphIds(g.nodes)
    requires BucketIds(g.nodes, g.dependencies) && BucketIds(g.nodes, g.devDependencies) && BucketIds(g.nodes, g.peerDependencies)
    requires DistinctKeys(g.dependencies) && DistinctKeys(g.devDependencies) && DistinctKeys(g.peerDependencies)
    requires DistinctKeys(g.unsupported) && !Has(g.unsupported, "dependencies")
    requires forall i :: 0 <= i < |g.nodes| ==> DistinctKeys(g.nodes[i].unsupported) && !Has(g.nodes[i].unsupported, "dependencies")
    ensures lockfile.Obj? && DistinctKeys(lockfile.props)
    ensures Reordered(lockfile.props, LockfileOrder) == lockfile.props
    ensures Get(lockfile, "lockfileVersion") == Lookup(g.unsupported, "lockfileVersion").GetOr(g.version)
    ensures forall k :: k != "lockfileVersion" && k != "dependencies" ==> Lookup(lockfile.props, k) == Lookup(g.unsupported, k)
    ensures Get(lockfile, "dependencies").Obj?
    ensures var deps := Get(lockfile, "dependencies").props;
      && DistinctKeys(deps)
      && SortedByKey(deps)
      && forall name :: Has(g.dependencies, name) || Has(g.devDependencies, name) || Has(g.peerDependencies, name) ==> Has(deps, name)
    ensures var deps := Get(lockfile, "dependencies").props;
      forall name :: Listed(RootBuckets(g), name) ==>
        var (kind, nodeId) := RootSource(RootBuckets(g), name);
        && nodeId < |g.nodes|
        && Lookup(deps, name).Some?
        && PackageEntry(Lookup(deps, name).value, kind, g.nodes[nodeId])
  {
    var o := new JsObject(LockfileBase(g.version, g.unsupported));
    var st := new SynthState(g.nodes);
    st.Passes(g.dependencies, g.devDependencies, g.peerDependencies);
    var sorted := AlphabeticalEntries(st.root);
    SortedTableIds(st.raws, st.root, sorted);
    var table := TableOf(st.raws, sorted);
    PermutationDistinct(st.root, sorted);
    SameKeys(sorted, table);
    DistinctAssign([("lockfileVersion", g.version), ("dependencies", Obj([]))], g.unsupported);
    DistinctPut(o.props, "dependencies", Obj(table));
    o.props := Put(o.props, "dependencies", Obj(table));
    ReorderObject(o, LockfileOrder);
    lockfile := Obj(o.props);
    LockfileShape(g.version, g.unsupported, Obj(table));
    forall name | Has(g.dependencies, name) || Has(g.devDependencies, name) || Has(g.peerDependencies, name)
      ensures Has(table, name)
    {
      HasPermutation(st.root, sorted, name);
    }
    RootEntries(st.raws, st.root, sorted, g);
  }

  /** The buckets of a parsed graph in the order of the passes. */
  function RootBuckets(g: V1Parse.Graph): seq<(PackageType, Props<nat>)> {
    [(Regular, g.dependencies), (Dev, g.devDependencies), (Peer, g.peerDependencies)]
  }

  /** The names some bucket lists are exactly those of the three buckets. */
  lemma ListedRootBuckets(g: V1Parse.Graph, name: string)
    ensures Listed(RootBuckets(g), name) <==> Has(g.dependencies, name) || Has(g.devDependencies, name) || Has(g.peerDependencies, name)
    ensures RootSource(RootBuckets(g), name) ==
      if Has(g.peerDependencies, name) then (Peer, Lookup<nat>(g.peerDependencies, name).GetOr(0))
      else if Has(g.devDependencies, name) then (Dev, Lookup<nat>(g.devDependencies, name).GetOr(0))
      else (Regular, Lookup<nat>(g.dependencies, name).GetOr(0))
  {
    var b := RootBuckets(g);
    var b2 := b[..2];
    var b1 := b2[..1];
    var b0: seq<(PackageType, Props<nat>)> := b1[..0];
    assert b2 == [(Regular, g.dependencies), (Dev, g.devDependencies)];
    assert b1 == [(Regular, g.dependencies)];
    assert !Listed(b0, name) && RootSource(b0, name) == (Regular, 0);
    assert Listed(b1, name) <==> Has(g.dependencies, name);
    assert Listed(b2, name) <==> Has(g.dependencies, name) || Has(g.devDependencies, name);
    LookupHas<nat>(g.dependencies, name);
    assert RootSource(b1, name) == (Regular, Lookup<nat>(g.dependencies, name).GetOr(0));
  }

  /** Every claimed root slot, once the root table is sorted and written out, is a package entry of its node. */
  lemma RootEntries(raws: seq<Raw>, root: Props<nat>, sorted: Props<nat>, g: V1Parse.Graph)
    requires NestOk(raws) && DistinctKeys(root) && multiset(sorted) == multiset(root) && TableIds(raws, sorted)
    requires forall name :: SourceClaims(root, raws, g.nodes, RootBuckets(g), name)
    requires forall i :: 0 <= i < |g.nodes| ==> DistinctKeys(g.nodes[i].unsupported) && !Has(g.nodes[i].unsupported, "dependencies")
    ensures forall name :: Listed(RootBuckets(g), name) ==>
      var (kind, nodeId) := RootSource(RootBuckets(g), name);
      && nodeId < |g.nodes|
      && Lookup(TableOf(raws, sorted), name).Some?
      && PackageEntry(Lookup(TableOf(raws, sorted), name).value, kind, g.nodes[nodeId])
  {
    forall name | Listed(RootBuckets(g), name)
      ensures var (kind, nodeId) := RootSource(RootBuckets(g), name);
        && nodeId < |g.nodes|
        && Lookup(TableOf(raws, sorted), name).Some?
        && PackageEntry(Lookup(TableOf(raws, sorted), name).value, kind, g.nodes[nodeId])
    {
      assert SourceClaims(root, raws, g.nodes, RootBuckets(g), name);
      var (kind, nodeId) := RootSource(RootBuckets(g), name);
      ClaimedEntry(raws, root, sorted, g.nodes, name, kind, nodeId);
    }
  }

  /** Every graph the v1 parser returns is one `Synth` accepts. */
  lemma ParsedGraphSynthesizable(g: V1Parse.Graph, lockfile: Value)
    requires WellFormed(lockfile)
    requires V1Parse.GraphOk(g, Get(lockfile, "dependencies"))
    requires g.unsupported == Without(OwnProps(lockfile), V1Parse.LockfileKeys) && g.peerDependencies == []
    ensures GraphIds(g.nodes)
    ensures BucketIds(g.nodes, g.dependencies) && BucketIds(g.nodes, g.devDependencies) && BucketIds(g.nodes, g.peerDependencies)
    ensures DistinctKeys(g.dependencies) && DistinctKeys(g.devDependencies) && DistinctKeys(g.peerDependencies)
    ensures DistinctKeys(g.unsupported) && !Has(g.unsupported, "dependencies")
    ensures forall i :: 0 <= i < |g.nodes| ==> DistinctKeys(g.nodes[i].unsupported) && !Has(g.nodes[i].unsupported, "dependencies")
    ensures forall i :: 0 <= i < |g.nodes| ==> !Has(g.nodes[i].unsupported, "dev") && !Has(g.nodes[i].unsupported, "peer")
  {
    var root := Get(lockfile, "dependencies");
    var origin :| V1Parse.NodesOk(g.nodes, origin, root);
    forall i, k ensures DepAt(g.nodes, i, k) {
      if 0 <= i < |g.nodes| && 0 <= k < |g.nodes[i].dependencies| {
        var d := g.nodes[i].dependencies[k];
        assert V1Parse.EdgeOk(g.nodes, root, Get(origin[i], "dependencies"), d.0, d.1);
      }
    }
    forall k | 0 <= k < |g.dependencies| ensures g.dependencies[k].1 < |g.nodes| {
      assert V1Parse.BucketAt(g.nodes, root, g.dependencies, k);
    }
    forall k | 0 <= k < |g.devDependencies| ensures g.devDependencies[k].1 < |g.nodes| {
      assert V1Parse.BucketAt(g.nodes, root, g.devDependencies, k);
    }
    DistinctWithout(OwnProps(lockfile), V1Parse.LockfileKeys);
    HasWithout(OwnProps(lockfile), V1Parse.LockfileKeys, "dependencies");
    forall i | 0 <= i < |g.nodes|
      ensures DistinctKeys(g.nodes[i].unsupported)
      ensures !Has(g.nodes[i].unsupported, "dependencies") && !Has(g.nodes[i].unsupported, "dev") && !Has(g.nodes[i].unsupported, "peer")
    {
      assert V1Parse.Shaped(g.nodes[i], origin[i]);
      HasWithout(OwnProps(origin[i]), V1Parse.PackageKeys, "dependencies");
      HasWithout(OwnProps(origin[i]), V1Parse.PackageKeys, "dev");
      HasWithout(OwnProps(origin[i]), V1Parse.PackageKeys, "peer");
    }
  }

  /**
   * `synth(parse(lockfile, packagefile))`: the lockfile's version and every
   * other field of its own except `dependencies` come back unchanged, and
   * every name the manifest's `dependencies` and `devDependencies` list is a
   * key of the root table again.
   */
  method ParseThenSynth(lockfile: Value, packagefile: Value) returns (r: Outcome<Value>)
    requires WellFormed(lockfile) && WellFormed(packagefile)
    ensures r.Failure? ==>
      r.error == TypeError || V1Parse.NotFoundIn(Get(lockfile, "dependencies"), r.error)
    ensures !IsNullish(packagefile) && V1Parse.Resolvable(Get(lockfile, "dependencies"))
      && V1Parse.AllFound(Get(lockfile, "dependencies"), V1Parse.ManifestKeys(packagefile, "dependencies"))
      && V1Parse.AllFound(Get(lockfile, "dependencies"), V1Parse.ManifestKeys(packagefile, "devDependencies"))
      ==> r.Success?
    ensures r.Success? ==>
      && r.value.Obj?
      && Get(r.value, "lockfileVersion") == Get(lockfile, "lockfileVersion")
      && (forall k :: k != "lockfileVersion" && k != "dependencies" ==> Lookup(r.value.props, k) == Lookup(OwnProps(lockfile), k))
      && Get(r.value, "dependencies").Obj?
      && forall name ::
           name in V1Parse.ManifestKeys(packagefile, "dependencies") || name in V1Parse.ManifestKeys(packagefile, "devDependencies") ==>
           Has(Get(r.value, "dependencies").props, name)
  {
    var parsed := V1Parse.Parse(lockfile, packagefile);
    if parsed.Failure? {
      return Failure(parsed.error);
    }
    var g := parsed.value;
    ParsedGraphSynthesizable(g, lockfile);
    var out := Synth(g);
    StashRestored(lockfile, g.unsupported, out);
    return Success(out);
  }

  /** A lockfile written from the stash of a parsed one carries the parsed one's other fields. */
  lemma StashRestored(lockfile: Value, unsupported: Props<Value>, out: Value)
    requires WellFormed(lockfile) && out.Obj?
    requires unsupported == Without(OwnProps(lockfile), V1Parse.LockfileKeys)
    requires forall k :: k != "lockfileVersion" && k != "dependencies" ==> Lookup(out.props, k) == Lookup(unsupported, k)
    ensures forall k :: k != "lockfileVersion" && k != "dependencies" ==> Lookup(out.props, k) == Lookup(OwnProps(lockfile), k)
    ensures Lookup(unsupported, "lockfileVersion") == None
  {
    forall k | k != "lockfileVersion" && k != "dependencies" ensures Lookup(out.props, k) == Lookup(OwnProps(lockfile), k) {
      LookupWithout(OwnProps(lockfile), V1Parse.LockfileKeys, k);
    }
    LookupWithout(OwnProps(lockfile), V1Parse.LockfileKeys, "lockfileVersion");
  }
}
