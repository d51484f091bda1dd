/**
 * The packages-map codec of the package root. `parse` links every name a
 * package depends on to the lockfile's two entries for it, the
 * `packages["node_modules/<name>"]` entry and the `dependencies[<name>]`
 * entry, and so turns the lockfile into a dependency tree. `fabricate`
 * rebuilds the two tables from such a tree, first writer wins.
 *
 * The tree objects carry three symbol-keyed slots, MODULE, PACKAGE and
 * LINK; here they are datatype fields beside the string-keyed ones.
 */
module LockTree {
  import opened Wrappers
  import opened Records
  import opened JsValues

  /** The message `parse` throws for a lockfile without its two tables or without the root package. */
  const RequiredError := "Given object does not have required properties!"

  /** The dependency fields `searchAndLink` and `searchAndReconstruct` visit, in visiting order. */
  const BucketKeys: seq<string> := ["dependencies", "devDependencies", "peerDependencies"]

  /** A dependency field of a tree object: not set, or the linked dependencies by name. */
  datatype Bucket = Absent | Present(entries: Props<Node>)

  /** The `dependencies`, `devDependencies` and `peerDependencies` fields of a tree object. */
  datatype Links = Links(dependencies: Bucket, devDependencies: Bucket, peerDependencies: Bucket)

  /**
   * The object `linkDependency` returns: its MODULE slot (the `dependencies`
   * entry), its PACKAGE slot (the `packages` entry, whose own LINK slot is
   * `link`), its name, its version and its linked dependency fields.
   */
  datatype Node = Node(lockModule: Value, lockPackage: Value, link: Option<Value>, name: string, version: Value, links: Links)

  /**
   * The object `parse` returns: its MODULE slot, the lockfile's other
   * top-level fields, and the linked dependency fields laid over them.
   */
  datatype Tree = Tree(lockModule: Value, fields: Props<Value>, links: Links)

  /** The dependency field number k (in `BucketKeys` order) of a tree object. */
  function BucketAt(l: Links, k: nat): (b: Bucket)
    requires k < 3
    ensures b < l
  {
    if k == 0 then l.dependencies else if k == 1 then l.devDependencies else l.peerDependencies
  }

  /** The key of a package in the lockfile's `packages` table. */
  function PackageKey(name: string): string {
    "node_modules/" + name
  }

  // ---------------------------------------------------------------------------
  // What a linked tree is: every node agrees with the lockfile it came from

  /** The lockfile's `packages` table. */
  function PackagesOf(lock: Value): Value {
    Get(lock, "packages")
  }

  /** The lockfile's `dependencies` table. */
  function ModulesOf(lock: Value): Value {
    Get(lock, "dependencies")
  }

  /** The entry a `link` package points at: the `packages` entry under its `resolved` value. */
  function LinkTarget(lock: Value, package: Value): Option<Value> {
    if Truthy(Get(package, "link")) then Some(Get(PackagesOf(lock), ToJsString(Get(package, "resolved")))) else None
  }

  /**
   * The node for `n.name` holds the lockfile's two entries for that name,
   * neither of them null or undefined, the version of the `dependencies`
   * entry, the link target when the package is a link, and one linked field
   * for every dependency field its package sets.
   */
  ghost predicate LinkedFrom(lock: Value, n: Node)
    decreases n.links, 1
  {
    && n.lockModule == Get(ModulesOf(lock), n.name) && !IsNullish(n.lockModule)
    && n.lockPackage == Get(PackagesOf(lock), PackageKey(n.name)) && !IsNullish(n.lockPackage)
    && n.version == Get(n.lockModule, "version")
    && n.link == LinkTarget(lock, n.lockPackage)
    && LinksFrom(lock, n.lockPackage, n.links)
  }

  /**
   * A dependency field is set exactly when the package's field is not null
   * or undefined; it then has one node per own key of that field, keyed and
   * named by it, each linked from the lockfile.
   */
  ghost predicate LinksFrom(lock: Value, package: Value, l: Links)
    decreases l, 0
  {
    forall k :: 0 <= k < 3 ==>
      && (BucketAt(l, k).Present? <==> !IsNullish(Get(package, BucketKeys[k])))
      && (BucketAt(l, k).Present? ==>
            && DistinctKeys(BucketAt(l, k).entries)
            && (forall key :: Has(BucketAt(l, k).entries, key) <==> Has(OwnProps(Get(package, BucketKeys[k])), key))
            && forall i :: 0 <= i < |BucketAt(l, k).entries| ==>
                 BucketAt(l, k).entries[i].1.name == BucketAt(l, k).entries[i].0 && LinkedFrom(lock, BucketAt(l, k).entries[i].1))
  }

  /** Every entry of a linked table is keyed by its node's name and linked from the lockfile. */
  ghost predicate AllLinkedFrom(lock: Value, p: Props<Node>) {
    forall i :: 0 <= i < |p| ==> p[i].1.name == p[i].0 && LinkedFrom(lock, p[i].1)
  }

  // ---------------------------------------------------------------------------
  // parse

  /** The module entry, the package entry and the package's link target `getLockObjects` returns. */
  datatype LockObjects = LockObjects(lockModule: Value, lockPackage: Value, link: Option<Value>)

  /**
   * `getLockObjects`: the lockfile's `dependencies` and `packages` entries
   * for `key`. A `link` package is returned as a copy carrying its target in
   * the LINK slot. Reading a missing table, or the `link` flag of a missing
   * package, throws a TypeError.
   */
  function GetLockObjects(key: string, lock: Value): (r: Outcome<LockObjects>)
    ensures r.Failure? <==>
      IsNullish(ModulesOf(lock)) || IsNullish(PackagesOf(lock)) || IsNullish(Get(PackagesOf(lock), PackageKey(key)))
    ensures r.Failure? ==> r.error == TypeError
    ensures r.Success? ==>
      && r.value.lockModule == Get(ModulesOf(lock), key)
      && r.value.lockPackage == Get(PackagesOf(lock), PackageKey(key))
      && r.value.link == LinkTarget(lock, r.value.lockPackage)
  {
    var lockModule := Member(ModulesOf(lock), key);
    var lockPackage := Member(PackagesOf(lock), PackageKey(key));
    if lockModule.Failure? then Failure(lockModule.error)
    else if lockPackage.Failure? then Failure(lockPackage.error)
    else
      var isLink := Member(lockPackage.value, "link");
      if isLink.Failure? then Failure(isLink.error)
      else if Truthy(isLink.value) then
        var target := Get(PackagesOf(lock), ToJsString(Get(lockPackage.value, "resolved")));
        Success(LockObjects(lockModule.value, lockPackage.value, Some(target)))
      else
        Success(LockObjects(lockModule.value, lockPackage.value, None))
  }

  /**
   * `linkDependency`: the node for `key`. `fuel` bounds the depth of nested
   * calls; the code has no cycle guard, so a cyclic lockfile exhausts the
   * call stack, which throws a RangeError.
   */
  function LinkDependency(key: string, lock: Value, fuel: nat): (r: Outcome<Node>)
    decreases fuel, 0, 0
    ensures fuel == 0 ==> r == Failure(RangeError)
    ensures r.Failure? ==> r.error == TypeError || r.error == RangeError
    ensures r.Success? ==> r.value.name == key && LinkedFrom(lock, r.value)
  {
    if fuel == 0 then Failure(RangeError)
    else
      var objects := GetLockObjects(key, lock);
      if objects.Failure? then Failure(objects.error)
      else
        var links := SearchAndLink(objects.value.lockPackage, lock, fuel - 1);
        if links.Failure? then Failure(links.error)
        else
          var version := Member(objects.value.lockModule, "version");
          if version.Failure? then Failure(version.error)
          else Success(Node(objects.value.lockModule, objects.value.lockPackage, objects.value.link, key, version.value, links.value))
  }

  /**
   * `linkDependencies`: a fresh object mapping every own key of the given
   * dependency field to its node, in key order.
   */
  function LinkDependencies(entries: Props<Value>, lock: Value, fuel: nat, acc: Props<Node>): (r: Outcome<Props<Node>>)
    decreases fuel, 1, |entries|
    ensures r.Failure? ==> r.error == TypeError || r.error == RangeError
    ensures r.Success? ==> forall key :: Has(r.value, key) <==> Has(acc, key) || Has(entries, key)
    ensures r.Success? && DistinctKeys(acc) ==> DistinctKeys(r.value)
    ensures r.Success? && AllLinkedFrom(lock, acc) ==> AllLinkedFrom(lock, r.value)
    ensures r.Success? && FreshKeys(entries, acc) ==> Keys(r.value) == Keys(acc) + Keys(entries)
  {
    if entries == [] then Success(acc)
    else
      var node := LinkDependency(entries[0].0, lock, fuel);
      if node.Failure? then Failure(node.error)
      else
        var acc' := Put(acc, entries[0].0, node.value);
        var r := LinkDependencies(entries[1..], lock, fuel, acc');
        KeysPut(acc, entries[0].0, node.value);
        assert Keys(entries) == [entries[0].0] + Keys(entries[1..]);
        PutLinked(lock, acc, entries[0].0, node.value);
        KeysInOrder(entries, acc, node.value);
        r
  }

  /** The entries' keys are distinct and none of them is in `acc` yet. */
  ghost predicate FreshKeys(entries: Props<Value>, acc: Props<Node>) {
    DistinctKeys(entries) && forall key :: Has(entries, key) ==> !Has(acc, key)
  }

  /** One step of `linkDependencies` on fresh keys appends the first key and hands on fresh keys. */
  lemma KeysInOrder(entries: Props<Value>, acc: Props<Node>, node: Node)
    requires entries != []
    ensures FreshKeys(entries, acc) ==> FreshKeys(entries[1..], Put(acc, entries[0].0, node))
    ensures FreshKeys(entries, acc) ==> Keys(Put(acc, entries[0].0, node)) + Keys(entries[1..]) == Keys(acc) + Keys(entries)
  {
    if !FreshKeys(entries, acc) {
      return;
    }
    KeysPut(acc, entries[0].0, node);
    assert Keys(entries) == [entries[0].0] + Keys(entries[1..]);
    assert Has(entries, entries[0].0);
    forall key | Has(entries[1..], key) ensures !Has(Put(acc, entries[0].0, node), key) {
      var j :| 0 <= j < |entries[1..]| && Keys(entries[1..])[j] == key;
      assert entries[j + 1].0 == key;
      assert Has(entries, key);
    }
  }

  /** One dependency field of `searchAndLink`: linked when the package's field is not null or undefined. */
  function LinkBucket(field: Value, lock: Value, fuel: nat): (r: Outcome<Bucket>)
    decreases fuel, 2, 0
    ensures r.Failure? ==> r.error == TypeError || r.error == RangeError
    ensures r.Success? ==> BucketFrom(lock, field, r.value)
  {
    if IsNullish(field) then Success(Absent)
    else
      var entries := LinkDependencies(OwnProps(field), lock, fuel, []);
      if entries.Failure? then Failure(entries.error) else Success(Present(entries.value))
  }

  /**
   * `searchAndLink`: the linked `dependencies`, `devDependencies` and
   * `peerDependencies` of a package, each only when the package sets it;
   * a null or undefined package throws a TypeError.
   */
  function SearchAndLink(package: Value, lock: Value, fuel: nat): (r: Outcome<Links>)
    decreases fuel, 3, 0
    ensures IsNullish(package) ==> r == Failure(TypeError)
    ensures r.Failure? ==> r.error == TypeError || r.error == RangeError
    ensures r.Success? ==> LinksFrom(lock, package, r.value)
  {
    if IsNullish(package) then Failure(TypeError)
    else
      var deps := LinkBucket(Get(package, "dependencies"), lock, fuel);
      if deps.Failure? then Failure(deps.error)
      else
        var devDeps := LinkBucket(Get(package, "devDependencies"), lock, fuel);
        if devDeps.Failure? then Failure(devDeps.error)
        else
          var peerDeps := LinkBucket(Get(package, "peerDependencies"), lock, fuel);
          if peerDeps.Failure? then Failure(peerDeps.error)
          else
            var l := Links(deps.value, devDeps.value, peerDeps.value);
            Success(l)
  }

  /** A bucket built by `LinkBucket` from field k of the package satisfies that field's part of `LinksFrom`. */
  ghost predicate BucketFrom(lock: Value, field: Value, b: Bucket) {
    && (b.Present? <==> !IsNullish(field))
    && (b.Present? ==>
          && DistinctKeys(b.entries)
          && (forall key :: Has(b.entries, key) <==> Has(OwnProps(field), key))
          && AllLinkedFrom(lock, b.entries))
  }

  /** Adding a node linked under its own name keeps a linked table linked and its keys distinct. */
  lemma PutLinked(lock: Value, acc: Props<Node>, key: string, node: Node)
    requires node.name == key && LinkedFrom(lock, node)
    ensures DistinctKeys(acc) ==> DistinctKeys(Put(acc, key, node))
    ensures AllLinkedFrom(lock, acc) ==> AllLinkedFrom(lock, Put(acc, key, node))
  {
    if DistinctKeys(acc) {
      DistinctPut(acc, key, node);
    }
    var r := Put(acc, key, node);
    forall i | 0 <= i < |r| && AllLinkedFrom(lock, acc) ensures r[i].1.name == r[i].0 && LinkedFrom(lock, r[i].1) {
      assert r[i] in r;
      PutEntry(acc, key, node, r[i]);
      if r[i] != (key, node) {
        var j :| 0 <= j < |acc| && acc[j] == r[i];
      }
    }
  }

  lemma PrunedEntries(props: Props<Value>)
    ensures forall e :: e in Remove(Remove(props, "packages"), "dependencies") <==>
      e in props && e.0 != "packages" && e.0 != "dependencies"
  {
    forall e ensures e in Remove(Remove(props, "packages"), "dependencies") <==> e in props && e.0 != "packages" && e.0 != "dependencies" {
      RemoveEntry(props, "packages", e);
      RemoveEntry(Remove(props, "packages"), "dependencies", e);
    }
  }

  /** `packages`, `dependencies` and `packages[""]` are all present, as `parse` checks before linking. */
  predicate HasRequired(lock: Value) {
    && lock.Obj? && Has(lock.props, "packages") && Has(lock.props, "dependencies")
    && PackagesOf(lock).Obj? && Has(PackagesOf(lock).props, "")
  }

  /**
   * `parse` of an already decoded lockfile: the root package's linked
   * dependency fields over a copy of the lockfile without its two tables,
   * with the root package in the MODULE slot.
   */
  function Parse(lock: Value, fuel: nat): (r: Outcome<Tree>)
    ensures r == Failure(Error(RequiredError)) <==> !HasRequired(lock)
    ensures r.Success? ==>
      && lock.Obj?
      && r.value.lockModule == Get(PackagesOf(lock), "")
      && (forall e :: e in r.value.fields <==> e in lock.props && e.0 != "packages" && e.0 != "dependencies")
      && LinksFrom(lock, r.value.lockModule, r.value.links)
  {
    if !HasRequired(lock) then Failure(Error(RequiredError))
    else
      var thisPackage := Get(PackagesOf(lock), "");
      var links := SearchAndLink(thisPackage, lock, fuel);
      if links.Failure? then Failure(links.error)
      else
        var pruned := Remove(Remove(lock.props, "packages"), "dependencies");
        PrunedEntries(lock.props);
        Success(Tree(thisPackage, pruned, links.value))
  }

  // ---------------------------------------------------------------------------
  // fabricate: the specification

  /** The `lockPackages` and `lockDependencies` objects `fabricate` fills. */
  datatype Tables = Tables(packages: Props<Value>, dependencies: Props<Value>)

  /** `table[k]`, undefined for a missing key. */
  function Slot(p: Props<Value>, k: string): Value {
    Lookup(p, k).GetOr(Undefined)
  }

  /** Every key of `t` is still there in `t'`. */
  ghost predicate Grows(t: Tables, t': Tables) {
    && (forall k :: Has(t.packages, k) ==> Has(t'.packages, k))
    && (forall k :: Has(t.dependencies, k) ==> Has(t'.dependencies, k))
  }

  /**
   * First writer wins: every key of `t` is still there in `t'`, and a slot
   * holding something other than null or undefined still holds it.
   */
  ghost predicate Extends(t: Tables, t': Tables) {
    && Grows(t, t')
    && (forall k :: !IsNullish(Slot(t.packages, k)) ==> Slot(t'.packages, k) == Slot(t.packages, k))
    && (forall k :: !IsNullish(Slot(t.dependencies, k)) ==> Slot(t'.dependencies, k) == Slot(t.dependencies, k))
  }

  /**
   * The writes `reconstructDependency` makes before it descends: the
   * package under `node_modules/<name>`, for a link package also its target
   * under its `resolved` value, and the module under `<name>`, each only
   * into a slot that holds null or undefined. The stored package never
   * carries the LINK slot. Reading `link` of a missing package throws.
   */
  function Record(t: Tables, n: Node): (r: Outcome<Tables>)
    ensures r.Failure? <==> IsNullish(Slot(t.packages, PackageKey(n.name))) && IsNullish(n.lockPackage)
    ensures r.Failure? ==> r.error == TypeError
    ensures r.Success? ==>
      && Extends(t, r.value)
      && Slot(r.value.packages, PackageKey(n.name)) == Coalesce(Slot(t.packages, PackageKey(n.name)), n.lockPackage)
      && Slot(r.value.dependencies, n.name) == Coalesce(Slot(t.dependencies, n.name), n.lockModule)
      && Has(r.value.packages, PackageKey(n.name)) && Has(r.value.dependencies, n.name)
    ensures r.Success? && IsNullish(Slot(t.packages, PackageKey(n.name))) && Truthy(Get(n.lockPackage, "link")) ==>
      var target := ToJsString(Get(n.lockPackage, "resolved"));
      target != PackageKey(n.name) ==> Slot(r.value.packages, target) == Coalesce(Slot(t.packages, target), n.link.GetOr(Undefined))
  {
    var key := PackageKey(n.name);
    var free := IsNullish(Slot(t.packages, key));
    if free && IsNullish(n.lockPackage) then Failure(TypeError)
    else
      var packages := if free then Put(t.packages, key, n.lockPackage) else t.packages;
      var target := ToJsString(Get(n.lockPackage, "resolved"));
      var packages' :=
        if free && Truthy(Get(n.lockPackage, "link")) && IsNullish(Slot(packages, target))
        then Put(packages, target, n.link.GetOr(Undefined))
        else packages;
      var dependencies :=
        if IsNullish(Slot(t.dependencies, n.name)) then Put(t.dependencies, n.name, n.lockModule) else t.dependencies;
      var r := Tables(packages', dependencies);
      PutSlot(t.packages, key, n.lockPackage, free);
      LookupPut(t.packages, key, n.lockPackage, target);
      PutSlot(packages, target, n.link.GetOr(Undefined), free && Truthy(Get(n.lockPackage, "link")) && IsNullish(Slot(packages, target)));
      PutSlot(t.dependencies, n.name, n.lockModule, IsNullish(Slot(t.dependencies, n.name)));
      Success(r)
  }

  /** Writing into a null or undefined slot (when `write` holds) keeps every other slot and key. */
  lemma PutSlot(p: Props<Value>, k: string, v: Value, write: bool)
    requires write ==> IsNullish(Slot(p, k))
    ensures var p' := if write then Put(p, k, v) else p;
      && (forall k' :: Has(p, k') ==> Has(p', k'))
      && (forall k' :: !IsNullish(Slot(p, k')) ==> Slot(p', k') == Slot(p, k'))
      && (write ==> Slot(p', k) == v && Has(p', k))
      && (!IsNullish(Slot(p, k)) ==> Has(p, k))
  {
    LookupHas(p, k);
    if write {
      KeysPut(p, k, v);
      forall k' ensures Slot(Put(p, k, v), k') == if k' == k then v else Slot(p, k') {
        LookupPut(p, k, v, k');
      }
    }
  }

  /** `reconstructDependency` of one node: its own writes, then its dependency fields. */
  function Reconstructed(t: Tables, n: Node): Outcome<Tables>
    decreases n.links, 3
  {
    var t1 := Record(t, n);
    if t1.Failure? then t1 else SearchedAndReconstructed(t1.value, n.links)
  }

  /** `searchAndReconstruct`: the `dependencies`, `devDependencies` and `peerDependencies` fields in turn. */
  function SearchedAndReconstructed(t: Tables, l: Links): Outcome<Tables>
    decreases l, 2
  {
    var t1 := ReconstructedBucket(t, l.dependencies, l);
    if t1.Failure? then t1
    else
      var t2 := ReconstructedBucket(t1.value, l.devDependencies, l);
      if t2.Failure? then t2 else ReconstructedBucket(t2.value, l.peerDependencies, l)
  }

  /** One dependency field of `searchAndReconstruct`, skipped when it is not set. */
  function ReconstructedBucket(t: Tables, b: Bucket, ghost l: Links): Outcome<Tables>
    requires b < l
    decreases l, 1
  {
    if b.Absent? then Success(t) else ReconstructedAll(t, b.entries, l)
  }

  /** `reconstructDependencies`: every node of a dependency field, in order. */
  function ReconstructedAll(t: Tables, entries: Props<Node>, ghost l: Links): Outcome<Tables>
    requires forall i :: 0 <= i < |entries| ==> entries[i].1 < l
    decreases l, 0, |entries|
  {
    if entries == [] then Success(t)
    else
      var t1 := Reconstructed(t, entries[0].1);
      if t1.Failure? then t1 else ReconstructedAll(t1.value, entries[1..], l)
  }

  /** The tree's dependency fields are the linked ones: no raw field of the same name is visible under an unset one. */
  predicate NoRawBuckets(tree: Tree) {
    forall k :: 0 <= k < 3 && BucketAt(tree.links, k).Absent? ==> IsNullish(Slot(tree.fields, BucketKeys[k]))
  }

  /** What `fabricate` returns: the MODULE slot its spread copies from the tree, and the string-keyed lockfile. */
  datatype Rebuilt = Rebuilt(lockModule: Value, lockfile: Value)

  /**
   * `fabricate`: both tables rebuilt from the tree, the tree's MODULE slot
   * stored as the root package `packages[""]`, and the tree's fields
   * without its dependency fields, followed by the two tables.
   */
  function Fabricated(tree: Tree): (r: Outcome<Rebuilt>)
    requires NoRawBuckets(tree)
    ensures r.Success? ==>
      && r.value.lockModule == tree.lockModule
      && r.value.lockfile.Obj?
      && Get(r.value.lockfile, "packages").Obj? && Get(r.value.lockfile, "dependencies").Obj?
      && Slot(Get(r.value.lockfile, "packages").props, "") == tree.lockModule
  {
    var t := SearchedAndReconstructed(Tables([], []), tree.links);
    if t.Failure? then Failure(t.error)
    else
      var packages := Put(t.value.packages, "", tree.lockModule);
      var pruned := Remove(Remove(Remove(tree.fields, "dependencies"), "devDependencies"), "peerDependencies");
      var props := Put(Put(pruned, "packages", Obj(packages)), "dependencies", Obj(t.value.dependencies));
      LookupPut(packages, "", tree.lockModule, "");
      LookupPut(t.value.packages, "", tree.lockModule, "");
      LookupPut(pruned, "packages", Obj(packages), "packages");
      LookupPut(Put(pruned, "packages", Obj(packages)), "dependencies", Obj(t.value.dependencies), "packages");
      LookupPut(Put(pruned, "packages", Obj(packages)), "dependencies", Obj(t.value.dependencies), "dependencies");
      Success(Rebuilt(tree.lockModule, Obj(props)))
  }

  // ---------------------------------------------------------------------------
  // fabricate: the accumulators it fills in place

  /** The method's outcome and the accumulators' state are what the specification function gives. */
  predicate Mirrors(r: Outcome<()>, spec: Outcome<Tables>, now: Tables) {
    match spec
    case Success(t) => r == Success(()) && now == t
    case Failure(e) => r == Failure(e)
  }

  /** The `lockPackages` and `lockDependencies` objects `fabricate` passes down the reconstruction. */
  class Accumulators {
    var packages: Props<Value>
    var dependencies: Props<Value>

    constructor ()
      ensures packages == [] && dependencies == []
    {
      packages := [];
      dependencies := [];
    }

    function Current(): Tables
      reads this
    {
      Tables(packages, dependencies)
    }

    /** `reconstructDependency`. */
    method ReconstructDependency(n: Node) returns (r: Outcome<()>)
      modifies this
      decreases n.links, 3
      ensures Mirrors(r, Reconstructed(old(Current()), n), Current())
    {
      ghost var t0 := Current();
      var key := PackageKey(n.name);
      if IsNullish(Slot(packages, key)) {
        packages := Put(packages, key, n.lockPackage);
        var isLink := Member(n.lockPackage, "link");
        if isLink.Failure? {
          return Failure(isLink.error);
        }
        if Truthy(isLink.value) {
          // The shallow clone without LINK that replaces the package holds
          // the same string-keyed entries, so the slot keeps its value.
          var target := ToJsString(Get(n.lockPackage, "resolved"));
          if IsNullish(Slot(packages, target)) {
            packages := Put(packages, target, n.link.GetOr(Undefined));
          }
        }
      }
      if IsNullish(Slot(dependencies, n.name)) {
        dependencies := Put(dependencies, n.name, n.lockModule);
      }
      assert Record(t0, n) == Success(Current());
      r := SearchAndReconstruct(n.links);
    }

    /** `reconstructDependencies`: a loop over the values of a dependency field. */
    method ReconstructDependencies(entries: Props<Node>, ghost l: Links) returns (r: Outcome<()>)
      requires forall i :: 0 <= i < |entries| ==> entries[i].1 < l
      modifies this
      decreases l, 1
      ensures Mirrors(r, ReconstructedAll(old(Current()), entries, l), Current())
    {
      ghost var t0 := Current();
      var i := 0;
      while i < |entries|
        invariant 0 <= i <= |entries|
        invariant ReconstructedAll(t0, entries, l) == ReconstructedAll(Current(), entries[i..], l)
      {
        assert entries[i..][1..] == entries[i + 1..];
        r := ReconstructDependency(entries[i].1);
        if r.Failure? {
          return;
        }
        i := i + 1;
      }
      r := Success(());
    }

    /** `searchAndReconstruct`: each dependency field that is set, in turn. */
    method SearchAndReconstruct(l: Links) returns (r: Outcome<()>)
      modifies this
      decreases l, 2
      ensures Mirrors(r, SearchedAndReconstructed(old(Current()), l), Current())
    {
      ghost var t0 := Current();
      r := Success(());
      if l.dependencies.Present? {
        r := ReconstructDependencies(l.dependencies.entries, l);
        assert ReconstructedBucket(t0, l.dependencies, l) == ReconstructedAll(t0, l.dependencies.entries, l);
        if r.Failure? {
          return;
        }
      }
      ghost var t1 := Current();
      assert ReconstructedBucket(t0, l.dependencies, l) == Success(t1);
      if l.devDependencies.Present? {
        r := ReconstructDependencies(l.devDependencies.entries, l);
        assert ReconstructedBucket(t1, l.devDependencies, l) == ReconstructedAll(t1, l.devDependencies.entries, l);
        if r.Failure? {
          return;
        }
      }
      assert ReconstructedBucket(t1, l.devDependencies, l) == Success(Current());
      ghost var t2 := Current();
      if l.peerDependencies.Present? {
        r := ReconstructDependencies(l.peerDependencies.entries, l);
        assert ReconstructedBucket(t2, l.peerDependencies, l) == ReconstructedAll(t2, l.peerDependencies.entries, l);
      }
    }
  }

  /** `fabricate`, proved against `Fabricated`. */
  method Fabricate(tree: Tree) returns (r: Outcome<Rebuilt>)
    requires NoRawBuckets(tree)
    ensures r == Fabricated(tree)
  {
    var tables := new Accumulators();
    var searched := tables.SearchAndReconstruct(tree.links);
    if searched.Failure? {
      return Failure(searched.error);
    }
    tables.packages := Put(tables.packages, "", tree.lockModule);
    var pruned := Remove(Remove(Remove(tree.fields, "dependencies"), "devDependencies"), "peerDependencies");
    r := Success(Rebuilt(tree.lockModule, Obj(Put(Put(pruned, "packages", Obj(tables.packages)), "dependencies", Obj(tables.dependencies)))));
  }

  // ---------------------------------------------------------------------------
  // fabricate: first writer wins, every node is placed

  lemma ExtendsTransitive(a: Tables, b: Tables, c: Tables)
    requires Extends(a, b) && Extends(b, c)
    ensures Extends(a, c)
  {
  }

  /** Both tables have an entry for the node's name, and so do they for every node below it. */
  ghost predicate Placed(n: Node, t: Tables)
    decreases n.links, 1
  {
    && Has(t.packages, PackageKey(n.name)) && Has(t.dependencies, n.name)
    && LinksPlaced(n.links, t)
  }

  ghost predicate LinksPlaced(l: Links, t: Tables)
    decreases l, 0
  {
    forall k, i :: 0 <= k < 3 && BucketAt(l, k).Present? && 0 <= i < |BucketAt(l, k).entries| ==>
      Placed(BucketAt(l, k).entries[i].1, t)
  }

  ghost predicate AllPlaced(entries: Props<Node>, t: Tables) {
    forall i :: 0 <= i < |entries| ==> Placed(entries[i].1, t)
  }

  lemma {:induction false} PlacedGrows(n: Node, t: Tables, t': Tables)
    requires Placed(n, t) && Grows(t, t')
    ensures Placed(n, t')
    decreases n.links, 1
  {
    LinksPlacedGrows(n.links, t, t');
  }

  lemma {:induction false} LinksPlacedGrows(l: Links, t: Tables, t': Tables)
    requires LinksPlaced(l, t) && Grows(t, t')
    ensures LinksPlaced(l, t')
    decreases l, 0
  {
    forall k, i | 0 <= k < 3 && BucketAt(l, k).Present? && 0 <= i < |BucketAt(l, k).entries|
      ensures Placed(BucketAt(l, k).entries[i].1, t')
    {
      PlacedGrows(BucketAt(l, k).entries[i].1, t, t');
    }
  }

  lemma AllPlacedGrows(entries: Props<Node>, t: Tables, t': Tables)
    requires AllPlaced(entries, t) && Grows(t, t')
    ensures AllPlaced(entries, t')
  {
    forall i | 0 <= i < |entries| ensures Placed(entries[i].1, t') {
      PlacedGrows(entries[i].1, t, t');
    }
  }

  /**
   * `reconstructDependency` never overwrites: every key stays and every
   * slot that held something other than null or undefined keeps it. On
   * success, the node and every node below it have an entry in both tables.
   */
  lemma {:induction false} ReconstructedKeeps(t: Tables, n: Node)
    ensures Reconstructed(t, n).Success? ==> Extends(t, Reconstructed(t, n).value) && Placed(n, Reconstructed(t, n).value)
    decreases n.links, 3
  {
    var t1 := Record(t, n);
    if t1.Success? {
      SearchedAndReconstructedKeeps(t1.value, n.links);
      var r := SearchedAndReconstructed(t1.value, n.links);
      if r.Success? {
        ExtendsTransitive(t, t1.value, r.value);
      }
    }
  }

  /** `searchAndReconstruct` never overwrites, and places every node of every dependency field. */
  lemma {:induction false} SearchedAndReconstructedKeeps(t: Tables, l: Links)
    ensures SearchedAndReconstructed(t, l).Success? ==>
      Extends(t, SearchedAndReconstructed(t, l).value) && LinksPlaced(l, SearchedAndReconstructed(t, l).value)
    decreases l, 2
  {
    var t1 := ReconstructedBucket(t, l.dependencies, l);
    ReconstructedBucketKeeps(t, l.dependencies, l);
    if t1.Success? {
      var t2 := ReconstructedBucket(t1.value, l.devDependencies, l);
      ReconstructedBucketKeeps(t1.value, l.devDependencies, l);
      if t2.Success? {
        var t3 := ReconstructedBucket(t2.value, l.peerDependencies, l);
        ReconstructedBucketKeeps(t2.value, l.peerDependencies, l);
        if t3.Success? {
          ExtendsTransitive(t1.value, t2.value, t3.value);
          ExtendsTransitive(t, t1.value, t3.value);
          if l.dependencies.Present? {
            AllPlacedGrows(l.dependencies.entries, t1.value, t3.value);
          }
          if l.devDependencies.Present? {
            AllPlacedGrows(l.devDependencies.entries, t2.value, t3.value);
          }
          forall k, i | 0 <= k < 3 && BucketAt(l, k).Present? && 0 <= i < |BucketAt(l, k).entries|
            ensures Placed(BucketAt(l, k).entries[i].1, t3.value)
          {
          }
        }
      }
    }
  }

  lemma {:induction false} ReconstructedBucketKeeps(t: Tables, b: Bucket, l: Links)
    requires b < l
    ensures ReconstructedBucket(t, b, l).Success? ==>
      && Extends(t, ReconstructedBucket(t, b, l).value)
      && (b.Present? ==> AllPlaced(b.entries, ReconstructedBucket(t, b, l).value))
    decreases l, 1
  {
    if b.Present? {
      ReconstructedAllKeeps(t, b.entries, l);
    }
  }

  lemma {:induction false} ReconstructedAllKeeps(t: Tables, entries: Props<Node>, l: Links)
    requires forall i :: 0 <= i < |entries| ==> entries[i].1 < l
    ensures ReconstructedAll(t, entries, l).Success? ==>
      Extends(t, ReconstructedAll(t, entries, l).value) && AllPlaced(entries, ReconstructedAll(t, entries, l).value)
    decreases l, 0, |entries|
  {
    if entries != [] {
      var t1 := Reconstructed(t, entries[0].1);
      ReconstructedKeeps(t, entries[0].1);
      if t1.Success? {
        var r := ReconstructedAll(t1.value, entries[1..], l);
        ReconstructedAllKeeps(t1.value, entries[1..], l);
        if r.Success? {
          ExtendsTransitive(t, t1.value, r.value);
          PlacedGrows(entries[0].1, t1.value, r.value);
          forall i | 0 <= i < |entries| ensures Placed(entries[i].1, r.value) {
            if i > 0 {
              assert entries[i] == entries[1..][i - 1];
            }
          }
        }
      }
    }
  }

  // ---------------------------------------------------------------------------
  // fabricate after parse: the rebuilt tables agree with the lockfile

  /** Every entry of `p` is the entry of `table` under the same key. */
  ghost predicate TableAgrees(p: Props<Value>, table: Value) {
    forall e :: e in p ==> e.1 == Get(table, e.0)
  }

  /** Both rebuilt tables hold only the lockfile's own entries. */
  ghost predicate Agrees(lock: Value, t: Tables) {
    TableAgrees(t.packages, PackagesOf(lock)) && TableAgrees(t.dependencies, ModulesOf(lock))
  }

  lemma PutAgrees(p: Props<Value>, table: Value, k: string)
    requires TableAgrees(p, table)
    ensures TableAgrees(Put(p, k, Get(table, k)), table)
  {
    forall e | e in Put(p, k, Get(table, k)) ensures e.1 == Get(table, e.0) {
      PutEntry(p, k, Get(table, k), e);
    }
  }

  /** The writes for a linked node store the lockfile's own entries, and cannot throw. */
  lemma RecordAgrees(lock: Value, t: Tables, n: Node)
    requires Agrees(lock, t) && LinkedFrom(lock, n)
    ensures Record(t, n).Success? && Agrees(lock, Record(t, n).value)
  {
    var key := PackageKey(n.name);
    var free := IsNullish(Slot(t.packages, key));
    var packages := if free then Put(t.packages, key, n.lockPackage) else t.packages;
    if free {
      PutAgrees(t.packages, PackagesOf(lock), key);
    }
    var target := ToJsString(Get(n.lockPackage, "resolved"));
    if free && Truthy(Get(n.lockPackage, "link")) && IsNullish(Slot(packages, target)) {
      PutAgrees(packages, PackagesOf(lock), target);
    }
    if IsNullish(Slot(t.dependencies, n.name)) {
      PutAgrees(t.dependencies, ModulesOf(lock), n.name);
    }
  }

  /**
   * Reconstructing a node linked from a lockfile cannot throw, and keeps
   * the tables holding only that lockfile's entries.
   */
  lemma {:induction false} ReconstructedAgrees(lock: Value, t: Tables, n: Node)
    requires Agrees(lock, t) && LinkedFrom(lock, n)
    ensures Reconstructed(t, n).Success? && Agrees(lock, Reconstructed(t, n).value)
    decreases n.links, 3
  {
    RecordAgrees(lock, t, n);
    SearchedAndReconstructedAgrees(lock, Record(t, n).value, n.lockPackage, n.links);
  }

  /** The same for the dependency fields of a package linked from the lockfile. */
  lemma {:induction false} SearchedAndReconstructedAgrees(lock: Value, t: Tables, package: Value, l: Links)
    requires Agrees(lock, t) && LinksFrom(lock, package, l)
    ensures SearchedAndReconstructed(t, l).Success? && Agrees(lock, SearchedAndReconstructed(t, l).value)
    decreases l, 2
  {
    assert BucketAt(l, 0) == l.dependencies && BucketAt(l, 1) == l.devDependencies && BucketAt(l, 2) == l.peerDependencies;
    ReconstructedBucketAgrees(lock, t, l.dependencies, l);
    var t1 := ReconstructedBucket(t, l.dependencies, l).value;
    ReconstructedBucketAgrees(lock, t1, l.devDependencies, l);
    var t2 := ReconstructedBucket(t1, l.devDependencies, l).value;
    ReconstructedBucketAgrees(lock, t2, l.peerDependencies, l);
  }

  lemma {:induction false} ReconstructedBucketAgrees(lock: Value, t: Tables, b: Bucket, l: Links)
    requires b < l && Agrees(lock, t)
    requires b.Present? ==> AllLinkedFrom(lock, b.entries)
    ensures ReconstructedBucket(t, b, l).Success? && Agrees(lock, ReconstructedBucket(t, b, l).value)
    decreases l, 1
  {
    if b.Present? {
      ReconstructedAllAgrees(lock, t, b.entries, l);
    }
  }

  lemma {:induction false} ReconstructedAllAgrees(lock: Value, t: Tables, entries: Props<Node>, l: Links)
    requires forall i :: 0 <= i < |entries| ==> entries[i].1 < l
    requires Agrees(lock, t) && AllLinkedFrom(lock, entries)
    ensures ReconstructedAll(t, entries, l).Success? && Agrees(lock, ReconstructedAll(t, entries, l).value)
    decreases l, 0, |entries|
  {
    if entries != [] {
      ReconstructedAgrees(lock, t, entries[0].1);
      var t1 := Reconstructed(t, entries[0].1).value;
      assert AllLinkedFrom(lock, entries[1..]) by {
        forall i | 0 <= i < |entries[1..]| ensures LinkedFrom(lock, entries[1..][i].1) && entries[1..][i].1.name == entries[1..][i].0 {
          assert entries[1..][i] == entries[i + 1];
        }
      }
      ReconstructedAllAgrees(lock, t1, entries[1..], l);
    }
  }

  /**
   * Round trip, `fabricate(parse(L))`, for a well-formed lockfile `L` with
   * no top-level `devDependencies` or `peerDependencies`: it cannot throw;
   * it keeps every field of `L` other than the two tables; the rebuilt
   * `packages` and `dependencies` tables hold only `L`'s own entries,
   * `packages[""]` among them; and every name the tree links has an entry
   * in both rebuilt tables.
   */
  lemma FabricateAfterParse(lock: Value, fuel: nat)
    requires WellFormed(lock) && Parse(lock, fuel).Success?
    requires !Has(lock.props, "devDependencies") && !Has(lock.props, "peerDependencies")
    ensures NoRawBuckets(Parse(lock, fuel).value)
    ensures Fabricated(Parse(lock, fuel).value).Success?
    ensures var tree := Parse(lock, fuel).value;
      var out := Fabricated(tree).value.lockfile;
      && out.Obj?
      && (forall k :: k != "packages" && k != "dependencies" ==> Lookup(out.props, k) == Lookup(lock.props, k))
      && Get(out, "packages").Obj? && Get(out, "dependencies").Obj?
      && Has(Get(out, "packages").props, "")
      && Agrees(lock, Tables(Get(out, "packages").props, Get(out, "dependencies").props))
      && LinksPlaced(tree.links, Tables(Get(out, "packages").props, Get(out, "dependencies").props))
  {
    var tree := Parse(lock, fuel).value;
    ParsedFields(lock, fuel);
    SearchedAndReconstructedAgrees(lock, Tables([], []), tree.lockModule, tree.links);
    SearchedAndReconstructedKeeps(Tables([], []), tree.links);
    var t := SearchedAndReconstructed(Tables([], []), tree.links).value;
    var packages := Put(t.packages, "", tree.lockModule);
    PutAgrees(t.packages, PackagesOf(lock), "");
    KeysPut(t.packages, "", tree.lockModule);
    LinksPlacedGrows(tree.links, t, Tables(packages, t.dependencies));
    FabricatedTables(tree, t);
  }

  /** The tree `parse` returns has distinct field keys, none of them a dependency field of its own. */
  lemma ParsedFields(lock: Value, fuel: nat)
    requires WellFormed(lock) && Parse(lock, fuel).Success?
    requires !Has(lock.props, "devDependencies") && !Has(lock.props, "peerDependencies")
    ensures NoRawBuckets(Parse(lock, fuel).value)
    ensures DistinctKeys(Parse(lock, fuel).value.fields)
    ensures forall k :: k in BucketKeys ==> !Has(Parse(lock, fuel).value.fields, k)
    ensures forall k :: k != "packages" && k != "dependencies" ==> Lookup(Parse(lock, fuel).value.fields, k) == Lookup(lock.props, k)
  {
    var tree := Parse(lock, fuel).value;
    assert DistinctKeys(lock.props);
    DistinctRemove(lock.props, "packages");
    DistinctRemove(Remove(lock.props, "packages"), "dependencies");
    assert tree.fields == Remove(Remove(lock.props, "packages"), "dependencies");
    forall k ensures k != "packages" && k != "dependencies" ==> Lookup(tree.fields, k) == Lookup(lock.props, k) {
      LookupRemove(lock.props, "packages", k);
      LookupRemove(Remove(lock.props, "packages"), "dependencies", k);
    }
    forall k | k in BucketKeys ensures !Has(tree.fields, k) && Slot(tree.fields, k) == Undefined {
      LookupHas(tree.fields, k);
      LookupHas(lock.props, k);
      LookupRemove(lock.props, "packages", k);
      LookupRemove(Remove(lock.props, "packages"), "dependencies", k);
    }
  }

  /** What `Fabricated` builds from the tables the reconstruction leaves. */
  lemma FabricatedTables(tree: Tree, t: Tables)
    requires NoRawBuckets(tree) && DistinctKeys(tree.fields)
    requires forall k :: k in BucketKeys ==> !Has(tree.fields, k)
    requires SearchedAndReconstructed(Tables([], []), tree.links) == Success(t)
    ensures Fabricated(tree).Success?
    ensures var out := Fabricated(tree).value.lockfile;
      && out.Obj?
      && Get(out, "packages") == Obj(Put(t.packages, "", tree.lockModule))
      && Get(out, "dependencies") == Obj(t.dependencies)
      && forall k :: k != "packages" && k != "dependencies" ==> Lookup(out.props, k) == Lookup(tree.fields, k)
  {
    var packages := Put(t.packages, "", tree.lockModule);
    var pruned := Remove(Remove(Remove(tree.fields, "dependencies"), "devDependencies"), "peerDependencies");
    RemoveAbsent(tree.fields, "dependencies");
    RemoveAbsent(tree.fields, "devDependencies");
    RemoveAbsent(tree.fields, "peerDependencies");
    assert pruned == tree.fields;
    var props := Put(Put(pruned, "packages", Obj(packages)), "dependencies", Obj(t.dependencies));
    forall k ensures Lookup(props, k) == if k == "dependencies" then Some(Obj(t.dependencies)) else if k == "packages" then Some(Obj(packages)) else Lookup(tree.fields, k) {
      LookupPut(pruned, "packages", Obj(packages), k);
      LookupPut(Put(pruned, "packages", Obj(packages)), "dependencies", Obj(t.dependencies), k);
    }
  }
}
