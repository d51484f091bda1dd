/**
 * The lockfile-version-1 graph parser (src/v1/parse.ts). Every name the
 * manifest lists is resolved to a parsed package node: first in the nested
 * `dependencies` table of the package that requires it, then in the
 * lockfile's root table. Nodes are memoised by name and version in a
 * workbench cache, and the cache entry is written before the package's
 * `requires` are walked, so that a cycle of `requires` ends at a cache hit.
 *
 * Nodes are shared by reference in the source; here they live in an arena
 * (`nodes`) and are referred to by index, so that "the same object" is
 * "the same index".
 */
module V1Parse {
  import opened Wrappers
  import opened Records
  import opened JsValues
  import Misc

  /** The raw package fields a node takes over; everything else is stashed. */
  const PackageKeys: seq<string> := ["version", "dependencies", "dev", "peer"]

  /** The raw lockfile fields the parsed lockfile takes over; everything else is stashed. */
  const LockfileKeys: seq<string> := ["lockfileVersion", "dependencies"]

  function NotFoundMessage(name: string): string {
    "Could not find '" + name + " in lockfile, package.json may be out of sync!'"
  }

  /** A parsed package. `name` and `version` are write-once in the source and immutable here. */
  datatype Node = Node(name: string, version: Value, dependencies: Props<nat>, devDependencies: Props<nat>, unsupported: Props<Value>)

  /** The parsed lockfile, with the arena of every node reachable from its buckets. */
  datatype Graph = Graph(
    version: Value,
    dependencies: Props<nat>,
    devDependencies: Props<nat>,
    peerDependencies: Props<nat>,
    unsupported: Props<Value>,
    nodes: seq<Node>)

  /** The memo key of a node: its name and its version. */
  function Key(n: Node): (string, Value) {
    (n.name, n.version)
  }

  /**
   * The raw package a name resolves to: the entry of the requiring package's
   * nested table when it is not null or undefined, else the root table's
   * entry; null or undefined there too is the not-found error, and a missing
   * root table is a TypeError.
   */
  function Resolve(name: string, root: Value, prioritized: Value): (r: Outcome<Value>)
    ensures r.Success? ==> !IsNullish(r.value)
    ensures r.Success? ==> r.value == Get(prioritized, name) || (IsNullish(Get(prioritized, name)) && r.value == Get(root, name))
    ensures !IsNullish(Get(prioritized, name)) ==> r == Success(Get(prioritized, name))
    ensures r.Failure? <==> IsNullish(Get(prioritized, name)) && IsNullish(Get(root, name))
    ensures r.Failure? ==> r.error == (if IsNullish(root) then TypeError else Error(NotFoundMessage(name)))
  {
    var nested := if IsNullish(prioritized) then Undefined else Get(prioritized, name);
    if !IsNullish(nested) then Success(nested)
    else if IsNullish(root) then Failure(TypeError)
    else
      var top := Get(root, name);
      if IsNullish(top) then Failure(Error(NotFoundMessage(name))) else Success(top)
  }

  /** The names whose resolution a package triggers: `Object.keys(requires ?? {})`. */
  function RequiresKeys(raw: Value): seq<string> {
    ObjectKeys(Coalesce(Get(raw, "requires"), Obj([])))
  }

  /** `error` is the not-found error of a name whose root-table entry is missing, null or undefined. */
  ghost predicate NotFoundIn(root: Value, error: Thrown) {
    exists n :: error == Error(NotFoundMessage(n)) && IsNullish(Get(root, n))
  }

  /**
   * Every name that some object inside the root table `requires` has a
   * non-null entry in the root table, so that it resolves wherever it is
   * required.
   */
  ghost predicate Resolvable(root: Value) {
    forall raw :: raw in Subterms(root) ==> RequiresFound(root, raw)
  }

  /** Every name the object `raw` `requires` has a non-null entry in the root table. */
  ghost predicate RequiresFound(root: Value, raw: Value) {
    AllFound(root, RequiresKeys(raw))
  }

  /** Every one of `names` has a non-null entry in the root table. */
  ghost predicate AllFound(root: Value, names: seq<string>) {
    forall i :: 0 <= i < |names| ==> !IsNullish(Get(root, names[i]))
  }

  /** A node built from the raw package `raw` (its dependency table aside). */
  ghost predicate Shaped(n: Node, raw: Value) {
    && !IsNullish(raw)
    && n.version == Get(raw, "version")
    && n.devDependencies == []
    && n.unsupported == Without(OwnProps(raw), PackageKeys)
    && DistinctKeys(n.unsupported)
  }

  /**
   * `raw` is what `name` resolves to from some table inside the root table
   * (a package's nested `dependencies`) or from the root table itself: the
   * raw package a node of that name is built from.
   */
  ghost predicate ResolvedFrom(root: Value, name: string, raw: Value) {
    exists table: Value :: (table.Obj? ==> table in Subterms(root)) && Resolve(name, root, table) == Success(raw)
  }

  /** The dependency `d -> j` of a package whose nested table is `prioritized` points at the node `d` resolves to. */
  ghost predicate EdgeOk(nodes: seq<Node>, root: Value, prioritized: Value, d: string, j: nat) {
    var found := Resolve(d, root, prioritized);
    && found.Success?
    && j < |nodes|
    && nodes[j].name == d
    && nodes[j].version == Get(found.value, "version")
  }

  /**
   * The arena after parsing: node `i` was built from the raw package
   * `origin[i]`, which its name resolves to inside the lockfile, no name and
   * version were built twice, every node's
   * dependency keys are exactly its raw `requires` keys, and every
   * dependency points at the node its name resolves to, the root table being
   * the same at every level.
   */
  ghost predicate NodesOk(nodes: seq<Node>, origin: seq<Value>, root: Value) {
    && |origin| == |nodes|
    && (forall i, j :: 0 <= i < j < |nodes| ==> Key(nodes[i]) != Key(nodes[j]))
    && (forall i :: 0 <= i < |nodes| ==> ResolvedFrom(root, nodes[i].name, origin[i]))
    && (forall i :: 0 <= i < |nodes| ==> Shaped(nodes[i], origin[i]))
    && (forall i :: 0 <= i < |nodes| ==> Keys(nodes[i].dependencies) == RequiresKeys(origin[i]))
    && (forall i, k :: 0 <= i < |nodes| && 0 <= k < |nodes[i].dependencies| ==>
          EdgeOk(nodes, root, Get(origin[i], "dependencies"), nodes[i].dependencies[k].0, nodes[i].dependencies[k].1))
  }

  /** Every entry of a root bucket points at the node its name resolves to in the root table. */
  ghost predicate BucketOk(nodes: seq<Node>, root: Value, bucket: Props<nat>) {
    forall k :: BucketAt(nodes, root, bucket, k)
  }

  /** Entry `k` of a root bucket points at the node its name resolves to in the root table. */
  ghost predicate BucketAt(nodes: seq<Node>, root: Value, bucket: Props<nat>, k: int) {
    0 <= k < |bucket| ==> EdgeOk(nodes, root, Undefined, bucket[k].0, bucket[k].1)
  }

  ghost predicate GraphOk(g: Graph, root: Value) {
    && (exists origin :: NodesOk(g.nodes, origin, root))
    && BucketOk(g.nodes, root, g.dependencies)
    && BucketOk(g.nodes, root, g.devDependencies)
    && DistinctKeys(g.dependencies) && DistinctKeys(g.devDependencies)
  }

  // ---------------------------------------------------------------------------
  // Termination: every cache key is the name and version of an entry of some
  // object inside the root table, a finite set.

  ghost function Subterms(v: Value): set<Value>
    decreases v
  {
    {v} + match v
      case Obj(ps) => (set i, w | 0 <= i < |ps| && w in Subterms(ps[i].1) :: w)
      case Arr(xs) => (set i, w | 0 <= i < |xs| && w in Subterms(xs[i]) :: w)
      case _ => {}
  }

  /** The name and version of every entry of every object inside `v`. */
  ghost function Candidates(v: Value): set<(string, Value)>
    decreases v
  {
    match v
    case Obj(ps) =>
      (set i | 0 <= i < |ps| :: (ps[i].0, Get(ps[i].1, "version")))
      + (set i, x | 0 <= i < |ps| && x in Candidates(ps[i].1) :: x)
    case Arr(xs) => set i, x | 0 <= i < |xs| && x in Candidates(xs[i]) :: x
    case _ => {}
  }

  lemma {:induction false} CandidateEntry(root: Value, o: Value, i: nat)
    requires o in Subterms(root) && o.Obj? && i < |o.props|
    ensures (o.props[i].0, Get(o.props[i].1, "version")) in Candidates(root)
    decreases root
  {
    if o != root {
      match root
      case Obj(ps) =>
        var j, w :| 0 <= j < |ps| && w in Subterms(ps[j].1) && w == o;
        CandidateEntry(ps[j].1, o, i);
      case Arr(xs) =>
        var j, w :| 0 <= j < |xs| && w in Subterms(xs[j]) && w == o;
        CandidateEntry(xs[j], o, i);
    }
  }

  lemma {:induction false} SubtermChild(root: Value, o: Value, i: nat)
    requires o in Subterms(root) && o.Obj? && i < |o.props|
    ensures o.props[i].1 in Subterms(root)
    decreases root
  {
    assert o.props[i].1 in Subterms(o.props[i].1);
    if o != root {
      match root
      case Obj(ps) =>
        var j, w :| 0 <= j < |ps| && w in Subterms(ps[j].1) && w == o;
        SubtermChild(ps[j].1, o, i);
      case Arr(xs) =>
        var j, w :| 0 <= j < |xs| && w in Subterms(xs[j]) && w == o;
        SubtermChild(xs[j], o, i);
    }
  }

  lemma {:induction false} SubtermWellFormed(root: Value, v: Value)
    requires WellFormed(root) && v in Subterms(root)
    ensures WellFormed(v)
    decreases root
  {
    if v != root {
      match root
      case Obj(ps) =>
        var j, w :| 0 <= j < |ps| && w in Subterms(ps[j].1) && w == v;
        SubtermWellFormed(ps[j].1, v);
      case Arr(xs) =>
        var j, w :| 0 <= j < |xs| && w in Subterms(xs[j]) && w == v;
        SubtermWellFormed(xs[j], v);
    }
  }

  /** A value found under a name in a table inside the root is itself inside the root, and its key a candidate. */
  lemma FoundInRoot(root: Value, table: Value, name: string)
    requires table in Subterms(root) && table.Obj? && !IsNullish(Get(table, name))
    ensures Get(table, name) in Subterms(root)
    ensures (name, Get(Get(table, name), "version")) in Candidates(root)
  {
    LookupHas(table.props, name);
    var x := Lookup(table.props, name).value;
    var i :| 0 <= i < |table.props| && table.props[i] == (name, x);
    SubtermChild(root, table, i);
    CandidateEntry(root, table, i);
  }

  /** What a name resolves to lies inside the root table. */
  lemma ResolveInRoot(name: string, root: Value, prioritized: Value)
    requires prioritized.Obj? ==> prioritized in Subterms(root)
    requires Resolve(name, root, prioritized).Success?
    ensures Resolve(name, root, prioritized).value in Subterms(root)
  {
    ResolveCandidate(name, root, prioritized);
  }

  /** The name and version of what a name resolves to is a candidate key. */
  lemma ResolveCandidate(name: string, root: Value, prioritized: Value)
    requires prioritized.Obj? ==> prioritized in Subterms(root)
    requires Resolve(name, root, prioritized).Success?
    ensures Resolve(name, root, prioritized).value in Subterms(root)
    ensures (name, Get(Resolve(name, root, prioritized).value, "version")) in Candidates(root)
  {
    if !IsNullish(prioritized) && !IsNullish(Get(prioritized, name)) {
      FoundInRoot(root, prioritized, name);
    } else {
      assert root in Subterms(root);
      FoundInRoot(root, root, name);
    }
  }

  /** Caching the key of a package that resolves brings the remainder down. */
  lemma FreshKeyShrinks(name: string, root: Value, prioritized: Value, before: set<(string, Value)>, after: set<(string, Value)>)
    requires prioritized.Obj? ==> prioritized in Subterms(root)
    requires Resolve(name, root, prioritized).Success?
    requires (name, Get(Resolve(name, root, prioritized).value, "version")) !in before
    requires before + {(name, Get(Resolve(name, root, prioritized).value, "version"))} <= after
    ensures |Candidates(root) - after| < |Candidates(root) - before|
  {
    ResolveCandidate(name, root, prioritized);
    SmallerRemainder(Candidates(root), before, after, (name, Get(Resolve(name, root, prioritized).value, "version")));
  }

  /** Caching more never brings the remainder up. */
  lemma RemainderShrinks<T>(c: set<T>, before: set<T>, after: set<T>)
    requires before <= after
    ensures |c - after| <= |c - before|
  {
    SubsetCard(c - after, c - before);
  }

  lemma {:induction false} SmallerRemainder<T>(c: set<T>, before: set<T>, after: set<T>, key: T)
    requires key in c && key !in before && before + {key} <= after
    ensures |c - after| < |c - before|
  {
    assert c - after <= (c - before) - {key};
    assert (c - before) - {key} < c - before;
    SubsetCard(c - after, (c - before) - {key});
  }

  lemma {:induction false} SubsetCard<T>(a: set<T>, b: set<T>)
    requires a <= b
    ensures |a| <= |b|
    decreases |b|
  {
    if b != {} {
      var x :| x in b;
      SubsetCard(a - {x}, b - {x});
    }
  }

  // ---------------------------------------------------------------------------
  // The workbench

  // The invariant of the workbench, stated on values so that each step that
  // keeps it can be proved on its own.

  /** The cache and the arena are in one-to-one correspondence by key. */
  ghost predicate CacheOk(cache: map<(string, Value), nat>, nodes: seq<Node>) {
    && (forall key :: CachedKey(cache, nodes, key))
    && (forall i :: CachedNode(cache, nodes, i))
  }

  /** A cached key names the node of that name and version. */
  ghost predicate CachedKey(cache: map<(string, Value), nat>, nodes: seq<Node>, key: (string, Value)) {
    key in cache ==> cache[key] < |nodes| && Key(nodes[cache[key]]) == key
  }

  /** Node `i` is cached under its name and version. */
  ghost predicate CachedNode(cache: map<(string, Value), nat>, nodes: seq<Node>, i: int) {
    0 <= i < |nodes| ==> Key(nodes[i]) in cache && cache[Key(nodes[i])] == i
  }

  /** Node `i` is shaped by the raw package it was built from. */
  ghost predicate ShapeAt(nodes: seq<Node>, origin: seq<Value>, i: int) {
    0 <= i < |nodes| && i < |origin| ==> Shaped(nodes[i], origin[i])
  }

  /** Node `i` was built from what its name resolves to inside the lockfile. */
  ghost predicate OriginAt(nodes: seq<Node>, origin: seq<Value>, root: Value, i: int) {
    0 <= i < |nodes| && i < |origin| ==> ResolvedFrom(root, nodes[i].name, origin[i])
  }

  ghost predicate OriginsOk(nodes: seq<Node>, origin: seq<Value>, root: Value) {
    forall i :: OriginAt(nodes, origin, root, i)
  }

  ghost predicate ShapesOk(nodes: seq<Node>, origin: seq<Value>) {
    && |origin| == |nodes|
    && forall i :: ShapeAt(nodes, origin, i)
  }

  /** Node `i`, unless its `requires` are still being walked, has all of them as dependencies. */
  ghost predicate CompleteAt(nodes: seq<Node>, origin: seq<Value>, open: set<nat>, i: int) {
    0 <= i < |nodes| && i < |origin| && i !in open ==> Keys(nodes[i].dependencies) == RequiresKeys(origin[i])
  }

  ghost predicate CompleteOk(nodes: seq<Node>, origin: seq<Value>, open: set<nat>) {
    && (forall i :: i in open ==> i < |nodes|)
    && forall i :: CompleteAt(nodes, origin, open, i)
  }

  /** The dependency `k` of node `i` points at the node its name resolves to. */
  ghost predicate EdgeAt(nodes: seq<Node>, origin: seq<Value>, root: Value, i: int, k: int) {
    0 <= i < |nodes| && i < |origin| && 0 <= k < |nodes[i].dependencies| ==>
      EdgeOk(nodes, root, Get(origin[i], "dependencies"), nodes[i].dependencies[k].0, nodes[i].dependencies[k].1)
  }

  ghost predicate EdgesOk(nodes: seq<Node>, origin: seq<Value>, root: Value) {
    forall i, k :: EdgeAt(nodes, origin, root, i, k)
  }

  ghost predicate WorkbenchOk(cache: map<(string, Value), nat>, nodes: seq<Node>, origin: seq<Value>, open: set<nat>, root: Value) {
    && CacheOk(cache, nodes)
    && ShapesOk(nodes, origin)
    && OriginsOk(nodes, origin, root)
    && CompleteOk(nodes, origin, open)
    && EdgesOk(nodes, origin, root)
  }

  /**
   * The node of the raw package `raw` under `name`, before its dependencies
   * are entered: `version` is the only field of the picked ones it keeps, and
   * the fields not picked are stashed.
   */
  method BuildNode(name: string, raw: Value) returns (n: Node)
    requires WellFormed(raw) && !IsNullish(raw)
    ensures Shaped(n, raw) && n.name == name && n.dependencies == []
  {
    var supported, unsupported := Misc.Pick(OwnProps(raw), PackageKeys);
    Misc.PickedDistinct(OwnProps(raw), PackageKeys, "version");
    DistinctWithout(OwnProps(raw), PackageKeys);
    n := Node(name, Lookup(supported, "version").GetOr(Undefined), [], [], unsupported);
  }

  class ParseWorkbench {
    var cache: map<(string, Value), nat>
    var nodes: seq<Node>
    /** The raw package each node was built from. */
    ghost var origin: seq<Value>
    /** The nodes whose `requires` are still being walked. */
    ghost var open: set<nat>

    ghost predicate Valid(root: Value)
      reads this
    {
      WorkbenchOk(cache, nodes, origin, open, root)
    }

    constructor ()
      ensures cache == map[] && nodes == [] && origin == [] && open == {}
    {
      cache := map[];
      nodes := [];
      origin := [];
      open := {};
    }

    /**
     * Resolves `name` and returns the node of the raw package it resolves to,
     * building it (and, depth first, the nodes of its `requires`) unless a
     * node of the same name and version is cached.
     */
    method ParsePackage(name: string, root: Value, prioritized: Value) returns (r: Outcome<nat>)
      requires Valid(root) && WellFormed(root)
      requires prioritized.Obj? ==> prioritized in Subterms(root)
      modifies this
      decreases |Candidates(root) - cache.Keys|, 0
      ensures Valid(root)
      ensures old(cache).Keys <= cache.Keys
      ensures old(nodes) <= nodes && old(origin) <= origin
      ensures r.Success? ==> open == old(open)
      ensures Resolve(name, root, prioritized).Failure? ==> r == Failure(Resolve(name, root, prioritized).error)
      ensures r.Failure? ==> r.error == TypeError || NotFoundIn(root, r.error)
      ensures Resolvable(root) && Resolve(name, root, prioritized).Success? ==> r.Success?
      ensures r.Success? ==> EdgeOk(nodes, root, prioritized, name, r.value)
      ensures r.Success? && (name, Get(Resolve(name, root, prioritized).value, "version")) in old(cache)
        ==> r.value == old(cache)[(name, Get(Resolve(name, root, prioritized).value, "version"))] && nodes == old(nodes)
      ensures r.Success? && (name, Get(Resolve(name, root, prioritized).value, "version")) !in old(cache)
        ==> r.value == |old(nodes)| && origin[r.value] == Resolve(name, root, prioritized).value
    {
      var found := Resolve(name, root, prioritized);
      if found.Failure? {
        return Failure(found.error);
      }
      var raw := found.value;
      var key := (name, Get(raw, "version"));
      if key in cache {
        assert CachedKey(cache, nodes, key);
        return Success(cache[key]);
      }
      ResolveInRoot(name, root, prioritized);
      SubtermWellFormed(root, raw);
      var n := BuildNode(name, raw);
      assert ResolvedFrom(root, name, raw) by {
        assert Resolve(name, root, prioritized) == Success(raw);
      }
      var id := NewNode(n, raw, root);
      FreshKeyShrinks(name, root, prioritized, old(cache).Keys, cache.Keys);
      ghost var shaped := origin;
      var walked := Walk(id, raw, root, old(nodes), old(open));
      Prefixes(old(origin), shaped, origin);
      if walked.Failure? {
        return Failure(walked.error);
      }
      return Success(id);
    }

    /**
     * What the walk of the node `id`, built from `raw`, keeps from one round
     * to the next, against the state `cache0`, `nodes0`, `origin0` it began
     * in: the node keeps its name and version, and the cache, the arena
     * before `id` and the origins only grow.
     */
    ghost predicate Walking(id: nat, raw: Value, cache0: set<(string, Value)>, nodes0: seq<Node>, built: seq<Node>, origin0: seq<Value>)
      reads this`cache, this`nodes, this`origin
    {
      && id < |nodes0| <= |nodes| && id < |origin| && origin[id] == raw
      && Key(nodes[id]) == Key(nodes0[id])
      && cache0 <= cache.Keys
      && built <= nodes && |built| <= id
      && origin0 <= origin
    }

    /** The loop over the `requires` of the node `id`, just built from `raw`. */
    method Walk(id: nat, raw: Value, root: Value, ghost built: seq<Node>, ghost outer: set<nat>) returns (r: Outcome<()>)
      requires Valid(root) && WellFormed(root)
      requires id < |nodes| && nodes[id].dependencies == [] && origin[id] == raw
      requires open == outer + {id}
      requires built <= nodes && |built| <= id
      requires raw in Subterms(root) && WellFormed(raw)
      modifies this
      decreases |Candidates(root) - cache.Keys|, 2
      ensures Valid(root) && Walking(id, raw, old(cache).Keys, old(nodes), built, old(origin))
      ensures r.Success? ==> open == outer
      ensures Resolvable(root) ==> r.Success?
      ensures r.Failure? ==> r.error == TypeError || NotFoundIn(root, r.error)
    {
      var wanted := RequiresKeys(raw);
      RequiresDistinct(raw);
      var nested := Get(raw, "dependencies");
      NestedInRoot(root, raw);
      var i := 0;
      while i < |wanted|
        invariant 0 <= i <= |wanted|
        invariant Valid(root) && Walking(id, raw, old(cache).Keys, old(nodes), built, old(origin))
        invariant Keys(nodes[id].dependencies) == wanted[..i]
        invariant open == outer + {id}
      {
        RemainderShrinks(Candidates(root), old(cache).Keys, cache.Keys);
        RequiredFound(root, raw, i);
        var step := Step(id, wanted[..i], wanted[i], root, raw, nested, built, old(cache).Keys, old(nodes), old(origin));
        if step.Failure? {
          return step;
        }
        TakeSnoc(wanted, i);
        i := i + 1;
      }
      assert wanted[..i] == wanted;
      Close(id, root, outer);
      return Success(());
    }

    /** One round of the loop: parses the dependency `d` of the node `id` and records it. */
    method Step(id: nat, done: seq<string>, d: string, root: Value, raw: Value, nested: Value,
                ghost built: seq<Node>, ghost cache0: set<(string, Value)>, ghost nodes0: seq<Node>, ghost origin0: seq<Value>)
      returns (r: Outcome<()>)
      requires Valid(root) && Walking(id, raw, cache0, nodes0, built, origin0) && WellFormed(root)
      requires id in open && Keys(nodes[id].dependencies) == done && d !in done
      requires nested == Get(raw, "dependencies") && (nested.Obj? ==> nested in Subterms(root))
      modifies this
      decreases |Candidates(root) - cache.Keys|, 1
      ensures Valid(root) && Walking(id, raw, cache0, nodes0, built, origin0)
      ensures r.Success? ==> open == old(open) && Keys(nodes[id].dependencies) == done + [d]
      ensures Resolvable(root) && !IsNullish(Get(root, d)) ==> r.Success?
      ensures r.Failure? ==> r.error == TypeError || NotFoundIn(root, r.error)
    {
      ghost var before := origin;
      var child := ParsePackage(d, root, nested);
      Prefixes(origin0, before, origin);
      if child.Success? {
        assert nodes[id] == old(nodes)[id];
        ghost var mid := nodes;
        AddDependency(id, done, d, child.value, root);
        PrefixBeforeUpdate(built, mid, id, nodes[id]);
        r := Success(());
      } else {
        r := Failure(child.error);
      }
    }

    /**
     * One of the two loops of `parse`: parses every name the manifest table
     * `field` lists against the lockfile's root table, reading
     * `lockfile.dependencies` afresh in every round, and collects the nodes
     * in a bucket.
     */
    method ParseBucket(packagefile: Value, field: string, lockfile: Value) returns (r: Outcome<Props<nat>>)
      requires Valid(Get(lockfile, "dependencies")) && open == {} && WellFormed(lockfile) && WellFormed(packagefile)
      modifies this
      ensures Valid(Get(lockfile, "dependencies")) && old(nodes) <= nodes
      ensures r.Success? ==> open == {} && Keys(r.value) == ManifestKeys(packagefile, field) && DistinctKeys(r.value)
      ensures r.Success? ==> BucketOk(nodes, Get(lockfile, "dependencies"), r.value)
      ensures ManifestKeys(packagefile, field) == [] ==> r == Success([])
      ensures ManifestKeys(packagefile, field) != [] && Resolve(ManifestKeys(packagefile, field)[0], Get(lockfile, "dependencies"), Undefined).Failure?
        ==> r == Failure(Resolve(ManifestKeys(packagefile, field)[0], Get(lockfile, "dependencies"), Undefined).error)
      ensures r.Failure? ==>
        r.error == TypeError || NotFoundIn(Get(lockfile, "dependencies"), r.error)
      ensures Resolvable(Get(lockfile, "dependencies")) && AllFound(Get(lockfile, "dependencies"), ManifestKeys(packagefile, field))
        ==> r.Success?
    {
      var names := ManifestKeys(packagefile, field);
      WellFormedGet(packagefile, field);
      DistinctObjectKeys(Coalesce(Get(packagefile, field), Obj([])));
      ghost var root := Get(lockfile, "dependencies");
      WellFormedGet(lockfile, "dependencies");
      var bucket := [];
      var i := 0;
      while i < |names|
        invariant 0 <= i <= |names|
        invariant Valid(root) && open == {} && old(nodes) <= nodes
        invariant Keys(bucket) == names[..i] && BucketOk(nodes, root, bucket)
        invariant i > 0 ==> Resolve(names[0], root, Undefined).Success?
      {
        var table := Member(lockfile, "dependencies");
        if table.Failure? {
          return Failure(table.error);
        }
        ghost var before := nodes;
        var child := ParsePackage(names[i], table.value, Undefined);
        if child.Failure? {
          return Failure(child.error);
        }
        Prefixes(old(nodes), before, nodes);
        BucketGrows(before, nodes, root, bucket);
        AddToBucket(nodes, root, bucket, names[..i], names[i], child.value);
        bucket := bucket + [(names[i], child.value)];
        TakeSnoc(names, i);
        i := i + 1;
      }
      assert names[..i] == names;
      assert forall j :: 0 <= j < |bucket| ==> bucket[j].0 == Keys(bucket)[j];
      return Success(bucket);
    }

    /** Caches and opens the node `n`, built from `raw`, at the end of the arena. */
    method NewNode(n: Node, raw: Value, root: Value) returns (id: nat)
      requires Valid(root) && Shaped(n, raw) && n.dependencies == [] && Key(n) !in cache
      requires ResolvedFrom(root, n.name, raw)
      modifies this
      ensures Valid(root)
      ensures id == |old(nodes)| && |nodes| == id + 1 && old(nodes) <= nodes && nodes[id] == n
      ensures old(origin) <= origin && |origin| == id + 1 && origin[id] == raw
      ensures id !in old(open) && open == old(open) + {id}
      ensures cache == old(cache)[Key(n) := id]
    {
      AppendKeepsValid(cache, nodes, origin, open, root, n, raw);
      id := |nodes|;
      nodes := nodes + [n];
      origin := origin + [raw];
      open := open + {id};
      cache := cache[Key(n) := id];
    }

    /** Closes the node `id`, whose dependencies are now all its `requires`. */
    method Close(id: nat, root: Value, ghost outer: set<nat>)
      requires Valid(root) && open == outer + {id}
      requires id < |nodes| && Keys(nodes[id].dependencies) == RequiresKeys(origin[id])
      modifies this`open
      ensures Valid(root) && open == outer
    {
      CloseKeepsValid(cache, nodes, origin, outer, root, id);
      open := outer;
    }

    /** Records the resolved dependency `d -> j` on the node being walked. */
    method AddDependency(id: nat, done: seq<string>, d: string, j: nat, root: Value)
      requires Valid(root)
      requires id < |nodes| && Keys(nodes[id].dependencies) == done && d !in done
      requires EdgeOk(nodes, root, Get(origin[id], "dependencies"), d, j)
      requires id in open
      modifies this`nodes
      ensures Valid(root)
      ensures nodes == old(nodes)[id := old(nodes)[id].(dependencies := old(nodes)[id].dependencies + [(d, j)])]
      ensures Key(nodes[id]) == Key(old(nodes)[id])
      ensures Keys(nodes[id].dependencies) == done + [d]
    {
      var n := nodes[id];
      PutAbsent(n.dependencies, d, j);
      AddKeepsValid(cache, nodes, origin, open, root, id, d, j);
      nodes := nodes[id := n.(dependencies := Put(n.dependencies, d, j))];
    }
  }

  lemma PrefixBeforeUpdate<T>(a: seq<T>, s: seq<T>, i: nat, x: T)
    requires a <= s && |a| <= i < |s|
    ensures a <= s[i := x]
  {
  }

  lemma Prefixes<T>(a: seq<T>, b: seq<T>, c: seq<T>)
    requires a <= b && b <= c
    ensures a <= c
  {
  }

  /** An edge stays right when the arena only grows. */
  lemma EdgeOkGrows(before: seq<Node>, after: seq<Node>, root: Value, prioritized: Value, d: string, j: nat)
    requires |before| <= |after| && after[..|before|] == before
    requires EdgeOk(before, root, prioritized, d, j)
    ensures EdgeOk(after, root, prioritized, d, j)
  {
    assert after[j] == after[..|before|][j];
  }

  /** An edge stays right when nodes change anything but their names and versions. */
  lemma EdgeOkSameKeys(before: seq<Node>, after: seq<Node>, root: Value, prioritized: Value, d: string, j: nat)
    requires |before| == |after| && forall i :: 0 <= i < |before| ==> Key(after[i]) == Key(before[i])
    requires EdgeOk(before, root, prioritized, d, j)
    ensures EdgeOk(after, root, prioritized, d, j)
  {
    assert Key(after[j]) == Key(before[j]);
  }

  /** Appending a fresh, shaped node with no dependencies, opened and cached, keeps the invariant. */
  lemma AppendKeepsValid(cache: map<(string, Value), nat>, nodes: seq<Node>, origin: seq<Value>, open: set<nat>, root: Value, n: Node, raw: Value)
    requires WorkbenchOk(cache, nodes, origin, open, root)
    requires Key(n) !in cache && Shaped(n, raw) && n.dependencies == [] && ResolvedFrom(root, n.name, raw)
    ensures WorkbenchOk(cache[Key(n) := |nodes|], nodes + [n], origin + [raw], open + {|nodes|}, root)
  {
    var nodes' := nodes + [n];
    var origin' := origin + [raw];
    var cache' := cache[Key(n) := |nodes|];
    forall key ensures CachedKey(cache', nodes', key) {
      if key in cache {
        assert CachedKey(cache, nodes, key);
        assert nodes'[cache[key]] == nodes[cache[key]];
      }
    }
    forall i ensures CachedNode(cache', nodes', i) {
      if 0 <= i < |nodes| {
        assert CachedNode(cache, nodes, i);
        assert nodes'[i] == nodes[i];
      }
    }
    forall i ensures ShapeAt(nodes', origin', i) {
      if 0 <= i < |nodes| {
        assert ShapeAt(nodes, origin, i);
        assert nodes'[i] == nodes[i] && origin'[i] == origin[i];
      }
    }
    AppendOrigins(nodes, origin, root, n, raw);
    forall i ensures CompleteAt(nodes', origin', open + {|nodes|}, i) {
      if 0 <= i < |nodes| {
        assert CompleteAt(nodes, origin, open, i);
        assert nodes'[i] == nodes[i] && origin'[i] == origin[i];
      }
    }
    forall i, k ensures EdgeAt(nodes', origin', root, i, k) {
      if 0 <= i < |nodes| && 0 <= k < |nodes[i].dependencies| {
        assert EdgeAt(nodes, origin, root, i, k);
        assert nodes'[i] == nodes[i] && origin'[i] == origin[i];
        var e := nodes[i].dependencies[k];
        EdgeOkGrows(nodes, nodes', root, Get(origin[i], "dependencies"), e.0, e.1);
      }
    }
  }

  /** Appending a node built from what its name resolves to keeps every node's origin in the lockfile. */
  lemma AppendOrigins(nodes: seq<Node>, origin: seq<Value>, root: Value, n: Node, raw: Value)
    requires |origin| == |nodes| && OriginsOk(nodes, origin, root) && ResolvedFrom(root, n.name, raw)
    ensures OriginsOk(nodes + [n], origin + [raw], root)
  {
    forall i ensures OriginAt(nodes + [n], origin + [raw], root, i) {
      if 0 <= i < |nodes| {
        assert OriginAt(nodes, origin, root, i);
        assert (nodes + [n])[i] == nodes[i] && (origin + [raw])[i] == origin[i];
      }
    }
  }

  /** Appending a right edge to an open node keeps the invariant. */
  lemma AddKeepsValid(cache: map<(string, Value), nat>, nodes: seq<Node>, origin: seq<Value>, open: set<nat>, root: Value, id: nat, d: string, j: nat)
    requires WorkbenchOk(cache, nodes, origin, open, root)
    requires id < |nodes| && id in open && !Has(nodes[id].dependencies, d)
    requires EdgeOk(nodes, root, Get(origin[id], "dependencies"), d, j)
    ensures var n := nodes[id];
      WorkbenchOk(cache, nodes[id := n.(dependencies := n.dependencies + [(d, j)])], origin, open, root)
  {
    var n := nodes[id];
    var nodes' := nodes[id := n.(dependencies := n.dependencies + [(d, j)])];
    forall key ensures CachedKey(cache, nodes', key) {
      assert CachedKey(cache, nodes, key);
    }
    forall i ensures CachedNode(cache, nodes', i) {
      assert CachedNode(cache, nodes, i);
    }
    forall i ensures ShapeAt(nodes', origin, i) {
      assert ShapeAt(nodes, origin, i);
    }
    forall i ensures OriginAt(nodes', origin, root, i) {
      assert OriginAt(nodes, origin, root, i);
    }
    forall i ensures CompleteAt(nodes', origin, open, i) {
      assert CompleteAt(nodes, origin, open, i);
    }
    forall i, k ensures EdgeAt(nodes', origin, root, i, k) {
      if 0 <= i < |nodes| && 0 <= k < |nodes'[i].dependencies| {
        var e := nodes'[i].dependencies[k];
        if i != id || k < |n.dependencies| {
          assert EdgeAt(nodes, origin, root, i, k);
          assert e == nodes[i].dependencies[k];
        }
        EdgeOkSameKeys(nodes, nodes', root, Get(origin[i], "dependencies"), e.0, e.1);
      }
    }
  }

  /** Closing a node whose dependencies are all its `requires` keeps the invariant. */
  lemma CloseKeepsValid(cache: map<(string, Value), nat>, nodes: seq<Node>, origin: seq<Value>, outer: set<nat>, root: Value, id: nat)
    requires WorkbenchOk(cache, nodes, origin, outer + {id}, root)
    requires id < |nodes| && Keys(nodes[id].dependencies) == RequiresKeys(origin[id])
    ensures WorkbenchOk(cache, nodes, origin, outer, root)
  {
    forall i ensures CompleteAt(nodes, origin, outer, i) {
      assert CompleteAt(nodes, origin, outer + {id}, i);
    }
  }

  lemma RequiresDistinct(raw: Value)
    requires WellFormed(raw)
    ensures forall i, j :: 0 <= i < j < |RequiresKeys(raw)| ==> RequiresKeys(raw)[i] != RequiresKeys(raw)[j]
  {
    WellFormedGet(raw, "requires");
    DistinctObjectKeys(Coalesce(Get(raw, "requires"), Obj([])));
  }

  /** In a resolvable root table, every name a package inside it `requires` has a root entry. */
  lemma RequiredFound(root: Value, raw: Value, i: nat)
    requires raw in Subterms(root) && i < |RequiresKeys(raw)|
    ensures Resolvable(root) ==> !IsNullish(Get(root, RequiresKeys(raw)[i]))
  {
    if Resolvable(root) {
      assert RequiresFound(root, raw);
    }
  }

  lemma NestedInRoot(root: Value, raw: Value)
    requires raw in Subterms(root)
    ensures Get(raw, "dependencies").Obj? ==> Get(raw, "dependencies") in Subterms(root)
  {
    if raw.Obj? && !IsNullish(Get(raw, "dependencies")) {
      FoundInRoot(root, raw, "dependencies");
    }
  }

  /** `Object.keys(packagefile[field] ?? {})`: the names a manifest table lists. */
  function ManifestKeys(packagefile: Value, field: string): (r: seq<string>)
    ensures r == ObjectKeys(Get(packagefile, field))
  {
    ObjectKeys(Coalesce(Get(packagefile, field), Obj([])))
  }

  /**
   * Parses a version-1 lockfile against its manifest: the lockfile's
   * `lockfileVersion` becomes the version, its fields other than
   * `lockfileVersion` and `dependencies` are stashed, and every name of the
   * manifest's `dependencies` and `devDependencies` is parsed into the bucket
   * of the same name; `peerDependencies` stays empty.
   */
  method Parse(lockfile: Value, packagefile: Value) returns (r: Outcome<Graph>)
    requires WellFormed(lockfile) && WellFormed(packagefile)
    ensures IsNullish(packagefile) ==> r == Failure(TypeError)
    ensures !IsNullish(packagefile) && IsNullish(Get(lockfile, "dependencies"))
      && (ManifestKeys(packagefile, "dependencies") != [] || ManifestKeys(packagefile, "devDependencies") != [])
      ==> r == Failure(TypeError)
    ensures r.Failure? ==>
      r.error == TypeError || NotFoundIn(Get(lockfile, "dependencies"), r.error)
    ensures !IsNullish(packagefile) && Resolvable(Get(lockfile, "dependencies"))
      && AllFound(Get(lockfile, "dependencies"), ManifestKeys(packagefile, "dependencies"))
      && AllFound(Get(lockfile, "dependencies"), ManifestKeys(packagefile, "devDependencies"))
      ==> r.Success?
    ensures r.Success? ==>
      && r.value.version == Get(lockfile, "lockfileVersion")
      && r.value.unsupported == Without(OwnProps(lockfile), LockfileKeys)
      && Keys(r.value.dependencies) == ManifestKeys(packagefile, "dependencies")
      && Keys(r.value.devDependencies) == ManifestKeys(packagefile, "devDependencies")
      && r.value.peerDependencies == []
      && GraphOk(r.value, Get(lockfile, "dependencies"))
  {
    var workbench := new ParseWorkbench();
    EmptyValid(Get(lockfile, "dependencies"));
    var version, unsupported := PickLockfile(lockfile);
    if IsNullish(packagefile) {
      return Failure(TypeError);
    }
    NullRootFails(ManifestKeys(packagefile, "dependencies"), Get(lockfile, "dependencies"));
    NullRootFails(ManifestKeys(packagefile, "devDependencies"), Get(lockfile, "dependencies"));
    var dependencies := workbench.ParseBucket(packagefile, "dependencies", lockfile);
    if dependencies.Failure? {
      return Failure(dependencies.error);
    }
    ghost var before := workbench.nodes;
    var devDependencies := workbench.ParseBucket(packagefile, "devDependencies", lockfile);
    if devDependencies.Failure? {
      return Failure(devDependencies.error);
    }
    BucketGrows(before, workbench.nodes, Get(lockfile, "dependencies"), dependencies.value);
    DoneNodesOk(workbench.cache, workbench.nodes, workbench.origin, Get(lockfile, "dependencies"));
    return Success(Graph(version, dependencies.value, devDependencies.value, [], unsupported, workbench.nodes));
  }

  /** `pick(lockfile, 'lockfileVersion', 'dependencies')`, of which only the version is kept. */
  method PickLockfile(lockfile: Value) returns (version: Value, unsupported: Props<Value>)
    requires WellFormed(lockfile)
    ensures version == Get(lockfile, "lockfileVersion") && unsupported == Without(OwnProps(lockfile), LockfileKeys)
  {
    var supported;
    supported, unsupported := Misc.Pick(OwnProps(lockfile), LockfileKeys);
    Misc.PickedDistinct(OwnProps(lockfile), LockfileKeys, "lockfileVersion");
    version := Lookup(supported, "lockfileVersion").GetOr(Undefined);
  }

  /** Without a root table, resolving the first of a bucket's names throws a TypeError. */
  lemma NullRootFails(names: seq<string>, root: Value)
    ensures IsNullish(root) && names != [] ==> Resolve(names[0], root, Undefined) == Failure(TypeError)
  {
  }

  lemma EmptyValid(root: Value)
    ensures WorkbenchOk(map[], [], [], {}, root)
  {
    forall key ensures CachedKey(map[], [], key) {
    }
  }

  /**
   * Every node of a parsed graph was built from a raw package of the
   * lockfile that its name resolves to: it carries that package's version,
   * stashes its fields other than `version`, `dependencies`, `dev` and
   * `peer`, and its dependencies are exactly that package's `requires`, each
   * pointing at the node of the name it resolves to.
   */
  lemma ParsedNodeOrigin(g: Graph, root: Value, i: nat)
    requires GraphOk(g, root) && i < |g.nodes|
    ensures exists raw ::
      && ResolvedFrom(root, g.nodes[i].name, raw)
      && g.nodes[i].version == Get(raw, "version")
      && g.nodes[i].unsupported == Without(OwnProps(raw), PackageKeys)
      && Keys(g.nodes[i].dependencies) == RequiresKeys(raw)
      && forall k :: 0 <= k < |g.nodes[i].dependencies| ==>
           EdgeOk(g.nodes, root, Get(raw, "dependencies"), g.nodes[i].dependencies[k].0, g.nodes[i].dependencies[k].1)
  {
    var origin :| NodesOk(g.nodes, origin, root);
    assert Shaped(g.nodes[i], origin[i]);
    var raw := origin[i];
    assert ResolvedFrom(root, g.nodes[i].name, raw);
  }

  /** With no node left open, the workbench holds a finished arena. */
  lemma DoneNodesOk(cache: map<(string, Value), nat>, nodes: seq<Node>, origin: seq<Value>, root: Value)
    requires WorkbenchOk(cache, nodes, origin, {}, root)
    ensures NodesOk(nodes, origin, root)
  {
    forall i, j | 0 <= i < j < |nodes| ensures Key(nodes[i]) != Key(nodes[j]) {
      assert CachedNode(cache, nodes, i) && CachedNode(cache, nodes, j);
    }
    forall i | 0 <= i < |nodes|
      ensures ResolvedFrom(root, nodes[i].name, origin[i]) && Shaped(nodes[i], origin[i]) && Keys(nodes[i].dependencies) == RequiresKeys(origin[i])
    {
      assert OriginAt(nodes, origin, root, i) && ShapeAt(nodes, origin, i) && CompleteAt(nodes, origin, {}, i);
    }
    forall i, k | 0 <= i < |nodes| && 0 <= k < |nodes[i].dependencies|
      ensures EdgeOk(nodes, root, Get(origin[i], "dependencies"), nodes[i].dependencies[k].0, nodes[i].dependencies[k].1)
    {
      assert EdgeAt(nodes, origin, root, i, k);
    }
  }

  /** A bucket stays right when the arena only grows. */
  lemma BucketGrows(before: seq<Node>, after: seq<Node>, root: Value, bucket: Props<nat>)
    requires before <= after && BucketOk(before, root, bucket)
    ensures BucketOk(after, root, bucket)
  {
    forall k ensures BucketAt(after, root, bucket, k) {
      if 0 <= k < |bucket| {
        assert BucketAt(before, root, bucket, k);
        EdgeOkGrows(before, after, root, Undefined, bucket[k].0, bucket[k].1);
      }
    }
  }

  /** Appending a right entry under a new name to a bucket keeps it right, and appends the name to its keys. */
  lemma AddToBucket(nodes: seq<Node>, root: Value, bucket: Props<nat>, done: seq<string>, name: string, j: nat)
    requires BucketOk(nodes, root, bucket) && Keys(bucket) == done
    requires EdgeOk(nodes, root, Undefined, name, j)
    ensures BucketOk(nodes, root, bucket + [(name, j)]) && Keys(bucket + [(name, j)]) == done + [name]
  {
    forall k ensures BucketAt(nodes, root, bucket + [(name, j)], k) {
      assert BucketAt(nodes, root, bucket, k);
    }
  }

  /**
   * Memoisation: two resolutions in a finished arena yield the same node
   * exactly when they land on the same name and version. So one name and
   * version is one shared node, and two versions of a name are two nodes.
   */
  lemma SharedNode(nodes: seq<Node>, origin: seq<Value>, root: Value, p1: Value, d1: string, j1: nat, p2: Value, d2: string, j2: nat)
    requires NodesOk(nodes, origin, root)
    requires EdgeOk(nodes, root, p1, d1, j1) && EdgeOk(nodes, root, p2, d2, j2)
    ensures j1 == j2 <==>
      (d1, Get(Resolve(d1, root, p1).value, "version")) == (d2, Get(Resolve(d2, root, p2).value, "version"))
  {
    if j1 != j2 {
      if j1 < j2 {
        assert Key(nodes[j1]) != Key(nodes[j2]);
      } else {
        assert Key(nodes[j2]) != Key(nodes[j1]);
      }
    }
  }

  // ---------------------------------------------------------------------------
  // The memo key as the source builds it

  /** The memo key of src/v1/parse.ts: the name and the version's string form, concatenated with no separator. */
  function LookupKeyAsWritten(name: string, version: Value): (k: string)
    ensures name <= k && k[|name|..] == ToJsString(version)
  {
    name + ToJsString(version)
  }

  /** The memo lookup as written: the node cached under the concatenated key, if any. */
  function CachedAsWritten(cache: map<string, nat>, name: string, version: Value): (r: Option<nat>)
    ensures r.Some? <==> LookupKeyAsWritten(name, version) in cache
    ensures r.Some? ==> r.value == cache[LookupKeyAsWritten(name, version)]
  {
    var k := LookupKeyAsWritten(name, version);
    if k in cache then Some(cache[k]) else None
  }

  /**
   * With the concatenated key, `a` at 11.0.0 and `a1` at 1.0.0 share the key
   * `a11.0.0`: once the first is cached, resolving the second returns the
   * node named `a`.
   */
  lemma LookupKeyCollision()
    ensures ("a", Str("11.0.0")) != ("a1", Str("1.0.0"))
    ensures LookupKeyAsWritten("a", Str("11.0.0")) == LookupKeyAsWritten("a1", Str("1.0.0"))
    ensures var nodes := [Node("a", Str("11.0.0"), [], [], [])];
      var hit := CachedAsWritten(map[LookupKeyAsWritten("a", Str("11.0.0")) := 0], "a1", Str("1.0.0"));
      hit == Some(0) && nodes[hit.value].name != "a1"
  {
    assert "a" + "11.0.0" == "a1" + "1.0.0";
  }
}
