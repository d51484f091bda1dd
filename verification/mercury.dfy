/**
 * The "mercury" lockfile-version-1 parser (src/formats/mercury.ts): checks the
 * lockfile version, splits every root package into its supported fields and
 * an opaque stash of the rest, and places each package into every location of
 * a container chain that has a `dependencies` table still lacking its name.
 */
module Mercury {
  import opened Wrappers
  import opened Records
  import opened JsValues
  import CommonFunctions

  /** The package fields the parsed format carries; every other field is stashed. */
  const SupportedKeys: seq<string> := ["version", "resolved", "integrity", "dev", "optional", "peer"]

  /** A parsed package: `name` and the supported fields, and the stash of unsupported ones. */
  datatype Package = Package(fields: Props<Value>, unsupported: Props<Value>)

  /** A container of the chain: an object whose `dependencies` table may be absent (None). */
  class Container {
    var dependencies: Option<Props<Package>>

    constructor (dependencies: Option<Props<Package>>)
      ensures this.dependencies == dependencies
    {
      this.dependencies := dependencies;
    }
  }

  /** The parsed lockfile `parse` returns. */
  datatype Lockfile = Lockfile(version: Value, dependencies: Props<Package>)

  function VersionError(version: Value): string {
    "The mercury parser only supports lockfile version 1, but the lockfile provided was version " + ToJsString(version)
  }

  function NullPackageError(name: string): string {
    "Unexpected null or undefined for package " + name
  }

  /** The package `parsePackages` builds from the entry `name: raw`. */
  function Parsed(name: string, raw: Value): Package {
    Package(Assign([("name", Str(name))], Only(OwnProps(raw), SupportedKeys)), Without(OwnProps(raw), SupportedKeys))
  }

  function ParsedEntries(packages: Props<Value>): (r: Props<Package>)
    ensures Keys(r) == Keys(packages)
  {
    seq(|packages|, i requires 0 <= i < |packages| => (packages[i].0, Parsed(packages[i].0, packages[i].1)))
  }

  /** Where the first null or undefined entry sits, or the length when there is none. */
  function FirstNullish(packages: Props<Value>): (n: nat)
    ensures n <= |packages|
    ensures forall j :: 0 <= j < n ==> !IsNullish(packages[j].1)
    ensures n < |packages| ==> IsNullish(packages[n].1)
  {
    if packages == [] then 0
    else if IsNullish(packages[0].1) then 0
    else 1 + FirstNullish(packages[1..])
  }

  /** One location after the placement of one package: added only when the table exists and lacks the name. */
  function Place(location: Option<Props<Package>>, name: string, p: Package): Option<Props<Package>> {
    match location
    case None => None
    case Some(deps) => Some(if Has(deps, name) then deps else Put(deps, name, p))
  }

  /** One location after the placement of every listed package in turn. */
  function PlaceAll(location: Option<Props<Package>>, entries: Props<Package>): Option<Props<Package>>
    decreases |entries|
  {
    if entries == [] then location
    else
      var last := entries[|entries| - 1];
      Place(PlaceAll(location, entries[..|entries| - 1]), last.0, last.1)
  }

  method ParsePackages(chain: seq<Container>, packages: Props<Value>) returns (r: Outcome<()>)
    requires WellFormed(Obj(packages))
    modifies set c | c in chain
    ensures var n := FirstNullish(packages);
      && (r.Success? <==> n == |packages|)
      && (r.Failure? ==> r.error == Error(NullPackageError(packages[n].0)))
      && forall c :: c in chain ==> c.dependencies == PlaceAll(old(c.dependencies), ParsedEntries(packages[..n]))
  {
    var i := 0;
    while i < |packages|
      invariant 0 <= i <= |packages|
      invariant forall j :: 0 <= j < i ==> !IsNullish(packages[j].1)
      invariant forall c :: c in chain ==> c.dependencies == PlaceAll(old(c.dependencies), ParsedEntries(packages[..i]))
    {
      var name := packages[i].0;
      var raw := packages[i].1;
      if IsNullish(raw) {
        FirstNullishAt(packages, i);
        return Failure(Error(NullPackageError(name)));
      }
      assert WellFormed(raw);
      var p := ParsePackage(name, raw);
      PlaceInChain(chain, name, p);
      assert packages[..i + 1] == packages[..i] + [packages[i]];
      assert ParsedEntries(packages[..i + 1]) == ParsedEntries(packages[..i]) + [(name, p)];
      i := i + 1;
    }
    FirstNullishAt(packages, i);
    assert packages[..i] == packages;
    return Success(());
  }

  /** Builds one parsed package: `{name}` plus the supported fields, and the stash of the others. */
  method ParsePackage(name: string, raw: Value) returns (p: Package)
    requires WellFormed(raw)
    ensures p == Parsed(name, raw)
  {
    var parsed := new JsObject([("name", Str(name))]);
    var unsupported := new JsObject([]);
    CommonFunctions.SplitObject(OwnProps(raw), parsed, unsupported, SupportedKeys);
    DistinctWithout(OwnProps(raw), SupportedKeys);
    AssignDisjoint([], Without(OwnProps(raw), SupportedKeys));
    p := Package(parsed.props, unsupported.props);
  }

  /** The placement loop: every location of the chain in turn, first writer wins. */
  method PlaceInChain(chain: seq<Container>, name: string, p: Package)
    modifies set c | c in chain
    ensures forall c :: c in chain ==> c.dependencies == Place(old(c.dependencies), name, p)
  {
    var j := 0;
    while j < |chain|
      invariant 0 <= j <= |chain|
      invariant forall c :: c in chain ==> c.dependencies == if c in chain[..j] then Place(old(c.dependencies), name, p) else old(c.dependencies)
    {
      var location := chain[j];
      if location.dependencies.Some? && !Has(location.dependencies.value, name) {
        location.dependencies := Some(Put(location.dependencies.value, name, p));
      }
      PlaceTwice(old(location.dependencies), name, p);
      assert chain[..j + 1] == chain[..j] + [location];
      j := j + 1;
    }
    assert chain[..j] == chain;
  }

  lemma {:induction false} FirstNullishAt(packages: Props<Value>, i: nat)
    requires i <= |packages|
    requires forall j :: 0 <= j < i ==> !IsNullish(packages[j].1)
    requires i < |packages| ==> IsNullish(packages[i].1)
    ensures FirstNullish(packages) == i
  {
    if i > 0 {
      FirstNullishAt(packages[1..], i - 1);
    }
  }

  /** A location that already took the name keeps what it holds. */
  lemma PlaceTwice(location: Option<Props<Package>>, name: string, p: Package)
    ensures Place(Place(location, name, p), name, p) == Place(location, name, p)
  {
    if location.Some? && !Has(location.value, name) {
      KeysPut(location.value, name, p);
    }
  }

  method Parse(packageJson: Value, lockfile: Value) returns (r: Outcome<Lockfile>)
    requires WellFormed(lockfile)
    ensures IsNullish(lockfile) ==> r == Failure(TypeError)
    ensures !IsNullish(lockfile) && Get(lockfile, "lockfileVersion") != Num(1)
      ==> r == Failure(Error(VersionError(Get(lockfile, "lockfileVersion"))))
    ensures r.Success? ==> r.value.version == Num(1)
    ensures !IsNullish(lockfile) && Get(lockfile, "lockfileVersion") == Num(1) ==>
      var packages := if IsNullish(Get(lockfile, "dependencies")) then [] else OwnProps(Get(lockfile, "dependencies"));
      var n := FirstNullish(packages);
      r == if n < |packages| then Failure(Error(NullPackageError(packages[n].0)))
           else Success(Lockfile(Num(1), ParsedEntries(packages)))
  {
    var version := Member(lockfile, "lockfileVersion");
    if version.Failure? {
      return Failure(version.error);
    }
    if version.value != Num(1) {
      return Failure(Error(VersionError(version.value)));
    }
    var result := new Container(Some([]));
    var dependencies := Get(lockfile, "dependencies");
    var packages := if IsNullish(dependencies) then [] else OwnProps(dependencies);
    WellFormedGet(lockfile, "dependencies");
    WellFormedOwnProps(dependencies);
    if !IsNullish(dependencies) {
      var placed := ParsePackages([result], packages);
      if placed.Failure? {
        return Failure(placed.error);
      }
      assert packages[..|packages|] == packages;
    }
    FreshPlacement(packages);
    return Success(Lockfile(version.value, result.dependencies.value));
  }

  /**
   * Placing distinct-keyed packages into an empty table yields them all, in
   * order: with the chain `[result]`, `result.dependencies` has exactly the
   * keys of the lockfile's `dependencies`.
   */
  lemma {:induction false} FreshPlacement(packages: Props<Value>)
    requires DistinctKeys(packages)
    ensures PlaceAll(Some([]), ParsedEntries(packages)) == Some(ParsedEntries(packages))
    decreases |packages|
  {
    if packages != [] {
      var init := packages[..|packages| - 1];
      var e := ParsedEntries(packages);
      assert e[..|e| - 1] == ParsedEntries(init);
      assert DistinctKeys(init);
      FreshPlacement(init);
      var last := packages[|packages| - 1].0;
      assert !Has(ParsedEntries(init), last) by {
        assert Keys(ParsedEntries(init)) == Keys(init);
      }
      PutAbsent(ParsedEntries(init), last, e[|e| - 1].1);
      assert ParsedEntries(init) + [e[|e| - 1]] == e;
    }
  }

  /** Placement never overwrites: a name the location already holds keeps its package. */
  lemma {:induction false} PlaceAllKeeps(location: Props<Package>, entries: Props<Package>, name: string)
    requires Has(location, name)
    ensures PlaceAll(Some(location), entries).Some?
    ensures Lookup(PlaceAll(Some(location), entries).value, name) == Lookup(location, name)
    decreases |entries|
  {
    if entries != [] {
      var last := entries[|entries| - 1];
      PlaceAllKeeps(location, entries[..|entries| - 1], name);
      var mid := PlaceAll(Some(location), entries[..|entries| - 1]).value;
      LookupHas(location, name);
      LookupHas(mid, name);
      if !Has(mid, last.0) {
        LookupPut(mid, last.0, last.1, name);
      }
    }
  }

  /** A location without a `dependencies` table is never given one. */
  lemma {:induction false} PlaceAllAbsent(entries: Props<Package>)
    ensures PlaceAll(None, entries) == None
    decreases |entries|
  {
    if entries != [] {
      PlaceAllAbsent(entries[..|entries| - 1]);
    }
  }

  /**
   * The parsed package carries `name` = its key, each supported field exactly
   * as in the raw entry, and nothing else; the stash holds every other field.
   */
  lemma ParsedFields(name: string, raw: Value, k: string)
    requires WellFormed(raw)
    ensures Lookup(Parsed(name, raw).fields, k)
         == if k in SupportedKeys && Has(OwnProps(raw), k) then Lookup(OwnProps(raw), k)
            else if k == "name" then Some(Str(name))
            else None
    ensures Lookup(Parsed(name, raw).unsupported, k) == if k in SupportedKeys then None else Lookup(OwnProps(raw), k)
  {
    var props := OwnProps(raw);
    assert DistinctKeys(props);
    DistinctOnly(props, SupportedKeys);
    LookupAssign([("name", Str(name))], Only(props, SupportedKeys), k);
    LookupOnly(props, SupportedKeys, k);
    HasOnly(props, SupportedKeys, k);
    LookupWithout(props, SupportedKeys, k);
  }
}
