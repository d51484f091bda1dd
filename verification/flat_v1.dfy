/**
 * The earlier flat lockfile-version-1 codec (src/v1.ts). `parse` turns each
 * name the manifest lists under `dependencies` or `devDependencies` into a
 * parsed package read from the lockfile's root `dependencies` table;
 * `synth` writes every parsed package back as `{version, ...stash}` into one
 * root `dependencies` table.
 */
module FlatV1 {
  import opened Wrappers
  import opened Records
  import opened JsValues
  import Misc

  const OutOfSync: string := "Given package.json and package-lock.json files are out of sync!"

  /** A parsed package; `name` is write-once in the source, and immutable here. */
  datatype Package = Package(name: string, version: Value, unsupported: Props<Value>)

  /** The parsed lockfile; a bucket is None when the source leaves the property out. */
  datatype Lockfile = Lockfile(version: Value, dependencies: Option<Props<Package>>, devDependencies: Option<Props<Package>>)

  /** The package parsed from the raw entry of `name`: its version, and every other field stashed. */
  function ParsedPackage(name: string, raw: Value): Package {
    Package(name, Get(raw, "version"), Without(OwnProps(raw), ["version"]))
  }

  /** The bucket built for the listed names, each parsed from its raw entry. */
  function Bucket(names: seq<string>, rawPackages: Value): (b: Props<Package>)
    ensures Keys(b) == names
  {
    seq(|names|, i requires 0 <= i < |names| => (names[i], ParsedPackage(names[i], Get(rawPackages, names[i]))))
  }

  predicate AllPresent(names: seq<string>, rawPackages: Value) {
    forall i :: 0 <= i < |names| ==> !IsNullish(Get(rawPackages, names[i]))
  }

  /** The bucket for one manifest table: absent with the table, and the out-of-sync error for a missing name. */
  function BucketFor(rawPackages: Value, manifestTable: Value): Outcome<Option<Props<Package>>> {
    if IsNullish(manifestTable) then Success(None)
    else
      var names := ObjectKeys(manifestTable);
      if AllPresent(names, rawPackages) then Success(Some(Bucket(names, rawPackages)))
      else Failure(Error(OutOfSync))
  }

  /** What `parse(raw, packagefile)` returns or throws. */
  function ParseResult(raw: Value, packagefile: Value): Outcome<Lockfile> {
    if IsNullish(raw) then Failure(TypeError)
    else
      var version := Get(raw, "lockfileVersion");
      var rawPackages := Get(raw, "dependencies");
      if IsNullish(rawPackages) then Success(Lockfile(version, None, None))
      else if IsNullish(packagefile) then Failure(TypeError)
      else
        var deps := BucketFor(rawPackages, Get(packagefile, "dependencies"));
        var devDeps := BucketFor(rawPackages, Get(packagefile, "devDependencies"));
        if deps.Failure? then Failure(deps.error)
        else if devDeps.Failure? then Failure(devDeps.error)
        else Success(Lockfile(version, deps.value, devDeps.value))
  }

  method ParsePackages(names: seq<string>, rawPackages: Value) returns (r: Outcome<Props<Package>>)
    requires forall i, j :: 0 <= i < j < |names| ==> names[i] != names[j]
    requires WellFormed(rawPackages)
    ensures r == if AllPresent(names, rawPackages) then Success(Bucket(names, rawPackages)) else Failure(Error(OutOfSync))
  {
    var parsed: Props<Package> := [];
    var i := 0;
    while i < |names|
      invariant 0 <= i <= |names|
      invariant AllPresent(names[..i], rawPackages)
      invariant parsed == Bucket(names[..i], rawPackages)
    {
      var name := names[i];
      var rawPackage := Get(rawPackages, name);
      if IsNullish(rawPackage) {
        return Failure(Error(OutOfSync));
      }
      WellFormedGet(rawPackages, name);
      var supported, unsupported := Misc.Pick(OwnProps(rawPackage), ["version"]);
      Misc.PickedDistinct(OwnProps(rawPackage), ["version"], "version");
      var version := Lookup(supported, "version").GetOr(Undefined);
      var p := Package(name, version, unsupported);
      assert p == ParsedPackage(name, rawPackage);
      assert !Has(parsed, name) by {
        assert Keys(parsed) == names[..i];
      }
      PutAbsent(parsed, name, p);
      parsed := Put(parsed, name, p);
      assert names[..i + 1] == names[..i] + [name];
      i := i + 1;
    }
    assert names[..i] == names;
    return Success(parsed);
  }

  method Parse(raw: Value, packagefile: Value) returns (r: Outcome<Lockfile>)
    requires WellFormed(raw) && WellFormed(packagefile)
    ensures r == ParseResult(raw, packagefile)
  {
    var version := Member(raw, "lockfileVersion");
    if version.Failure? {
      return Failure(version.error);
    }
    var rawPackages := Get(raw, "dependencies");
    var dependencies: Option<Props<Package>> := None;
    var devDependencies: Option<Props<Package>> := None;
    WellFormedGet(raw, "dependencies");
    if !IsNullish(rawPackages) {
      var manifestDeps := Member(packagefile, "dependencies");
      if manifestDeps.Failure? {
        return Failure(manifestDeps.error);
      }
      if !IsNullish(manifestDeps.value) {
        WellFormedGet(packagefile, "dependencies");
        DistinctObjectKeys(manifestDeps.value);
        var bucket := ParsePackages(ObjectKeys(manifestDeps.value), rawPackages);
        if bucket.Failure? {
          return Failure(bucket.error);
        }
        dependencies := Some(bucket.value);
      }
    }
    if !IsNullish(rawPackages) {
      var manifestDevDeps := Member(packagefile, "devDependencies");
      if !IsNullish(manifestDevDeps.value) {
        WellFormedGet(packagefile, "devDependencies");
        DistinctObjectKeys(manifestDevDeps.value);
        var bucket := ParsePackages(ObjectKeys(manifestDevDeps.value), rawPackages);
        if bucket.Failure? {
          return Failure(bucket.error);
        }
        devDependencies := Some(bucket.value);
      }
    }
    return Success(Lockfile(version.value, dependencies, devDependencies));
  }

  /** The raw package `synth` writes for a parsed one: `{version, ...stash}`. */
  function RawPackage(p: Package): Value {
    Obj(Assign([("version", p.version)], p.unsupported))
  }

  function RawEntries(bucket: Props<Package>): (r: Props<Value>)
    ensures Keys(r) == Keys(bucket)
  {
    seq(|bucket|, i requires 0 <= i < |bucket| => (bucket[i].0, RawPackage(bucket[i].1)))
  }

  /** The root `dependencies` table `synth` writes: regular entries first, then dev entries over them. */
  function SynthTable(parsed: Lockfile): Option<Props<Value>> {
    if parsed.dependencies.None? && parsed.devDependencies.None? then None
    else Some(Assign(Assign([], RawEntries(parsed.dependencies.GetOr([]))), RawEntries(parsed.devDependencies.GetOr([]))))
  }

  /** The lockfile `synth(parsed)` returns. */
  function SynthResult(parsed: Lockfile): Value {
    var table := SynthTable(parsed);
    Obj([("lockfileVersion", parsed.version)] + if table.Some? then [("dependencies", Obj(table.value))] else [])
  }

  /** `synth` output: `lockfileVersion`, then `dependencies` exactly when a bucket exists. */
  lemma SynthResultTable(parsed: Lockfile)
    ensures Get(SynthResult(parsed), "lockfileVersion") == parsed.version
    ensures Get(SynthResult(parsed), "dependencies") == if SynthTable(parsed).Some? then Obj(SynthTable(parsed).value) else Undefined
    ensures ObjectKeys(SynthResult(parsed)) == if SynthTable(parsed).Some? then ["lockfileVersion", "dependencies"] else ["lockfileVersion"]
  {
    var props := SynthResult(parsed).props;
    assert props[0].0 == "lockfileVersion";
    assert "lockfileVersion" != "dependencies" by {
      assert "lockfileVersion"[0] != "dependencies"[0];
    }
    if SynthTable(parsed).Some? {
      assert props[1..] == [("dependencies", Obj(SynthTable(parsed).value))];
      assert Lookup(props[1..], "dependencies") == Some(Obj(SynthTable(parsed).value));
    } else {
      assert props[1..] == [];
      assert Lookup(props[1..], "dependencies") == None;
    }
  }

  method SynthPackages(input: Props<Package>, output: Props<Value>) returns (written: Props<Value>)
    ensures written == Assign(output, RawEntries(input))
  {
    written := output;
    var i := 0;
    while i < |input|
      invariant 0 <= i <= |input|
      invariant written == Assign(output, RawEntries(input[..i]))
    {
      var (name, p) := input[i];
      assert RawEntries(input[..i + 1]) == RawEntries(input[..i]) + [(name, RawPackage(p))];
      AssignAppend(output, RawEntries(input[..i]), (name, RawPackage(p)));
      written := Put(written, name, RawPackage(p));
      i := i + 1;
    }
    assert input[..i] == input;
  }

  method Synth(parsed: Lockfile) returns (r: Value)
    ensures r == SynthResult(parsed)
  {
    var dependencies: Option<Props<Value>> := None;
    if parsed.dependencies.Some? {
      if dependencies.None? {
        dependencies := Some([]);
      }
      var written := SynthPackages(parsed.dependencies.value, dependencies.value);
      dependencies := Some(written);
    }
    if parsed.devDependencies.Some? {
      if dependencies.None? {
        dependencies := Some([]);
      }
      var written := SynthPackages(parsed.devDependencies.value, dependencies.value);
      dependencies := Some(written);
    }
    r := Obj([("lockfileVersion", parsed.version)] + if dependencies.Some? then [("dependencies", Obj(dependencies.value))] else []);
  }

  /**
   * `parse` succeeds exactly when the lockfile object exists and every name
   * the manifest lists has a non-null entry in the raw root table; the parsed
   * version is the raw `lockfileVersion`, and a bucket exists only when both
   * the raw table and the manifest's table exist.
   */
  lemma ParseShape(raw: Value, packagefile: Value)
    requires !IsNullish(raw)
    requires !IsNullish(Get(raw, "dependencies")) ==> !IsNullish(packagefile)
    ensures var rawPackages := Get(raw, "dependencies");
      var deps := Get(packagefile, "dependencies");
      var devDeps := Get(packagefile, "devDependencies");
      && (ParseResult(raw, packagefile).Success? <==>
           IsNullish(rawPackages)
           || ((IsNullish(deps) || AllPresent(ObjectKeys(deps), rawPackages))
               && (IsNullish(devDeps) || AllPresent(ObjectKeys(devDeps), rawPackages))))
      && (ParseResult(raw, packagefile).Failure? ==> ParseResult(raw, packagefile).error == Error(OutOfSync))
      && (ParseResult(raw, packagefile).Success? ==>
           var parsed := ParseResult(raw, packagefile).value;
           && parsed.version == Get(raw, "lockfileVersion")
           && (parsed.dependencies.Some? <==> !IsNullish(rawPackages) && !IsNullish(deps))
           && (parsed.devDependencies.Some? <==> !IsNullish(rawPackages) && !IsNullish(devDeps)))
  {
  }

  /**
   * The package parsed for a listed name carries that name, the raw
   * `version`, and every other raw field in its stash.
   */
  lemma ParsedBucketEntry(names: seq<string>, rawPackages: Value, name: string)
    requires forall i, j :: 0 <= i < j < |names| ==> names[i] != names[j]
    requires name in names
    ensures Lookup(Bucket(names, rawPackages), name) == Some(ParsedPackage(name, Get(rawPackages, name)))
  {
    var b := Bucket(names, rawPackages);
    var i :| 0 <= i < |names| && names[i] == name;
    assert DistinctKeys(b);
    LookupAt(b, i);
  }

  /**
   * The package parsed from a raw entry carries the name it is listed
   * under, the raw `version`, and every other raw field in its stash.
   */
  lemma ParsedPackageFields(name: string, raw: Value, k: string)
    requires WellFormed(raw)
    ensures ParsedPackage(name, raw).name == name
    ensures ParsedPackage(name, raw).version == Get(raw, "version")
    ensures Lookup(ParsedPackage(name, raw).unsupported, k) == if k == "version" then None else Lookup(OwnProps(raw), k)
  {
    LookupWithout(OwnProps(raw), ["version"], k);
  }

  lemma {:induction false} LookupRawEntries(bucket: Props<Package>, k: string)
    ensures Lookup(RawEntries(bucket), k) == match Lookup(bucket, k) case Some(p) => Some(RawPackage(p)) case None => None
  {
    if bucket != [] {
      assert RawEntries(bucket)[1..] == RawEntries(bucket[1..]);
      LookupRawEntries(bucket[1..], k);
    }
  }

  /** The raw package a name gets in the synthesised table: the dev entry if any, else the regular one. */
  function SynthEntry(parsed: Lockfile, name: string): Option<Value> {
    match Lookup(parsed.devDependencies.GetOr([]), name)
    case Some(p) => Some(RawPackage(p))
    case None =>
      match Lookup(parsed.dependencies.GetOr([]), name)
      case Some(p) => Some(RawPackage(p))
      case None => None
  }

  /**
   * Every bucket entry appears in the synthesised root table as
   * `{version, ...stash}`; the dev entries are written last, so on a name in
   * both buckets the dev entry wins.
   */
  lemma SynthDevWins(parsed: Lockfile, name: string)
    requires parsed.dependencies.Some? ==> DistinctKeys(parsed.dependencies.value)
    requires parsed.devDependencies.Some? ==> DistinctKeys(parsed.devDependencies.value)
    ensures SynthTable(parsed).Some? <==> parsed.dependencies.Some? || parsed.devDependencies.Some?
    ensures SynthTable(parsed).Some? ==> Lookup(SynthTable(parsed).value, name) == SynthEntry(parsed, name)
  {
    var deps := RawEntries(parsed.dependencies.GetOr([]));
    var devDeps := RawEntries(parsed.devDependencies.GetOr([]));
    assert DistinctKeys(deps) && DistinctKeys(devDeps);
    LookupAssign([], deps, name);
    LookupAssign(Assign([], deps), devDeps, name);
    LookupRawEntries(parsed.dependencies.GetOr([]), name);
    LookupRawEntries(parsed.devDependencies.GetOr([]), name);
    LookupHas(deps, name);
    LookupHas(devDeps, name);
  }

  /** A raw package with a `version` comes back from parse and synth with the same properties. */
  lemma PackageRoundTrip(name: string, raw: Value)
    requires WellFormed(raw) && Has(OwnProps(raw), "version")
    ensures Equiv(RawPackage(ParsedPackage(name, raw)), raw)
  {
    var props := OwnProps(raw);
    var rest := Without(props, ["version"]);
    DistinctWithout(props, ["version"]);
    forall i | 0 <= i < |rest| ensures !Has([("version", Get(raw, "version"))], rest[i].0) {
      WithoutEntry(props, ["version"], rest[i]);
    }
    AssignDisjoint([("version", Get(raw, "version"))], rest);
    var back := [("version", Get(raw, "version"))] + rest;
    assert back[1..] == rest;
    forall k ensures Lookup(back, k) == Lookup(props, k) {
      LookupWithout(props, ["version"], k);
      LookupHas(props, "version");
    }
    assert DistinctKeys(back) by {
      forall j | 0 < j < |back| ensures back[j].0 != "version" {
        WithoutEntry(props, ["version"], back[j]);
      }
    }
    SameEntriesEquiv(back, props);
  }

  lemma ParsedBuckets(raw: Value, packagefile: Value)
    requires ParseResult(raw, packagefile).Success?
    requires !IsNullish(Get(raw, "dependencies"))
    ensures BucketFor(Get(raw, "dependencies"), Get(packagefile, "dependencies")).Success?
    ensures BucketFor(Get(raw, "dependencies"), Get(packagefile, "devDependencies")).Success?
    ensures ParseResult(raw, packagefile).value.dependencies == BucketFor(Get(raw, "dependencies"), Get(packagefile, "dependencies")).value
    ensures ParseResult(raw, packagefile).value.devDependencies == BucketFor(Get(raw, "dependencies"), Get(packagefile, "devDependencies")).value
  {
  }

  /** A name the manifest lists, once parsed, is synthesised from its own raw entry. */
  lemma ListedSynthesised(raw: Value, packagefile: Value, name: string)
    requires WellFormed(packagefile)
    requires ParseResult(raw, packagefile).Success?
    requires !IsNullish(Get(raw, "dependencies"))
    requires name in ObjectKeys(Get(packagefile, "dependencies")) || name in ObjectKeys(Get(packagefile, "devDependencies"))
    ensures SynthEntry(ParseResult(raw, packagefile).value, name)
         == Some(RawPackage(ParsedPackage(name, Get(Get(raw, "dependencies"), name))))
  {
    var parsed := ParseResult(raw, packagefile).value;
    var rawPackages := Get(raw, "dependencies");
    var deps := Get(packagefile, "dependencies");
    var devDeps := Get(packagefile, "devDependencies");
    ParsedBuckets(raw, packagefile);
    WellFormedGet(packagefile, "dependencies");
    WellFormedGet(packagefile, "devDependencies");
    DistinctObjectKeys(deps);
    DistinctObjectKeys(devDeps);
    if name in ObjectKeys(devDeps) {
      assert parsed.devDependencies == Some(Bucket(ObjectKeys(devDeps), rawPackages));
      ParsedBucketEntry(ObjectKeys(devDeps), rawPackages, name);
    } else {
      assert parsed.dependencies == Some(Bucket(ObjectKeys(deps), rawPackages));
      LookupHas(parsed.devDependencies.GetOr([]), name);
      ParsedBucketEntry(ObjectKeys(deps), rawPackages, name);
    }
  }

  /**
   * Flat round trip: a package the manifest lists comes back from
   * `synth(parse(raw, packagefile))` under the root `dependencies` with the
   * same properties it had in the raw lockfile (version, resolved, integrity,
   * the dev flag and every other field), provided it had a `version`.
   */
  lemma FlatRoundTrip(raw: Value, packagefile: Value, name: string)
    requires WellFormed(raw) && WellFormed(packagefile)
    requires ParseResult(raw, packagefile).Success?
    requires name in ObjectKeys(Get(packagefile, "dependencies")) || name in ObjectKeys(Get(packagefile, "devDependencies"))
    requires Has(OwnProps(Get(Get(raw, "dependencies"), name)), "version")
    ensures Equiv(Get(Get(SynthResult(ParseResult(raw, packagefile).value), "dependencies"), name), Get(Get(raw, "dependencies"), name))
  {
    var parsed := ParseResult(raw, packagefile).value;
    var rawPackage := Get(Get(raw, "dependencies"), name);
    WellFormedGet(raw, "dependencies");
    WellFormedGet(Get(raw, "dependencies"), name);
    ListedSynthesised(raw, packagefile, name);
    ParsedBuckets(raw, packagefile);
    WellFormedGet(packagefile, "dependencies");
    WellFormedGet(packagefile, "devDependencies");
    DistinctObjectKeys(Get(packagefile, "dependencies"));
    DistinctObjectKeys(Get(packagefile, "devDependencies"));
    SynthDevWins(parsed, name);
    SynthResultTable(parsed);
    PackageRoundTrip(name, rawPackage);
  }
}
