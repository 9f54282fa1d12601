/** Ordering, merging and choosing plugin releases (pkg/plugins/utilities.go, pkg/plugins/plugin.go).

Parsing a version is a parameter that gives its place in the order of versions, as a real number,
or None when the string is not a version. (Any total preorder of countably many values has such
places.)
*/
module PluginVersions {
  import opened Text

  type Parse = string -> Option<real>

  datatype Release = Release(arch: string, os: string, version: string, sum: string)

  datatype Plugin = Plugin(
    shortname: string,
    shortdesc: string,
    binary: string,
    releases: seq<Release>,
    magicCookieValue: string,
    commands: seq<string>)

  datatype Platform = Platform(os: string, arch: string)

  // ---------------------------------------------------------------------------
  // Comparing versions
  // ---------------------------------------------------------------------------

  function CompareStrings(left: string, right: string): int {
    if left == right then 0 else if Le(left, right) then -1 else 1
  }

  function ComparePluginVersions(left: string, right: string, parse: Parse): int {
    if left == "" && right == "" then 0
    else if left == "" then -1
    else if right == "" then 1
    else if parse(left).Some? && parse(right).Some? then
      (if parse(left).value > parse(right).value then 1 else if parse(left).value < parse(right).value then -1 else 0)
    else CompareStrings(left, right)
  }

  /** A string that is no version lies between two versions whose own order is not that way round. */
  predicate Interleaved(x: string, z: string, y: string, parse: Parse) {
    && parse(x).Some? && parse(y).Some? && parse(z).None?
    && Le(x, z) && Le(z, y) && parse(x).value >= parse(y).value
  }

  ghost predicate Orderly(versions: seq<string>, parse: Parse) {
    forall x, y, z :: x in versions && y in versions && z in versions ==> !Interleaved(x, z, y, parse)
  }

  /** Comparing the other way round gives the opposite answer, for any two strings. */
  lemma CompareOpposite(a: string, b: string, parse: Parse)
    ensures ComparePluginVersions(a, b, parse) == -ComparePluginVersions(b, a, parse)
  {
    LeTotal(a, b);
  }

  /** Comparisons that follow on each other. */
  ghost predicate Transitive(versions: seq<string>, parse: Parse) {
    forall a, b, c :: a in versions && b in versions && c in versions ==>
      ComparePluginVersions(a, b, parse) <= 0 && ComparePluginVersions(b, c, parse) <= 0 ==>
      ComparePluginVersions(a, c, parse) <= 0
  }

  /** Three strings of which no one interleaves the others are in one order. */
  lemma CompareTransitive(a: string, b: string, c: string, parse: Parse)
    requires Orderly([a, b, c], parse)
    requires ComparePluginVersions(a, b, parse) <= 0 && ComparePluginVersions(b, c, parse) <= 0
    ensures ComparePluginVersions(a, c, parse) <= 0
    ensures ComparePluginVersions(a, c, parse) == 0 ==> ComparePluginVersions(b, c, parse) == 0
  {
    var all := [a, b, c];
    assert a in all && b in all && c in all;
    assert !Interleaved(b, c, a, parse) && !Interleaved(c, a, b, parse) && !Interleaved(a, b, c, parse);
    LeTotal(a, b);
    LeTotal(b, c);
    LeTotal(a, c);
    if Le(a, b) && Le(b, c) {
      LeTransitive(a, b, c);
    }
  }

  /** Where a string interleaves two versions, the comparison goes round in a circle: it is not
      transitive among the three. */
  lemma InterleavedIsCircular(x: string, z: string, y: string, parse: Parse)
    requires Interleaved(x, z, y, parse) && parse("").None?
    ensures ComparePluginVersions(x, z, parse) < 0 && ComparePluginVersions(z, y, parse) < 0
    ensures ComparePluginVersions(y, x, parse) <= 0
    ensures !Transitive([x, y, z], parse)
  {
    var all := [x, y, z];
    assert x in all && y in all && z in all;
    assert ComparePluginVersions(y, z, parse) > 0 by {
      LeTotal(y, z);
    }
  }

  /** With the opposite law: the comparison is a total preorder on a list of strings if and only if
      no string that is no version interleaves two of its versions. */
  lemma CompareTransitiveIff(versions: seq<string>, parse: Parse)
    requires parse("").None?
    ensures Transitive(versions, parse) <==> Orderly(versions, parse)
  {
    if Orderly(versions, parse) {
      forall a, b, c | a in versions && b in versions && c in versions
        && ComparePluginVersions(a, b, parse) <= 0 && ComparePluginVersions(b, c, parse) <= 0
        ensures ComparePluginVersions(a, c, parse) <= 0
      {
        assert Orderly([a, b, c], parse);
        CompareTransitive(a, b, c, parse);
      }
    } else {
      var x, y, z :| x in versions && y in versions && z in versions && Interleaved(x, z, y, parse);
      InterleavedIsCircular(x, z, y, parse);
      var all := [x, y, z];
      var a, b, c :| a in all && b in all && c in all
        && ComparePluginVersions(a, b, parse) <= 0 && ComparePluginVersions(b, c, parse) <= 0
        && ComparePluginVersions(a, c, parse) > 0;
      assert a in versions && b in versions && c in versions;
    }
  }

  /** Of two versions and a string that is none: transitive unless the string lies between them in an
      order that is not their own. */
  lemma MixedTripleIff(x: string, y: string, z: string, parse: Parse)
    requires parse(x).Some? && parse(y).Some? && parse(z).None? && parse("").None?
    ensures Transitive([x, y, z], parse) <==> !Interleaved(x, z, y, parse) && !Interleaved(y, z, x, parse)
  {
    var all := [x, y, z];
    CompareTransitiveIff(all, parse);
    assert x in all && y in all && z in all;
    assert !Interleaved(x, z, x, parse) && !Interleaved(y, z, y, parse) by {
      LeTotal(x, z);
      LeTotal(y, z);
    }
  }

  /** For example. */
  lemma MixedVersionsCycle(parse: Parse)
    requires parse("1.9.0").Some? && parse("1.10.0").Some? && parse("1.9.0").value < parse("1.10.0").value
    requires parse("1.2 x").None?
    ensures ComparePluginVersions("1.9.0", "1.10.0", parse) < 0
    ensures ComparePluginVersions("1.10.0", "1.2 x", parse) < 0
    ensures ComparePluginVersions("1.2 x", "1.9.0", parse) < 0
  {
    assert "1.10.0"[2..] == "10.0" && "1.2 x"[2..] == "2 x" && "1.9.0"[2..] == "9.0";
    assert Le("10.0", "2 x") && Le("2 x", "9.0");
    assert "1.10.0"[1..][1..] == "10.0" && "1.2 x"[1..][1..] == "2 x" && "1.9.0"[1..][1..] == "9.0";
    assert Le("1.10.0"[1..], "1.2 x"[1..]) && Le("1.2 x"[1..], "1.9.0"[1..]);
  }

  // ---------------------------------------------------------------------------
  // Sorting releases
  // ---------------------------------------------------------------------------

  predicate Less(a: Release, b: Release, parse: Parse) {
    if parse(a.version).None? || parse(b.version).None? then a.version != b.version && Le(a.version, b.version)
    else parse(a.version).value < parse(b.version).value
  }

  /** The condition under which the versions are in one order. */
  ghost predicate Ordered(releases: seq<Release>, parse: Parse) {
    forall x, y, z :: x in releases && y in releases && z in releases ==>
      !Interleaved(x.version, z.version, y.version, parse)
  }

  predicate Sorted(releases: seq<Release>, parse: Parse) {
    forall i, j :: 0 <= i < j < |releases| ==> !Less(releases[j], releases[i], parse)
  }

  /** What sorting guarantees: a permutation, and in order if the comparison is consistent. Equal
      versions may come out in any order. */
  ghost predicate SortOf(before: seq<Release>, after: seq<Release>, parse: Parse) {
    multiset(after) == multiset(before) && (Ordered(before, parse) ==> Sorted(after, parse))
  }

  lemma NotLessTransitive(a: Release, b: Release, c: Release, parse: Parse)
    requires Ordered([a, b, c], parse)
    requires !Less(b, a, parse) && !Less(c, b, parse)
    ensures !Less(c, a, parse)
  {
    var all := [a, b, c];
    assert a in all && b in all && c in all;
    var (x, y, z) := (a.version, b.version, c.version);
    assert !Interleaved(y, z, x, parse) && !Interleaved(z, x, y, parse) && !Interleaved(x, y, z, parse);
    LeTotal(x, y);
    LeTotal(y, z);
    LeTotal(x, z);
    if Le(x, y) && Le(y, z) {
      LeTransitive(x, y, z);
    }
  }

  lemma NotLessTotal(a: Release, b: Release, parse: Parse)
    ensures !Less(a, b, parse) || !Less(b, a, parse)
  {
    LeTotal(a.version, b.version);
  }

  lemma OrderedPart(all: seq<Release>, part: seq<Release>, parse: Parse)
    requires Ordered(all, parse) && forall r :: r in part ==> r in all
    ensures Ordered(part, parse)
  {
  }

  function Insert(x: Release, s: seq<Release>, parse: Parse): seq<Release> {
    if s == [] || Less(x, s[0], parse) then [x] + s else [s[0]] + Insert(x, s[1..], parse)
  }

  lemma {:induction false} InsertKeeps(x: Release, s: seq<Release>, parse: Parse)
    ensures multiset(Insert(x, s, parse)) == multiset(s) + multiset{x}
  {
    if s != [] {
      assert s == [s[0]] + s[1..];
      InsertKeeps(x, s[1..], parse);
    }
  }

  lemma {:induction false} InsertSorts(x: Release, s: seq<Release>, parse: Parse)
    requires Ordered([x] + s, parse) && Sorted(s, parse)
    ensures Sorted(Insert(x, s, parse), parse)
  {
    var r := Insert(x, s, parse);
    if s == [] {
    } else if Less(x, s[0], parse) {
      forall j | 1 <= j < |r| ensures !Less(r[j], x, parse) {
        NotLessTotal(x, s[0], parse);
        if j > 1 {
          OrderedPart([x] + s, [x, s[0], s[j - 1]], parse);
          NotLessTransitive(x, s[0], s[j - 1], parse);
        }
      }
    } else {
      OrderedPart([x] + s, [x] + s[1..], parse);
      InsertSorts(x, s[1..], parse);
      InsertKeeps(x, s[1..], parse);
      var tail := Insert(x, s[1..], parse);
      forall j | 0 <= j < |tail| ensures !Less(tail[j], s[0], parse) {
        assert tail[j] in multiset(tail);
        assert tail[j] == x || tail[j] in multiset(s[1..]);
      }
    }
  }

  lemma InsertedInOrder(releases: seq<Release>, i: nat, sorted: seq<Release>, parse: Parse)
    requires i < |releases| && multiset(sorted) == multiset(releases[..i])
    requires Ordered(releases, parse) ==> Sorted(sorted, parse)
    ensures Ordered(releases, parse) ==> Sorted(Insert(releases[i], sorted, parse), parse)
  {
    if Ordered(releases, parse) {
      forall r | r in [releases[i]] + sorted ensures r in releases {
        assert r == releases[i] || r in multiset(releases[..i]);
      }
      OrderedPart(releases, [releases[i]] + sorted, parse);
      InsertSorts(releases[i], sorted, parse);
    }
  }

  method SortPluginReleases(releases: seq<Release>, parse: Parse) returns (sorted: seq<Release>)
    ensures SortOf(releases, sorted, parse)
  {
    sorted := [];
    for i := 0 to |releases|
      invariant multiset(sorted) == multiset(releases[..i])
      invariant Ordered(releases, parse) ==> Sorted(sorted, parse)
    {
      assert releases[..i + 1] == releases[..i] + [releases[i]];
      InsertKeeps(releases[i], sorted, parse);
      InsertedInOrder(releases, i, sorted, parse);
      sorted := Insert(releases[i], sorted, parse);
    }
    assert releases[..|releases|] == releases;
  }

  // ---------------------------------------------------------------------------
  // The latest version
  // ---------------------------------------------------------------------------

  predicate For(r: Release, here: Platform) {
    r.os == here.os && r.arch == here.arch
  }

  /** The version of the last release listed for the platform, empty when there is none. */
  function Latest(releases: seq<Release>, here: Platform): string {
    if releases == [] then ""
    else if For(releases[|releases| - 1], here) then releases[|releases| - 1].version
    else Latest(releases[..|releases| - 1], here)
  }

  predicate HasRelease(p: Plugin, version: string, here: Platform) {
    exists r :: r in p.releases && r.version == version && For(r, here)
  }

  method LookUpLatestVersion(p: Plugin, here: Platform) returns (version: string)
    ensures version == Latest(p.releases, here)
  {
    version := "";
    for i := 0 to |p.releases|
      invariant version == Latest(p.releases[..i], here)
    {
      assert p.releases[..i + 1][..i] == p.releases[..i];
      if For(p.releases[i], here) {
        version := p.releases[i].version;
      }
    }
    assert p.releases[..|p.releases|] == p.releases;
  }

  method GetRelease(p: Plugin, version: string, here: Platform) returns (release: Option<Release>)
    ensures release.Some? <==> HasRelease(p, version, here)
    ensures release.Some? ==> release.value in p.releases
    ensures release.Some? ==> release.value.version == version && For(release.value, here)
  {
    for i := 0 to |p.releases|
      invariant forall k :: 0 <= k < i ==> !(p.releases[k].version == version && For(p.releases[k], here))
    {
      if p.releases[i].version == version && For(p.releases[i], here) {
        return Some(p.releases[i]);
      }
    }
    return None;
  }

  lemma {:induction false} LatestHasRelease(releases: seq<Release>, here: Platform)
    ensures Latest(releases, here) != "" ==>
              exists r :: r in releases && r.version == Latest(releases, here) && For(r, here)
  {
    if releases != [] && !For(releases[|releases| - 1], here) {
      LatestHasRelease(releases[..|releases| - 1], here);
    }
  }

  /** Of releases in order, the latest is a maximum among those for the platform. */
  lemma {:induction false} LatestIsMaximum(releases: seq<Release>, here: Platform, parse: Parse, r: Release)
    requires Sorted(releases, parse) && r in releases && For(r, here)
    requires r.version != "" && Latest(releases, here) != ""
    ensures ComparePluginVersions(r.version, Latest(releases, here), parse) <= 0
  {
    var last := releases[|releases| - 1];
    var k :| 0 <= k < |releases| && releases[k] == r;
    LeTotal(r.version, last.version);
    if For(last, here) {
      assert last in releases;
      if k < |releases| - 1 {
        assert !Less(last, r, parse);
      }
    } else {
      assert r == releases[..|releases| - 1][k];
      LatestIsMaximum(releases[..|releases| - 1], here, parse, r);
    }
  }

  /** So after sorting, every release for the platform is at most the latest version. */
  lemma SortedLatestIsMaximum(before: seq<Release>, after: seq<Release>, here: Platform, parse: Parse, r: Release)
    requires SortOf(before, after, parse) && Ordered(before, parse)
    requires forall x :: x in before ==> x.version != ""
    requires r in before && For(r, here)
    ensures Latest(after, here) != ""
    ensures ComparePluginVersions(r.version, Latest(after, here), parse) <= 0
  {
    assert r in multiset(after);
    forall x | x in after ensures x in before {
      assert x in multiset(before);
    }
    SomeLatest(after, here, r);
    LatestIsMaximum(after, here, parse, r);
  }

  lemma {:induction false} SomeLatest(releases: seq<Release>, here: Platform, r: Release)
    requires r in releases && For(r, here) && forall x :: x in releases ==> x.version != ""
    ensures Latest(releases, here) != ""
  {
    if !For(releases[|releases| - 1], here) {
      var k :| 0 <= k < |releases| && releases[k] == r;
      assert r == releases[..|releases| - 1][k];
      SomeLatest(releases[..|releases| - 1], here, r);
    } else {
      assert releases[|releases| - 1] in releases;
    }
  }

  // ---------------------------------------------------------------------------
  // Merging plugin lists
  // ---------------------------------------------------------------------------

  /** All the releases listed under a magic cookie. */
  function ReleasesOf(plugins: seq<Plugin>, cookie: string): multiset<Release> {
    if plugins == [] then multiset{}
    else (if plugins[0].magicCookieValue == cookie then multiset(plugins[0].releases) else multiset{})
         + ReleasesOf(plugins[1..], cookie)
  }

  function ReleasesOfAll(lists: seq<seq<Plugin>>, cookie: string): multiset<Release> {
    if lists == [] then multiset{} else ReleasesOf(lists[0], cookie) + ReleasesOfAll(lists[1..], cookie)
  }

  /** A release is under a cookie exactly if some plugin of that cookie lists it. */
  lemma {:induction false} ReleasesOfIff(plugins: seq<Plugin>, cookie: string, r: Release)
    ensures r in ReleasesOf(plugins, cookie) <==>
      exists i :: 0 <= i < |plugins| && plugins[i].magicCookieValue == cookie && r in plugins[i].releases
  {
    if plugins != [] {
      ReleasesOfIff(plugins[1..], cookie, r);
      assert forall i :: 0 <= i < |plugins[1..]| ==> plugins[1..][i] == plugins[i + 1];
      assert forall i :: 1 <= i < |plugins| ==> plugins[i] == plugins[1..][i - 1];
    }
  }

  lemma {:induction false} ReleasesOfAllIff(lists: seq<seq<Plugin>>, cookie: string, r: Release)
    ensures r in ReleasesOfAll(lists, cookie) <==> exists i :: 0 <= i < |lists| && r in ReleasesOf(lists[i], cookie)
  {
    if lists != [] {
      ReleasesOfAllIff(lists[1..], cookie, r);
      assert forall i :: 0 <= i < |lists[1..]| ==> lists[1..][i] == lists[i + 1];
      assert forall i :: 1 <= i < |lists| ==> lists[i] == lists[1..][i - 1];
    }
  }

  predicate DistinctCookies(plugins: seq<Plugin>) {
    forall i, j :: 0 <= i < j < |plugins| ==> plugins[i].magicCookieValue != plugins[j].magicCookieValue
  }

  /** The same plugins as before, apart from their releases, perhaps followed by more. */
  predicate Extends(before: seq<Plugin>, after: seq<Plugin>) {
    |before| <= |after| && forall i :: 0 <= i < |before| ==> after[i] == before[i].(releases := after[i].releases)
  }

  lemma {:induction false} ReleasesOfConcat(a: seq<Plugin>, b: seq<Plugin>, cookie: string)
    ensures ReleasesOf(a + b, cookie) == ReleasesOf(a, cookie) + ReleasesOf(b, cookie)
  {
    if a == [] {
      assert a + b == b;
    } else {
      assert (a + b)[1..] == a[1..] + b;
      ReleasesOfConcat(a[1..], b, cookie);
    }
  }

  lemma ReleasesOfOne(p: Plugin, cookie: string)
    ensures ReleasesOf([p], cookie) == if p.magicCookieValue == cookie then multiset(p.releases) else multiset{}
  {
    assert [p][1..] == [];
  }

  lemma ReleasesOfUpdate(plugins: seq<Plugin>, i: nat, releases: seq<Release>, more: seq<Release>, cookie: string)
    requires i < |plugins|
    requires multiset(releases) == multiset(plugins[i].releases) + multiset(more)
    ensures ReleasesOf(plugins[i := plugins[i].(releases := releases)], cookie)
         == ReleasesOf(plugins, cookie) + if plugins[i].magicCookieValue == cookie then multiset(more) else multiset{}
  {
    var p := plugins[i].(releases := releases);
    assert plugins == plugins[..i] + [plugins[i]] + plugins[i + 1..];
    assert plugins[i := p] == plugins[..i] + [p] + plugins[i + 1..];
    ReleasesOfConcat(plugins[..i] + [plugins[i]], plugins[i + 1..], cookie);
    ReleasesOfConcat(plugins[..i] + [p], plugins[i + 1..], cookie);
    ReleasesOfConcat(plugins[..i], [plugins[i]], cookie);
    ReleasesOfConcat(plugins[..i], [p], cookie);
    ReleasesOfOne(plugins[i], cookie);
    ReleasesOfOne(p, cookie);
  }

  /** Only the plugin at `i` has changed: its releases, with the new ones, have been sorted. */
  ghost predicate MergedAt(before: seq<Plugin>, after: seq<Plugin>, i: nat, pl: Plugin, parse: Parse) {
    && i < |before| == |after| && after == before[i := before[i].(releases := after[i].releases)]
    && before[i].magicCookieValue == pl.magicCookieValue
    && SortOf(before[i].releases + pl.releases, after[i].releases, parse)
  }

  class PluginList {
    var plugins: seq<Plugin>

    constructor (plugins: seq<Plugin>)
      ensures this.plugins == plugins
    {
      this.plugins := plugins;
    }

    method FindPluginIndex(p: Plugin) returns (idx: int)
      ensures -1 <= idx < |plugins|
      ensures idx >= 0 ==> plugins[idx].magicCookieValue == p.magicCookieValue
      ensures forall k :: 0 <= k < (if idx < 0 then |plugins| else idx) ==>
                plugins[k].magicCookieValue != p.magicCookieValue
    {
      for i := 0 to |plugins|
        invariant forall k :: 0 <= k < i ==> plugins[k].magicCookieValue != p.magicCookieValue
      {
        if plugins[i].magicCookieValue == p.magicCookieValue {
          return i;
        }
      }
      return -1;
    }

    /** Adds the releases under the plugin's cookie, and nothing else anywhere. */
    method AddPluginToList(pl: Plugin, parse: Parse)
      modifies this
      ensures forall cookie ::
        ReleasesOf(plugins, cookie) == ReleasesOf(old(plugins), cookie) + ReleasesOf([pl], cookie)
      ensures Extends(old(plugins), plugins)
      ensures DistinctCookies(old(plugins)) ==> DistinctCookies(plugins)
      ensures plugins == old(plugins) + [pl] || exists i :: MergedAt(old(plugins), plugins, i, pl, parse)
    {
      var idx := FindPluginIndex(pl);
      if idx == -1 {
        forall cookie
          ensures ReleasesOf(plugins + [pl], cookie) == ReleasesOf(plugins, cookie) + ReleasesOf([pl], cookie)
        {
          ReleasesOfConcat(plugins, [pl], cookie);
        }
        plugins := plugins + [pl];
      } else {
        var releases := SortPluginReleases(plugins[idx].releases + pl.releases, parse);
        forall cookie ensures ReleasesOf(plugins[idx := plugins[idx].(releases := releases)], cookie)
                           == ReleasesOf(plugins, cookie) + ReleasesOf([pl], cookie) {
          ReleasesOfUpdate(plugins, idx, releases, pl.releases, cookie);
          ReleasesOfOne(pl, cookie);
        }
        plugins := plugins[idx := plugins[idx].(releases := releases)];
        assert MergedAt(old(plugins), plugins, idx, pl, parse);
      }
    }

    /** Merging loses and invents no release: under every cookie there is exactly what the lists had. */
    method MergePluginLists(lists: seq<seq<Plugin>>, parse: Parse)
      modifies this
      ensures forall cookie ::
        ReleasesOf(plugins, cookie) == ReleasesOf(old(plugins), cookie) + ReleasesOfAll(lists, cookie)
      ensures Extends(old(plugins), plugins)
      ensures DistinctCookies(old(plugins)) ==> DistinctCookies(plugins)
    {
      for i := 0 to |lists|
        invariant forall cookie :: ReleasesOf(plugins, cookie) + ReleasesOfAll(lists[i..], cookie)
                                == ReleasesOf(old(plugins), cookie) + ReleasesOfAll(lists, cookie)
        invariant Extends(old(plugins), plugins)
        invariant DistinctCookies(old(plugins)) ==> DistinctCookies(plugins)
      {
        assert lists[i..][1..] == lists[i + 1..];
        AddAll(lists[i], parse);
      }
    }

    /** The inner loop. */
    method AddAll(list: seq<Plugin>, parse: Parse)
      modifies this
      ensures forall cookie ::
        ReleasesOf(plugins, cookie) == ReleasesOf(old(plugins), cookie) + ReleasesOf(list, cookie)
      ensures Extends(old(plugins), plugins)
      ensures DistinctCookies(old(plugins)) ==> DistinctCookies(plugins)
    {
      for i := 0 to |list|
        invariant forall cookie ::
          ReleasesOf(plugins, cookie) == ReleasesOf(old(plugins), cookie) + ReleasesOf(list[..i], cookie)
        invariant Extends(old(plugins), plugins)
        invariant DistinctCookies(old(plugins)) ==> DistinctCookies(plugins)
      {
        assert list[..i + 1] == list[..i] + [list[i]];
        forall cookie
          ensures ReleasesOf(list[..i + 1], cookie) == ReleasesOf(list[..i], cookie) + ReleasesOf([list[i]], cookie)
        {
          ReleasesOfConcat(list[..i], [list[i]], cookie);
        }
        AddPluginToList(list[i], parse);
      }
      assert list[..|list|] == list;
    }
  }

  // ---------------------------------------------------------------------------
  // Choosing between local metadata and the cached manifest
  // ---------------------------------------------------------------------------

  function FirstNonEmpty<T(==)>(a: seq<T>, b: seq<T>): seq<T> {
    if a == [] then b else a
  }

  function MergePluginMetadata(primary: Option<Plugin>, fallback: Option<Plugin>): Option<Plugin> {
    if primary.None? then fallback
    else if fallback.None? then primary
    else
      var (p, f) := (primary.value, fallback.value);
      Some(p.(shortdesc := FirstNonEmpty(p.shortdesc, f.shortdesc),
              binary := FirstNonEmpty(p.binary, f.binary),
              magicCookieValue := FirstNonEmpty(p.magicCookieValue, f.magicCookieValue),
              commands := FirstNonEmpty(p.commands, f.commands)))
  }

  function SelectPluginForUpgrade(
    local: Option<Plugin>, manifest: Option<Plugin>, here: Platform, parse: Parse): Option<Plugin>
  {
    if local.None? then MergePluginMetadata(manifest, None)
    else if manifest.None? then MergePluginMetadata(local, None)
    else if ComparePluginVersions(Latest(local.value.releases, here), Latest(manifest.value.releases, here), parse) >= 0
    then MergePluginMetadata(local, manifest)
    else MergePluginMetadata(manifest, local)
  }

  predicate Offers(p: Option<Plugin>, version: string, here: Platform) {
    p.Some? && HasRelease(p.value, version, here)
  }

  function SelectPluginForInstall(
    local: Option<Plugin>, manifest: Option<Plugin>, requested: string, here: Platform, parse: Parse): Option<Plugin>
  {
    if requested == "" then SelectPluginForUpgrade(local, manifest, here, parse)
    else if Offers(local, requested, here) && !Offers(manifest, requested, here)
    then MergePluginMetadata(local, manifest)
    else if Offers(manifest, requested, here) && !Offers(local, requested, here)
    then MergePluginMetadata(manifest, local)
    else SelectPluginForUpgrade(local, manifest, here, parse)
  }

  /** The releases, the only part that decides what can be installed, come from one side unmixed. */
  lemma MergeKeepsReleases(primary: Option<Plugin>, fallback: Option<Plugin>, version: string, here: Platform)
    requires primary.Some?
    ensures Offers(MergePluginMetadata(primary, fallback), version, here) <==> Offers(primary, version, here)
    ensures Latest(MergePluginMetadata(primary, fallback).value.releases, here) == Latest(primary.value.releases, here)
    ensures MergePluginMetadata(primary, fallback).value.shortname == primary.value.shortname
  {
    assert MergePluginMetadata(primary, fallback).value.releases == primary.value.releases;
  }

  /** A requested version is found exactly when one of the two sources has it. */
  lemma InstallFindsVersionIff(
    local: Option<Plugin>, manifest: Option<Plugin>, requested: string, here: Platform, parse: Parse)
    requires requested != ""
    ensures Offers(SelectPluginForInstall(local, manifest, requested, here, parse), requested, here)
        <==> Offers(local, requested, here) || Offers(manifest, requested, here)
  {
    if local.Some? {
      MergeKeepsReleases(local, manifest, requested, here);
    }
    if manifest.Some? {
      MergeKeepsReleases(manifest, local, requested, here);
    }
  }

  /** For an upgrade the chosen plugin's latest version is the greater of the two. */
  lemma UpgradePicksGreater(local: Option<Plugin>, manifest: Option<Plugin>, here: Platform, parse: Parse)
    requires local.Some? && manifest.Some?
    ensures var chosen := SelectPluginForUpgrade(local, manifest, here, parse);
      var (a, b) := (Latest(local.value.releases, here), Latest(manifest.value.releases, here));
      && chosen.Some?
      && Latest(chosen.value.releases, here) in {a, b}
      && ComparePluginVersions(a, Latest(chosen.value.releases, here), parse) <= 0
      && ComparePluginVersions(b, Latest(chosen.value.releases, here), parse) <= 0
  {
    var (a, b) := (Latest(local.value.releases, here), Latest(manifest.value.releases, here));
    MergeKeepsReleases(local, manifest, "", here);
    MergeKeepsReleases(manifest, local, "", here);
    CompareOpposite(a, b, parse);
    CompareOpposite(a, a, parse);
    CompareOpposite(b, b, parse);
  }

  // ---------------------------------------------------------------------------
  // Resolving a plugin version
  // ---------------------------------------------------------------------------

  /** Everything a resolution reads. A file or answer that is missing or invalid is None. */
  datatype Sources = Sources(
    validName: bool,
    credentials: bool,
    localFile: Option<seq<Plugin>>,
    manifestFile: Option<seq<Plugin>>,
    answer: Option<seq<Plugin>>)   // of the metadata endpoint

  datatype Resolved = Resolved(plugin: Plugin, version: string)

  function FindPlugin(plugins: seq<Plugin>, name: string): (r: Option<Plugin>)
    ensures r.Some? ==> r.value in plugins && r.value.shortname == name
    ensures r.None? ==> forall p :: p in plugins ==> p.shortname != name
  {
    if plugins == [] then None
    else if plugins[0].shortname == name then Some(plugins[0])
    else FindPlugin(plugins[1..], name)
  }

  function ReadCached(file: Option<seq<Plugin>>, name: string): Option<Plugin> {
    if file.None? then None else FindPlugin(file.value, name)
  }

  function PluginFromMetadata(base: Plugin, answer: seq<Plugin>): Option<Plugin> {
    var found := FindPlugin(answer, base.shortname);
    if found.None? then None
    else Some(found.value.(commands := FirstNonEmpty(found.value.commands, base.commands)))
  }

  /** A requested version, or else the latest; it must have a release here. */
  function PickVersion(p: Plugin, version: string, here: Platform): Result<Resolved> {
    var v := if version == "" then Latest(p.releases, here) else version;
    if v == "" || !HasRelease(p, v, here) then Err else Ok(Resolved(p, v))
  }

  function BasePlugin(s: Sources, name: string): Plugin {
    var (local, manifest) := (ReadCached(s.localFile, name), ReadCached(s.manifestFile, name));
    if local.Some? then local.value
    else if manifest.Some? then manifest.value
    else Plugin(name, "", "", [], "", [])
  }

  function ResolvePluginFromMetadata(s: Sources, name: string, version: string, here: Platform): Result<Resolved> {
    if !s.validName || s.answer.None? then Err else
    var p := PluginFromMetadata(BasePlugin(s, name), s.answer.value);
    if p.None? then Err else PickVersion(p.value, version, here)
  }

  function ResolvePluginForInstall(
    s: Sources, name: string, version: string, here: Platform, parse: Parse): Result<Resolved>
  {
    if !s.validName || !s.credentials then Err else
    var fromEndpoint := ResolvePluginFromMetadata(s, name, version, here);
    if fromEndpoint.Ok? then fromEndpoint else
    var cached := SelectPluginForInstall(
      ReadCached(s.localFile, name), ReadCached(s.manifestFile, name), version, here, parse);
    if cached.None? then Err else PickVersion(cached.value, version, here)
  }

  /** The latest version of the cached plugin; that it has a release here is not checked again. */
  function LatestCached(s: Sources, name: string, here: Platform, parse: Parse): Result<Resolved> {
    var cached := SelectPluginForUpgrade(ReadCached(s.localFile, name), ReadCached(s.manifestFile, name), here, parse);
    if cached.None? || Latest(cached.value.releases, here) == "" then Err
    else Ok(Resolved(cached.value, Latest(cached.value.releases, here)))
  }

  function ResolvePluginForUpgrade(s: Sources, name: string, here: Platform, parse: Parse): Result<Resolved> {
    if !s.validName || !s.credentials then Err else
    var fromEndpoint := ResolvePluginFromMetadata(s, name, "", here);
    if fromEndpoint.Ok? then fromEndpoint else LatestCached(s, name, here, parse)
  }

  function ResolvePluginForAutoInstall(s: Sources, name: string, here: Platform, parse: Parse): Result<Resolved> {
    var latest := ResolvePluginForInstall(s, name, "", here, parse);
    if latest.Ok? then latest
    else if !s.validName then Err   // reading the cached files validates the name again
    else LatestCached(s, name, here, parse)
  }

  predicate Sound(r: Result<Resolved>, name: string, version: string, here: Platform) {
    r.Ok? ==>
      && r.value.plugin.shortname == name
      && r.value.version != ""
      && HasRelease(r.value.plugin, r.value.version, here)
      && r.value.version == (if version == "" then Latest(r.value.plugin.releases, here) else version)
  }

  lemma BaseName(s: Sources, name: string)
    ensures BasePlugin(s, name).shortname == name
  {
  }

  lemma MetadataSound(s: Sources, name: string, version: string, here: Platform)
    ensures Sound(ResolvePluginFromMetadata(s, name, version, here), name, version, here)
  {
    BaseName(s, name);
  }

  lemma LatestCachedSound(s: Sources, name: string, here: Platform, parse: Parse)
    ensures Sound(LatestCached(s, name, here, parse), name, "", here)
  {
    var (local, manifest) := (ReadCached(s.localFile, name), ReadCached(s.manifestFile, name));
    var cached := SelectPluginForUpgrade(local, manifest, here, parse);
    if cached.Some? {
      LatestHasRelease(cached.value.releases, here);
      SelectedName(local, manifest, "", name, here, parse);
    }
  }

  lemma SelectedName(
    local: Option<Plugin>, manifest: Option<Plugin>, version: string, name: string, here: Platform, parse: Parse)
    requires local.Some? ==> local.value.shortname == name
    requires manifest.Some? ==> manifest.value.shortname == name
    ensures var p := SelectPluginForInstall(local, manifest, version, here, parse);
      p.Some? ==> p.value.shortname == name
  {
  }

  /** Whatever the endpoint and the caches hold, a resolution names the plugin that was asked for and
      a version with a release for this platform: the requested one, or the latest. */
  lemma ResolutionSound(s: Sources, name: string, version: string, here: Platform, parse: Parse)
    ensures Sound(ResolvePluginForInstall(s, name, version, here, parse), name, version, here)
    ensures Sound(ResolvePluginForUpgrade(s, name, here, parse), name, "", here)
    ensures Sound(ResolvePluginForAutoInstall(s, name, here, parse), name, "", here)
  {
    MetadataSound(s, name, version, here);
    MetadataSound(s, name, "", here);
    LatestCachedSound(s, name, here, parse);
    var (local, manifest) := (ReadCached(s.localFile, name), ReadCached(s.manifestFile, name));
    SelectedName(local, manifest, version, name, here, parse);
    SelectedName(local, manifest, "", name, here, parse);
  }

  /** A requested version resolves exactly when the endpoint or one of the caches has it. */
  lemma InstallResolvesIff(s: Sources, name: string, version: string, here: Platform, parse: Parse)
    requires version != ""
    ensures ResolvePluginForInstall(s, name, version, here, parse).Ok?
        <==> && s.validName && s.credentials
             && ((s.answer.Some? && Offers(FindPlugin(s.answer.value, name), version, here))
                 || Offers(ReadCached(s.localFile, name), version, here)
                 || Offers(ReadCached(s.manifestFile, name), version, here))
  {
    BaseName(s, name);
    InstallFindsVersionIff(ReadCached(s.localFile, name), ReadCached(s.manifestFile, name), version, here, parse);
  }
}
