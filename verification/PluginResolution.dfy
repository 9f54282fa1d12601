/** Which source a plugin resolution takes its answer from, and when there is one: the metadata endpoint
first, then the greater of the two caches (pkg/plugins/utilities.go).
*/
module PluginResolution {
  import opened Text
  import opened PluginVersions

  // ---------------------------------------------------------------------------
  // What one source says about a plugin
  // ---------------------------------------------------------------------------

  /** The plugin at `i` is the first of that name. */
  ghost predicate FirstNamed(plugins: seq<Plugin>, i: nat, name: string) {
    i < |plugins| && plugins[i].shortname == name && forall j :: 0 <= j < i ==> plugins[j].shortname != name
  }

  ghost predicate Listed(file: Option<seq<Plugin>>, name: string) {
    file.Some? && exists p :: p in file.value && p.shortname == name
  }

  /** The position of the first plugin of that name. */
  ghost function PositionOf(plugins: seq<Plugin>, name: string): (i: nat)
    requires exists p :: p in plugins && p.shortname == name
    ensures FirstNamed(plugins, i, name)
  {
    if plugins[0].shortname == name then 0 else
      assert plugins == [plugins[0]] + plugins[1..];
      PositionOf(plugins[1..], name) + 1
  }

  /** The releases that a source lists under the name: those of the first plugin of that name. */
  ghost function ReleasesIn(file: Option<seq<Plugin>>, name: string): seq<Release> {
    if Listed(file, name) then file.value[PositionOf(file.value, name)].releases else []
  }

  /** The latest version that a source lists for this platform, empty if it has none. */
  ghost function LatestIn(file: Option<seq<Plugin>>, name: string, here: Platform): string {
    Latest(ReleasesIn(file, name), here)
  }

  ghost predicate HasVersion(file: Option<seq<Plugin>>, name: string, version: string, here: Platform) {
    exists r :: r in ReleasesIn(file, name) && r.version == version && r.os == here.os && r.arch == here.arch
  }

  /** The release at `i` is the last for this operating system and architecture. */
  ghost predicate LastHere(releases: seq<Release>, i: nat, here: Platform) {
    && i < |releases| && releases[i].os == here.os && releases[i].arch == here.arch
    && forall j :: i < j < |releases| ==> !(releases[j].os == here.os && releases[j].arch == here.arch)
  }

  /** It gives the latest version. */
  lemma {:induction false} LatestIsLast(releases: seq<Release>, i: nat, here: Platform)
    requires LastHere(releases, i, here)
    ensures Latest(releases, here) == releases[i].version
  {
    var n := |releases| - 1;
    if i < n {
      assert !(releases[n].os == here.os && releases[n].arch == here.arch);
      assert LastHere(releases[..n], i, here);
      LatestIsLast(releases[..n], i, here);
    }
  }

  lemma {:induction false} NoLatest(releases: seq<Release>, here: Platform)
    requires forall i :: 0 <= i < |releases| ==> !(releases[i].os == here.os && releases[i].arch == here.arch)
    ensures Latest(releases, here) == ""
  {
    if releases != [] {
      NoLatest(releases[..|releases| - 1], here);
    }
  }

  lemma {:induction false} FindPluginFirst(plugins: seq<Plugin>, name: string)
    ensures FindPlugin(plugins, name) ==
      if exists p :: p in plugins && p.shortname == name then Some(plugins[PositionOf(plugins, name)]) else None
  {
    if plugins != [] && plugins[0].shortname != name {
      assert plugins == [plugins[0]] + plugins[1..];
      FindPluginFirst(plugins[1..], name);
    }
  }

  lemma ReadIsListed(file: Option<seq<Plugin>>, name: string)
    ensures ReadCached(file, name).Some? <==> Listed(file, name)
    ensures ReadCached(file, name).Some? ==>
      ReadCached(file, name).value.releases == ReleasesIn(file, name) && ReadCached(file, name).value.shortname == name
  {
    if file.Some? {
      FindPluginFirst(file.value, name);
    }
  }

  // ---------------------------------------------------------------------------
  // The endpoint
  // ---------------------------------------------------------------------------

  /** The endpoint's answer resolves a version if and only if it lists the plugin with a release of that
      version here; without a version, with some latest version. */
  lemma EndpointResolves(s: Sources, name: string, version: string, here: Platform)
    ensures var r := ResolvePluginFromMetadata(s, name, version, here);
      && (r.Ok? <==> s.validName
                     && if version == "" then LatestIn(s.answer, name, here) != ""
                        else HasVersion(s.answer, name, version, here))
      && (r.Ok? ==> r.value.version == if version == "" then LatestIn(s.answer, name, here) else version)
      && (r.Ok? ==> r.value.plugin.releases == ReleasesIn(s.answer, name))
  {
    BaseName(s, name);
    ReadIsListed(s.answer, name);
    LatestHasRelease(ReleasesIn(s.answer, name), here);
  }

  // ---------------------------------------------------------------------------
  // The caches
  // ---------------------------------------------------------------------------

  /** The cache to prefer: the local file unless the manifest has a later latest version. */
  ghost function Preferred(s: Sources, name: string, here: Platform, parse: Parse): Option<seq<Plugin>> {
    if ComparePluginVersions(LatestIn(s.localFile, name, here), LatestIn(s.manifestFile, name, here), parse) >= 0
    then s.localFile else s.manifestFile
  }

  lemma PreferredIsGreater(s: Sources, name: string, here: Platform, parse: Parse)
    ensures var latest := LatestIn(Preferred(s, name, here, parse), name, here);
      && ComparePluginVersions(LatestIn(s.localFile, name, here), latest, parse) <= 0
      && ComparePluginVersions(LatestIn(s.manifestFile, name, here), latest, parse) <= 0
      && (latest == "" <==> LatestIn(s.localFile, name, here) == "" && LatestIn(s.manifestFile, name, here) == "")
  {
    var (a, b) := (LatestIn(s.localFile, name, here), LatestIn(s.manifestFile, name, here));
    CompareOpposite(a, b, parse);
    CompareOpposite(a, a, parse);
    CompareOpposite(b, b, parse);
  }

  lemma SelectedReleases(s: Sources, name: string, here: Platform, parse: Parse)
    ensures var p := SelectPluginForUpgrade(
        ReadCached(s.localFile, name), ReadCached(s.manifestFile, name), here, parse);
      && (p.Some? <==> Listed(s.localFile, name) || Listed(s.manifestFile, name))
      && (p.Some? && LatestIn(Preferred(s, name, here, parse), name, here) != "" ==>
            p.value.releases == ReleasesIn(Preferred(s, name, here, parse), name))
      && (p.Some? && LatestIn(Preferred(s, name, here, parse), name, here) == "" ==>
            Latest(p.value.releases, here) == "")
  {
    ReadIsListed(s.localFile, name);
    ReadIsListed(s.manifestFile, name);
    PreferredIsGreater(s, name, here, parse);
  }

  lemma CachedResolves(s: Sources, name: string, here: Platform, parse: Parse)
    ensures var r := LatestCached(s, name, here, parse);
      var latest := LatestIn(Preferred(s, name, here, parse), name, here);
      && (r.Ok? <==> latest != "")
      && (r.Ok? ==> r.value.version == latest)
      && (r.Ok? ==> r.value.plugin.releases == ReleasesIn(Preferred(s, name, here, parse), name))
  {
    SelectedReleases(s, name, here, parse);
  }

  // ---------------------------------------------------------------------------
  // The three resolutions
  // ---------------------------------------------------------------------------

  /** The source of the latest version: the endpoint if it has one, or else the preferred cache. */
  ghost function LatestSource(s: Sources, asks: bool, name: string, here: Platform, parse: Parse): Option<seq<Plugin>> {
    if asks && LatestIn(s.answer, name, here) != "" then s.answer else Preferred(s, name, here, parse)
  }

  /** There is such a version in one of the sources, and the result is that one with its releases. */
  ghost predicate IsLatestOf(
    r: Result<Resolved>, s: Sources, asks: bool, name: string, here: Platform, parse: Parse)
  {
    var source := LatestSource(s, asks, name, here, parse);
    && (r.Ok? <==> || (asks && LatestIn(s.answer, name, here) != "")
                   || LatestIn(s.localFile, name, here) != "" || LatestIn(s.manifestFile, name, here) != "")
    && (r.Ok? ==> r.value.version == LatestIn(source, name, here))
    && (r.Ok? ==> r.value.plugin.releases == ReleasesIn(source, name) && r.value.plugin.shortname == name)
  }

  /** An upgrade, an installation without a version and an automatic installation all take the endpoint's
      latest version, and only without one the greater of the two cached ones; they fail exactly when there
      is none in any source. An automatic installation takes a cached one without credentials too. */
  lemma LatestResolves(s: Sources, name: string, here: Platform, parse: Parse)
    requires s.validName
    ensures s.credentials ==> IsLatestOf(ResolvePluginForUpgrade(s, name, here, parse), s, true, name, here, parse)
    ensures s.credentials ==> IsLatestOf(ResolvePluginForInstall(s, name, "", here, parse), s, true, name, here, parse)
    ensures IsLatestOf(ResolvePluginForAutoInstall(s, name, here, parse), s, s.credentials, name, here, parse)
  {
    ResolutionSound(s, name, "", here, parse);
    EndpointResolves(s, name, "", here);
    CachedResolves(s, name, here, parse);
    PreferredIsGreater(s, name, here, parse);
    InstallLatestCached(s, name, here, parse);
  }

  lemma InstallLatestCached(s: Sources, name: string, here: Platform, parse: Parse)
    ensures var cached := SelectPluginForInstall(
        ReadCached(s.localFile, name), ReadCached(s.manifestFile, name), "", here, parse);
      (if cached.None? then Err else PickVersion(cached.value, "", here)) == LatestCached(s, name, here, parse)
  {
    var cached := SelectPluginForUpgrade(ReadCached(s.localFile, name), ReadCached(s.manifestFile, name), here, parse);
    if cached.Some? {
      LatestHasRelease(cached.value.releases, here);
    }
  }

  /** None resolves a name that is not valid, and the first two need credentials. */
  lemma RefusedResolutions(s: Sources, name: string, version: string, here: Platform, parse: Parse)
    ensures !s.validName || !s.credentials ==>
      ResolvePluginForUpgrade(s, name, here, parse).Err? && ResolvePluginForInstall(s, name, version, here, parse).Err?
    ensures !s.validName ==> ResolvePluginForAutoInstall(s, name, here, parse).Err?
  {
  }

  /** The source of a requested version: the endpoint if it has it, or else the only cache that has it, or
      else the preferred one. */
  ghost function VersionSource(
    s: Sources, name: string, version: string, here: Platform, parse: Parse): Option<seq<Plugin>>
  {
    if HasVersion(s.answer, name, version, here) then s.answer
    else if !HasVersion(s.manifestFile, name, version, here) then s.localFile
    else if !HasVersion(s.localFile, name, version, here) then s.manifestFile
    else Preferred(s, name, here, parse)
  }

  /** A requested version resolves if and only if some source has it; the endpoint's plugin is taken before
      the cached ones. */
  lemma RequestedResolves(s: Sources, name: string, version: string, here: Platform, parse: Parse)
    requires s.validName && s.credentials && version != ""
    ensures var r := ResolvePluginForInstall(s, name, version, here, parse);
      && (r.Ok? <==> HasVersion(s.answer, name, version, here)
                     || HasVersion(s.localFile, name, version, here) || HasVersion(s.manifestFile, name, version, here))
      && (r.Ok? ==> r.value.version == version)
      && (r.Ok? ==> r.value.plugin.releases == ReleasesIn(VersionSource(s, name, version, here, parse), name))
  {
    EndpointResolves(s, name, version, here);
    ReadIsListed(s.localFile, name);
    ReadIsListed(s.manifestFile, name);
    InstallResolvesIff(s, name, version, here, parse);
    ReadIsListed(s.answer, name);
    if !HasVersion(s.answer, name, version, here)
       && HasVersion(s.localFile, name, version, here) && HasVersion(s.manifestFile, name, version, here) {
      assert Offers(ReadCached(s.localFile, name), version, here);
      assert Offers(ReadCached(s.manifestFile, name), version, here);
    }
  }

  // ---------------------------------------------------------------------------
  // What is filled in from the other side
  // ---------------------------------------------------------------------------

  /** A field is never taken over if there is one, and is empty only if both sides have none. */
  predicate Filled<T(==)>(field: seq<T>, primary: seq<T>, fallback: seq<T>) {
    (primary != [] ==> field == primary) && (field == [] ==> fallback == []) && (field == primary || field == fallback)
  }

  /** Merging completes the descriptions of one side from the other, field by field; the name and the
      releases stay those of the one side. */
  lemma MergeCompletes(primary: Plugin, fallback: Plugin)
    ensures var m := MergePluginMetadata(Some(primary), Some(fallback));
      && m.Some? && m.value.shortname == primary.shortname && m.value.releases == primary.releases
      && Filled(m.value.shortdesc, primary.shortdesc, fallback.shortdesc)
      && Filled(m.value.binary, primary.binary, fallback.binary)
      && Filled(m.value.magicCookieValue, primary.magicCookieValue, fallback.magicCookieValue)
      && Filled(m.value.commands, primary.commands, fallback.commands)
    ensures MergePluginMetadata(Some(primary), None) == MergePluginMetadata(None, Some(primary)) == Some(primary)
  {
  }

  /** The endpoint's plugin is taken as it is, but for commands that only a cached one has: the local one,
      or without that the one of the manifest. */
  lemma EndpointCompleted(s: Sources, name: string, version: string, here: Platform)
    requires ResolvePluginFromMetadata(s, name, version, here).Ok?
    ensures var p := ResolvePluginFromMetadata(s, name, version, here).value.plugin;
      && Listed(s.answer, name)
      && var found := s.answer.value[PositionOf(s.answer.value, name)];
         p == found.(commands := p.commands)
         && Filled(p.commands, found.commands,
                   if Listed(s.localFile, name) then s.localFile.value[PositionOf(s.localFile.value, name)].commands
                   else if Listed(s.manifestFile, name)
                   then s.manifestFile.value[PositionOf(s.manifestFile.value, name)].commands
                   else [])
  {
    BaseName(s, name);
    FindPluginFirst(s.answer.value, name);
    if s.localFile.Some? {
      FindPluginFirst(s.localFile.value, name);
    }
    if s.manifestFile.Some? {
      FindPluginFirst(s.manifestFile.value, name);
    }
  }
}
