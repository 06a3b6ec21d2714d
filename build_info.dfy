/** The binding's version strings (mmtk/src/build_info.rs).

    The build facts (package version, git commit hash, dirty flag) and the
    core's own build information are inputs; the formatter is pure. */
module BuildInfo {
  import opened Wrappers

  /** The fixed start of every binding version string. */
  const Prefix: string := "MMTk OpenJDK "

  /** The number of hash characters shown. */
  const ShortHashLength: nat := 7

  /** What the git metadata of the build says: the commit hash and whether
      the work tree was dirty, each possibly unknown. */
  datatype GitInfo = GitInfo(hash: Option<string>, dirty: Option<bool>)

  /** The suffix after the short hash: "-dirty", nothing, or "-?" when the
      dirty flag is unknown. */
  function DirtySuffix(dirty: Option<bool>): string {
    match dirty
    case Some(true) => "-dirty"
    case Some(false) => ""
    case None => "-?"
  }

  /** BINDING_VERSION_STRING: "MMTk OpenJDK <ver>", followed, when the hash
      is known, by " (<first 7 of hash><suffix>)".  `split_at(7)` panics on
      a hash shorter than 7 characters. */
  function BindingVersionString(pkgVersion: string, git: GitInfo): (r: Result<string>)
    ensures r.Panic? <==> git.hash.Some? && |git.hash.value| < ShortHashLength
    ensures r.Ok? ==> |Prefix + pkgVersion| <= |r.value| && r.value[..|Prefix + pkgVersion|] == Prefix + pkgVersion
  {
    match git.hash
    case None => Ok(Prefix + pkgVersion)
    case Some(hash) =>
      if |hash| < ShortHashLength then Panic("byte index 7 is out of bounds")
      else
        var r := Prefix + pkgVersion + " (" + hash[..ShortHashLength] + DirtySuffix(git.dirty) + ")";
        assert r == (Prefix + pkgVersion) + (" (" + hash[..ShortHashLength] + DirtySuffix(git.dirty) + ")");
        Ok(r)
  }

  /** What a version string says about the build: no hash, or the short
      hash and the dirty flag. */
  datatype Described = NoHash | Hash(short: string, dirty: Option<bool>)

  /** Read back the part of a version string after "MMTk OpenJDK <ver>". */
  function ParseBuildSuffix(rest: string): Option<Described> {
    if rest == [] then Some(NoHash)
    else if |rest| < 3 + ShortHashLength || rest[..2] != " (" || rest[|rest| - 1] != ')' then None
    else
      var inner := rest[2..|rest| - 1];
      var sfx := inner[ShortHashLength..];
      var short := inner[..ShortHashLength];
      if sfx == "-dirty" then Some(Hash(short, Some(true)))
      else if sfx == [] then Some(Hash(short, Some(false)))
      else if sfx == "-?" then Some(Hash(short, None))
      else None
  }

  /** Read back a version string built for package version `pkgVersion`. */
  function ParseVersionString(pkgVersion: string, s: string): Option<Described> {
    var p := Prefix + pkgVersion;
    if |s| < |p| || s[..|p|] != p then None else ParseBuildSuffix(s[|p|..])
  }

  /** The suffixes "-dirty", "" and "-?" read back as the flag they encode. */
  lemma DirtySuffixParses(short: string, dirty: Option<bool>)
    requires |short| == ShortHashLength
    ensures ParseBuildSuffix(" (" + short + DirtySuffix(dirty) + ")") == Some(Hash(short, dirty))
  {
    var rest := " (" + short + DirtySuffix(dirty) + ")";
    var inner := rest[2..|rest| - 1];
    assert inner == short + DirtySuffix(dirty);
    assert inner[..ShortHashLength] == short;
    assert inner[ShortHashLength..] == DirtySuffix(dirty);
  }

  /** The version string records exactly the first seven characters of the
      hash and the dirty flag: reading it back gives them, and nothing when
      there is no hash (a dirty flag without a hash is not shown). */
  lemma VersionStringRoundTrip(pkgVersion: string, git: GitInfo)
    requires git.hash.Some? ==> |git.hash.value| >= ShortHashLength
    ensures BindingVersionString(pkgVersion, git).Ok?
    ensures ParseVersionString(pkgVersion, BindingVersionString(pkgVersion, git).value) ==
      if git.hash.None? then Some(NoHash) else Some(Hash(git.hash.value[..ShortHashLength], git.dirty))
  {
    var p := Prefix + pkgVersion;
    var s := BindingVersionString(pkgVersion, git).value;
    match git.hash {
      case None =>
        assert s[|p|..] == [];
      case Some(hash) =>
        var rest := " (" + hash[..ShortHashLength] + DirtySuffix(git.dirty) + ")";
        assert s == p + rest;
        assert s[|p|..] == rest;
        DirtySuffixParses(hash[..ShortHashLength], git.dirty);
    }
  }

  /** Two builds of the same package version get the same string only when
      they agree on the short hash and the dirty flag. */
  lemma VersionStringInjective(pkgVersion: string, g1: GitInfo, g2: GitInfo)
    requires g1.hash.Some? && |g1.hash.value| >= ShortHashLength
    requires g2.hash.Some? && |g2.hash.value| >= ShortHashLength
    requires BindingVersionString(pkgVersion, g1) == BindingVersionString(pkgVersion, g2)
    ensures g1.hash.value[..ShortHashLength] == g2.hash.value[..ShortHashLength]
    ensures g1.dirty == g2.dirty
  {
    VersionStringRoundTrip(pkgVersion, g1);
    VersionStringRoundTrip(pkgVersion, g2);
  }

  /** MMTK_OPENJDK_FULL_VERSION_STRING: the binding string, ", using ", and
      the core's build information. */
  function FullVersionString(binding: string, coreBuildInfo: string): (r: string)
    ensures |r| == |binding| + 8 + |coreBuildInfo|
    ensures r[..|binding|] == binding && r[|binding| + 8..] == coreBuildInfo
  {
    var r := binding + ", using " + coreBuildInfo;
    assert r == binding + (", using " + coreBuildInfo);
    r
  }
}
