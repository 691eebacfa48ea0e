/**
  The release version bump script: read `major.minor.patch` from the package
  manifest, compute the next version for a bump kind chosen on the command line,
  and record it together with a commit message and a git tag name.
  File and process effects are replaced by the values they would read or write.
 */
module VersionBump {
  import opened Wrappers
  import opened Decimal

  datatype Version = Version(major: nat, minor: nat, patch: nat)

  datatype BumpKind = Major | Minor | Patch

  /** Lexicographic order on (major, minor, patch). */
  predicate Less(a: Version, b: Version) {
    || a.major < b.major
    || (a.major == b.major && a.minor < b.minor)
    || (a.major == b.major && a.minor == b.minor && a.patch < b.patch)
  }

  /** The kind names the command line accepts. */
  const BumpTypes: seq<string> := ["major", "minor", "patch"]

  /** The `switch (type)`: "major" and "minor" select their case, every other name falls to the patch/default case. */
  function KindOf(name: string): (k: BumpKind)
    ensures k == Major <==> name == "major"
    ensures k == Minor <==> name == "minor"
  {
    if name == "major" then Major
    else if name == "minor" then Minor
    else Patch
  }

  /** The version a bump of kind `k` leads to, as a triple: the chosen component goes up by one and those after it restart at 0. */
  function Bumped(v: Version, k: BumpKind): (w: Version)
    ensures Less(v, w)
    ensures k == Major ==> w.major == v.major + 1 && w.minor == 0 && w.patch == 0
    ensures k == Minor ==> w.major == v.major && w.minor == v.minor + 1 && w.patch == 0
    ensures k == Patch ==> w.major == v.major && w.minor == v.minor && w.patch == v.patch + 1
  {
    match k
    case Major => Version(v.major + 1, 0, 0)
    case Minor => Version(v.major, v.minor + 1, 0)
    case Patch => Version(v.major, v.minor, v.patch + 1)
  }

  /** `${major}.${minor}.${patch}` */
  function FormatVersion(v: Version): string {
    NatToString(v.major) + "." + NatToString(v.minor) + "." + NatToString(v.patch)
  }

  /**
    `currentVersion.split('.').map(Number)` destructured into its first three
    numbers. Pieces after the third are never looked at. A version with fewer
    than three pieces, or a piece that is not all digits, has no value here.
   */
  function ParseVersion(s: string): (r: Option<Version>)
    ensures r.Some? ==> |Split(s, '.')| >= 3
  {
    var parts := Split(s, '.');
    if |parts| < 3 then None
    else
      match (ToNumber(parts[0]), ToNumber(parts[1]), ToNumber(parts[2]))
      case (Some(major), Some(minor), Some(patch)) => Some(Version(major, minor, patch))
      case _ => None
  }

  /** The template strings of the switch, one per case. */
  function NewVersionText(v: Version, k: BumpKind): string {
    match k
    case Major => NatToString(v.major + 1) + ".0.0"
    case Minor => NatToString(v.major) + "." + NatToString(v.minor + 1) + ".0"
    case Patch => NatToString(v.major) + "." + NatToString(v.minor) + "." + NatToString(v.patch + 1)
  }

  lemma FormattedPieces(v: Version)
    ensures Split(FormatVersion(v), '.') == [NatToString(v.major), NatToString(v.minor), NatToString(v.patch)]
  {
    var a, b, c := NatToString(v.major), NatToString(v.minor), NatToString(v.patch);
    assert '.' !in a && '.' !in b && '.' !in c by {
      assert !IsDigit('.');
    }
    SplitWithoutSeparator(c, '.');
    SplitAfterPiece(b, '.', c);
    SplitAfterPiece(a, '.', b + "." + c);
    assert FormatVersion(v) == a + ['.'] + (b + ['.'] + c);
  }

  /** Parsing a formatted version gives the same triple back. */
  lemma ParseFormat(v: Version)
    ensures ParseVersion(FormatVersion(v)) == Some(v)
  {
    FormattedPieces(v);
    ToNumberOfNatToString(v.major);
    ToNumberOfNatToString(v.minor);
    ToNumberOfNatToString(v.patch);
  }

  /** A string whose first three pieces print `v` parses to `v`. */
  lemma ParseFromPieces(s: string, v: Version)
    requires |Split(s, '.')| >= 3
    requires Split(s, '.')[0] == NatToString(v.major)
    requires Split(s, '.')[1] == NatToString(v.minor)
    requires Split(s, '.')[2] == NatToString(v.patch)
    ensures ParseVersion(s) == Some(v)
  {
    ToNumberOfNatToString(v.major);
    ToNumberOfNatToString(v.minor);
    ToNumberOfNatToString(v.patch);
  }

  lemma NoDotInNumber(n: nat)
    ensures '.' !in NatToString(n)
  {
  }

  /** Whatever follows the third piece is ignored. */
  lemma ParseIgnoresExtraPieces(v: Version, extra: string)
    ensures ParseVersion(FormatVersion(v) + "." + extra) == Some(v)
  {
    var a, b, c := NatToString(v.major), NatToString(v.minor), NatToString(v.patch);
    NoDotInNumber(v.major);
    NoDotInNumber(v.minor);
    NoDotInNumber(v.patch);
    var t3 := c + ['.'] + extra;
    var t2 := b + ['.'] + t3;
    var t1 := a + ['.'] + t2;
    assert FormatVersion(v) + "." + extra == t1;
    SplitAfterPiece(c, '.', extra);
    SplitAfterPiece(b, '.', t3);
    SplitAfterPiece(a, '.', t2);
    var rest := Split(extra, '.');
    assert Split(t1, '.') == [a] + ([b] + ([c] + rest));
    ParseFromPieces(t1, v);
  }

  /** Each template of the switch prints exactly the bumped triple. */
  lemma NewVersionTextIsBumped(v: Version, k: BumpKind)
    ensures NewVersionText(v, k) == FormatVersion(Bumped(v, k))
  {
  }

  /** The new version text reads back as a version strictly greater than the old one, with exactly three pieces. */
  lemma NewVersionTextMeaning(v: Version, k: BumpKind)
    ensures ParseVersion(NewVersionText(v, k)) == Some(Bumped(v, k))
    ensures Less(v, Bumped(v, k))
    ensures |Split(NewVersionText(v, k), '.')| == 3
  {
    NewVersionTextIsBumped(v, k);
    ParseFormat(Bumped(v, k));
    FormattedPieces(Bumped(v, k));
  }

  datatype ScriptError =
    | InvalidVersionType        // the command-line kind is not one of major, minor, patch
    | VersionNotAString         // `packageJson.version.split` throws; the script exits with status 1
    | UnparsableVersion         // a piece the template reads is not a number (the script itself would print NaN)

  /** `Number` of the `i`-th dot-separated piece; a piece that is not there is `undefined`, so not a number. */
  function PieceNumber(parts: seq<string>, i: nat): Option<nat> {
    if i < |parts| then ToNumber(parts[i]) else None
  }

  /** How many leading pieces the template of a kind reads: major only, major and minor, or all three. */
  function PiecesRead(k: BumpKind): (n: nat)
    ensures 1 <= n <= 3
  {
    match k
    case Major => 1
    case Minor => 2
    case Patch => 3
  }

  /** Every piece the template of kind `k` reads is a number. */
  predicate Readable(s: string, k: BumpKind) {
    var parts := Split(s, '.');
    forall i :: 0 <= i < PiecesRead(k) ==> PieceNumber(parts, i).Some?
  }

  /** The triple the destructuring reads, with 0 standing for a piece the template does not use. */
  function ReadTriple(s: string): Version {
    var parts := Split(s, '.');
    Version(PieceNumber(parts, 0).GetOr(0), PieceNumber(parts, 1).GetOr(0), PieceNumber(parts, 2).GetOr(0))
  }

  /** For a fully parsable version the destructuring reads exactly the parsed triple, whatever the kind. */
  lemma ParsedIsRead(s: string, k: BumpKind)
    ensures ParseVersion(s).Some? ==> Readable(s, k) && ReadTriple(s) == ParseVersion(s).value
  {
  }

  /** What one successful run writes: the manifest version, the commit message and the tag. */
  datatype Release = Release(previous: string, newVersion: string, commitMessage: string, tag: string)

  /** The bump kind chosen on the command line: a missing or empty argument means "patch". */
  function CommandLineType(arg: Option<string>): (r: Result<string, ScriptError>)
    ensures r.Ok? ==> r.value in BumpTypes
    ensures arg.None? || arg == Some("") ==> r == Ok("patch")
    ensures arg.Some? && arg.value != "" ==> (r.Ok? <==> arg.value in BumpTypes)
    ensures arg.Some? && arg.value != "" && r.Ok? ==> r.value == arg.value
    ensures r.Err? ==> r.error == InvalidVersionType
  {
    var name := if arg.None? || arg.value == "" then "patch" else arg.value;
    if name in BumpTypes then Ok(name) else Err(InvalidVersionType)
  }

  /**
    `updateVersion(type)` given the manifest's `version` property (`None` when
    it is not a string). A run succeeds exactly when the pieces its case reads
    are numbers, and the new version is the bump of what it read.
   */
  function UpdateVersion(name: string, current: Option<string>): (r: Result<Release, ScriptError>)
    ensures current.None? ==> r == Err(VersionNotAString)
    ensures current.Some? ==> (r.Ok? <==> Readable(current.value, KindOf(name)))
    ensures r.Ok? ==> r.value.previous == current.value
    ensures r.Ok? ==> r.value.newVersion == NewVersionText(ReadTriple(current.value), KindOf(name))
    ensures r.Ok? ==> ParseVersion(r.value.newVersion) == Some(Bumped(ReadTriple(current.value), KindOf(name)))
    ensures r.Ok? && ParseVersion(current.value).Some? ==>
      ParseVersion(r.value.newVersion) == Some(Bumped(ParseVersion(current.value).value, KindOf(name)))
    ensures r.Ok? ==> r.value.tag == "v" + r.value.newVersion
    ensures r.Ok? ==> r.value.commitMessage == "chore: bump version to " + r.value.newVersion
  {
    if current.None? then Err(VersionNotAString)
    else
      var k := KindOf(name);
      if !Readable(current.value, k) then Err(UnparsableVersion)
      else
        var v := ReadTriple(current.value);
        NewVersionTextMeaning(v, k);
        ParsedIsRead(current.value, k);
        var next := NewVersionText(v, k);
        Ok(Release(current.value, next, "chore: bump version to " + next, "v" + next))
  }

  /** The script as a whole: validate the command-line kind, then bump. */
  function RunScript(arg: Option<string>, current: Option<string>): (r: Result<Release, ScriptError>)
    ensures CommandLineType(arg).Err? ==> r == Err(InvalidVersionType)
    ensures (arg.Some? && arg.value != "" && arg.value !in BumpTypes) ==> r == Err(InvalidVersionType)
    ensures r.Ok? ==> current.Some? && CommandLineType(arg).Ok?
    ensures CommandLineType(arg).Ok? && current.Some? ==>
      (r.Ok? <==> Readable(current.value, KindOf(CommandLineType(arg).value)))
    ensures r.Ok? ==>
      r.value.newVersion == NewVersionText(ReadTriple(current.value), KindOf(CommandLineType(arg).value))
    ensures r.Ok? ==> r.value.tag == "v" + r.value.newVersion
  {
    var name :- CommandLineType(arg);
    UpdateVersion(name, current)
  }

  /** A successful run writes a three-piece version strictly greater than the one it read, bumped by the chosen kind. */
  lemma RunScriptBumps(arg: Option<string>, current: Option<string>)
    requires RunScript(arg, current).Ok?
    ensures var release := RunScript(arg, current).value;
      && var v := ReadTriple(release.previous);
      && var kind := KindOf(CommandLineType(arg).value);
      && ParseVersion(release.newVersion) == Some(Bumped(v, kind))
      && Less(v, Bumped(v, kind))
      && |Split(release.newVersion, '.')| == 3
  {
    NewVersionTextMeaning(ReadTriple(current.value), KindOf(CommandLineType(arg).value));
  }

  /** Without an argument the script performs a patch bump. */
  lemma DefaultIsPatch(v: Version)
    ensures RunScript(None, Some(FormatVersion(v))).Ok?
    ensures ParseVersion(RunScript(None, Some(FormatVersion(v))).value.newVersion)
         == Some(Version(v.major, v.minor, v.patch + 1))
  {
    ParseFormat(v);
    ParsedIsRead(FormatVersion(v), Patch);
    NewVersionTextMeaning(v, Patch);
  }

  /** What the destructuring reads from a version whose pieces are M, m and a tail that is not a number. */
  lemma ReadNonNumericPatchPiece(s: string, major: nat, minor: nat, tail: string)
    requires Split(s, '.') == [NatToString(major), NatToString(minor), tail]
    requires !AllDigits(tail)
    ensures Readable(s, Major) && Readable(s, Minor) && !Readable(s, Patch)
    ensures ReadTriple(s) == Version(major, minor, 0)
  {
    var pieces := Split(s, '.');
    ToNumberOfNatToString(major);
    ToNumberOfNatToString(minor);
    assert PieceNumber(pieces, 0) == Some(major);
    assert PieceNumber(pieces, 1) == Some(minor);
    assert PieceNumber(pieces, 2) == None;
  }

  lemma KindsOnCommandLine()
    ensures CommandLineType(Some("major")) == Ok("major") && KindOf("major") == Major
    ensures CommandLineType(Some("minor")) == Ok("minor") && KindOf("minor") == Minor
    ensures CommandLineType(Some("patch")) == Ok("patch") && KindOf("patch") == Patch
  {
    assert "major" in BumpTypes && "minor" in BumpTypes && "patch" in BumpTypes;
  }

  /**
    A version "M.m.tail" whose third piece is not a number, such as a
    pre-release "1.2.3-beta", still gets a major or a minor bump, because those
    cases never read the patch piece. The model refuses a patch bump, where the
    script would write "M.m.NaN".
   */
  lemma NonNumericPatchPiece(s: string, major: nat, minor: nat, tail: string)
    requires Split(s, '.') == [NatToString(major), NatToString(minor), tail]
    requires !AllDigits(tail)
    ensures RunScript(Some("major"), Some(s)).Ok?
    ensures RunScript(Some("major"), Some(s)).value.newVersion == FormatVersion(Version(major + 1, 0, 0))
    ensures RunScript(Some("minor"), Some(s)).Ok?
    ensures RunScript(Some("minor"), Some(s)).value.newVersion == FormatVersion(Version(major, minor + 1, 0))
    ensures RunScript(Some("patch"), Some(s)) == Err(UnparsableVersion)
  {
    ReadNonNumericPatchPiece(s, major, minor, tail);
    KindsOnCommandLine();
    var v := Version(major, minor, 0);
    assert RunScript(Some("major"), Some(s)) == UpdateVersion("major", Some(s));
    assert RunScript(Some("minor"), Some(s)) == UpdateVersion("minor", Some(s));
    assert RunScript(Some("patch"), Some(s)) == UpdateVersion("patch", Some(s));
    NewVersionTextIsBumped(v, Major);
    NewVersionTextIsBumped(v, Minor);
  }
}
