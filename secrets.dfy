/** The light-weight secrets collector: well-known API key names looked for
    in the `.env` file beside each OpenClaw configuration file and in the
    configuration file itself. The file system is given as two oracles. */
module Secrets {
  import opened Wrappers
  import opened Text
  import opened Values
  import opened Models
  import opened Paths

  /** What the collector may ask of the file system: whether a path is a
      regular file, and its text (`None` when reading fails). */
  datatype Files = Files(isFile: string -> bool, read: string -> Option<string>)

  const KnownKeyNames: seq<string> := [
    "OPENAI_API_KEY",
    "ANTHROPIC_API_KEY",
    "GOOGLE_API_KEY",
    "AZURE_OPENAI_API_KEY",
    "COHERE_API_KEY",
    "MISTRAL_API_KEY",
    "HUGGINGFACEHUB_API_TOKEN",
    "HF_TOKEN"
  ]

  /** The same names in lower case, for matching configuration text. */
  function KnownKeyNamesLower(): (r: seq<string>)
    ensures |r| == |KnownKeyNames| && forall k :: 0 <= k < |r| ==> r[k] == Lower(KnownKeyNames[k])
  {
    seq(|KnownKeyNames|, k requires 0 <= k < |KnownKeyNames| => Lower(KnownKeyNames[k]))
  }

  /** Every name begins with a capital letter. */
  predicate CapitalisedNames(names: seq<string>) {
    forall k :: 0 <= k < |names| ==> names[k] != [] && 'A' <= names[k][0] <= 'Z'
  }

  lemma KnownNamesAreCapitalised()
    ensures CapitalisedNames(KnownKeyNames)
  {
  }

  // ---------------------------------------------------------------------
  // `.env` files

  /** The text begins with one of `names` followed by `=`. */
  predicate AssignsOneOf(line: string, names: seq<string>) {
    exists k :: 0 <= k < |names| && StartsWith(line, names[k] + "=")
  }

  /** A stripped line that counts: not blank, not a comment, assigning one
      of `names`. */
  predicate LineAssigns(stripped: string, names: seq<string>) {
    stripped != [] && !StartsWith(stripped, "#") && AssignsOneOf(stripped, names)
  }

  /** Some line, once stripped, counts. */
  predicate SomeLineAssigns(lines: seq<string>, names: seq<string>) {
    exists i :: 0 <= i < |lines| && LineAssigns(Strip(lines[i]), names)
  }

  /** Some line of the readable file assigns a known name. */
  predicate EnvDeclaresKey(text: Option<string>) {
    text.Some? && SomeLineAssigns(Lines(text.value), KnownKeyNames)
  }

  /** The inner loop of `_scan_env_for_keys`: try the names in order. */
  method AssignsAny(stripped: string, names: seq<string>) returns (found: bool)
    ensures found == AssignsOneOf(stripped, names)
  {
    var k := 0;
    while k < |names|
      invariant 0 <= k <= |names|
      invariant forall m :: 0 <= m < k ==> !StartsWith(stripped, names[m] + "=")
    {
      if StartsWith(stripped, names[k] + "=") {
        return true;
      }
      k := k + 1;
    }
    return false;
  }

  /** One line of `_scan_env_for_keys`: blank and comment lines are
      skipped, any other line is tried against the names. */
  method CheckLine(line: string, names: seq<string>) returns (assigns: bool)
    ensures assigns == LineAssigns(Strip(line), names)
  {
    var stripped := Strip(line);
    assigns := false;
    if stripped != [] && !StartsWith(stripped, "#") {
      assigns := AssignsAny(stripped, names);
    }
  }

  /** The outer loop of `_scan_env_for_keys`: the first line that counts
      ends the search. */
  method ScanLines(lines: seq<string>, names: seq<string>) returns (found: bool)
    ensures found == SomeLineAssigns(lines, names)
  {
    var i := 0;
    while i < |lines|
      invariant 0 <= i <= |lines|
      invariant forall j :: 0 <= j < i ==> !LineAssigns(Strip(lines[j]), names)
    {
      var assigns := CheckLine(lines[i], names);
      if assigns {
        return true;
      }
      i := i + 1;
    }
    return false;
  }

  /** `_scan_env_for_keys` on the file's text; an unreadable file holds no
      key. */
  method ScanEnvForKeys(text: Option<string>) returns (found: bool)
    ensures found == EnvDeclaresKey(text)
  {
    if text.None? {
      return false;
    }
    found := ScanLines(Lines(text.value), KnownKeyNames);
  }

  /** Blank and comment lines never match capitalised names: the guard in
      front of the name test changes nothing. */
  lemma GuardIsRedundant(stripped: string, names: seq<string>)
    requires CapitalisedNames(names)
    ensures AssignsOneOf(stripped, names) ==> stripped != [] && !StartsWith(stripped, "#")
  {
    if AssignsOneOf(stripped, names) {
      var k :| 0 <= k < |names| && StartsWith(stripped, names[k] + "=");
      assert stripped[0] == (names[k] + "=")[0] == names[k][0];
    }
  }

  /** So a line counts exactly when it assigns a known name. */
  lemma LineDeclaresKeyIff(stripped: string)
    ensures LineAssigns(stripped, KnownKeyNames) == AssignsOneOf(stripped, KnownKeyNames)
  {
    KnownNamesAreCapitalised();
    GuardIsRedundant(stripped, KnownKeyNames);
  }

  /** The name must be written exactly: a lower-case spelling of a
      capitalised name does not count. */
  lemma EnvMatchIsCaseSensitive(c: char, rest: string, names: seq<string>)
    requires 'a' <= c <= 'z'
    requires CapitalisedNames(names)
    ensures !AssignsOneOf([c] + rest, names)
  {
    var line := [c] + rest;
    forall k | 0 <= k < |names|
      ensures !StartsWith(line, names[k] + "=")
    {
      var p := names[k] + "=";
      assert line[0] != p[0];
      if |p| <= |line| {
        assert line[..|p|][0] == line[0];
      }
    }
  }

  // ---------------------------------------------------------------------
  // Configuration files

  /** The text contains one of `names`. */
  predicate MentionsOneOf(text: string, names: seq<string>) {
    exists k :: 0 <= k < |names| && IsSubstring(names[k], text)
  }

  /** `_scan_file_for_key_names`: the lowered text mentions a lowered known
      name; an unreadable file mentions none. */
  predicate ConfigMentionsKey(text: Option<string>) {
    text.Some? && MentionsOneOf(Lower(text.value), KnownKeyNamesLower())
  }

  /** The configuration test ignores letter case. */
  lemma ConfigMatchIgnoresCase(text: string)
    ensures ConfigMentionsKey(Some(text)) == ConfigMentionsKey(Some(Lower(text)))
  {
    LowerIdempotent(text);
  }

  /** A known name written as is, or in any case, is found. */
  lemma ConfigMentionFound(text: string, k: nat)
    requires k < |KnownKeyNames| && IsSubstring(KnownKeyNames[k], text)
    ensures ConfigMentionsKey(Some(text))
  {
    LowerKeepsSubstring(KnownKeyNames[k], text);
    var lowered := KnownKeyNamesLower();
    assert IsSubstring(lowered[k], Lower(text));
  }

  // ---------------------------------------------------------------------
  // The scan

  /** The `.env` facts of one directory; the key test only runs on a file
      that is there. */
  function EnvFacts(dir: string, files: Files): seq<Fact> {
    var envPath := EnvFile(dir);
    var present := files.isFile(envPath);
    [Fact("secrets.env_file_present", Bool(present), "secrets_lite:" + envPath),
     Fact("secrets.api_key_in_env_file", Bool(present && EnvDeclaresKey(files.read(envPath))), "secrets_lite:" + envPath)]
  }

  function ConfigFact(configPath: string, files: Files): Fact {
    Fact("secrets.api_key_in_config", Bool(ConfigMentionsKey(files.read(configPath))), "secrets_lite:" + configPath)
  }

  /** One path's facts: its directory's `.env` facts the first time that
      directory comes up, then its own. */
  function PathFacts(configPath: string, firstInDir: bool, files: Files): seq<Fact> {
    (if firstInDir then EnvFacts(Parent(configPath), files) else []) + [ConfigFact(configPath, files)]
  }

  function SecretsFacts(paths: seq<string>, files: Files): seq<Fact> {
    if paths == [] then []
    else
      var init := paths[..|paths| - 1];
      var last := paths[|paths| - 1];
      SecretsFacts(init, files) + PathFacts(last, Parent(last) !in Dirs(init), files)
  }

  /** One pass of the scan loop. */
  method ScanPath(configPath: string, firstInDir: bool, files: Files) returns (pathFacts: seq<Fact>)
    ensures pathFacts == PathFacts(configPath, firstInDir, files)
  {
    pathFacts := [];
    if firstInDir {
      var envPath := EnvFile(Parent(configPath));
      var present := files.isFile(envPath);
      pathFacts := pathFacts + [Fact("secrets.env_file_present", Bool(present), "secrets_lite:" + envPath)];
      var inEnv := false;
      if present {
        inEnv := ScanEnvForKeys(files.read(envPath));
      }
      pathFacts := pathFacts + [Fact("secrets.api_key_in_env_file", Bool(inEnv), "secrets_lite:" + envPath)];
    }
    pathFacts := pathFacts + [ConfigFact(configPath, files)];
  }

  /** `SecretsLiteScanner.scan` */
  method Scan(configPaths: seq<string>, files: Files) returns (facts: seq<Fact>)
    ensures facts == SecretsFacts(configPaths, files)
  {
    facts := [];
    var checkedDirs: set<string> := {};
    var i := 0;
    while i < |configPaths|
      invariant 0 <= i <= |configPaths|
      invariant checkedDirs == Dirs(configPaths[..i])
      invariant facts == SecretsFacts(configPaths[..i], files)
    {
      var configPath := configPaths[i];
      var configDir := Parent(configPath);
      var first := configDir !in checkedDirs;
      if first {
        checkedDirs := checkedDirs + {configDir};
      }
      var pathFacts := ScanPath(configPath, first, files);
      assert configPaths[..i + 1][..i] == configPaths[..i];
      DirsSnoc(configPaths[..i], configPath);
      assert configPaths[..i + 1] == configPaths[..i] + [configPath];
      facts := facts + pathFacts;
      i := i + 1;
    }
    assert configPaths[..i] == configPaths;
  }

  // ---------------------------------------------------------------------
  // Properties

  /** A missing `.env` is reported as holding no key. */
  lemma MissingEnvHoldsNoKey(dir: string, files: Files)
    requires !files.isFile(EnvFile(dir))
    ensures EnvFacts(dir, files)[0].value == Bool(false) && EnvFacts(dir, files)[1].value == Bool(false)
  {
  }

  /** An unreadable file counts as holding no key. */
  lemma UnreadableHoldsNoKey()
    ensures !EnvDeclaresKey(None) && !ConfigMentionsKey(None)
  {
  }

  /** The configuration facts, one per path in order. */
  function ConfigFacts(paths: seq<string>, files: Files): (r: seq<Fact>)
    ensures |r| == |paths|
  {
    if paths == [] then [] else ConfigFacts(paths[..|paths| - 1], files) + [ConfigFact(paths[|paths| - 1], files)]
  }

  /** Exactly one `secrets.api_key_in_config` fact per path, in path order. */
  lemma {:induction false} OneConfigFactPerPath(paths: seq<string>, files: Files)
    ensures WithKey(SecretsFacts(paths, files), "secrets.api_key_in_config") == ConfigFacts(paths, files)
  {
    if paths != [] {
      var init := paths[..|paths| - 1];
      var last := paths[|paths| - 1];
      OneConfigFactPerPath(init, files);
      var first := Parent(last) !in Dirs(init);
      var env := if first then EnvFacts(Parent(last), files) else [];
      WithKeyConcat(SecretsFacts(init, files), PathFacts(last, first, files), "secrets.api_key_in_config");
      WithKeyConcat(env, [ConfigFact(last, files)], "secrets.api_key_in_config");
      if first {
        assert WithKey(env, "secrets.api_key_in_config") == [];
      }
    }
  }

  /** A path adds one of each `.env` fact exactly when its directory is
      new. */
  lemma PathEnvFactCount(configPath: string, firstInDir: bool, files: Files, key: string)
    requires key == "secrets.env_file_present" || key == "secrets.api_key_in_env_file"
    ensures |WithKey(PathFacts(configPath, firstInDir, files), key)| == if firstInDir then 1 else 0
  {
    var env := if firstInDir then EnvFacts(Parent(configPath), files) else [];
    WithKeyConcat(env, [ConfigFact(configPath, files)], key);
    assert WithKey([ConfigFact(configPath, files)], key) == [];
    if firstInDir {
      var e := EnvFacts(Parent(configPath), files);
      assert e[..1] == [e[0]];
      WithKeyConcat([e[0]], [e[1]], key);
      assert [e[0]] + [e[1]] == e;
    }
  }

  /** Each of the two `.env` facts comes once per distinct directory. */
  lemma {:induction false} EnvFactsOncePerDirectory(paths: seq<string>, files: Files, key: string)
    requires key == "secrets.env_file_present" || key == "secrets.api_key_in_env_file"
    ensures |WithKey(SecretsFacts(paths, files), key)| == |Dirs(paths)|
  {
    if paths != [] {
      var init := paths[..|paths| - 1];
      var last := paths[|paths| - 1];
      EnvFactsOncePerDirectory(init, files, key);
      assert init + [last] == paths;
      DirsCount(init, last);
      var first := Parent(last) !in Dirs(init);
      WithKeyConcat(SecretsFacts(init, files), PathFacts(last, first, files), key);
      PathEnvFactCount(last, first, files, key);
    }
  }

  /** Every fact is attributed to the collector. */
  lemma {:induction false} SourcesArePrefixed(paths: seq<string>, files: Files)
    ensures forall k :: 0 <= k < |SecretsFacts(paths, files)| ==> StartsWith(SecretsFacts(paths, files)[k].source, "secrets_lite:")
  {
    if paths != [] {
      var init := paths[..|paths| - 1];
      SourcesArePrefixed(init, files);
      var last := paths[|paths| - 1];
      var facts := PathFacts(last, Parent(last) !in Dirs(init), files);
      assert forall k :: 0 <= k < |facts| ==> StartsWith(facts[k].source, "secrets_lite:");
    }
  }

  /** One path's facts end with its config fact, after its directory's two
      `.env` facts when that directory is new. */
  lemma PathFactsShape(configPath: string, firstInDir: bool, files: Files)
    ensures var own := PathFacts(configPath, firstInDir, files);
            own[|own| - 1] == ConfigFact(configPath, files)
            && (firstInDir ==> |own| == 3 && own[..2] == EnvFacts(Parent(configPath), files))
            && (!firstInDir ==> |own| == 1)
  {
  }

  /** A further path appends its own facts to those of the paths before. */
  lemma SecretsFactsSnoc(paths: seq<string>, p: string, first: bool, files: Files)
    requires first == (Parent(p) !in Dirs(paths))
    ensures SecretsFacts(paths + [p], files) == SecretsFacts(paths, files) + PathFacts(p, first, files)
  {
    var ps := paths + [p];
    assert ps[..|ps| - 1] == paths && ps[|ps| - 1] == p;
  }

  /** A further path leaves the earlier facts in place and appends its
      directory's `.env` facts, when that directory is new, before its own
      config fact. */
  lemma ConfigFactClosesPath(paths: seq<string>, p: string, files: Files)
    ensures |SecretsFacts(paths, files)| < |SecretsFacts(paths + [p], files)|
    ensures SecretsFacts(paths + [p], files)[..|SecretsFacts(paths, files)|] == SecretsFacts(paths, files)
    ensures SecretsFacts(paths + [p], files)[|SecretsFacts(paths + [p], files)| - 1] == ConfigFact(p, files)
    ensures Parent(p) !in Dirs(paths) ==>
              |SecretsFacts(paths + [p], files)| == |SecretsFacts(paths, files)| + 3
              && SecretsFacts(paths + [p], files)[|SecretsFacts(paths, files)|..|SecretsFacts(paths, files)| + 2] == EnvFacts(Parent(p), files)
    ensures Parent(p) in Dirs(paths) ==> |SecretsFacts(paths + [p], files)| == |SecretsFacts(paths, files)| + 1
  {
    var first := Parent(p) !in Dirs(paths);
    SecretsFactsSnoc(paths, p, first, files);
    PathFactsShape(p, first, files);
    AppendParts(SecretsFacts(paths, files), PathFacts(p, first, files), if first then 2 else 0);
  }
}
