/** The file permissions collector: whether each OpenClaw configuration
    file, and the `.env` file beside it, can be written or read by every
    user of the machine. The file system and the platform are given as a
    probe. */
module Permissions {
  import opened Wrappers
  import opened Text
  import opened Values
  import opened Models
  import opened Paths

  /** What the collector may ask: whether the platform is POSIX (`os.name
      != "nt"`), whether a path is a regular file, and a path's `st_mode`
      (`None` when `stat` fails). */
  datatype Probe = Probe(posix: bool, isFile: string -> bool, stat: string -> Option<nat>)

  // ---------------------------------------------------------------------
  // Mode bits

  /** Bit `k` of `mode`, that is `mode & (1 << k) != 0`. */
  predicate Bit(mode: nat, k: nat) {
    if k == 0 then mode % 2 == 1 else Bit(mode / 2, k - 1)
  }

  /** `stat.S_IROTH == 1 << 2` and `stat.S_IWOTH == 1 << 1`. */
  const OtherReadBit: nat := 2
  const OtherWriteBit: nat := 1

  /** `_get_mode`: no mode off POSIX, otherwise what `stat` gives. */
  function GetMode(probe: Probe, path: string): Option<nat> {
    if !probe.posix then None else probe.stat(path)
  }

  /** `_is_world_readable`: an unknown mode is not world-readable. */
  predicate IsWorldReadable(mode: Option<nat>) {
    mode.Some? && Bit(mode.value, OtherReadBit)
  }

  /** `_is_world_writable`: an unknown mode is not world-writable. */
  predicate IsWorldWritable(mode: Option<nat>) {
    mode.Some? && Bit(mode.value, OtherWriteBit)
  }

  /** Read through the last octal digit of the mode, the permissions of
      "other": read is 4 in that digit, write is 2. */
  lemma OtherTriad(mode: nat)
    ensures IsWorldReadable(Some(mode)) <==> mode % 8 >= 4
    ensures IsWorldWritable(Some(mode)) <==> mode % 8 in {2, 3, 6, 7}
  {
    var q := mode / 8;
    var r := mode % 8;
    assert mode == 8 * q + r;
    assert mode / 2 == 4 * q + r / 2;
    assert (mode / 2) / 2 == 2 * q + r / 4;
    assert Bit(mode, OtherReadBit) == Bit(mode / 2, 1) == Bit((mode / 2) / 2, 0);
    assert Bit(mode, OtherWriteBit) == Bit(mode / 2, 0);
  }

  /** The file type and the owner's and group's permissions do not matter. */
  lemma OnlyOtherTriadMatters(mode: nat)
    ensures IsWorldReadable(Some(mode)) == IsWorldReadable(Some(mode % 8))
    ensures IsWorldWritable(Some(mode)) == IsWorldWritable(Some(mode % 8))
  {
    OtherTriad(mode);
    OtherTriad(mode % 8);
  }

  /** Regular files with modes 0o644, 0o600, 0o666 and 0o602. */
  lemma TypicalModes()
    ensures IsWorldReadable(Some(0x81A4)) && !IsWorldWritable(Some(0x81A4))
    ensures !IsWorldReadable(Some(0x8180)) && !IsWorldWritable(Some(0x8180))
    ensures IsWorldReadable(Some(0x81B6)) && IsWorldWritable(Some(0x81B6))
    ensures !IsWorldReadable(Some(0x8182)) && IsWorldWritable(Some(0x8182))
  {
    OtherTriad(0x81A4);
    OtherTriad(0x8180);
    OtherTriad(0x81B6);
    OtherTriad(0x8182);
  }

  // ---------------------------------------------------------------------
  // The scan

  function Source(path: string): string {
    "file_permissions:" + path
  }

  /** The configuration file is only checked for being world-writable. */
  function ConfigPermFact(configPath: string, probe: Probe): Fact {
    Fact("files.config_world_writable", Bool(IsWorldWritable(GetMode(probe, configPath))), Source(configPath))
  }

  /** The two `.env` facts of one directory. */
  function EnvPair(envPath: string, readable: bool, writable: bool): seq<Fact> {
    [Fact("files.env_world_readable", Bool(readable), Source(envPath)),
     Fact("files.env_world_writable", Bool(writable), Source(envPath))]
  }

  /** The `.env` facts of one directory; a `.env` that is not a regular file
      is reported as neither readable nor writable. */
  function EnvPermFacts(dir: string, probe: Probe): seq<Fact> {
    var envPath := EnvFile(dir);
    if probe.isFile(envPath) then
      var mode := GetMode(probe, envPath);
      EnvPair(envPath, IsWorldReadable(mode), IsWorldWritable(mode))
    else
      EnvPair(envPath, false, false)
  }

  /** One path's facts: its own, then its directory's `.env` facts the first
      time that directory comes up. */
  function PathPermFacts(configPath: string, firstInDir: bool, probe: Probe): seq<Fact> {
    [ConfigPermFact(configPath, probe)] + (if firstInDir then EnvPermFacts(Parent(configPath), probe) else [])
  }

  function PermissionFacts(paths: seq<string>, probe: Probe): seq<Fact> {
    if paths == [] then []
    else
      var init := paths[..|paths| - 1];
      var last := paths[|paths| - 1];
      PermissionFacts(init, probe) + PathPermFacts(last, Parent(last) !in Dirs(init), probe)
  }

  /** A further path appends its own facts to those of the paths before. */
  lemma PermissionFactsSnoc(paths: seq<string>, p: string, first: bool, probe: Probe)
    requires first == (Parent(p) !in Dirs(paths))
    ensures PermissionFacts(paths + [p], probe) == PermissionFacts(paths, probe) + PathPermFacts(p, first, probe)
  {
    var ps := paths + [p];
    assert ps[..|ps| - 1] == paths && ps[|ps| - 1] == p;
  }

  /** One pass of the scan loop. */
  method ScanPath(configPath: string, firstInDir: bool, probe: Probe) returns (pathFacts: seq<Fact>)
    ensures pathFacts == PathPermFacts(configPath, firstInDir, probe)
  {
    var mode := GetMode(probe, configPath);
    pathFacts := [Fact("files.config_world_writable", Bool(IsWorldWritable(mode)), Source(configPath))];
    if firstInDir {
      var envPath := EnvFile(Parent(configPath));
      var readable := false;
      var writable := false;
      if probe.isFile(envPath) {
        var envMode := GetMode(probe, envPath);
        readable := IsWorldReadable(envMode);
        writable := IsWorldWritable(envMode);
      }
      pathFacts := pathFacts + [Fact("files.env_world_readable", Bool(readable), Source(envPath))];
      pathFacts := pathFacts + [Fact("files.env_world_writable", Bool(writable), Source(envPath))];
      assert pathFacts == [pathFacts[0]] + EnvPair(envPath, readable, writable);
    }
  }

  /** `FilePermissionsScanner.scan` */
  method Scan(configPaths: seq<string>, probe: Probe) returns (facts: seq<Fact>)
    ensures facts == PermissionFacts(configPaths, probe)
  {
    facts := [];
    var checkedDirs: set<string> := {};
    var i := 0;
    while i < |configPaths|
      invariant 0 <= i <= |configPaths|
      invariant checkedDirs == Dirs(configPaths[..i])
      invariant facts == PermissionFacts(configPaths[..i], probe)
    {
      assert configPaths[..i + 1] == configPaths[..i] + [configPaths[i]];
      facts, checkedDirs := ScanNext(configPaths[..i], configPaths[i], facts, checkedDirs, probe);
      i := i + 1;
    }
    assert configPaths[..i] == configPaths;
  }

  /** The loop's bookkeeping for one path: the directory is new exactly when
      it is not among those checked so far. */
  method ScanNext(done: seq<string>, configPath: string, facts: seq<Fact>, checkedDirs: set<string>, probe: Probe)
    returns (facts': seq<Fact>, checkedDirs': set<string>)
    requires checkedDirs == Dirs(done)
    requires facts == PermissionFacts(done, probe)
    ensures checkedDirs' == Dirs(done + [configPath])
    ensures facts' == PermissionFacts(done + [configPath], probe)
  {
    var configDir := Parent(configPath);
    var first := configDir !in checkedDirs;
    checkedDirs' := checkedDirs;
    if first {
      checkedDirs' := checkedDirs + {configDir};
    }
    var pathFacts := ScanPath(configPath, first, probe);
    DirsSnoc(done, configPath);
    PermissionFactsSnoc(done, configPath, first, probe);
    facts' := facts + pathFacts;
  }

  // ---------------------------------------------------------------------
  // Properties

  /** A `.env` that is not there is reported as not exposed. */
  lemma AbsentEnvIsNotExposed(dir: string, probe: Probe)
    requires !probe.isFile(EnvFile(dir))
    ensures forall k :: 0 <= k < |EnvPermFacts(dir, probe)| ==> EnvPermFacts(dir, probe)[k].value == Bool(false)
  {
  }

  /** The configuration facts, one per path in order. */
  function ConfigPermFacts(paths: seq<string>, probe: Probe): (r: seq<Fact>)
    ensures |r| == |paths|
  {
    if paths == [] then [] else ConfigPermFacts(paths[..|paths| - 1], probe) + [ConfigPermFact(paths[|paths| - 1], probe)]
  }

  /** Each `.env` key occurs once in a directory's `.env` facts, and no
      other key does. */
  lemma EnvPairKeys(envPath: string, readable: bool, writable: bool, key: string)
    ensures |WithKey(EnvPair(envPath, readable, writable), key)| == if key == "files.env_world_readable" || key == "files.env_world_writable" then 1 else 0
  {
    var e := EnvPair(envPath, readable, writable);
    assert e[..1] == [e[0]];
    assert e[..1][..0] == [];
  }

  /** Exactly one `files.config_world_writable` fact per path, in path
      order. */
  lemma {:induction false} OneConfigFactPerPath(paths: seq<string>, probe: Probe)
    ensures WithKey(PermissionFacts(paths, probe), "files.config_world_writable") == ConfigPermFacts(paths, probe)
  {
    if paths != [] {
      var init := paths[..|paths| - 1];
      var last := paths[|paths| - 1];
      OneConfigFactPerPath(init, probe);
      var first := Parent(last) !in Dirs(init);
      var env := if first then EnvPermFacts(Parent(last), probe) else [];
      WithKeyConcat(PermissionFacts(init, probe), PathPermFacts(last, first, probe), "files.config_world_writable");
      WithKeyConcat([ConfigPermFact(last, probe)], env, "files.config_world_writable");
      assert [ConfigPermFact(last, probe)][..0] == [];
      if first {
        EnvPermKeys(Parent(last), probe, "files.config_world_writable");
      }
    }
  }

  lemma EnvPermKeys(dir: string, probe: Probe, key: string)
    ensures |WithKey(EnvPermFacts(dir, probe), key)| == if key == "files.env_world_readable" || key == "files.env_world_writable" then 1 else 0
  {
    var envPath := EnvFile(dir);
    var mode := GetMode(probe, envPath);
    if probe.isFile(envPath) {
      EnvPairKeys(envPath, IsWorldReadable(mode), IsWorldWritable(mode), key);
    } else {
      EnvPairKeys(envPath, false, false, key);
    }
  }

  /** A path adds one of each `.env` fact exactly when its directory is
      new. */
  lemma PathEnvFactCount(configPath: string, firstInDir: bool, probe: Probe, key: string)
    requires key == "files.env_world_readable" || key == "files.env_world_writable"
    ensures |WithKey(PathPermFacts(configPath, firstInDir, probe), key)| == if firstInDir then 1 else 0
  {
    var env := if firstInDir then EnvPermFacts(Parent(configPath), probe) else [];
    WithKeyConcat([ConfigPermFact(configPath, probe)], env, key);
    assert [ConfigPermFact(configPath, probe)][..0] == [];
    if firstInDir {
      EnvPermKeys(Parent(configPath), probe, key);
    }
  }

  /** Each of the two `.env` facts comes once per distinct directory. */
  lemma {:induction false} EnvFactsOncePerDirectory(paths: seq<string>, probe: Probe, key: string)
    requires key == "files.env_world_readable" || key == "files.env_world_writable"
    ensures |WithKey(PermissionFacts(paths, probe), key)| == |Dirs(paths)|
  {
    if paths != [] {
      EnvFactsOncePerDirectory(paths[..|paths| - 1], probe, key);
      EnvFactsStep(paths, probe, key);
    }
  }

  /** The induction step: the last path adds one `.env` fact of each kind
      exactly when it adds a directory. */
  lemma EnvFactsStep(paths: seq<string>, probe: Probe, key: string)
    requires key == "files.env_world_readable" || key == "files.env_world_writable"
    requires paths != []
    requires |WithKey(PermissionFacts(paths[..|paths| - 1], probe), key)| == |Dirs(paths[..|paths| - 1])|
    ensures |WithKey(PermissionFacts(paths, probe), key)| == |Dirs(paths)|
  {
    var init := paths[..|paths| - 1];
    var last := paths[|paths| - 1];
    assert init + [last] == paths;
    DirsCount(init, last);
    var first := Parent(last) !in Dirs(init);
    WithKeyConcat(PermissionFacts(init, probe), PathPermFacts(last, first, probe), key);
    PathEnvFactCount(last, first, probe, key);
  }

  /** Off POSIX every permission fact is false. */
  lemma {:induction false} NonPosixReportsNothing(paths: seq<string>, probe: Probe)
    requires !probe.posix
    ensures forall k :: 0 <= k < |PermissionFacts(paths, probe)| ==> PermissionFacts(paths, probe)[k].value == Bool(false)
  {
    if paths != [] {
      var init := paths[..|paths| - 1];
      NonPosixReportsNothing(init, probe);
      var last := paths[|paths| - 1];
      var facts := PathPermFacts(last, Parent(last) !in Dirs(init), probe);
      assert forall k :: 0 <= k < |facts| ==> facts[k].value == Bool(false);
    }
  }

  /** Every fact is attributed to the collector. */
  lemma {:induction false} SourcesArePrefixed(paths: seq<string>, probe: Probe)
    ensures forall k :: 0 <= k < |PermissionFacts(paths, probe)| ==> StartsWith(PermissionFacts(paths, probe)[k].source, "file_permissions:")
  {
    if paths != [] {
      var init := paths[..|paths| - 1];
      SourcesArePrefixed(init, probe);
      var last := paths[|paths| - 1];
      var facts := PathPermFacts(last, Parent(last) !in Dirs(init), probe);
      assert forall k :: 0 <= k < |facts| ==> StartsWith(facts[k].source, "file_permissions:");
    }
  }

  /** A further path leaves the earlier facts in place and appends its own
      config fact, followed by its directory's `.env` facts when that
      directory is new. */
  lemma ConfigFactOpensPath(paths: seq<string>, p: string, probe: Probe)
    ensures var facts := PermissionFacts(paths + [p], probe);
            var n := |PermissionFacts(paths, probe)|;
            n < |facts| && facts[..n] == PermissionFacts(paths, probe)
            && facts[n] == ConfigPermFact(p, probe)
            && (Parent(p) !in Dirs(paths) ==> facts[n + 1..] == EnvPermFacts(Parent(p), probe))
            && (Parent(p) in Dirs(paths) ==> |facts| == n + 1)
  {
    var first := Parent(p) !in Dirs(paths);
    PermissionFactsSnoc(paths, p, first, probe);
    AppendParts(PermissionFacts(paths, probe), PathPermFacts(p, first, probe), 1);
  }
}
