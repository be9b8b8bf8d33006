/** The OpenClaw configuration collector: two settings read from each
    already-parsed configuration document, normalised, and reported as
    facts attributed to the file they came from. */
module OpenClawConfig {
  import opened Wrappers
  import opened Text
  import opened Values
  import opened Models

  /** One configuration file: its path and what the YAML loader returned. */
  datatype ConfigFile = ConfigFile(path: string, loaded: Value)

  // ---------------------------------------------------------------------
  // `str(v)`

  /** `str(v)`: a string is itself, anything else its representation. */
  function PyStr(v: Value): string {
    if v.Str? then v.s else Repr(v)
  }

  /** `repr(v)`, with strings quoted by single quotes. */
  function Repr(v: Value): string
    decreases Size(v), 1
  {
    match v
    case Null => "None"
    case Bool(b) => if b then "True" else "False"
    case Int(i) => IntToString(i)
    case Str(s) => "'" + s + "'"
    case List(xs) =>
      assert forall k :: 0 <= k < |xs| ==> Size(xs[k]) < Size(v) by {
        forall k | 0 <= k < |xs| ensures Size(xs[k]) < Size(v) { ItemSmaller(xs, k); }
      }
      "[" + ReprItems(xs, Size(v)) + "]"
    case Dict(es) =>
      assert forall k :: 0 <= k < |es| ==> Size(es[k].1) < Size(v) by {
        forall k | 0 <= k < |es| ensures Size(es[k].1) < Size(v) { EntrySmaller(es, k); }
      }
      "{" + ReprEntries(es, Size(v)) + "}"
  }

  function ReprItems(xs: seq<Value>, bound: nat): string
    requires forall k :: 0 <= k < |xs| ==> Size(xs[k]) < bound
    decreases bound, 0, |xs|
  {
    if xs == [] then []
    else if |xs| == 1 then Repr(xs[0])
    else Repr(xs[0]) + ", " + ReprItems(xs[1..], bound)
  }

  function ReprEntries(es: seq<(string, Value)>, bound: nat): string
    requires forall k :: 0 <= k < |es| ==> Size(es[k].1) < bound
    decreases bound, 0, |es|
  {
    if es == [] then []
    else
      var entry := "'" + es[0].0 + "': " + Repr(es[0].1);
      if |es| == 1 then entry else entry + ", " + ReprEntries(es[1..], bound)
  }

  // ---------------------------------------------------------------------
  // Normalisation

  /** `_normalize_bind_address`: the text of the value, whitespace trimmed. */
  function NormalizeBindAddress(v: Value): (r: string)
    ensures r == [] || (!IsSpace(r[0]) && !IsSpace(r[|r| - 1]))
    ensures v.Str? ==> r == Strip(v.s)
  {
    Strip(PyStr(v))
  }

  /** A bind address written as a number, a boolean or null becomes the text
      `str()` gives it: `8080` becomes `"8080"`. */
  lemma NormalizeBindAddressOfScalar(v: Value)
    requires v.Int? || v.Bool? || v.Null?
    ensures v.Int? ==> NormalizeBindAddress(v) == IntToString(v.i)
    ensures v.Bool? ==> NormalizeBindAddress(v) == (if v.b then "True" else "False")
    ensures v.Null? ==> NormalizeBindAddress(v) == "None"
  {
    StripOfTrimmed(PyStr(v));
  }

  const TrueWords: set<string> := {"true", "1", "yes"}
  const FalseWords: set<string> := {"false", "0", "no"}

  /** `_normalize_bool`: booleans stay, the usual spellings of true and
      false become booleans, anything else passes through. */
  function NormalizeBool(v: Value): (r: Value)
    ensures r.Bool? || r == v
    ensures v.Bool? ==> r == v
    ensures !v.Str? ==> r == v
  {
    if v.Bool? then v
    else if v.Str? then
      var lowered := Lower(Strip(v.s));
      if lowered in TrueWords then Bool(true)
      else if lowered in FalseWords then Bool(false)
      else v
    else v
  }

  // ---------------------------------------------------------------------
  // Dotted lookup

  /** Where a dotted path leads: `Null` as soon as a step leaves the
      dictionaries or finds nothing (a missing key and an explicit null are
      the same `None`). */
  function Resolve(current: Value, path: seq<string>): Value
    decreases |path|
  {
    if path == [] then current
    else if !current.Dict? then Null
    else
      var next := Lookup(current.entries, path[0]).GetOr(Null);
      if next == Null then Null else Resolve(next, path[1..])
  }

  /** `_deep_get`: walk the segments of `dottedKey` one by one. */
  method DeepGet(d: Value, dottedKey: string) returns (r: Value)
    ensures r == Resolve(d, Split(dottedKey, '.'))
  {
    var keys := Split(dottedKey, '.');
    var current := d;
    var i := 0;
    while i < |keys|
      invariant 0 <= i <= |keys|
      invariant current != Null || i == 0
      invariant Resolve(current, keys[i..]) == Resolve(d, keys)
    {
      if !current.Dict? {
        return Null;
      }
      current := Lookup(current.entries, keys[i]).GetOr(Null);
      if current == Null {
        return Null;
      }
      i := i + 1;
    }
    r := current;
  }

  const BindAddressKey := "server.bind_address"
  const AuthEnabledKey := "auth.enabled"

  const BindAddressPath: seq<string> := ["server", "bind_address"]
  const AuthEnabledPath: seq<string> := ["auth", "enabled"]

  lemma BindAddressSplits()
    ensures Split(BindAddressKey, '.') == BindAddressPath
  {
    assert Join(["server", "bind_address"], ".") == BindAddressKey;
    SplitJoin(["server", "bind_address"], '.');
  }

  lemma AuthEnabledSplits()
    ensures Split(AuthEnabledKey, '.') == AuthEnabledPath
  {
    assert Join(["auth", "enabled"], ".") == AuthEnabledKey;
    SplitJoin(["auth", "enabled"], '.');
  }

  // ---------------------------------------------------------------------
  // The scan

  /** `yaml.safe_load(f) or {}` */
  function Effective(loaded: Value): Value {
    if Truthy(loaded) then loaded else Dict([])
  }

  /** The bind-address fact of one document, if the setting is there. */
  function BindFacts(config: Value, source: string): seq<Fact> {
    var bind := Resolve(config, BindAddressPath);
    if bind != Null then [Fact("network.bind_address", Str(NormalizeBindAddress(bind)), source)] else []
  }

  /** The authentication fact of one document, if the setting is there. */
  function AuthFacts(config: Value, source: string): seq<Fact> {
    var auth := Resolve(config, AuthEnabledPath);
    if auth != Null then [Fact("runtime.auth_enabled", NormalizeBool(auth), source)] else []
  }

  /** The facts one file contributes: the bind address if set, then the
      authentication switch if set. */
  function FileFacts(file: ConfigFile): seq<Fact> {
    var config := Effective(file.loaded);
    var source := "openclaw_config:" + file.path;
    BindFacts(config, source) + AuthFacts(config, source)
  }

  /** The facts of all files, file by file in order. */
  function ConfigFacts(files: seq<ConfigFile>): seq<Fact> {
    if files == [] then [] else ConfigFacts(files[..|files| - 1]) + FileFacts(files[|files| - 1])
  }

  /** One pass of the scan loop. */
  method ScanFile(file: ConfigFile) returns (fileFacts: seq<Fact>)
    ensures fileFacts == FileFacts(file)
  {
    var config := Effective(file.loaded);
    var source := "openclaw_config:" + file.path;
    var bindFacts := ReadBindAddress(config, source);
    var authFacts := ReadAuthEnabled(config, source);
    fileFacts := bindFacts + authFacts;
  }

  method ReadBindAddress(config: Value, source: string) returns (facts: seq<Fact>)
    ensures facts == BindFacts(config, source)
  {
    facts := [];
    var bind := DeepGet(config, BindAddressKey);
    BindAddressSplits();
    if bind != Null {
      facts := facts + [Fact("network.bind_address", Str(NormalizeBindAddress(bind)), source)];
    }
  }

  method ReadAuthEnabled(config: Value, source: string) returns (facts: seq<Fact>)
    ensures facts == AuthFacts(config, source)
  {
    facts := [];
    var auth := DeepGet(config, AuthEnabledKey);
    AuthEnabledSplits();
    if auth != Null {
      facts := facts + [Fact("runtime.auth_enabled", NormalizeBool(auth), source)];
    }
  }

  /** `OpenClawConfigScanner.scan` over already-loaded files. */
  method Scan(files: seq<ConfigFile>) returns (facts: seq<Fact>)
    ensures facts == ConfigFacts(files)
  {
    facts := [];
    var i := 0;
    while i < |files|
      invariant 0 <= i <= |files|
      invariant facts == ConfigFacts(files[..i])
    {
      var fileFacts := ScanFile(files[i]);
      assert files[..i + 1][..i] == files[..i];
      facts := facts + fileFacts;
      i := i + 1;
    }
    assert files[..i] == files;
  }

  // ---------------------------------------------------------------------
  // Properties

  /** Resolution runs one segment at a time: a path splits anywhere. */
  lemma {:induction false} ResolveConcat(d: Value, p: seq<string>, q: seq<string>)
    ensures Resolve(d, p + q) == if p != [] && Resolve(d, p) == Null then Null else Resolve(Resolve(d, p), q)
    decreases |p|
  {
    if p == [] {
      assert p + q == q;
    } else if d.Dict? {
      var next := Lookup(d.entries, p[0]).GetOr(Null);
      assert (p + q)[1..] == p[1..] + q;
      if next != Null {
        ResolveConcat(next, p[1..], q);
      }
    }
  }

  /** A resolved value is what the path spells out: every step is a
      dictionary holding the next segment, and the end is not null. */
  lemma {:induction false} ResolveFound(d: Value, path: seq<string>)
    requires path != []
    ensures Resolve(d, path) != Null <==>
              d.Dict? && HasKey(d.entries, path[0]) && Lookup(d.entries, path[0]).value != Null
              && Resolve(Lookup(d.entries, path[0]).value, path[1..]) != Null
  {
  }

  /** A value that is not a dictionary has nothing under any non-empty
      path. */
  lemma ResolveNonDict(d: Value, path: seq<string>)
    requires path != [] && !d.Dict?
    ensures Resolve(d, path) == Null
  {
  }

  /** A false setting is found, not mistaken for a missing one. */
  lemma FalseSettingIsKept()
    ensures Resolve(Dict([("auth", Dict([("enabled", Bool(false))]))]), ["auth", "enabled"]) == Bool(false)
  {
  }

  /** `Lower` leaves the whitespace alone, so case folding and trimming
      commute. */
  lemma {:induction false} StripLowerCommute(s: string)
    ensures Strip(Lower(s)) == Lower(Strip(s))
  {
    SkipSpacesLower(s, 0);
    TrimEndLower(s, |s|);
    var a := SkipSpaces(s, 0);
    var e := TrimEnd(s, |s|);
    if a < e {
      LowerSlice(s, a, e);
    }
  }

  lemma LowerSlice(s: string, a: nat, e: nat)
    requires a <= e <= |s|
    ensures Lower(s[a..e]) == Lower(s)[a..e]
  {
  }

  lemma LowerCharSpace(c: char)
    ensures IsSpace(LowerChar(c)) == IsSpace(c)
  {
  }

  lemma {:induction false} SkipSpacesLower(s: string, i: nat)
    requires i <= |s|
    ensures SkipSpaces(Lower(s), i) == SkipSpaces(s, i)
    decreases |s| - i
  {
    if i < |s| {
      LowerCharSpace(s[i]);
      SkipSpacesLower(s, i + 1);
    }
  }

  lemma {:induction false} TrimEndLower(s: string, j: nat)
    requires j <= |s|
    ensures TrimEnd(Lower(s), j) == TrimEnd(s, j)
  {
    if j > 0 {
      LowerCharSpace(s[j - 1]);
      TrimEndLower(s, j - 1);
    }
  }

  /** Normalising twice is normalising once. */
  lemma NormalizeBoolIdempotent(v: Value)
    ensures NormalizeBool(NormalizeBool(v)) == NormalizeBool(v)
  {
  }

  /** Recognised spellings do not depend on letter case. */
  lemma NormalizeBoolIgnoresCase(s: string)
    ensures NormalizeBool(Str(s)).Bool? ==> NormalizeBool(Str(Lower(s))) == NormalizeBool(Str(s))
  {
    StripLowerCommute(s);
    LowerIdempotent(Strip(s));
  }

  /** A string becomes `True` or `False` exactly when its trimmed, lowered
      form is one of the recognised spellings. */
  lemma NormalizeBoolOfString(s: string)
    ensures NormalizeBool(Str(s)) == Bool(true) <==> Lower(Strip(s)) in TrueWords
    ensures NormalizeBool(Str(s)) == Bool(false) <==> Lower(Strip(s)) in FalseWords
    ensures Lower(Strip(s)) !in TrueWords + FalseWords ==> NormalizeBool(Str(s)) == Str(s)
  {
    var w := Lower(Strip(s));
    assert NormalizeBool(Str(s)) == if w in TrueWords then Bool(true) else if w in FalseWords then Bool(false) else Str(s);
    WordsDisjoint(w);
  }

  /** No spelling means both true and false. */
  lemma WordsDisjoint(w: string)
    ensures !(w in TrueWords && w in FalseWords)
  {
    if w in TrueWords {
      assert w == "true" || w == "1" || w == "yes";
      assert |w| == 1 ==> w[0] == '1';
    }
  }

  /** Each file contributes the bind-address fact exactly when the setting
      resolves, then the authentication fact exactly when that one does,
      both attributed to the file. */
  lemma FileFactsShape(file: ConfigFile)
    ensures var config := Effective(file.loaded);
            var bind := Resolve(config, BindAddressPath);
            var auth := Resolve(config, AuthEnabledPath);
            |FileFacts(file)| == (if bind != Null then 1 else 0) + (if auth != Null then 1 else 0)
            && (bind != Null ==> FileFacts(file)[0].key == "network.bind_address"
                                 && FileFacts(file)[0].value == Str(NormalizeBindAddress(bind)))
            && (auth != Null ==> FileFacts(file)[|FileFacts(file)| - 1].key == "runtime.auth_enabled"
                                 && FileFacts(file)[|FileFacts(file)| - 1].value == NormalizeBool(auth))
            && forall k :: 0 <= k < |FileFacts(file)| ==> FileFacts(file)[k].source == "openclaw_config:" + file.path
  {
  }

  /** The sources the scan may attribute a fact to: one per file. */
  function FileSources(files: seq<ConfigFile>): set<string> {
    set j | 0 <= j < |files| :: "openclaw_config:" + files[j].path
  }

  lemma FileSourcesSnoc(files: seq<ConfigFile>, file: ConfigFile)
    ensures FileSources(files) + {"openclaw_config:" + file.path} == FileSources(files + [file])
  {
    var all := files + [file];
    assert forall j :: 0 <= j < |files| ==> all[j] == files[j];
    assert all[|files|] == file;
    forall src | src in FileSources(all)
      ensures src in FileSources(files) + {"openclaw_config:" + file.path}
    {
      var j :| 0 <= j < |all| && src == "openclaw_config:" + all[j].path;
      if j < |files| {
        assert src == "openclaw_config:" + files[j].path;
      }
    }
  }

  lemma FileFactsSource(file: ConfigFile)
    ensures forall k :: 0 <= k < |FileFacts(file)| ==> FileFacts(file)[k].source == "openclaw_config:" + file.path
  {
  }

  /** No files, no facts; and every fact is attributed to one of the
      files. */
  lemma {:induction false} ConfigFactsSources(files: seq<ConfigFile>)
    ensures files == [] ==> ConfigFacts(files) == []
    ensures forall k :: 0 <= k < |ConfigFacts(files)| ==> ConfigFacts(files)[k].source in FileSources(files)
  {
    if files != [] {
      var init := files[..|files| - 1];
      var last := files[|files| - 1];
      ConfigFactsSources(init);
      FileFactsSource(last);
      assert init + [last] == files;
      FileSourcesSnoc(init, last);
      var head := ConfigFacts(init);
      var tail := FileFacts(last);
      assert forall k :: 0 <= k < |head| ==> head[k].source in FileSources(files);
      assert forall k :: 0 <= k < |tail| ==> tail[k].source in FileSources(files);
    }
  }
}
