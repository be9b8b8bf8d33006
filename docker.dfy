/** The Docker collector: the worst case over the running containers'
    `docker inspect` records, reduced to a `docker.user` and a
    `docker.privileged` fact. The two subprocess calls are replaced by
    their outcomes, passed in as parameters. */
module Docker {
  import opened Wrappers
  import opened Text
  import opened Values
  import opened Models

  /** At most this many container names appear in a fact's source. */
  const SourceNameLimit: nat := 5

  /** What the collector keeps of one container. */
  datatype ContainerInfo = ContainerInfo(name: string, root: bool, privileged: bool)

  /** The outcome of listing the running containers' ids. */
  datatype Listing = ListFailed(reason: string) | Listed(ids: seq<string>)

  // ---------------------------------------------------------------------
  // Reading one container record

  /** `v[:n]` for a string or a list; other (truthy) values are not
      subscriptable. */
  function SlicePrefix(v: Value, n: nat): (r: Result<Value, PyError>)
    ensures r.Success? <==> v.Str? || v.List?
    ensures v.Str? ==> r == Success(Str(v.s[..if |v.s| < n then |v.s| else n]))
  {
    match v
    case Str(s) => Success(Str(s[..if |s| < n then |s| else n]))
    case List(xs) => Success(List(xs[..if |xs| < n then |xs| else n]))
    case _ => Failure(TypeError)
  }

  /** The name a container is reported under: its `Name`, else the first
      twelve characters of its `Id`, else `unknown`, without leading `/`. */
  function DisplayName(c: Value): (r: Result<string, PyError>)
    ensures !c.Dict? ==> r == Failure(AttributeError)
    ensures r.Success? ==> r.value == [] || r.value[0] != '/'
  {
    if !c.Dict? then Failure(AttributeError)
    else
      var id := Lookup(c.entries, "Id").GetOr(Null);
      var cid := if Truthy(id) then id else Str("unknown");
      var given := Lookup(c.entries, "Name").GetOr(Null);
      var name :- if Truthy(given) then Success(given) else SlicePrefix(cid, 12);
      if name.Str? then Success(LStripChar(name.s, '/')) else Failure(AttributeError)
  }

  /** A setting inside one section of a container record, reading a missing
      section or key as `default`. */
  function Setting(c: Value, section: string, key: string, default: Value): Value {
    if !c.Dict? then default
    else match Lookup(c.entries, section)
      case None => default
      case Some(s) => if s.Dict? then Lookup(s.entries, key).GetOr(default) else default
  }

  /** The section is absent or a dictionary, so `.get` can be applied to it. */
  predicate SectionReadable(c: Value, section: string) {
    c.Dict? && (Lookup(c.entries, section).None? || Lookup(c.entries, section).value.Dict?)
  }

  function UserSetting(c: Value): Value {
    Setting(c, "Config", "User", Str(""))
  }

  function PrivilegedSetting(c: Value): Value {
    Setting(c, "HostConfig", "Privileged", Bool(false))
  }

  /** Running as root: no user at all, the user `root`, or user id 0
      (the part before the first `:` is `0`). */
  predicate RunsAsRoot(user: Value) {
    !Truthy(user) || user == Str("root") || (user.Str? && (user.s == "0" || StartsWith(user.s, "0:")))
  }

  /** The part before the first `:` is `0` exactly when the text is `0` or
      starts with `0:`. */
  lemma UidZero(u: string)
    ensures Split(u, ':')[0] == "0" <==> u == "0" || StartsWith(u, "0:")
  {
    var i := IndexOf(u, ':');
    if Split(u, ':')[0] == "0" {
      assert i == 1 && u[0] == '0';
      if i < |u| {
        assert u[..2] == "0:";
      } else {
        assert u == "0";
      }
    }
    if StartsWith(u, "0:") {
      assert u[0] == '0' && u[1] == ':';
      assert i == 1;
    }
  }

  /** The root test, in the order Python applies it; `split` on a truthy
      user that is not a string raises. */
  function UserIsRoot(user: Value): (r: Result<bool, PyError>)
    ensures r.Success? <==> !Truthy(user) || user.Str?
    ensures r.Success? ==> (r.value <==> RunsAsRoot(user))
  {
    if !Truthy(user) || user == Str("root") then Success(true)
    else if user.Str? then
      UidZero(user.s);
      Success(Split(user.s, ':')[0] == "0")
    else Failure(AttributeError)
  }

  /** One iteration of the inspection loop over a container record. */
  function ContainerView(c: Value): (r: Result<ContainerInfo, PyError>)
    ensures r.Success? <==>
              DisplayName(c).Success? && SectionReadable(c, "Config") && SectionReadable(c, "HostConfig")
              && (!Truthy(UserSetting(c)) || UserSetting(c).Str?)
    ensures r.Success? ==>
              DisplayName(c) == Success(r.value.name)
              && r.value.root == RunsAsRoot(UserSetting(c))
              && r.value.privileged == Truthy(PrivilegedSetting(c))
  {
    var name :- DisplayName(c);
    var config := Lookup(c.entries, "Config").GetOr(Dict([]));
    var user :- Get(config, "User", Str(""));
    var host := Lookup(c.entries, "HostConfig").GetOr(Dict([]));
    var privileged :- Get(host, "Privileged", Bool(false));
    var root :- UserIsRoot(user);
    Success(ContainerInfo(name, root, Truthy(privileged)))
  }

  function Views(cs: seq<Value>): (r: seq<Result<ContainerInfo, PyError>>)
    ensures |r| == |cs| && forall i :: 0 <= i < |cs| ==> r[i] == ContainerView(cs[i])
  {
    seq(|cs|, i requires 0 <= i < |cs| => ContainerView(cs[i]))
  }

  /** The views of a prefix are the prefix of the views, one more at a
      time. */
  lemma ViewsPrefix(cs: seq<Value>, i: nat)
    requires i < |cs|
    ensures Views(cs[..i + 1]) == Views(cs[..i]) + [ContainerView(cs[i])]
    ensures Views(cs)[..i + 1] == Views(cs[..i + 1])
  {
    assert Views(cs[..i + 1]) == Views(cs[..i]) + [ContainerView(cs[i])];
  }

  // ---------------------------------------------------------------------
  // Aggregating over all containers

  predicate IsRoot(info: ContainerInfo) {
    info.root
  }

  predicate IsPrivileged(info: ContainerInfo) {
    info.privileged
  }

  /** The names of the containers satisfying `p`, in order. */
  function NamesWhere(infos: seq<ContainerInfo>, p: ContainerInfo -> bool): (r: seq<string>)
    ensures |r| <= |infos|
    ensures forall n :: n in r <==> exists i :: 0 <= i < |infos| && p(infos[i]) && infos[i].name == n
    ensures r == [] <==> forall i :: 0 <= i < |infos| ==> !p(infos[i])
  {
    if infos == [] then []
    else
      var init := infos[..|infos| - 1];
      var last := infos[|infos| - 1];
      var r := NamesWhere(init, p) + (if p(last) then [last.name] else []);
      assert forall i :: 0 <= i < |init| ==> infos[i] == init[i];
      r
  }

  function Names(infos: seq<ContainerInfo>): (r: seq<string>)
    ensures |r| == |infos| && forall i :: 0 <= i < |infos| ==> r[i] == infos[i].name
  {
    if infos == [] then [] else Names(infos[..|infos| - 1]) + [infos[|infos| - 1].name]
  }

  /** `_cap_names`: the names comma-joined, the first five only, with a
      count of the rest. */
  function CapNames(names: seq<string>): (r: string) {
    if |names| <= SourceNameLimit then Join(names, ",")
    else Join(names[..SourceNameLimit], ",") + MoreSuffix(|names| - SourceNameLimit)
  }

  /** The count of the names left unlisted, as ` (+n more)`. */
  function MoreSuffix(n: nat): string {
    " (+" + NatToString(n) + " more)"
  }

  function UserFact(rootNames: seq<string>, allNames: seq<string>): Fact {
    Fact("docker.user",
         Str(if rootNames != [] then "root" else "non-root"),
         "docker_inspect:" + CapNames(if rootNames != [] then rootNames else allNames))
  }

  function PrivilegedFact(privilegedNames: seq<string>, allNames: seq<string>): Fact {
    Fact("docker.privileged",
         Bool(privilegedNames != []),
         "docker_inspect:" + CapNames(if privilegedNames != [] then privilegedNames else allNames))
  }

  /** `parse_inspect_output` as a whole: nothing for no containers, the
      first error a record raises, or the two worst-case facts. */
  function InspectFacts(cs: seq<Value>): Result<seq<Fact>, PyError> {
    if cs == [] then Success([])
    else
      var infos :- Sequence(Views(cs));
      Success([UserFact(NamesWhere(infos, IsRoot), Names(infos)),
               PrivilegedFact(NamesWhere(infos, IsPrivileged), Names(infos))])
  }

  /** The inspection loop, accumulating the three name lists. */
  method ParseInspectOutput(containers: seq<Value>) returns (r: Result<seq<Fact>, PyError>)
    ensures r == InspectFacts(containers)
  {
    if containers == [] {
      return Success([]);
    }
    var rootNames: seq<string> := [];
    var privilegedNames: seq<string> := [];
    var allNames: seq<string> := [];
    ghost var infos: seq<ContainerInfo> := [];
    var i := 0;
    while i < |containers|
      invariant 0 <= i <= |containers|
      invariant Sequence(Views(containers[..i])) == Success(infos)
      invariant rootNames == NamesWhere(infos, IsRoot)
      invariant privilegedNames == NamesWhere(infos, IsPrivileged)
      invariant allNames == Names(infos)
    {
      var view := ContainerView(containers[i]);
      ViewsPrefix(containers, i);
      SequenceSnoc(Views(containers[..i]), view);
      if view.Failure? {
        SequencePersists(Views(containers), i + 1);
        return Failure(view.error);
      }
      var info := view.value;
      allNames := allNames + [info.name];
      if info.root {
        rootNames := rootNames + [info.name];
      }
      if info.privileged {
        privilegedNames := privilegedNames + [info.name];
      }
      assert (infos + [info])[..|infos|] == infos;
      infos := infos + [info];
      i := i + 1;
    }
    assert containers[..i] == containers;
    r := Success([UserFact(rootNames, allNames), PrivilegedFact(privilegedNames, allNames)]);
  }

  /** `DockerScanner.scan`, given what listing and inspecting returned. */
  method Scan(listing: Listing, inspected: Option<seq<Value>>) returns (facts: Result<seq<Fact>, PyError>, warnings: seq<string>)
    ensures listing.ListFailed? ==>
              facts == Success([]) && warnings == ["Docker: " + listing.reason + "; skipping container inspection"]
    ensures listing.Listed? && listing.ids == [] ==> facts == Success([]) && warnings == []
    ensures listing.Listed? && listing.ids != [] && inspected.None? ==>
              facts == Success([]) && warnings == ["Failed to inspect running Docker containers"]
    ensures listing.Listed? && listing.ids != [] && inspected.Some? ==>
              facts == InspectFacts(inspected.value) && warnings == []
  {
    warnings := [];
    if listing.ListFailed? {
      warnings := warnings + ["Docker: " + listing.reason + "; skipping container inspection"];
      return Success([]), warnings;
    }
    if listing.ids == [] {
      return Success([]), warnings;
    }
    if inspected.None? {
      warnings := warnings + ["Failed to inspect running Docker containers"];
      return Success([]), warnings;
    }
    facts := ParseInspectOutput(inspected.value);
  }

  // ---------------------------------------------------------------------
  // Properties

  /** The name falls back from `Name` to the `Id` prefix to `unknown`. */
  lemma DisplayNameFallback(c: Value)
    requires c.Dict?
    ensures var n := Lookup(c.entries, "Name");
            n.Some? && n.value.Str? && n.value.s != [] ==> DisplayName(c) == Success(LStripChar(n.value.s, '/'))
    ensures var n := Lookup(c.entries, "Name");
            var id := Lookup(c.entries, "Id");
            (n.None? || !Truthy(n.value)) && id.Some? && id.value.Str? && id.value.s != [] ==>
              DisplayName(c) == Success(LStripChar(id.value.s[..if |id.value.s| < 12 then |id.value.s| else 12], '/'))
    ensures var n := Lookup(c.entries, "Name");
            var id := Lookup(c.entries, "Id");
            (n.None? || !Truthy(n.value)) && (id.None? || !Truthy(id.value)) ==> DisplayName(c) == Success("unknown")
  {
    assert "unknown"[..7] == "unknown";
  }

  /** Every container record of a successful inspection was read, and its
      view reflects its settings. */
  lemma InspectedViews(cs: seq<Value>)
    requires cs != [] && InspectFacts(cs).Success?
    ensures Sequence(Views(cs)).Success?
    ensures var infos := Sequence(Views(cs)).value;
            |infos| == |cs| &&
            forall i :: 0 <= i < |cs| ==>
              DisplayName(cs[i]) == Success(infos[i].name)
              && infos[i].root == RunsAsRoot(UserSetting(cs[i]))
              && infos[i].privileged == Truthy(PrivilegedSetting(cs[i]))
  {
    SequenceSuccess(Views(cs));
  }

  /** No containers give no facts; otherwise there are exactly two, the user
      fact and then the privileged fact. */
  lemma InspectFactsShape(cs: seq<Value>)
    requires InspectFacts(cs).Success?
    ensures cs == [] ==> InspectFacts(cs).value == []
    ensures cs != [] ==>
              |InspectFacts(cs).value| == 2
              && InspectFacts(cs).value[0].key == "docker.user"
              && InspectFacts(cs).value[1].key == "docker.privileged"
  {
  }

  /** The inspection fails exactly when some record cannot be read, and then
      with the first such record's error. */
  lemma InspectFactsFailure(cs: seq<Value>)
    ensures InspectFacts(cs).Failure? <==> exists i :: 0 <= i < |cs| && ContainerView(cs[i]).Failure?
    ensures InspectFacts(cs).Failure? ==>
              exists i :: 0 <= i < |cs| && ContainerView(cs[i]) == Failure(InspectFacts(cs).error)
                          && forall j :: 0 <= j < i ==> ContainerView(cs[j]).Success?
  {
    SequenceSuccess(Views(cs));
    if Sequence(Views(cs)).Failure? {
      SequenceFirstFailure(Views(cs));
    }
  }

  /** `docker.user` is `root` iff some container runs as root, and
      `non-root` otherwise. */
  lemma UserFactIsWorstCase(cs: seq<Value>)
    requires cs != [] && InspectFacts(cs).Success?
    ensures var v := InspectFacts(cs).value[0].value;
            (v == Str("root") <==> exists i :: 0 <= i < |cs| && RootContainer(cs[i]))
            && (v == Str("root") || v == Str("non-root"))
  {
    InspectedViews(cs);
    var infos := Sequence(Views(cs)).value;
    assert forall i :: 0 <= i < |cs| ==> IsRoot(infos[i]) == RootContainer(cs[i]);
  }

  /** `docker.privileged` is true iff some container is privileged. */
  lemma PrivilegedFactIsWorstCase(cs: seq<Value>)
    requires cs != [] && InspectFacts(cs).Success?
    ensures InspectFacts(cs).value[1].value ==
              Bool(exists i :: 0 <= i < |cs| && PrivilegedContainer(cs[i]))
  {
    InspectedViews(cs);
    var infos := Sequence(Views(cs)).value;
    assert forall i :: 0 <= i < |cs| ==> IsPrivileged(infos[i]) == PrivilegedContainer(cs[i]);
  }

  /** A container running as root, by its record. */
  predicate RootContainer(c: Value) {
    RunsAsRoot(UserSetting(c))
  }

  /** A privileged container, by its record. */
  predicate PrivilegedContainer(c: Value) {
    Truthy(PrivilegedSetting(c))
  }

  /** Every record counts. */
  predicate AnyContainer(c: Value) {
    true
  }

  /** The name a record is reported under, or nothing when it has none. */
  function NameOf(c: Value): string {
    if DisplayName(c).Success? then DisplayName(c).value else []
  }

  /** The names of the records that satisfy `offends`, in order. */
  function RecordNames(cs: seq<Value>, offends: Value -> bool): (r: seq<string>)
    ensures r == [] <==> forall i :: 0 <= i < |cs| ==> !offends(cs[i])
    ensures |r| <= |cs|
  {
    if cs == [] then []
    else
      var init := cs[..|cs| - 1];
      var last := cs[|cs| - 1];
      assert forall i :: 0 <= i < |init| ==> cs[i] == init[i];
      RecordNames(init, offends) + (if offends(last) then [NameOf(last)] else [])
  }

  /** Filtering the views and filtering the records agree, when each view
      reads its record. */
  lemma {:induction false} NamesWhereRecords(cs: seq<Value>, infos: seq<ContainerInfo>, p: ContainerInfo -> bool, offends: Value -> bool)
    requires |infos| == |cs|
    requires forall i :: 0 <= i < |cs| ==> DisplayName(cs[i]) == Success(infos[i].name) && p(infos[i]) == offends(cs[i])
    ensures NamesWhere(infos, p) == RecordNames(cs, offends)
  {
    if cs != [] {
      NamesWhereRecords(cs[..|cs| - 1], infos[..|infos| - 1], p, offends);
    }
  }

  lemma {:induction false} NamesRecords(cs: seq<Value>, infos: seq<ContainerInfo>)
    requires |infos| == |cs|
    requires forall i :: 0 <= i < |cs| ==> DisplayName(cs[i]) == Success(infos[i].name)
    ensures Names(infos) == RecordNames(cs, AnyContainer)
  {
    if cs != [] {
      NamesRecords(cs[..|cs| - 1], infos[..|infos| - 1]);
    }
  }

  /** The user fact's source names the containers running as root when
      there are any, and every container, in order, otherwise. */
  lemma UserSourceNamesOffenders(cs: seq<Value>)
    requires cs != [] && InspectFacts(cs).Success?
    ensures InspectFacts(cs).value[0].source ==
              "docker_inspect:" + CapNames(if RecordNames(cs, RootContainer) != []
                                           then RecordNames(cs, RootContainer) else RecordNames(cs, AnyContainer))
  {
    InspectedViews(cs);
    var infos := Sequence(Views(cs)).value;
    assert forall i :: 0 <= i < |cs| ==> IsRoot(infos[i]) == RootContainer(cs[i]);
    NamesWhereRecords(cs, infos, IsRoot, RootContainer);
    NamesRecords(cs, infos);
  }

  /** The privileged fact's source names the privileged containers when
      there are any, and every container, in order, otherwise. */
  lemma PrivilegedSourceNamesOffenders(cs: seq<Value>)
    requires cs != [] && InspectFacts(cs).Success?
    ensures InspectFacts(cs).value[1].source ==
              "docker_inspect:" + CapNames(if RecordNames(cs, PrivilegedContainer) != []
                                           then RecordNames(cs, PrivilegedContainer) else RecordNames(cs, AnyContainer))
  {
    InspectedViews(cs);
    var infos := Sequence(Views(cs)).value;
    assert forall i :: 0 <= i < |cs| ==> IsPrivileged(infos[i]) == PrivilegedContainer(cs[i]);
    NamesWhereRecords(cs, infos, IsPrivileged, PrivilegedContainer);
    NamesRecords(cs, infos);
  }

  /** Up to five names are listed in full: splitting at the commas gives
      them back. */
  lemma CapNamesWithinLimit(names: seq<string>)
    requires 0 < |names| <= SourceNameLimit
    requires forall k :: 0 <= k < |names| ==> ',' !in names[k]
    ensures Split(CapNames(names), ',') == names
  {
    SplitJoin(names, ',');
  }

  /** Past five names, the first five are listed and the rest counted. */
  lemma CapNamesOverLimit(names: seq<string>)
    requires |names| > SourceNameLimit
    requires forall k :: 0 <= k < |names| ==> ',' !in names[k]
    ensures exists shown, digits ::
              CapNames(names) == shown + MoreSuffix(|names| - SourceNameLimit)
              && MoreSuffix(|names| - SourceNameLimit) == " (+" + digits + " more)"
              && Split(shown, ',') == names[..SourceNameLimit]
              && digits != [] && DigitsValue(digits) == |names| - SourceNameLimit
              && (forall i :: 0 <= i < |digits| ==> '0' <= digits[i] <= '9')
  {
    var shown := Join(names[..SourceNameLimit], ",");
    var digits := NatToString(|names| - SourceNameLimit);
    SplitJoin(names[..SourceNameLimit], ',');
    assert CapNames(names) == shown + MoreSuffix(|names| - SourceNameLimit);
  }

  /** Every listed name occurs in the capped text. */
  lemma CapNamesShowsFirstFive(names: seq<string>, k: nat)
    requires k < |names| && k < SourceNameLimit
    ensures IsSubstring(names[k], CapNames(names))
  {
    if |names| <= SourceNameLimit {
      JoinContainsParts(names, ",", k);
    } else {
      var shown := Join(names[..SourceNameLimit], ",");
      JoinContainsParts(names[..SourceNameLimit], ",", k);
      var tail := MoreSuffix(|names| - SourceNameLimit);
      SubstringOfConcat([], shown, tail);
      assert [] + shown + tail == CapNames(names);
      SubstringTransitive(names[k], shown, CapNames(names));
    }
  }
}
