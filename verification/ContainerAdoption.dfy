/**
 From a spec to a container and back: what the node asks Docker to create for a
 server, and exactly when discovery adopts that container under the same spec.
 */
module ContainerAdoption {
  import opened Common
  import opened ServerManifest
  import opened ManifestRoundTrip
  import opened ContainerDiscovery
  import Strings

  /** What the image, or Docker, adds to what the node asked for, and how Docker spells a mount point. */
  datatype Image = Image(env: seq<string>, command: Option<seq<string>>, user: string, mounts: seq<Mount>, clean: string -> string)

  /** Cleaning a path removes what is redundant in it; an absolute path stays one. */
  ghost predicate Cleans(image: Image) {
    forall path :: ValidPath(path) ==> ValidPath(image.clean(path))
  }

  /** An empty command is taken for none, so the image's own is run and reported. */
  function Reported(command: Option<seq<string>>, image: Image): Option<seq<string>> {
    if command.Some? && command.value != [] then command else image.command
  }

  /** `Math.round`. */
  function Round(x: real): int {
    (x + 0.5).Floor
  }

  function Entry(key: string, value: string): string {
    key + "=" + value
  }

  function Entries(order: seq<string>, env: map<string, string>): seq<string>
    requires forall k :: 0 <= k < |order| ==> order[k] in env
  {
    seq(|order|, k requires 0 <= k < |order| => Entry(order[k], env[order[k]]))
  }

  /** The bindings are a record keyed by port and protocol, so a repeated port is asked for once. */
  function Distinct(ports: seq<PortBinding>): (r: seq<PortBinding>)
    ensures |r| <= |ports| && forall p :: p in r <==> p in ports
  {
    if ports == [] then []
    else
      var n := |ports| - 1;
      assert ports == ports[..n] + [ports[n]];
      var before := Distinct(ports[..n]);
      if ports[n] in before then before else before + [ports[n]]
  }

  function Publish(ports: seq<PortBinding>): seq<Published> {
    seq(|ports|, k requires 0 <= k < |ports| =>
      Published(Num(ports[k].containerPort as real), if ports[k].protocol.Tcp? then "tcp" else "udp", Num(ports[k].hostPort as real), ""))
  }

  function Create(paths: Paths, root: string, serverId: string, s: ContainerSpec, order: seq<string>, image: Image): Container
    requires forall k :: 0 <= k < |order| ==> order[k] in s.env
  {
    Container(
      "/" + ContainerName(serverId),
      map["citadel.managed" := "true", "citadel.container-name" := ContainerName(serverId),
          "citadel.server-id" := serverId, "citadel.kind" := "server"],
      [Mount("bind", paths.join(root, serverId), image.clean(s.containerDataPath), false)] + image.mounts,
      s.image,
      Entries(order, s.env) + image.env,
      Publish(Distinct(s.ports)),
      Round(s.cpuLimit * CPU_PERIOD) as real, CPU_PERIOD,
      s.memoryLimitMb * MB,
      Reported(s.command, image),
      if s.user.Some? then s.user.value else image.user,
      s.tty, s.readOnlyRootFilesystem,
      [NetworkName(serverId)] + (if s.extraNetworks.Some? then s.extraNetworks.value else []))
  }

  // ----- environment -----

  predicate Plain(key: string) {
    key != "" && '=' !in key
  }

  /** Docker lets an image add an entry only under a name that was not given. */
  ghost predicate AddsOnly(given: seq<string>, added: seq<string>) {
    forall i, j :: 0 <= i < |given| && 0 <= j < |added| ==> NameOf(given[i]) != NameOf(added[j])
  }

  function NameOf(entry: string): string {
    entry[..Strings.Find(entry, '=')]
  }

  lemma EntryReads(key: string, value: string)
    requires Plain(key)
    ensures var i := Strings.Find(Entry(key, value), '=');
      i == |key| && Entry(key, value)[..i] == key && Entry(key, value)[i + 1..] == value
  {
    var e := Entry(key, value);
    assert e[..|key|] == key && e[|key|] == '=' && e[|key| + 1..] == value;
    Strings.FindIs(e, '=', |key|);
  }

  lemma {:induction false} EnvKeeps(entries: seq<string>, at: nat, key: string, value: string)
    requires at < |entries| && Plain(key) && entries[at] == Entry(key, value)
    requires forall j :: at < j < |entries| ==> NameOf(entries[j]) != key
    ensures key in EnvOf(entries) && EnvOf(entries)[key] == value
  {
    var n := |entries| - 1;
    if at == n {
      EntryReads(key, value);
    } else {
      EnvKeeps(entries[..n], at, key, value);
      assert NameOf(entries[n]) != key;
    }
  }

  ghost predicate Enumerates(order: seq<string>, env: map<string, string>) {
    && (forall key :: key in env <==> key in order)
    && (forall i, j :: 0 <= i < j < |order| ==> order[i] != order[j])
  }

  ghost predicate EnvSurvives(env: map<string, string>, entries: seq<string>) {
    forall key :: key in env ==> key in EnvOf(entries) && EnvOf(entries)[key] == env[key]
  }

  lemma EntrySurvives(env: map<string, string>, order: seq<string>, added: seq<string>, at: nat)
    requires Enumerates(order, env) && AddsOnly(Entries(order, env), added)
    requires at < |order| && forall k :: 0 <= k < |order| ==> Plain(order[k])
    ensures var all := Entries(order, env) + added; order[at] in EnvOf(all) && EnvOf(all)[order[at]] == env[order[at]]
  {
    hide EnvOf, Plain, NameOf, Entry;
    var given := Entries(order, env);
    var all := given + added;
    var key := order[at];
    NameOfEntry(key, env[key]);
    forall j | at < j < |all|
      ensures NameOf(all[j]) != key
    {
      if j < |given| {
        NameOfEntry(order[j], env[order[j]]);
      } else {
        assert all[j] == added[j - |given|] && NameOf(given[at]) == key;
      }
    }
    EnvKeeps(all, at, key, env[key]);
  }

  lemma NameOfEntry(key: string, value: string)
    requires Plain(key)
    ensures NameOf(Entry(key, value)) == key
  {
    hide Entry;
    EntryReads(key, value);
  }

  lemma EnvSurvivesIffPlain(env: map<string, string>, order: seq<string>, added: seq<string>)
    requires Enumerates(order, env) && AddsOnly(Entries(order, env), added)
    ensures EnvSurvives(env, Entries(order, env) + added) <==> forall key :: key in env ==> Plain(key)
  {
    hide EnvOf, AddsOnly, Entries;
    if forall key :: key in env ==> Plain(key) {
      forall key | key in env
        ensures key in EnvOf(Entries(order, env) + added) && EnvOf(Entries(order, env) + added)[key] == env[key]
      {
        var at :| 0 <= at < |order| && order[at] == key;
        EntrySurvives(env, order, added, at);
      }
    }
  }

  // ----- ports -----

  ghost predicate NoRepeats(ports: seq<PortBinding>) {
    forall i, j :: 0 <= i < j < |ports| ==> ports[i] != ports[j]
  }

  lemma NoRepeatsSplits(init: seq<PortBinding>, last: PortBinding)
    ensures NoRepeats(init + [last]) <==> NoRepeats(init) && last !in init
  {
    var all := init + [last];
    if NoRepeats(all) {
      assert forall i :: 0 <= i < |init| ==> init[i] == all[i];
      assert forall i :: 0 <= i < |init| ==> all[i] != all[|init|];
    }
  }

  lemma {:induction false} DistinctKeepsOrDrops(ports: seq<PortBinding>)
    ensures if NoRepeats(ports) then Distinct(ports) == ports else |Distinct(ports)| < |ports|
  {
    if ports != [] {
      var init, last := ports[..|ports| - 1], ports[|ports| - 1];
      assert ports == init + [last];
      hide NoRepeats;
      DistinctKeepsOrDrops(init);
      NoRepeatsSplits(init, last);
    }
  }

  lemma PortsSurviveIffDistinct(ports: seq<PortBinding>)
    ensures multiset(ports) == multiset(Distinct(ports)) <==> NoRepeats(ports)
  {
    DistinctKeepsOrDrops(ports);
    assert |multiset(ports)| == |ports| && |multiset(Distinct(ports))| == |Distinct(ports)|;
  }

  lemma PublishedAsEncoded(ports: seq<PortBinding>)
    ensures PublishedItems(Publish(ports)) == PortItems(ports)
  {
    assert forall k :: 0 <= k < |ports| ==> PublishedItems(Publish(ports))[k] == PortItems(ports)[k];
  }

  // ----- limits -----

  /** The quota is a whole number of microseconds per period; the difference is within the tolerance. */
  lemma QuotaIsClose(cpu: real)
    requires cpu > 0.0
    ensures Abs(cpu - Round(cpu * CPU_PERIOD) as real / CPU_PERIOD) < 0.000011
    ensures Round(cpu * CPU_PERIOD) >= 0
  {
    var q := Round(cpu * CPU_PERIOD) as real;
    assert cpu * CPU_PERIOD - 0.5 <= q <= cpu * CPU_PERIOD + 0.5;
    assert q / CPU_PERIOD - cpu == (q - cpu * CPU_PERIOD) / CPU_PERIOD;
  }

  /**
   Docker is asked for the memory in bytes, and for the share of each tenth of a
   second, in microseconds, that is nearest to the CPU limit.
   */
  lemma LimitsAreExact(paths: Paths, root: string, serverId: string, s: ContainerSpec, order: seq<string>, image: Image)
    requires Enumerates(order, s.env) && s.cpuLimit > 0.0
    ensures var c := Create(paths, root, serverId, s, order, image);
      && c.memory == s.memoryLimitMb * 1024.0 * 1024.0 && c.cpuPeriod == 100000.0
      && -0.5 <= c.cpuQuota - s.cpuLimit * 100000.0 <= 0.5
  {
    hide Entries, Publish, Distinct, ContainerName, NetworkName, Reported;
  }

  // ----- the round trip -----

  /**
   Facts about paths and identifiers the node relies on: the root is absolute and a
   server's directory is its child.
   */
  ghost predicate PathsAgree(paths: Paths, root: string, serverId: string) {
    var source := paths.join(root, serverId);
    && paths.resolve(root) == root && paths.resolve(source) == source
    && paths.dirname(source) == root && paths.basename(source) == serverId && paths.isUuid(serverId)
  }

  /** Nothing that decides adoption is lost between the spec, Docker and the inspection. */
  ghost predicate Adoptable(serverId: string, s: ContainerSpec, image: Image) {
    && (forall key :: key in s.env ==> Plain(key))
    && NoRepeats(s.ports)
    && Round(s.cpuLimit * CPU_PERIOD) > 0
    && (s.extraNetworks.Some? ==> NetworkName(serverId) !in s.extraNetworks.value)
    && (s.user.None? ==> image.user == "" || IsUser(image.user))
    && image.clean(s.containerDataPath) == s.containerDataPath
    && (s.command == Some([]) ==> image.command == Some([]))
    && (forall i :: 0 <= i < |image.mounts| ==> image.mounts[i].kind == "tmpfs")
  }

  ghost predicate Adopts(found: Option<(string, ContainerSpec)>, serverId: string, s: ContainerSpec) {
    found.Some? && found.value.0 == serverId && Matches(s, found.value.1)
  }

  lemma {:induction false} OnlyFirst(paths: Paths, root: string, mounts: seq<Mount>)
    requires mounts != [] && IsDataMount(paths, mounts[0], root)
    requires forall i :: 0 < i < |mounts| ==> !IsDataMount(paths, mounts[i], root)
    ensures DataMounts(paths, mounts, root) == [0]
    decreases |mounts|
  {
    hide IsDataMount;
    var n := |mounts| - 1;
    if n == 0 {
      assert DataMounts(paths, mounts[..0], root) == [];
    } else {
      OnlyFirst(paths, root, mounts[..n]);
    }
  }

  /** The spec that is read back, before its user is checked. */
  function ReadBack(serverId: string, s: ContainerSpec, c: Container): ContainerSpec
    requires c.cpuPeriod > 0.0 && c.mounts != []
  {
    Observed(c, c.mounts[0].destination, serverId).(ports := Distinct(s.ports))
  }

  lemma ReadBackIsValid(paths: Paths, root: string, serverId: string, s: ContainerSpec, order: seq<string>, image: Image)
    requires ValidSpec(s) && Cleans(image) && Enumerates(order, s.env) && Round(s.cpuLimit * CPU_PERIOD) > 0
    ensures ValidSpec(ReadBack(serverId, s, Create(paths, root, serverId, s, order, image)).(user := None))
  {
    hide Entry, Entries, Round, EnvOf;
    var c := Create(paths, root, serverId, s, order, image);
    assert "" !in c.networks by {
      assert NetworkName(serverId) != "";
    }
    forall p | p in Distinct(s.ports)
      ensures ValidHostPort(p.hostPort) && p.containerPort == p.hostPort
    {
      assert p in s.ports;
    }
  }

  lemma SameRequest(serverId: string, s: ContainerSpec, c: Container)
    requires c.cpuPeriod > 0.0 && c.mounts != [] && c.published == Publish(Distinct(s.ports))
    ensures RequestFields(Observed(c, c.mounts[0].destination, serverId), PublishedItems(c.published)) == EncodeSpec(ReadBack(serverId, s, c))
  {
    hide Put, PublishedItems, Publish, PortItems, EnvOf, Without, Texts;
    PublishedAsEncoded(Distinct(s.ports));
  }

  /** The bind of the server's directory is the one data mount; the rest of `mounts` is the image's. */
  lemma OwnMounts(paths: Paths, root: string, serverId: string, destination: string, own: seq<Mount>)
    requires PathsAgree(paths, root, serverId)
    requires forall i :: 0 <= i < |own| ==> own[i].kind != "bind"
    ensures var mounts := [Mount("bind", paths.join(root, serverId), destination, false)] + own;
      && DataMounts(paths, mounts, root) == [0]
      && ((exists i :: 0 <= i < |mounts| && i != 0 && mounts[i].kind != "tmpfs") <==>
          (exists i :: 0 <= i < |own| && own[i].kind != "tmpfs"))
  {
    var mounts := [Mount("bind", paths.join(root, serverId), destination, false)] + own;
    OnlyFirst(paths, root, mounts);
    assert forall i :: 0 <= i < |own| ==> mounts[i + 1] == own[i];
  }

  lemma OwnLabels(paths: Paths, root: string, serverId: string, s: ContainerSpec, order: seq<string>, image: Image)
    requires Enumerates(order, s.env)
    ensures var c := Create(paths, root, serverId, s, order, image);
      && IsServer(c.labels) && "citadel.server-id" in c.labels && c.labels["citadel.server-id"] == serverId
      && "citadel.kind" in c.labels && c.labels["citadel.kind"] == "server"
      && "citadel.container-name" in c.labels && "/" + c.labels["citadel.container-name"] == c.name
      && forall k :: 0 <= k < |c.published| ==> ReachableAddress(c.published[k].hostIp)
  {
    hide Entries, Round;
  }

  lemma DiscoverReaches(paths: Paths, number: Json -> Option<real>, c: Container, root: string, serverId: string)
    requires IsServer(c.labels) && ("citadel.server-id" in c.labels ==> c.labels["citadel.server-id"] == serverId)
    requires c.mounts != [] && DataMounts(paths, c.mounts, root) == [0] && !c.mounts[0].readOnly
    requires PathsAgree(paths, root, serverId) && c.mounts[0].source == paths.join(root, serverId)
    requires c.name == "/" + ContainerName(serverId) && c.cpuPeriod > 0.0
    requires forall k :: 0 <= k < |c.published| ==> ReachableAddress(c.published[k].hostIp)
    ensures Discover(paths, number, c, root) ==
      if exists i :: 0 <= i < |c.mounts| && i != 0 && c.mounts[i].kind != "tmpfs" then None
      else
        var spec := ParseServerContainerRequest(number,
          RequestFields(Observed(c, c.mounts[0].destination, serverId), PublishedItems(c.published)));
        if spec.Err? then None else Some((serverId, spec.value))
  {
    hide ParseServerContainerRequest, RequestFields, Observed, PublishedItems, IsServer, ReachableAddress, DataMounts, ContainerName;
  }

  /** Discovery reaches the parser exactly when the image mounts nothing of its own. */
  lemma ReachesParser(paths: Paths, number: Json -> Option<real>, root: string, serverId: string, s: ContainerSpec,
                      order: seq<string>, image: Image)
    requires PathsAgree(paths, root, serverId) && Enumerates(order, s.env)
    requires forall i :: 0 <= i < |image.mounts| ==> image.mounts[i].kind != "bind"
    ensures var c := Create(paths, root, serverId, s, order, image);
      && c.cpuPeriod > 0.0 && c.mounts != []
      && Discover(paths, number, c, root) ==
           if exists i :: 0 <= i < |image.mounts| && image.mounts[i].kind != "tmpfs" then None
           else
             var spec := ParseServerContainerRequest(number, EncodeSpec(ReadBack(serverId, s, c)));
             if spec.Err? then None else Some((serverId, spec.value))
  {
    var c := Create(paths, root, serverId, s, order, image);
    hide ParseServerContainerRequest, RequestFields, EncodeSpec, ReadBack, Observed, Publish, PublishedItems, Entries, Round;
    hide IsServer, ReachableAddress, DataMounts, ContainerName;
    hide Discover;
    OwnLabels(paths, root, serverId, s, order, image);
    OwnMounts(paths, root, serverId, image.clean(s.containerDataPath), image.mounts);
    SameRequest(serverId, s, c);
    DiscoverReaches(paths, number, c, root, serverId);
  }

  lemma NoCpuIsRefused(number: Json -> Option<real>, s: ContainerSpec)
    requires KeepsNumbers(number) && s.cpuLimit <= 0.0
    ensures ParseServerContainerRequest(number, EncodeSpec(s)).Err?
  {
    hide RequestFields, ParseSpecOptions, ParseEnv, ParsePort;
    SpecRequired(s, PortItems(s.ports));
  }

  lemma NetworksSurvive(serverId: string, names: seq<string>)
    ensures (forall k :: 0 <= k < |names| ==> names[k] in Without([NetworkName(serverId)] + names, NetworkName(serverId)))
       <==> NetworkName(serverId) !in names
  {
    hide NetworkName;
    var own := NetworkName(serverId);
    var kept := Without([own] + names, own);
    assert forall n :: n in names && n != own ==> n in kept;
  }

  function Extras(s: ContainerSpec): seq<string> {
    if s.extraNetworks.Some? then s.extraNetworks.value else []
  }

  lemma ReadBackIs(paths: Paths, root: string, serverId: string, s: ContainerSpec, order: seq<string>, image: Image)
    requires Enumerates(order, s.env)
    ensures var c := Create(paths, root, serverId, s, order, image);
      c.cpuPeriod > 0.0 && c.mounts != [] &&
      ReadBack(serverId, s, c) == ContainerSpec(
        s.image, image.clean(s.containerDataPath), Round(s.cpuLimit * CPU_PERIOD) as real / CPU_PERIOD, s.memoryLimitMb,
        EnvOf(Entries(order, s.env) + image.env), Distinct(s.ports),
        Reported(s.command, image),
        Some(Without([NetworkName(serverId)] + Extras(s), NetworkName(serverId))),
        Some(if s.user.Some? then s.user.value else image.user), s.readOnlyRootFilesystem, s.tty, None)
  {
    hide Entries, EnvOf, Distinct, Round, NetworkName, Without, Publish, ContainerName;
  }

  lemma SameSettings(s: ContainerSpec, t: ContainerSpec)
    requires t.image == s.image && t.memoryLimitMb == s.memoryLimitMb
    requires s.user.Some? ==> t.user == s.user
    requires t.readOnlyRootFilesystem == s.readOnlyRootFilesystem && t.tty == s.tty
    ensures Matches(s, t) <==>
      && t.containerDataPath == s.containerDataPath && (s.command.Some? ==> t.command == s.command)
      && Abs(s.cpuLimit - t.cpuLimit) < 0.000011 && multiset(s.ports) == multiset(t.ports)
      && KeepsEnv(s, t) && KeepsNetworks(s, t)
  {
    hide Abs, KeepsEnv, KeepsNetworks;
  }

  lemma EnvAgrees(s: ContainerSpec, t: ContainerSpec, order: seq<string>, added: seq<string>)
    requires Enumerates(order, s.env) && AddsOnly(Entries(order, s.env), added)
    requires t.env == EnvOf(Entries(order, s.env) + added)
    ensures KeepsEnv(s, t) <==> forall key :: key in s.env ==> Plain(key)
  {
    hide Plain, Entries, EnvOf, AddsOnly, Enumerates;
    EnvSurvivesIffPlain(s.env, order, added);
  }

  lemma NetworksAgree(s: ContainerSpec, t: ContainerSpec, serverId: string)
    requires t.extraNetworks == Some(Without([NetworkName(serverId)] + Extras(s), NetworkName(serverId)))
    ensures KeepsNetworks(s, t) <==> (s.extraNetworks.Some? ==> NetworkName(serverId) !in s.extraNetworks.value)
  {
    NetworksSurvive(serverId, Extras(s));
    hide NetworkName, Without;
  }

  lemma MatchesExactlyWhen(s: ContainerSpec, t: ContainerSpec, serverId: string, order: seq<string>, image: Image)
    requires ValidSpec(s) && Enumerates(order, s.env) && AddsOnly(Entries(order, s.env), image.env)
    requires t.image == s.image && t.containerDataPath == image.clean(s.containerDataPath) && t.memoryLimitMb == s.memoryLimitMb
    requires t.cpuLimit == Round(s.cpuLimit * CPU_PERIOD) as real / CPU_PERIOD
    requires t.env == EnvOf(Entries(order, s.env) + image.env) && t.ports == Distinct(s.ports)
    requires (s.user.Some? ==> t.user == s.user) && t.command == Reported(s.command, image)
    requires t.readOnlyRootFilesystem == s.readOnlyRootFilesystem && t.tty == s.tty
    requires t.extraNetworks == Some(Without([NetworkName(serverId)] + Extras(s), NetworkName(serverId)))
    ensures Matches(s, t) <==>
         && (forall key :: key in s.env ==> Plain(key))
         && NoRepeats(s.ports)
         && (s.extraNetworks.Some? ==> NetworkName(serverId) !in s.extraNetworks.value)
         && image.clean(s.containerDataPath) == s.containerDataPath
         && (s.command == Some([]) ==> image.command == Some([]))
  {
    SameSettings(s, t);
    QuotaIsClose(s.cpuLimit);
    PortsSurviveIffDistinct(s.ports);
    EnvAgrees(s, t, order, image.env);
    NetworksAgree(s, t, serverId);
    hide Entries, EnvOf, Distinct, NoRepeats, Plain, Round, Abs, NetworkName, Without, Matches, KeepsEnv, KeepsNetworks;
  }

  lemma Discovered(paths: Paths, number: Json -> Option<real>, root: string, serverId: string, s: ContainerSpec,
                   order: seq<string>, image: Image)
    requires KeepsNumbers(number) && PathsAgree(paths, root, serverId) && ValidSpec(s) && Cleans(image) && Enumerates(order, s.env)
    requires forall i :: 0 <= i < |image.mounts| ==> image.mounts[i].kind == "tmpfs"
    ensures var c := Create(paths, root, serverId, s, order, image);
      && c.cpuPeriod > 0.0 && c.mounts != []
      && var t := ReadBack(serverId, s, c);
         Discover(paths, number, c, root) ==
           if Round(s.cpuLimit * CPU_PERIOD) <= 0 || UserOutcome(t.user).Err? then None
           else Some((serverId, t.(user := UserOutcome(t.user).value)))
  {
    var c := Create(paths, root, serverId, s, order, image);
    assert "tmpfs"[0] != "bind"[0];
    ReachesParser(paths, number, root, serverId, s, order, image);
    ReadBackIs(paths, root, serverId, s, order, image);
    QuotaIsClose(s.cpuLimit);
    var t := ReadBack(serverId, s, c);
    hide Create, ReadBack, Discover, ParseServerContainerRequest, EncodeSpec, Entries, EnvOf, Distinct, Round, NetworkName, Without;
    hide IsUser, KeepsNumbers, ValidSpec, Enumerates, UserOutcome;
    if Round(s.cpuLimit * CPU_PERIOD) <= 0 {
      NoCpuIsRefused(number, t);
    } else {
      ReadBackIsValid(paths, root, serverId, s, order, image);
      SpecOutcome(number, t);
    }
  }

  lemma Decides(serverId: string, s: ContainerSpec, t: ContainerSpec, order: seq<string>, image: Image,
                found: Option<(string, ContainerSpec)>)
    requires ValidSpec(s) && Enumerates(order, s.env) && AddsOnly(Entries(order, s.env), image.env)
    requires t == ContainerSpec(
        s.image, image.clean(s.containerDataPath), Round(s.cpuLimit * CPU_PERIOD) as real / CPU_PERIOD, s.memoryLimitMb,
        EnvOf(Entries(order, s.env) + image.env), Distinct(s.ports), Reported(s.command, image),
        Some(Without([NetworkName(serverId)] + Extras(s), NetworkName(serverId))),
        Some(if s.user.Some? then s.user.value else image.user), s.readOnlyRootFilesystem, s.tty, None)
    requires found == if Round(s.cpuLimit * CPU_PERIOD) <= 0 || UserOutcome(t.user).Err? then None
                      else Some((serverId, t.(user := UserOutcome(t.user).value)))
    requires forall i :: 0 <= i < |image.mounts| ==> image.mounts[i].kind == "tmpfs"
    ensures Adopts(found, serverId, s) <==> Adoptable(serverId, s, image)
  {
    hide Entries, EnvOf, Distinct, NoRepeats, Plain, Round, NetworkName, Without, Matches, IsUser, AddsOnly, Enumerates;
    if UserOutcome(t.user).Ok? {
      MatchesExactlyWhen(s, t.(user := UserOutcome(t.user).value), serverId, order, image);
    }
  }

  /**
   The container that the node creates for a saved spec is adopted under that spec
   exactly when nothing that decides it is lost on the way through Docker.
   */
  lemma AdoptsWhatItCreatedExactlyWhen(paths: Paths, number: Json -> Option<real>, root: string, serverId: string, s: ContainerSpec,
                                       order: seq<string>, image: Image)
    requires KeepsNumbers(number) && PathsAgree(paths, root, serverId) && ValidSpec(s) && Cleans(image)
    requires Enumerates(order, s.env) && AddsOnly(Entries(order, s.env), image.env)
    requires forall i :: 0 <= i < |image.mounts| ==> image.mounts[i].kind != "bind"
    ensures Adopts(Discover(paths, number, Create(paths, root, serverId, s, order, image), root), serverId, s)
       <==> Adoptable(serverId, s, image)
  {
    var c := Create(paths, root, serverId, s, order, image);
    if forall i :: 0 <= i < |image.mounts| ==> image.mounts[i].kind == "tmpfs" {
      Discovered(paths, number, root, serverId, s, order, image);
      ReadBackIs(paths, root, serverId, s, order, image);
      hide Create, ReadBack, Discover, Entries, EnvOf, Distinct, Round, NetworkName, Without, Adopts, Adoptable, AddsOnly;
      Decides(serverId, s, ReadBack(serverId, s, c), order, image, Discover(paths, number, c, root));
    } else {
      hide Create, Discover, ReadBack;
      ReachesParser(paths, number, root, serverId, s, order, image);
    }
  }
}
