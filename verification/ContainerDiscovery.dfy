/**
 Recognising a container as somebody's server: what the node creates for a spec,
 what it reads back out of Docker, and when the two agree closely enough for the
 container to be adopted. Paths are read through `Paths`.
 */
module ContainerDiscovery {
  import opened Common
  import opened ServerManifest
  import opened ManifestRoundTrip
  import Strings

  datatype Paths = Paths(
    resolve: string -> string,
    dirname: string -> string,
    basename: string -> string,
    join: (string, string) -> string,
    isUuid: string -> bool)

  datatype Mount = Mount(kind: string, source: string, destination: string, readOnly: bool)

  datatype Published = Published(number: Json, protocol: string, hostPort: Json, hostIp: string)

  datatype Container = Container(
    name: string,
    labels: map<string, string>,
    mounts: seq<Mount>,
    image: string,
    env: seq<string>,
    published: seq<Published>,
    cpuQuota: real,
    cpuPeriod: real,
    memory: real,
    command: Option<seq<string>>,
    user: string,
    tty: bool,
    readOnlyRootFilesystem: bool,
    networks: seq<string>)

  const MB: real := 1048576.0
  const CPU_PERIOD: real := 100000.0

  function Prefix(s: string): string {
    if |s| <= 12 then s else s[..12]
  }

  function ContainerName(serverId: string): string {
    "citadel-" + Prefix(serverId)
  }

  function NetworkName(serverId: string): string {
    "citadel_srv_" + Prefix(serverId)
  }

  predicate IsServer(labels: map<string, string>) {
    && "citadel.managed" in labels && labels["citadel.managed"] == "true"
    && ("citadel.kind" in labels ==> labels["citadel.kind"] == "server")
  }

  // ----- reading a container back -----

  /** `KEY=value` entries as a record; the last one for a key wins, one without a key is skipped. */
  function EnvOf(entries: seq<string>): (env: map<string, string>)
    ensures forall key :: key in env ==> key != "" && '=' !in key
  {
    if entries == [] then map[]
    else
      var before := EnvOf(entries[..|entries| - 1]);
      var last := entries[|entries| - 1];
      var equals := Strings.Find(last, '=');
      if 0 < equals < |last| then before[last[..equals] := last[equals + 1..]] else before
  }

  method ReadEnv(entries: seq<string>) returns (env: map<string, string>)
    ensures env == EnvOf(entries)
  {
    env := map[];
    var i := 0;
    while i < |entries|
      invariant 0 <= i <= |entries| && env == EnvOf(entries[..i])
    {
      var equals := Strings.Find(entries[i], '=');
      if 0 < equals < |entries[i]| {
        env := env[entries[i][..equals] := entries[i][equals + 1..]];
      }
      assert entries[..i + 1][..i] == entries[..i];
      i := i + 1;
    }
    assert entries[..i] == entries;
  }

  /** The binds that are direct children of the data root, by position. */
  function DataMounts(paths: Paths, mounts: seq<Mount>, root: string): (at: seq<nat>)
    ensures forall k :: 0 <= k < |at| ==> at[k] < |mounts| && IsDataMount(paths, mounts[at[k]], root)
    ensures forall i :: 0 <= i < |mounts| && IsDataMount(paths, mounts[i], root) ==> i in at
  {
    if mounts == [] then []
    else
      var n := |mounts| - 1;
      var before := DataMounts(paths, mounts[..n], root);
      if IsDataMount(paths, mounts[n], root) then before + [n] else before
  }

  predicate IsDataMount(paths: Paths, m: Mount, root: string) {
    m.kind == "bind" && paths.dirname(paths.resolve(m.source)) == paths.resolve(root)
  }

  predicate ReachableAddress(ip: string) {
    ip == "" || ip == "0.0.0.0" || ip == "::"
  }

  function PublishedJson(p: Published): Json {
    Obj(map["hostPort" := p.hostPort, "containerPort" := p.number, "protocol" := Str(p.protocol)])
  }

  function PublishedItems(published: seq<Published>): seq<Json> {
    seq(|published|, k requires 0 <= k < |published| => PublishedJson(published[k]))
  }

  /** The limits and settings of `c`, as a request; its ports come separately. */
  function Observed(c: Container, destination: string, serverId: string): ContainerSpec
    requires c.cpuPeriod > 0.0
  {
    ContainerSpec(c.image, destination, c.cpuQuota / c.cpuPeriod, c.memory / MB, EnvOf(c.env), [],
                  c.command, Some(Without(c.networks, NetworkName(serverId))), Some(c.user), c.readOnlyRootFilesystem, c.tty, None)
  }

  function Without(names: seq<string>, name: string): (r: seq<string>)
    ensures forall n :: n in r <==> n in names && n != name
  {
    if names == [] then []
    else if names[0] == name then Without(names[1..], name)
    else [names[0]] + Without(names[1..], name)
  }

  /** The server this container belongs to and its spec, or `None` when it is not adopted under `root`. */
  function Discover(paths: Paths, number: Json -> Option<real>, c: Container, root: string): Option<(string, ContainerSpec)> {
    var at := DataMounts(paths, c.mounts, root);
    if !IsServer(c.labels) || |at| != 1 || c.mounts[at[0]].readOnly then None
    else
      var m := c.mounts[at[0]];
      var serverId := paths.basename(paths.resolve(m.source));
      if !paths.isUuid(serverId) || m.source != paths.join(paths.resolve(root), serverId)
        || c.name != "/" + ContainerName(serverId)
        || ("citadel.server-id" in c.labels && c.labels["citadel.server-id"] != serverId)
        || (exists i :: 0 <= i < |c.mounts| && i != at[0] && c.mounts[i].kind != "tmpfs")
        || (exists k :: 0 <= k < |c.published| && !ReachableAddress(c.published[k].hostIp))
        || c.cpuPeriod <= 0.0 then None
      else
        var spec := ParseServerContainerRequest(number, RequestFields(Observed(c, m.destination, serverId), PublishedItems(c.published)));
        if spec.Err? then None else Some((serverId, spec.value))
  }

  /**
   Nothing is adopted but a writable child of the data root under its own name, alone
   among its container's mounts and reachable from everywhere.
   */
  lemma AdoptedOnlyIf(paths: Paths, number: Json -> Option<real>, c: Container, root: string)
    requires Discover(paths, number, c, root).Some?
    ensures "citadel.managed" in c.labels && c.labels["citadel.managed"] == "true"
    ensures "citadel.kind" in c.labels ==> c.labels["citadel.kind"] == "server"
    ensures var (serverId, spec) := Discover(paths, number, c, root).value;
      && paths.isUuid(serverId) && c.name == "/citadel-" + Prefix(serverId)
      && ("citadel.server-id" in c.labels ==> c.labels["citadel.server-id"] == serverId)
      && (forall k :: 0 <= k < |c.published| ==> c.published[k].hostIp in {"", "0.0.0.0", "::"})
      && exists i :: 0 <= i < |c.mounts|
           && c.mounts[i].kind == "bind" && !c.mounts[i].readOnly
           && c.mounts[i].source == paths.join(paths.resolve(root), serverId)
           && paths.dirname(paths.resolve(c.mounts[i].source)) == paths.resolve(root)
           && paths.basename(paths.resolve(c.mounts[i].source)) == serverId
           && forall j :: 0 <= j < |c.mounts| && j != i ==> c.mounts[j].kind == "tmpfs"
  {
    hide ParseServerContainerRequest, Observed, PublishedItems, RequestFields, Prefix;
    var i := DataMounts(paths, c.mounts, root)[0];
    assert c.mounts[i].kind == "bind" && forall j :: 0 <= j < |c.mounts| && j != i ==> c.mounts[j].kind == "tmpfs";
    assert "/" + "citadel-" == "/citadel-";
  }

  /** Which of the addresses that stand for all of the host's a port is published on makes no difference. */
  lemma AnyOpenAddressWillDo(paths: Paths, number: Json -> Option<real>, c: Container, published: seq<Published>, root: string)
    requires |published| == |c.published|
    requires forall k :: 0 <= k < |published| ==>
      && published[k] == c.published[k].(hostIp := published[k].hostIp)
      && published[k].hostIp in {"", "0.0.0.0", "::"} && c.published[k].hostIp in {"", "0.0.0.0", "::"}
    ensures Discover(paths, number, c.(published := published), root) == Discover(paths, number, c, root)
  {
    SameItems(published, c.published);
    OpenAddresses(published, c.published);
    hide ParseServerContainerRequest, RequestFields, PublishedItems, DataMounts, ContainerName, IsServer, ReachableAddress, EnvOf, Without;
  }

  lemma SameItems(a: seq<Published>, b: seq<Published>)
    requires |a| == |b| && forall k :: 0 <= k < |a| ==> a[k] == b[k].(hostIp := a[k].hostIp)
    ensures PublishedItems(a) == PublishedItems(b)
  {
    assert forall k :: 0 <= k < |a| ==> PublishedJson(a[k]) == PublishedJson(b[k]);
  }

  lemma OpenAddresses(a: seq<Published>, b: seq<Published>)
    requires |a| == |b|
    requires forall k :: 0 <= k < |a| ==> a[k].hostIp in {"", "0.0.0.0", "::"} && b[k].hostIp in {"", "0.0.0.0", "::"}
    ensures forall k :: 0 <= k < |a| ==> ReachableAddress(a[k].hostIp) && ReachableAddress(b[k].hostIp)
  {
  }

  predicate IsHex(c: char) {
    '0' <= c <= '9' || 'a' <= c <= 'f'
  }

  /** The names the inventory looks for: `citadel-`, eight hexadecimal digits, a dash and three more. */
  predicate IsRuntimeName(name: string) {
    && |name| == 21 && name[..9] == "/citadel-" && name[17] == '-'
    && forall k :: 9 <= k < 21 && k != 17 ==> IsHex(name[k])
  }

  /** The node names the container of a UUID as the inventory looks for it. */
  lemma OwnNamesAreFound(serverId: string)
    requires |serverId| >= 12 && serverId[8] == '-' && forall k :: 0 <= k < 12 && k != 8 ==> IsHex(serverId[k])
    ensures IsRuntimeName("/" + ContainerName(serverId))
  {
    var name := "/" + ContainerName(serverId);
    assert name == "/citadel-" + serverId[..12];
    assert forall k :: 0 <= k < 12 ==> name[9 + k] == serverId[k];
    forall k | 9 <= k < 21 && k != 17
      ensures IsHex(name[k])
    {
      assert name[9 + (k - 9)] == serverId[k - 9];
    }
    assert name[9 + 8] == serverId[8];
  }

  // ----- agreement with a recovery record -----

  function Abs(x: real): real {
    if x < 0.0 then -x else x
  }

  predicate KeepsEnv(saved: ContainerSpec, actual: ContainerSpec) {
    forall key :: key in saved.env ==> key in actual.env && actual.env[key] == saved.env[key]
  }

  predicate KeepsNetworks(saved: ContainerSpec, actual: ContainerSpec) {
    saved.extraNetworks.Some? ==>
      forall k :: 0 <= k < |saved.extraNetworks.value| ==>
        actual.extraNetworks.Some? && saved.extraNetworks.value[k] in actual.extraNetworks.value
  }

  predicate Matches(saved: ContainerSpec, actual: ContainerSpec) {
    && saved.image == actual.image
    && saved.containerDataPath == actual.containerDataPath
    && Abs(saved.cpuLimit - actual.cpuLimit) < 0.000011
    && saved.memoryLimitMb == actual.memoryLimitMb
    && saved.tty == actual.tty
    && saved.readOnlyRootFilesystem == actual.readOnlyRootFilesystem
    && (saved.user.Some? ==> saved.user == actual.user)
    && (saved.command.Some? ==> saved.command == actual.command)
    && multiset(saved.ports) == multiset(actual.ports)
    && KeepsEnv(saved, actual)
    && KeepsNetworks(saved, actual)
  }

  /** What an adopted server is listed with still agrees with its container, so adopting it again changes nothing. */
  lemma AdoptionIsStable(saved: ContainerSpec, actual: ContainerSpec)
    requires Matches(saved, actual)
    ensures var listed := saved.(extraNetworks := actual.extraNetworks);
      Matches(listed, actual) && listed.(extraNetworks := actual.extraNetworks) == listed
  {
  }

  // ----- remembering a container -----

  /** The remembered servers that this container might be, whatever else is wrong with it. */
  function Remembered(paths: Paths, names: seq<string>, labels: map<string, string>, mounts: seq<Mount>,
                      ids: set<string>, roots: seq<string>): set<string>
  {
    set id | id in ids &&
      (|| ("citadel.server-id" in labels && labels["citadel.server-id"] != "" && labels["citadel.server-id"] == id)
       || ("/" + ContainerName(id)) in names
       || MountedAs(paths, mounts, id, roots))
  }

  predicate MountedAs(paths: Paths, mounts: seq<Mount>, id: string, roots: seq<string>) {
    exists i, r :: 0 <= i < |mounts| && 0 <= r < |roots| && mounts[i].kind == "bind" && !mounts[i].readOnly
      && paths.basename(paths.resolve(mounts[i].source)) == id
      && paths.dirname(paths.resolve(mounts[i].source)) == paths.resolve(roots[r])
  }

  /**
   A container that would be adopted as some remembered server is always among
   those that block it, so an inspection that fails never lets the record through alone.
   */
  lemma DiscoveredIsRemembered(paths: Paths, number: Json -> Option<real>, c: Container, names: seq<string>,
                               ids: set<string>, roots: seq<string>, r: nat)
    requires r < |roots| && Discover(paths, number, c, roots[r]).Some?
    requires Discover(paths, number, c, roots[r]).value.0 in ids
    ensures Discover(paths, number, c, roots[r]).value.0 in Remembered(paths, names, c.labels, c.mounts, ids, roots)
  {
    var at := DataMounts(paths, c.mounts, roots[r]);
    assert IsDataMount(paths, c.mounts[at[0]], roots[r]);
    assert MountedAs(paths, c.mounts, Discover(paths, number, c, roots[r]).value.0, roots);
  }

  /** And no server is remembered that neither the label, a name nor a writable bind of the container speaks of. */
  lemma OnlyReferencesAreRemembered(paths: Paths, names: seq<string>, labels: map<string, string>, mounts: seq<Mount>,
                                    ids: set<string>, roots: seq<string>, id: string)
    requires "citadel.server-id" in labels ==> labels["citadel.server-id"] != id
    requires "/" + ContainerName(id) !in names
    requires forall i :: 0 <= i < |mounts| ==>
      mounts[i].kind != "bind" || mounts[i].readOnly || paths.basename(paths.resolve(mounts[i].source)) != id
      || (forall r :: r in roots ==> paths.dirname(paths.resolve(mounts[i].source)) != paths.resolve(r))
    ensures id !in Remembered(paths, names, labels, mounts, ids, roots)
  {
  }

  /** A container under the name, or with the label, of a remembered server is remembered whatever it mounts. */
  lemma NameOrLabelIsRemembered(paths: Paths, names: seq<string>, labels: map<string, string>, mounts: seq<Mount>,
                                ids: set<string>, roots: seq<string>, id: string)
    requires id in ids && id != ""
    requires "/citadel-" + Prefix(id) in names || ("citadel.server-id" in labels && labels["citadel.server-id"] == id)
    ensures id in Remembered(paths, names, labels, mounts, ids, roots)
  {
    assert "/" + ContainerName(id) == "/citadel-" + Prefix(id);
  }

  /** Docker keeps container names unique, so no two containers are adopted as the same server. */
  lemma OneContainerPerServer(paths: Paths, number: Json -> Option<real>, c: Container, d: Container, root: string, other: string)
    requires Discover(paths, number, c, root).Some? && Discover(paths, number, d, other).Some?
    requires c.name != d.name
    ensures Discover(paths, number, c, root).value.0 != Discover(paths, number, d, other).value.0
  {
  }
}
