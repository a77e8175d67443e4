/**
 Recovery manifests as JSON values: the parser of a container spec, the parser
 of its recovery metadata, and what is written to and read from a manifest. A
 missing key stands for `undefined`; numbers are reals.
 */
module ServerManifest {
  import opened Common
  import Strings

  datatype Json =
    | Null
    | Bool(b: bool)
    | Num(n: real)
    | Str(s: string)
    | Arr(items: seq<Json>)
    | Obj(fields: map<string, Json>)

  type Fields = map<string, Json>

  /** The name of the check that failed. */
  type Refusal = string

  datatype Protocol = Tcp | Udp

  datatype PortBinding = PortBinding(hostPort: int, containerPort: int, protocol: Protocol)

  datatype RecoveryPort = RecoveryPort(hostPort: int, isPrimary: bool, isAdditional: bool, caption: Option<Option<string>>)

  /** An outer `None` is a key that is absent, an inner one a `null`. */
  datatype Recovery = Recovery(
    name: string,
    ownerId: string,
    ownerEmail: string,
    blueprint: Fields,
    diskLimitMb: real,
    ports: seq<RecoveryPort>,
    secretEnvKeys: seq<string>,
    additionalPortLimit: Option<Option<int>>,
    databaseLimit: Option<Option<int>>,
    backupLimit: Option<Option<int>>,
    status: Option<string>,
    suspensionReason: Option<Option<string>>)

  datatype ContainerSpec = ContainerSpec(
    image: string,
    containerDataPath: string,
    cpuLimit: real,
    memoryLimitMb: real,
    env: map<string, string>,
    ports: seq<PortBinding>,
    command: Option<seq<string>>,
    extraNetworks: Option<seq<string>>,
    user: Option<string>,
    readOnlyRootFilesystem: bool,
    tty: bool,
    recovery: Option<Recovery>)

  // ----- small readers -----

  function Get(f: Fields, key: string): Option<Json> {
    if key in f then Some(f[key]) else None
  }

  predicate IsInteger(x: real) {
    x.Floor as real == x
  }

  /** Applies `parse` to each item, failing with the first failure. */
  function ParseAll<T>(items: seq<Json>, parse: Json -> Result<T, Refusal>): (r: Result<seq<T>, Refusal>)
    ensures r.Ok? ==> |r.value| == |items| && forall k :: 0 <= k < |items| ==> parse(items[k]) == Ok(r.value[k])
  {
    if items == [] then Ok([])
    else
      var first := parse(items[0]);
      if first.Err? then Err(first.error)
      else
        var rest := ParseAll(items[1..], parse);
        if rest.Err? then rest else Ok([first.value] + rest.value)
  }

  lemma {:induction false} ParseAllIs<T>(items: seq<Json>, values: seq<T>, parse: Json -> Result<T, Refusal>)
    requires |items| == |values| && forall k :: 0 <= k < |items| ==> parse(items[k]) == Ok(values[k])
    ensures ParseAll(items, parse) == Ok(values)
  {
    if items != [] {
      forall k | 0 <= k < |items| - 1
        ensures parse(items[1..][k]) == Ok(values[1..][k])
      {
        assert items[1..][k] == items[k + 1] && values[1..][k] == values[k + 1];
      }
      ParseAllIs(items[1..], values[1..], parse);
      assert values == [values[0]] + values[1..];
    }
  }

  // ----- recovery metadata -----

  predicate ShortText(s: string) {
    0 < |s| <= 320
  }

  function ParseText(f: Fields, key: string): (r: Result<string, Refusal>)
    ensures r.Ok? ==> ShortText(r.value)
  {
    if key in f && f[key].Str? && ShortText(f[key].s) then Ok(f[key].s) else Err(key)
  }

  function ParseNullable(j: Option<Json>): Result<Option<Option<string>>, Refusal> {
    if j.None? then Ok(None)
    else if j.value.Null? then Ok(Some(None))
    else if j.value.Str? then Ok(Some(Some(j.value.s)))
    else Err("string or null")
  }

  predicate ValidHostPort(p: int) {
    1024 <= p <= 65535
  }

  function ParseRecoveryPort(j: Json): (r: Result<RecoveryPort, Refusal>)
    ensures r.Ok? ==> ValidHostPort(r.value.hostPort)
  {
    if !j.Obj? then Err("ports")
    else
      var hostPort, isPrimary, isAdditional := Get(j.fields, "hostPort"), Get(j.fields, "isPrimary"), Get(j.fields, "isAdditional");
      if !(hostPort.Some? && hostPort.value.Num? && IsInteger(hostPort.value.n) && ValidHostPort(hostPort.value.n.Floor)
           && isPrimary.Some? && isPrimary.value.Bool? && isAdditional.Some? && isAdditional.value.Bool?) then Err("ports")
      else
        var caption := ParseNullable(Get(j.fields, "label"));
        if caption.Err? then Err(caption.error)
        else Ok(RecoveryPort(hostPort.value.n.Floor, isPrimary.value.b, isAdditional.value.b, caption.value))
  }

  function ParseKey(j: Json): (r: Result<string, Refusal>)
    ensures r.Ok? ==> r.value != ""
  {
    if j.Str? && j.s != "" then Ok(j.s) else Err("secretEnvKeys")
  }

  function ParseLimit(f: Fields, key: string): (r: Result<Option<Option<int>>, Refusal>)
    ensures r.Ok? && r.value.Some? && r.value.value.Some? ==> r.value.value.value >= 0
  {
    if key !in f then Ok(None)
    else if f[key].Null? then Ok(Some(None))
    else if f[key].Num? && IsInteger(f[key].n) && f[key].n.Floor >= 0 then Ok(Some(Some(f[key].n.Floor)))
    else Err(key)
  }

  predicate ValidLimit(l: Option<Option<int>>) {
    l.Some? && l.value.Some? ==> l.value.value >= 0
  }

  ghost predicate ValidRecovery(r: Recovery) {
    && 1 <= |r.name| <= 320 && 1 <= |r.ownerId| <= 320 && 1 <= |r.ownerEmail| <= 320 && r.diskLimitMb > 0.0
    && (forall k :: 0 <= k < |r.ports| ==> 1024 <= r.ports[k].hostPort <= 65535)
    && (forall k :: 0 <= k < |r.secretEnvKeys| ==> r.secretEnvKeys[k] != "")
    && ValidLimit(r.additionalPortLimit) && ValidLimit(r.databaseLimit) && ValidLimit(r.backupLimit)
  }

  function ParseRecoveryMetadata(value: Json): (r: Result<Recovery, Refusal>)
    ensures r.Ok? ==> ValidRecovery(r.value)
  {
    if !value.Obj? then Err("recovery")
    else
      var f := value.fields;
      var name, ownerId, ownerEmail := ParseText(f, "name"), ParseText(f, "ownerId"), ParseText(f, "ownerEmail");
      if name.Err? then Err(name.error)
      else if ownerId.Err? then Err(ownerId.error)
      else if ownerEmail.Err? then Err(ownerEmail.error)
      else if !("blueprint" in f && f["blueprint"].Obj?) then Err("blueprint")
      else if !("diskLimitMb" in f && f["diskLimitMb"].Num? && f["diskLimitMb"].n > 0.0) then Err("diskLimitMb")
      else if !("ports" in f && f["ports"].Arr? && "secretEnvKeys" in f && f["secretEnvKeys"].Arr?) then Err("arrays")
      else
        var ports := ParseAll(f["ports"].items, ParseRecoveryPort);
        if ports.Err? then Err(ports.error)
        else
          var keys := ParseAll(f["secretEnvKeys"].items, ParseKey);
          if keys.Err? then Err(keys.error)
          else
            ParseRecoveryOptions(f, Recovery(name.value, ownerId.value, ownerEmail.value, f["blueprint"].fields,
              f["diskLimitMb"].n, ports.value, keys.value, None, None, None, None, None))
  }

  function ParseRecoveryOptions(f: Fields, r: Recovery): (out: Result<Recovery, Refusal>)
    ensures out.Ok? && ValidRecovery(r) ==> ValidRecovery(out.value)
  {
    var additional, databases, backups :=
      ParseLimit(f, "additionalPortLimit"), ParseLimit(f, "databaseLimit"), ParseLimit(f, "backupLimit");
    if additional.Err? then Err(additional.error)
    else if databases.Err? then Err(databases.error)
    else if backups.Err? then Err(backups.error)
    else if "status" in f && !f["status"].Str? then Err("status")
    else
      var reason := ParseNullable(Get(f, "suspensionReason"));
      if reason.Err? then Err("suspensionReason")
      else Ok(r.(additionalPortLimit := additional.value, databaseLimit := databases.value, backupLimit := backups.value,
                 status := if "status" in f then Some(f["status"].s) else None, suspensionReason := reason.value))
  }

  // ----- the container spec -----

  function ParsePort(number: Json -> Option<real>, j: Json): (r: Result<PortBinding, Refusal>)
    ensures r.Ok? ==> ValidHostPort(r.value.hostPort) && r.value.containerPort == r.value.hostPort
  {
    if !j.Obj? then Err("port")
    else
      var f := j.fields;
      var hostPort := if "hostPort" in f then number(f["hostPort"]) else None;
      var containerPort := if "containerPort" in f then number(f["containerPort"]) else None;
      if !(hostPort.Some? && IsInteger(hostPort.value) && ValidHostPort(hostPort.value.Floor) && containerPort == hostPort) then
        Err("ports")
      else if "protocol" in f && f["protocol"] == Str("tcp") then Ok(PortBinding(hostPort.value.Floor, hostPort.value.Floor, Tcp))
      else if "protocol" in f && f["protocol"] == Str("udp") then Ok(PortBinding(hostPort.value.Floor, hostPort.value.Floor, Udp))
      else Err("protocol")
  }

  function ParseString(j: Json): Result<string, Refusal> {
    if j.Str? then Ok(j.s) else Err("string")
  }

  function ParseStrings(f: Fields, key: string): Result<Option<seq<string>>, Refusal> {
    if key !in f then Ok(None)
    else if !f[key].Arr? then Err(key)
    else
      var strings := ParseAll(f[key].items, ParseString);
      if strings.Err? then Err(key) else Ok(Some(strings.value))
  }

  function EnvValues(env: Fields): map<string, string>
    requires forall key :: key in env ==> env[key].Str?
  {
    map key | key in env :: env[key].s
  }

  function ParseEnv(f: Fields): Result<map<string, string>, Refusal> {
    if "env" !in f then Ok(map[])
    else if !f["env"].Obj? then Err("env")
    else
      var env := f["env"].fields;
      if forall key :: key in env ==> env[key].Str? then Ok(EnvValues(env)) else Err("env value")
  }

  function ParsePositive(number: Json -> Option<real>, f: Fields, key: string): (r: Result<real, Refusal>)
    ensures r.Ok? ==> r.value > 0.0
  {
    var value := if key in f then number(f[key]) else None;
    if value.Some? && value.value > 0.0 then Ok(value.value) else Err(key)
  }

  predicate Digits(s: string) {
    s != "" && Strings.AllDigits(s)
  }

  /** `uid` or `uid:gid`. */
  predicate IsUser(s: string) {
    Digits(s) || exists k :: 0 <= k < |s| && s[k] == ':' && Digits(s[..k]) && Digits(s[k + 1..])
  }

  predicate IsNumber(s: string) {
    s != "" && forall k :: 0 <= k < |s| ==> '0' <= s[k] <= '9'
  }

  /** A user is one number, or two of them with a colon between. */
  lemma UsersAre(uid: string, gid: string)
    requires IsNumber(uid) && IsNumber(gid)
    ensures IsUser(uid) && IsUser(uid + [':'] + gid)
  {
    var s := uid + [':'] + gid;
    assert s[..|uid|] == uid && s[|uid|] == ':' && s[|uid| + 1..] == gid;
  }

  /** And nothing else is. */
  lemma OnlyNumbersAreUsers(s: string) returns (uid: string, gid: string)
    requires IsUser(s)
    ensures IsNumber(s) || (IsNumber(uid) && IsNumber(gid) && s == uid + [':'] + gid)
  {
    uid, gid := "", "";
    if !Digits(s) {
      var k :| 0 <= k < |s| && s[k] == ':' && Digits(s[..k]) && Digits(s[k + 1..]);
      uid, gid := s[..k], s[k + 1..];
      DigitsAreNumber(uid);
      DigitsAreNumber(gid);
      hide Digits, IsNumber;
      assert s == s[..k] + [s[k]] + s[k + 1..];
    } else {
      DigitsAreNumber(s);
    }
  }

  lemma DigitsAreNumber(s: string)
    requires Digits(s)
    ensures IsNumber(s)
  {
  }

  function ParseUser(f: Fields): (r: Result<Option<string>, Refusal>)
    ensures r.Ok? && r.value.Some? ==> r.value.value != "" && IsUser(r.value.value)
  {
    if !("user" in f && f["user"].Str? && f["user"].s != "") then Ok(None)
    else if !IsUser(f["user"].s) then Err("user")
    else Ok(Some(f["user"].s))
  }

  predicate ValidPath(path: string) {
    path != "" && path[0] == '/' && '\0' !in path
  }

  ghost predicate ValidSpec(s: ContainerSpec) {
    && s.image != "" && s.containerDataPath != "" && s.containerDataPath[0] == '/' && '\0' !in s.containerDataPath
    && s.cpuLimit > 0.0 && s.memoryLimitMb > 0.0
    && (forall k :: 0 <= k < |s.ports| ==> 1024 <= s.ports[k].hostPort <= 65535 && s.ports[k].containerPort == s.ports[k].hostPort)
    && (s.extraNetworks.Some? ==> "" !in s.extraNetworks.value)
    && (s.user.Some? ==> s.user.value != "" && IsUser(s.user.value))
    && (s.recovery.Some? ==> ValidRecovery(s.recovery.value))
  }

  function ParseServerContainerRequest(number: Json -> Option<real>, body: Fields): (r: Result<ContainerSpec, Refusal>)
    ensures r.Ok? ==> ValidSpec(r.value)
  {
    if !("image" in body && body["image"].Str? && body["image"].s != "") then Err("image")
    else if !("containerDataPath" in body && body["containerDataPath"].Str? && ValidPath(body["containerDataPath"].s)) then
      Err("containerDataPath")
    else
      var cpu, memory, env := ParsePositive(number, body, "cpuLimit"), ParsePositive(number, body, "memoryLimitMb"), ParseEnv(body);
      if cpu.Err? then Err(cpu.error)
      else if memory.Err? then Err(memory.error)
      else if env.Err? then Err(env.error)
      else if !("ports" in body && body["ports"].Arr?) then Err("ports")
      else
        var ports := ParseAll(body["ports"].items, (j: Json) => ParsePort(number, j));
        if ports.Err? then Err(ports.error)
        else
          var spec := ContainerSpec(body["image"].s, body["containerDataPath"].s, cpu.value, memory.value, env.value, ports.value,
                                    None, None, None, Get(body, "readOnlyRootFilesystem") == Some(Bool(true)),
                                    Get(body, "tty") == Some(Bool(true)), None);
          ParseSpecOptions(body, spec)
  }

  function ParseSpecOptions(body: Fields, s: ContainerSpec): (out: Result<ContainerSpec, Refusal>)
    ensures out.Ok? && ValidSpec(s) ==> ValidSpec(out.value)
  {
    var user := ParseUser(body);
    if user.Err? then Err(user.error)
    else
      var networks := ParseStrings(body, "extraNetworks");
      if networks.Err? then Err(networks.error)
      else if networks.value.Some? && "" in networks.value.value then Err("extraNetworks")
      else
        var command := ParseStrings(body, "command");
        if command.Err? then Err(command.error)
        else if "recovery" !in body then
          Ok(s.(user := user.value, extraNetworks := networks.value, command := command.value))
        else
          var recovery := ParseRecoveryMetadata(body["recovery"]);
          if recovery.Err? then Err(recovery.error)
          else Ok(s.(user := user.value, extraNetworks := networks.value, command := command.value, recovery := Some(recovery.value)))
  }

  // ----- what an accepted request said -----

  /** A port is taken as it was written: one whole number, given twice, and a protocol by its name. */
  lemma PortAsWritten(number: Json -> Option<real>, j: Json)
    requires ParsePort(number, j).Ok?
    ensures j.Obj? && "hostPort" in j.fields && "containerPort" in j.fields && "protocol" in j.fields
    ensures var p := ParsePort(number, j).value;
      && number(j.fields["hostPort"]) == Some(p.hostPort as real) == number(j.fields["containerPort"])
      && j.fields["protocol"] == Str(if p.protocol.Tcp? then "tcp" else "udp")
  {
  }

  lemma RecoveryPortAsWritten(j: Json)
    requires ParseRecoveryPort(j).Ok?
    ensures j.Obj?
    ensures var p := ParseRecoveryPort(j).value;
      && Get(j.fields, "hostPort") == Some(Num(p.hostPort as real))
      && Get(j.fields, "isPrimary") == Some(Bool(p.isPrimary)) && Get(j.fields, "isAdditional") == Some(Bool(p.isAdditional))
      && Get(j.fields, "label") == (if p.caption.None? then None else if p.caption.value.None? then Some(Null) else Some(Str(p.caption.value.value)))
  {
  }

  /** A limit is left out, null, or a whole number of at least 0; nothing else is taken for one. */
  lemma LimitAsWritten(f: Fields, key: string)
    ensures ParseLimit(f, key) == Ok(None) <==> key !in f
    ensures ParseLimit(f, key) == Ok(Some(None)) <==> key in f && f[key] == Null
    ensures forall n: int :: ParseLimit(f, key) == Ok(Some(Some(n))) <==> key in f && f[key] == Num(n as real) && n >= 0
  {
  }

  /** A request is refused for the first thing that is wrong with it. */
  lemma RequestRefusals(number: Json -> Option<real>, body: Fields)
    ensures var r := ParseServerContainerRequest(number, body);
      if !(exists image :: image != "" && Get(body, "image") == Some(Str(image))) then r == Err("image")
      else if !(exists path :: ValidPath(path) && Get(body, "containerDataPath") == Some(Str(path))) then r == Err("containerDataPath")
      else if "cpuLimit" !in body || number(body["cpuLimit"]).None? || number(body["cpuLimit"]).value <= 0.0 then r == Err("cpuLimit")
      else if "memoryLimitMb" !in body || number(body["memoryLimitMb"]).None? || number(body["memoryLimitMb"]).value <= 0.0 then
        r == Err("memoryLimitMb")
      else if "env" in body && !body["env"].Obj? then r == Err("env")
      else if "env" in body && exists key :: key in body["env"].fields && !body["env"].fields[key].Str? then r == Err("env value")
      else if "ports" !in body || !body["ports"].Arr? then r == Err("ports")
      else true
  {
    hide ParseAll, ParsePort, ParseSpecOptions, ValidSpec, ValidPath;
  }

  /** And so is a recovery record. */
  lemma RecoveryRefusals(value: Json)
    ensures var r := ParseRecoveryMetadata(value);
      if !value.Obj? then r == Err("recovery")
      else
        var f := value.fields;
        if ParseText(f, "name").Err? then r == Err("name")
        else if ParseText(f, "ownerId").Err? then r == Err("ownerId")
        else if ParseText(f, "ownerEmail").Err? then r == Err("ownerEmail")
        else if "blueprint" !in f || !f["blueprint"].Obj? then r == Err("blueprint")
        else if "diskLimitMb" !in f || !f["diskLimitMb"].Num? || f["diskLimitMb"].n <= 0.0 then r == Err("diskLimitMb")
        else if "ports" !in f || !f["ports"].Arr? || "secretEnvKeys" !in f || !f["secretEnvKeys"].Arr? then r == Err("arrays")
        else true
    ensures forall f: Fields, key: string :: ParseText(f, key).Ok? <==> key in f && f[key].Str? && 1 <= |f[key].s| <= 320
  {
    hide ParseAll, ParseRecoveryPort, ParseRecoveryOptions, ParseKey, ValidRecovery;
  }
}
