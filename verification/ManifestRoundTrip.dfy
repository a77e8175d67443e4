/**
 What a manifest is written as, what is read back from it, and why reading
 returns what was written: both parsers accept exactly their own output.
 */
module ManifestRoundTrip {
  import opened Common
  import opened ServerManifest

  // ----- serialisation -----

  /** Serialising a record leaves out a member that is undefined. */
  function Put(f: Fields, key: string, value: Option<Json>): Fields {
    if value.None? then f else f[key := value.value]
  }

  function Nullable(value: Option<Option<string>>): Option<Json> {
    if value.None? then None
    else if value.value.None? then Some(Null)
    else Some(Str(value.value.value))
  }

  function Limit(value: Option<Option<int>>): Option<Json> {
    if value.None? then None
    else if value.value.None? then Some(Null)
    else Some(Num(value.value.value as real))
  }

  function Text(value: Option<string>): Option<Json> {
    if value.None? then None else Some(Str(value.value))
  }

  function Texts(value: Option<seq<string>>): Option<Json> {
    if value.None? then None
    else Some(Arr(seq(|value.value|, k requires 0 <= k < |value.value| => Str(value.value[k]))))
  }

  function EncodeRecoveryPort(p: RecoveryPort): Json {
    var f: Fields := map["hostPort" := Num(p.hostPort as real), "isPrimary" := Bool(p.isPrimary), "isAdditional" := Bool(p.isAdditional)];
    Obj(Put(f, "label", Nullable(p.caption)))
  }

  function EncodeRecoveryBase(r: Recovery): Fields {
    map["name" := Str(r.name), "ownerId" := Str(r.ownerId), "ownerEmail" := Str(r.ownerEmail),
        "blueprint" := Obj(r.blueprint), "diskLimitMb" := Num(r.diskLimitMb),
        "ports" := Arr(seq(|r.ports|, k requires 0 <= k < |r.ports| => EncodeRecoveryPort(r.ports[k]))),
        "secretEnvKeys" := Texts(Some(r.secretEnvKeys)).value]
  }

  function EncodeRecovery(r: Recovery): Fields {
    var f1 := Put(EncodeRecoveryBase(r), "additionalPortLimit", Limit(r.additionalPortLimit));
    var f2 := Put(Put(f1, "databaseLimit", Limit(r.databaseLimit)), "backupLimit", Limit(r.backupLimit));
    Put(Put(f2, "status", Text(r.status)), "suspensionReason", Nullable(r.suspensionReason))
  }

  function EncodePort(p: PortBinding): Json {
    Obj(map["hostPort" := Num(p.hostPort as real), "containerPort" := Num(p.containerPort as real),
            "protocol" := Str(if p.protocol.Tcp? then "tcp" else "udp")])
  }

  function PortItems(ports: seq<PortBinding>): seq<Json> {
    seq(|ports|, k requires 0 <= k < |ports| => EncodePort(ports[k]))
  }

  function RequestBase(s: ContainerSpec, ports: seq<Json>): Fields {
    map["image" := Str(s.image), "containerDataPath" := Str(s.containerDataPath),
        "cpuLimit" := Num(s.cpuLimit), "memoryLimitMb" := Num(s.memoryLimitMb),
        "env" := Obj(map key | key in s.env :: Str(s.env[key])),
        "ports" := Arr(ports),
        "readOnlyRootFilesystem" := Bool(s.readOnlyRootFilesystem), "tty" := Bool(s.tty)]
  }

  /** The request for `s`, with its port entries given as they stand. */
  function RequestFields(s: ContainerSpec, ports: seq<Json>): Fields {
    var f1 := Put(RequestBase(s, ports), "command", Texts(s.command));
    var f2 := Put(Put(f1, "extraNetworks", Texts(s.extraNetworks)), "user", Text(s.user));
    Put(f2, "recovery", if s.recovery.None? then None else Some(Obj(EncodeRecovery(s.recovery.value))))
  }

  function EncodeSpec(s: ContainerSpec): Fields {
    RequestFields(s, PortItems(s.ports))
  }

  // ----- both parsers accept their own output -----

  lemma RecoveryPortBack(p: RecoveryPort)
    requires ValidHostPort(p.hostPort)
    ensures ParseRecoveryPort(EncodeRecoveryPort(p)) == Ok(p)
  {
  }

  lemma PutThenGet(f: Fields, key: string, value: Option<Json>, other: string)
    ensures Get(Put(f, key, value), other) == if other == key && value.Some? then value else Get(f, other)
  {
  }

  lemma RecoveryMember(r: Recovery, key: string)
    ensures Get(EncodeRecovery(r), key) ==
      if key == "suspensionReason" && r.suspensionReason.Some? then Nullable(r.suspensionReason)
      else if key == "status" && r.status.Some? then Text(r.status)
      else if key == "backupLimit" && r.backupLimit.Some? then Limit(r.backupLimit)
      else if key == "databaseLimit" && r.databaseLimit.Some? then Limit(r.databaseLimit)
      else if key == "additionalPortLimit" && r.additionalPortLimit.Some? then Limit(r.additionalPortLimit)
      else Get(EncodeRecoveryBase(r), key)
  {
    hide EncodeRecoveryBase, Put, Get;
    var f0 := EncodeRecoveryBase(r);
    var f1 := Put(f0, "additionalPortLimit", Limit(r.additionalPortLimit));
    var f2 := Put(f1, "databaseLimit", Limit(r.databaseLimit));
    var f3 := Put(f2, "backupLimit", Limit(r.backupLimit));
    var f4 := Put(f3, "status", Text(r.status));
    PutThenGet(f0, "additionalPortLimit", Limit(r.additionalPortLimit), key);
    PutThenGet(f1, "databaseLimit", Limit(r.databaseLimit), key);
    PutThenGet(f2, "backupLimit", Limit(r.backupLimit), key);
    PutThenGet(f3, "status", Text(r.status), key);
    PutThenGet(f4, "suspensionReason", Nullable(r.suspensionReason), key);
  }

  lemma RecoveryRequired(r: Recovery)
    ensures var f := EncodeRecovery(r);
      && Get(f, "name") == Some(Str(r.name)) && Get(f, "ownerId") == Some(Str(r.ownerId))
      && Get(f, "ownerEmail") == Some(Str(r.ownerEmail)) && Get(f, "blueprint") == Some(Obj(r.blueprint))
      && Get(f, "diskLimitMb") == Some(Num(r.diskLimitMb))
      && Get(f, "ports") == Some(EncodeRecoveryBase(r)["ports"]) && Get(f, "secretEnvKeys") == Texts(Some(r.secretEnvKeys))
  {
    hide EncodeRecovery;
    RecoveryMember(r, "name");
    RecoveryMember(r, "ownerId");
    RecoveryMember(r, "ownerEmail");
    RecoveryMember(r, "blueprint");
    RecoveryMember(r, "diskLimitMb");
    RecoveryMember(r, "ports");
    RecoveryMember(r, "secretEnvKeys");
    assert "diskLimitMb"[0] != "backupLimit"[0] && "secretEnvKeys"[0] != "databaseLimit"[0];
  }

  lemma RecoveryOptional(r: Recovery)
    ensures var f := EncodeRecovery(r);
      && Get(f, "additionalPortLimit") == Limit(r.additionalPortLimit)
      && Get(f, "databaseLimit") == Limit(r.databaseLimit) && Get(f, "backupLimit") == Limit(r.backupLimit)
      && Get(f, "status") == Text(r.status) && Get(f, "suspensionReason") == Nullable(r.suspensionReason)
  {
    hide EncodeRecovery;
    RecoveryMember(r, "additionalPortLimit");
    RecoveryMember(r, "databaseLimit");
    RecoveryMember(r, "backupLimit");
    RecoveryMember(r, "status");
    RecoveryMember(r, "suspensionReason");
    assert "diskLimitMb"[0] != "backupLimit"[0] && "secretEnvKeys"[0] != "databaseLimit"[0];
  }

  lemma KeysBack(keys: seq<string>)
    requires forall k :: 0 <= k < |keys| ==> keys[k] != ""
    ensures Texts(Some(keys)).Some? && Texts(Some(keys)).value.Arr? && ParseAll(Texts(Some(keys)).value.items, ParseKey) == Ok(keys)
  {
    ParseAllIs(Texts(Some(keys)).value.items, keys, ParseKey);
  }

  lemma RecoveryPortsBack(r: Recovery)
    requires ValidRecovery(r)
    ensures EncodeRecoveryBase(r)["ports"].Arr? && ParseAll(EncodeRecoveryBase(r)["ports"].items, ParseRecoveryPort) == Ok(r.ports)
  {
    var items := EncodeRecoveryBase(r)["ports"].items;
    forall k | 0 <= k < |items|
      ensures ParseRecoveryPort(items[k]) == Ok(r.ports[k])
    {
      RecoveryPortBack(r.ports[k]);
    }
    ParseAllIs(items, r.ports, ParseRecoveryPort);
  }

  lemma LimitBack(f: Fields, key: string, value: Option<Option<int>>)
    requires Get(f, key) == Limit(value) && ValidLimit(value)
    ensures ParseLimit(f, key) == Ok(value)
  {
  }

  lemma NullableBack(value: Option<Option<string>>)
    ensures ParseNullable(Nullable(value)) == Ok(value)
  {
  }

  function Bare(r: Recovery): Recovery {
    r.(additionalPortLimit := None, databaseLimit := None, backupLimit := None, status := None, suspensionReason := None)
  }

  lemma RecoveryOptionsBack(r: Recovery, partial: Recovery)
    requires ValidRecovery(r)
    requires partial == Bare(r)
    ensures ParseRecoveryOptions(EncodeRecovery(r), partial) == Ok(r)
  {
    var f := EncodeRecovery(r);
    hide EncodeRecovery, ParseLimit, ParseNullable, Limit, Nullable;
    RecoveryOptional(r);
    LimitBack(f, "additionalPortLimit", r.additionalPortLimit);
    LimitBack(f, "databaseLimit", r.databaseLimit);
    LimitBack(f, "backupLimit", r.backupLimit);
    NullableBack(r.suspensionReason);
  }

  /** Recovery metadata that was accepted once is accepted again, unchanged, from what it is written as. */
  lemma RecoveryBack(r: Recovery)
    requires ValidRecovery(r)
    ensures ParseRecoveryMetadata(Obj(EncodeRecovery(r))) == Ok(r)
  {
    var f := EncodeRecovery(r);
    hide EncodeRecovery, EncodeRecoveryBase, ParseRecoveryOptions, Texts;
    RecoveryRequired(r);
    RecoveryPortsBack(r);
    KeysBack(r.secretEnvKeys);
    RecoveryOptionsBack(r, Bare(r));
  }

  // ----- the container spec -----

  /** Number() of a number is that number; nothing else about it is needed here. */
  ghost predicate KeepsNumbers(number: Json -> Option<real>) {
    forall n: real :: number(Num(n)) == Some(n)
  }

  lemma SpecMember(s: ContainerSpec, ports: seq<Json>, key: string)
    ensures Get(RequestFields(s, ports), key) ==
      if key == "recovery" && s.recovery.Some? then Some(Obj(EncodeRecovery(s.recovery.value)))
      else if key == "user" && s.user.Some? then Text(s.user)
      else if key == "extraNetworks" && s.extraNetworks.Some? then Texts(s.extraNetworks)
      else if key == "command" && s.command.Some? then Texts(s.command)
      else Get(RequestBase(s, ports), key)
  {
    hide RequestBase, EncodeRecovery, Put, Get;
    var f0 := RequestBase(s, ports);
    var f1 := Put(f0, "command", Texts(s.command));
    var f2 := Put(f1, "extraNetworks", Texts(s.extraNetworks));
    var f3 := Put(f2, "user", Text(s.user));
    PutThenGet(f0, "command", Texts(s.command), key);
    PutThenGet(f1, "extraNetworks", Texts(s.extraNetworks), key);
    PutThenGet(f2, "user", Text(s.user), key);
    PutThenGet(f3, "recovery", if s.recovery.None? then None else Some(Obj(EncodeRecovery(s.recovery.value))), key);
  }

  lemma SpecRequired(s: ContainerSpec, ports: seq<Json>)
    ensures var f := RequestFields(s, ports);
      && Get(f, "image") == Some(Str(s.image)) && Get(f, "containerDataPath") == Some(Str(s.containerDataPath))
      && Get(f, "cpuLimit") == Some(Num(s.cpuLimit)) && Get(f, "memoryLimitMb") == Some(Num(s.memoryLimitMb))
      && Get(f, "env") == Some(RequestBase(s, ports)["env"]) && Get(f, "ports") == Some(Arr(ports))
      && Get(f, "readOnlyRootFilesystem") == Some(Bool(s.readOnlyRootFilesystem)) && Get(f, "tty") == Some(Bool(s.tty))
  {
    hide RequestFields;
    SpecMember(s, ports, "image");
    SpecMember(s, ports, "containerDataPath");
    SpecMember(s, ports, "cpuLimit");
    SpecMember(s, ports, "memoryLimitMb");
    SpecMember(s, ports, "env");
    SpecMember(s, ports, "ports");
    SpecMember(s, ports, "readOnlyRootFilesystem");
    SpecMember(s, ports, "tty");
    assert "cpuLimit"[0] != "recovery"[0] && "memoryLimitMb"[0] != "extraNetworks"[0];
  }

  lemma SpecOptional(s: ContainerSpec, ports: seq<Json>)
    ensures var f := RequestFields(s, ports);
      && Get(f, "command") == Texts(s.command) && Get(f, "extraNetworks") == Texts(s.extraNetworks)
      && Get(f, "user") == Text(s.user)
      && Get(f, "recovery") == (if s.recovery.None? then None else Some(Obj(EncodeRecovery(s.recovery.value))))
  {
    hide RequestFields, EncodeRecovery;
    SpecMember(s, ports, "command");
    SpecMember(s, ports, "extraNetworks");
    SpecMember(s, ports, "user");
    SpecMember(s, ports, "recovery");
    assert "cpuLimit"[0] != "recovery"[0] && "memoryLimitMb"[0] != "extraNetworks"[0];
  }

  lemma PortsBack(number: Json -> Option<real>, s: ContainerSpec)
    requires KeepsNumbers(number) && ValidSpec(s.(user := None))
    ensures ParseAll(PortItems(s.ports), (j: Json) => ParsePort(number, j)) == Ok(s.ports)
  {
    var items := PortItems(s.ports);
    forall k | 0 <= k < |items|
      ensures ParsePort(number, items[k]) == Ok(s.ports[k])
    {
      assert items[k] == EncodePort(s.ports[k]);
    }
    ParseAllIs(items, s.ports, (j: Json) => ParsePort(number, j));
  }

  lemma EnvBack(f: Fields, env: map<string, string>)
    requires Get(f, "env") == Some(Obj(map key | key in env :: Str(env[key])))
    ensures ParseEnv(f) == Ok(env)
  {
    var written: Fields := map key | key in env :: Str(env[key]);
    assert f["env"].fields == written && forall key :: key in written ==> written[key].Str?;
    assert EnvValues(written) == env;
  }

  lemma StringsBack(f: Fields, key: string, value: Option<seq<string>>)
    requires Get(f, key) == Texts(value)
    ensures ParseStrings(f, key) == Ok(value)
  {
    if value.Some? {
      ParseAllIs(Texts(value).value.items, value.value, ParseString);
    }
  }

  /** An empty user is no user; any other must be digits. */
  function UserOutcome(user: Option<string>): Result<Option<string>, Refusal> {
    if user.None? || user.value == "" then Ok(None)
    else if IsUser(user.value) then Ok(user)
    else Err("user")
  }

  lemma SpecOptionsBack(s: ContainerSpec, partial: ContainerSpec)
    requires ValidSpec(s.(user := None))
    requires partial == s.(command := None, extraNetworks := None, user := None, recovery := None)
    ensures ParseSpecOptions(EncodeSpec(s), partial) ==
      if UserOutcome(s.user).Err? then Err("user") else Ok(s.(user := UserOutcome(s.user).value))
  {
    var f := EncodeSpec(s);
    hide RequestFields, EncodeRecovery, ParseStrings, ParseRecoveryMetadata, Texts, IsUser;
    SpecOptional(s, PortItems(s.ports));
    StringsBack(f, "command", s.command);
    StringsBack(f, "extraNetworks", s.extraNetworks);
    if s.recovery.Some? {
      RecoveryBack(s.recovery.value);
    }
  }

  lemma SpecOutcome(number: Json -> Option<real>, s: ContainerSpec)
    requires KeepsNumbers(number) && ValidSpec(s.(user := None))
    ensures ParseServerContainerRequest(number, EncodeSpec(s)) ==
      if UserOutcome(s.user).Err? then Err("user") else Ok(s.(user := UserOutcome(s.user).value))
  {
    var f := EncodeSpec(s);
    hide RequestFields, ParseSpecOptions, ParseEnv, ParsePort, UserOutcome;
    SpecRequired(s, PortItems(s.ports));
    PortsBack(number, s);
    EnvBack(f, s.env);
    SpecOptionsBack(s, s.(command := None, extraNetworks := None, user := None, recovery := None));
  }

  /** A spec that was accepted once is accepted again, unchanged, from what it is written as. */
  lemma SpecBack(number: Json -> Option<real>, s: ContainerSpec)
    requires KeepsNumbers(number) && ValidSpec(s)
    ensures ParseServerContainerRequest(number, EncodeSpec(s)) == Ok(s)
  {
    hide ParseServerContainerRequest, EncodeSpec;
    SpecOutcome(number, s);
  }

  /** Whatever the request, parsing what an accepted one is written as changes nothing more. */
  lemma ParsingIsIdempotent(number: Json -> Option<real>, body: Fields)
    requires KeepsNumbers(number) && ParseServerContainerRequest(number, body).Ok?
    ensures ParseServerContainerRequest(number, EncodeSpec(ParseServerContainerRequest(number, body).value))
         == ParseServerContainerRequest(number, body)
  {
    hide RequestFields, ParseSpecOptions, ParseEnv, ParsePort;
    SpecBack(number, ParseServerContainerRequest(number, body).value);
  }

  // ----- the manifest -----

  const MAX_MANIFEST_BYTES: nat := 2 * 1024 * 1024

  datatype Manifest = Manifest(serverId: string, spec: ContainerSpec, updatedAt: string, recovery: Option<Recovery>)

  /** The value that is serialised, or why there is none; `size` is the byte length of a serialised value. */
  function WriteManifest(size: Json -> nat, serverId: string, spec: ContainerSpec, recovery: Option<Recovery>, now: string)
    : Result<Json, Refusal>
  {
    var chosen := if recovery.Some? then recovery else spec.recovery;
    var parsed := if chosen.None? then Ok(None)
                  else
                    var again := ParseRecoveryMetadata(Obj(EncodeRecovery(chosen.value)));
                    if again.Err? then Err(again.error) else Ok(Some(again.value));
    if parsed.Err? then Err(parsed.error)
    else
      var f: Fields := map["version" := Num(1.0), "serverId" := Str(serverId),
                           "spec" := Obj(EncodeSpec(spec.(recovery := None))), "updatedAt" := Str(now)];
      var value := Obj(Put(f, "recovery", if parsed.value.None? then None else Some(Obj(EncodeRecovery(parsed.value.value)))));
      if size(value) > MAX_MANIFEST_BYTES then Err("exceeds 2 MiB") else Ok(value)
  }

  function ReadManifest(number: Json -> Option<real>, size: Json -> nat, serverId: string, value: Json): Result<Manifest, Refusal> {
    if size(value) > MAX_MANIFEST_BYTES then Err("invalid file")
    else if !(value.Obj? && Get(value.fields, "version") == Some(Num(1.0)) && Get(value.fields, "serverId") == Some(Str(serverId))
         && "spec" in value.fields && value.fields["spec"].Obj?
         && "updatedAt" in value.fields && value.fields["updatedAt"].Str?) then Err("invalid manifest")
    else
      var spec := ParseServerContainerRequest(number, value.fields["spec"].fields);
      if spec.Err? then Err(spec.error)
      else if "recovery" !in value.fields then Ok(Manifest(serverId, spec.value, value.fields["updatedAt"].s, None))
      else
        var recovery := ParseRecoveryMetadata(value.fields["recovery"]);
        if recovery.Err? then Err(recovery.error)
        else Ok(Manifest(serverId, spec.value, value.fields["updatedAt"].s, Some(recovery.value)))
  }

  lemma ManifestMembers(f: Fields, serverId: string, spec: Json, now: string, recovery: Option<Json>)
    requires f == Put(map["version" := Num(1.0), "serverId" := Str(serverId), "spec" := spec, "updatedAt" := Str(now)],
                      "recovery", recovery)
    ensures Get(f, "version") == Some(Num(1.0)) && Get(f, "serverId") == Some(Str(serverId))
         && Get(f, "spec") == Some(spec) && Get(f, "updatedAt") == Some(Str(now)) && Get(f, "recovery") == recovery
  {
    assert "serverId"[0] != "recovery"[0];
  }

  /**
   Reading a manifest gives the spec and the recovery it was written with. The
   recovery written is the one passed in, or the spec's own when none is.
   */
  lemma ReadsWhatWasWritten(number: Json -> Option<real>, size: Json -> nat, serverId: string, spec: ContainerSpec,
                            recovery: Option<Recovery>, now: string)
    requires KeepsNumbers(number) && ValidSpec(spec) && (recovery.Some? ==> ValidRecovery(recovery.value))
    ensures var written := WriteManifest(size, serverId, spec, recovery, now);
      written.Ok? || written == Err("exceeds 2 MiB")
    ensures var written := WriteManifest(size, serverId, spec, recovery, now);
      written.Ok? ==>
        ReadManifest(number, size, serverId, written.value)
          == Ok(Manifest(serverId, spec.(recovery := None), now, if recovery.Some? then recovery else spec.recovery))
  {
    hide EncodeSpec, EncodeRecovery, ParseServerContainerRequest, ParseRecoveryMetadata, Put;
    var chosen := if recovery.Some? then recovery else spec.recovery;
    if chosen.Some? {
      RecoveryBack(chosen.value);
    }
    SpecBack(number, spec.(recovery := None));
    var written := WriteManifest(size, serverId, spec, recovery, now);
    if written.Ok? {
      ManifestMembers(written.value.fields, serverId, Obj(EncodeSpec(spec.(recovery := None))), now,
                      if chosen.None? then None else Some(Obj(EncodeRecovery(chosen.value))));
    }
  }

  /**
   A manifest is written and read exactly up to 2 MiB: what is written is no larger, a
   size that is always within it is never the reason for a refusal, and one that never
   is always is.
   */
  lemma SizeIsBounded(number: Json -> Option<real>, size: Json -> nat, serverId: string, spec: ContainerSpec,
                      recovery: Option<Recovery>, now: string, value: Json)
    requires KeepsNumbers(number) && ValidSpec(spec) && (recovery.Some? ==> ValidRecovery(recovery.value))
    ensures var written := WriteManifest(size, serverId, spec, recovery, now);
      && (written.Ok? ==> size(written.value) <= 2_097_152)
      && ((forall v :: size(v) <= 2_097_152) ==> written.Ok?)
      && ((forall v :: size(v) > 2_097_152) ==> written.Err?)
    ensures ReadManifest(number, size, serverId, value).Ok? ==> size(value) <= 2_097_152
  {
    hide EncodeSpec, EncodeRecovery, ParseServerContainerRequest, ParseRecoveryMetadata, Put;
    var chosen := if recovery.Some? then recovery else spec.recovery;
    if chosen.Some? {
      RecoveryBack(chosen.value);
    }
  }

  /**
   What is read is a manifest of version 1, for the server asked for, with a valid spec
   and a valid record if there is one.
   */
  lemma ReadsOnlyItsOwn(number: Json -> Option<real>, size: Json -> nat, serverId: string, value: Json)
    requires ReadManifest(number, size, serverId, value).Ok?
    ensures value.Obj? && "version" in value.fields && value.fields["version"] == Num(1.0)
    ensures "serverId" in value.fields && value.fields["serverId"] == Str(serverId)
    ensures var m := ReadManifest(number, size, serverId, value).value;
      && m.serverId == serverId && ValidSpec(m.spec) && "updatedAt" in value.fields && value.fields["updatedAt"] == Str(m.updatedAt)
      && (m.recovery.Some? <==> "recovery" in value.fields) && (m.recovery.Some? ==> ValidRecovery(m.recovery.value))
  {
    hide ParseServerContainerRequest, ParseRecoveryMetadata, ValidSpec, ValidRecovery;
  }
}
