/** `runtime.py`: the one Docker container of a server, and whether it runs what the panel's record says. */
module Containers {
  import opened Common
  import opened Text

  datatype ServerType = Paper | Vanilla | Purpur | Pufferfish | Fabric | Quilt | Forge | NeoForge

  function Value(t: ServerType): string {
    match t
    case Paper => "paper"
    case Vanilla => "vanilla"
    case Purpur => "purpur"
    case Pufferfish => "pufferfish"
    case Fabric => "fabric"
    case Quilt => "quilt"
    case Forge => "forge"
    case NeoForge => "neoforge"
  }

  /** `server_type.value.upper()` */
  function ItzgType(t: ServerType): string {
    match t
    case Paper => "PAPER"
    case Vanilla => "VANILLA"
    case Purpur => "PURPUR"
    case Pufferfish => "PUFFERFISH"
    case Fabric => "FABRIC"
    case Quilt => "QUILT"
    case Forge => "FORGE"
    case NeoForge => "NEOFORGE"
  }

  /** The columns of a server's row that its container depends on. */
  datatype Record = Record(
    memoryMb: nat,
    hostPort: nat,
    useAikarFlags: bool,
    customFlags: string,
    serverType: ServerType,
    gameVersion: string,
    java: Option<nat>)

  /** A label's value; a hash is as good as what it was taken of. */
  datatype Label = Plain(text: string) | Fingerprint(of: string)

  datatype Status = Running | Created | Exited | Other(name: string)

  /** What a container was created with. */
  datatype Launch = Launch(image: string, hostPort: nat, memLimit: string, environment: map<string, string>)

  datatype Container = Container(id: string, status: Status, labels: map<string, Label>, launch: Launch)

  /** How `shlex.split` and the checks after it read the custom flags: None where they are refused. */
  type Splitter = string -> Option<seq<string>>

  // ------------------------------------------------------------------
  // Labels and launch parameters
  // ------------------------------------------------------------------

  const MANAGED := "io.talos-panel.managed"
  const SERVER_ID := "io.talos-panel.server-id"
  const MEMORY := "io.talos-panel.memory-mb"
  const PORT := "io.talos-panel.host-port"
  const PROFILE := "io.talos-panel.jvm-profile"
  const TYPE := "io.talos-panel.server-type"
  const VERSION := "io.talos-panel.game-version"
  const RUNTIME := "io.talos-panel.runtime"
  const CONSOLE := "io.talos-panel.console-mode"

  /** What `_jvm_profile_hash` hashes. */
  function ProfileText(r: Record): string {
    (if r.useAikarFlags then "True" else "False") + "\0" + r.customFlags
  }

  function LabelsOf(serverId: string, r: Record): map<string, Label> {
    map[
      MANAGED := Plain("true"),
      SERVER_ID := Plain(serverId),
      MEMORY := Plain(ShowNat(r.memoryMb)),
      PORT := Plain(ShowNat(r.hostPort)),
      PROFILE := Fingerprint(ProfileText(r)),
      TYPE := Plain(Value(r.serverType)),
      VERSION := Plain(r.gameVersion),
      RUNTIME := Plain("itzg"),
      CONSOLE := Plain("pipe")
    ]
  }

  predicate Has(labels: map<string, Label>, key: string, value: Label) {
    key in labels && labels[key] == value
  }

  /** `_managed_container` accepts the container. */
  predicate IsManaged(serverId: string, c: Container) {
    Has(c.labels, MANAGED, Plain("true")) && Has(c.labels, SERVER_ID, Plain(serverId))
  }

  predicate ProfileMatches(labels: map<string, Label>, r: Record) {
    && Has(labels, MEMORY, Plain(ShowNat(r.memoryMb)))
    && Has(labels, PORT, Plain(ShowNat(r.hostPort)))
    && Has(labels, PROFILE, Fingerprint(ProfileText(r)))
    && Has(labels, TYPE, Plain(Value(r.serverType)))
    && Has(labels, VERSION, Plain(r.gameVersion))
    && Has(labels, RUNTIME, Plain("itzg"))
    && Has(labels, CONSOLE, Plain("pipe"))
  }

  predicate IsXx(flag: string) {
    "-XX" <= flag
  }

  /** The flags that start with `-XX`, or those that do not. */
  function Select(flags: seq<string>, xx: bool): seq<string> {
    if flags == [] then []
    else (if IsXx(flags[0]) == xx then [flags[0]] else []) + Select(flags[1..], xx)
  }

  function Spaced(words: seq<string>): string {
    if words == [] then "" else if |words| == 1 then words[0] else words[0] + " " + Spaced(words[1..])
  }

  function WithOption(environment: map<string, string>, key: string, flags: seq<string>): map<string, string> {
    if flags == [] then environment else environment[key := Spaced(flags)]
  }

  function FixedEnvironment(r: Record): map<string, string> {
    map[
      "EULA" := "TRUE",
      "TYPE" := ItzgType(r.serverType),
      "VERSION" := r.gameVersion,
      "MEMORY" := ShowNat(r.memoryMb) + "M",
      "USE_AIKAR_FLAGS" := if r.useAikarFlags then "TRUE" else "FALSE",
      "ENABLE_RCON" := "FALSE",
      "CREATE_CONSOLE_IN_PIPE" := "TRUE"
    ]
  }

  function Environment(r: Record, flags: seq<string>): map<string, string> {
    WithOption(WithOption(FixedEnvironment(r), "JVM_XX_OPTS", Select(flags, true)), "JVM_OPTS", Select(flags, false))
  }

  const SUPPORTED_JAVA: set<nat> := {8, 11, 17, 21, 25}

  function Image(java: nat): string {
    "itzg/minecraft-server:java" + ShowNat(java)
  }

  /** The launch parameters for a record, or None where `profile_for` or the flag check raises. */
  function LaunchOf(split: Splitter, r: Record): Option<Launch> {
    if r.java.None? || r.java.value !in SUPPORTED_JAVA || split(r.customFlags).None? then None
    else
      Some(Launch(
             Image(r.java.value), r.hostPort, ShowNat(r.memoryMb) + "m",
             Environment(r, split(r.customFlags).value)))
  }

  /** Everything of a record that has a label; the Java version has none. */
  predicate SameProfile(a: Record, b: Record) {
    && a.memoryMb == b.memoryMb
    && a.hostPort == b.hostPort
    && a.useAikarFlags == b.useAikarFlags
    && a.customFlags == b.customFlags
    && a.serverType == b.serverType
    && a.gameVersion == b.gameVersion
  }

  lemma ProfileTextInjective(a: Record, b: Record)
    requires ProfileText(a) == ProfileText(b)
    ensures a.useAikarFlags == b.useAikarFlags && a.customFlags == b.customFlags
  {
    var s, t := ProfileText(a), ProfileText(b);
    assert s[0] == 'T' <==> a.useAikarFlags;
    assert t[0] == 'T' <==> b.useAikarFlags;
    var n := if a.useAikarFlags then 5 else 6;
    assert s[n..] == a.customFlags && t[n..] == b.customFlags;
  }

  /** The labels of a container created for `a` match the record `b` if and only if their profiles agree. */
  lemma LabelsTellTheProfile(serverId: string, a: Record, b: Record)
    ensures ProfileMatches(LabelsOf(serverId, a), b) <==> SameProfile(a, b)
  {
    var labels := LabelsOf(serverId, a);
    if ProfileMatches(labels, b) {
      ShowNatInjective(a.memoryMb, b.memoryMb);
      ShowNatInjective(a.hostPort, b.hostPort);
      ProfileTextInjective(a, b);
      assert Value(a.serverType)[..2] == Value(b.serverType)[..2] && |Value(a.serverType)| == |Value(b.serverType)|;
    }
  }

  // ------------------------------------------------------------------
  // What the launch parameters have to be, entry by entry
  // ------------------------------------------------------------------

  predicate HasEntry(environment: map<string, string>, key: string, value: string) {
    key in environment && environment[key] == value
  }

  /** `upper` is `s` in capitals. */
  predicate IsUpperOf(upper: string, s: string) {
    |upper| == |s| &&
    forall i :: 0 <= i < |s| ==> upper[i] as int == if 'a' <= s[i] <= 'z' then s[i] as int - 32 else s[i] as int
  }

  /** `whole` is made up of `a` and `b`, each in its own order. */
  predicate Interleaves(whole: seq<string>, a: seq<string>, b: seq<string>)
    decreases |whole|
  {
    if whole == [] then a == [] && b == []
    else
      || (a != [] && a[0] == whole[0] && Interleaves(whole[1..], a[1..], b))
      || (b != [] && b[0] == whole[0] && Interleaves(whole[1..], a, b[1..]))
  }

  /** `text` is the words one after the other, with one space in between. */
  predicate IsSpaced(text: string, words: seq<string>)
    requires words != []
    decreases |words|
  {
    var last := words[|words| - 1];
    if |words| == 1 then text == last
    else
      && |text| > |last|
      && text[|text| - |last| - 1..] == " " + last
      && IsSpaced(text[..|text| - |last| - 1], words[..|words| - 1])
  }

  /** The flags are under the key, or there is no such key and no such flag. */
  predicate HasFlags(environment: map<string, string>, key: string, flags: seq<string>) {
    if flags == [] then key !in environment else key in environment && IsSpaced(environment[key], flags)
  }

  predicate StartsWithXx(flag: string) {
    |flag| >= 3 && flag[0] == '-' && flag[1] == 'X' && flag[2] == 'X'
  }

  /** `xx` are the flags that start with `-XX` and `others` are those that do not, both in their order. */
  predicate IsDivided(flags: seq<string>, xx: seq<string>, others: seq<string>) {
    && Interleaves(flags, xx, others)
    && (forall i :: 0 <= i < |xx| ==> StartsWithXx(xx[i]))
    && (forall i :: 0 <= i < |others| ==> !StartsWithXx(others[i]))
  }

  predicate HasFixedEntries(e: map<string, string>, r: Record) {
    && HasEntry(e, "VERSION", r.gameVersion)
    && "TYPE" in e && IsUpperOf(e["TYPE"], Value(r.serverType))
    && HasEntry(e, "MEMORY", ShowNat(r.memoryMb) + "M")
    && HasEntry(e, "USE_AIKAR_FLAGS", if r.useAikarFlags then "TRUE" else "FALSE")
    && HasEntry(e, "EULA", "TRUE") && HasEntry(e, "ENABLE_RCON", "FALSE") && HasEntry(e, "CREATE_CONSOLE_IN_PIPE", "TRUE")
  }

  /** Whether what a container was created with is what the record asks for, the Java version aside. */
  ghost predicate AgreesButForJava(split: Splitter, launch: Launch, r: Record) {
    var e := launch.environment;
    && split(r.customFlags).Some?
    && launch.hostPort == r.hostPort
    && launch.memLimit == ShowNat(r.memoryMb) + "m"
    && HasFixedEntries(e, r)
    && (exists xx, others ::
          IsDivided(split(r.customFlags).value, xx, others)
          && HasFlags(e, "JVM_XX_OPTS", xx) && HasFlags(e, "JVM_OPTS", others))
    && |e| <= 9
  }

  /** The image for a Java version. */
  predicate RunsOnJava(launch: Launch, java: Option<nat>) {
    java.Some? && launch.image == "itzg/minecraft-server:java" + ShowNat(java.value)
  }

  lemma TypeIsUpper(t: ServerType)
    ensures IsUpperOf(ItzgType(t), Value(t))
  {
  }

  lemma XxMeans(flag: string)
    ensures IsXx(flag) <==> StartsWithXx(flag)
  {
    var xx := "-XX";
    if xx <= flag {
      assert flag[0] == xx[0] && flag[1] == xx[1] && flag[2] == xx[2];
    }
  }

  lemma {:induction false} SelectSelects(flags: seq<string>, xx: bool)
    ensures forall i :: 0 <= i < |Select(flags, xx)| ==> StartsWithXx(Select(flags, xx)[i]) == xx
  {
    if flags != [] {
      XxMeans(flags[0]);
      SelectSelects(flags[1..], xx);
    }
  }

  lemma OneMore(flag: string, whole: seq<string>, a: seq<string>, b: seq<string>)
    requires Interleaves(whole, a, b)
    ensures Interleaves([flag] + whole, [flag] + a, b) && Interleaves([flag] + whole, a, [flag] + b)
  {
    assert ([flag] + whole)[1..] == whole && ([flag] + a)[1..] == a && ([flag] + b)[1..] == b;
  }

  lemma {:induction false} SelectInterleaves(flags: seq<string>)
    ensures Interleaves(flags, Select(flags, true), Select(flags, false))
  {
    if flags != [] {
      var xx, others := Select(flags[1..], true), Select(flags[1..], false);
      SelectInterleaves(flags[1..]);
      OneMore(flags[0], flags[1..], xx, others);
      assert flags == [flags[0]] + flags[1..];
      assert [] + xx == xx && [] + others == others;
    }
  }

  lemma SelectDivides(flags: seq<string>)
    ensures IsDivided(flags, Select(flags, true), Select(flags, false))
  {
    SelectInterleaves(flags);
    SelectSelects(flags, true);
    SelectSelects(flags, false);
  }

  lemma {:induction false} SpacedMore(words: seq<string>, last: string)
    requires words != []
    ensures Spaced(words + [last]) == Spaced(words) + " " + last
    decreases |words|
  {
    var whole := words + [last];
    if |words| == 1 {
      assert whole[1..] == [last];
    } else {
      assert whole[1..] == words[1..] + [last];
      SpacedMore(words[1..], last);
    }
  }

  lemma {:induction false} SpacedIsSpaced(words: seq<string>)
    requires words != []
    ensures IsSpaced(Spaced(words), words)
    decreases |words|
  {
    if |words| > 1 {
      var init, last := words[..|words| - 1], words[|words| - 1];
      SpacedIsSpaced(init);
      SpacedMore(init, last);
      assert words == init + [last];
      var text := Spaced(words);
      assert text[..|text| - |last| - 1] == Spaced(init) && text[|text| - |last| - 1..] == " " + last;
    }
  }

  lemma OptionHasFlags(environment: map<string, string>, key: string, flags: seq<string>)
    requires key !in environment
    ensures HasFlags(WithOption(environment, key, flags), key, flags)
    ensures forall k :: k != key ==>
              (k in WithOption(environment, key, flags) <==> k in environment) &&
              (k in environment ==> WithOption(environment, key, flags)[k] == environment[k])
    ensures |WithOption(environment, key, flags)| <= |environment| + 1
  {
    if flags != [] {
      SpacedIsSpaced(flags);
    }
  }

  lemma FixedEntries(r: Record)
    ensures HasFixedEntries(FixedEnvironment(r), r) && |FixedEnvironment(r)| <= 7
    ensures "JVM_XX_OPTS" !in FixedEnvironment(r) && "JVM_OPTS" !in FixedEnvironment(r)
  {
    TypeIsUpper(r.serverType);
    assert FixedEnvironment(r).Keys ==
           {"EULA", "TYPE", "VERSION", "MEMORY", "USE_AIKAR_FLAGS", "ENABLE_RCON", "CREATE_CONSOLE_IN_PIPE"};
    AtMostSeven("EULA", "TYPE", "VERSION", "MEMORY", "USE_AIKAR_FLAGS", "ENABLE_RCON", "CREATE_CONSOLE_IN_PIPE");
  }

  lemma AtMostSeven<T>(a: T, b: T, c: T, d: T, e: T, f: T, g: T)
    ensures |{a, b, c, d, e, f, g}| <= 7
  {
    assert {a, b, c, d, e, f, g} == {a} + {b} + {c} + {d} + {e} + {f} + {g};
  }

  lemma OptionKeepsEntries(e: map<string, string>, key: string, flags: seq<string>, r: Record)
    requires HasFixedEntries(e, r) && key !in e
    ensures HasFixedEntries(WithOption(e, key, flags), r)
  {
  }

  lemma EnvironmentAgrees(r: Record, flags: seq<string>)
    ensures var e := Environment(r, flags);
            && HasFixedEntries(e, r) && |e| <= 9
            && HasFlags(e, "JVM_XX_OPTS", Select(flags, true)) && HasFlags(e, "JVM_OPTS", Select(flags, false))
  {
    FixedEntries(r);
    var fixed := FixedEnvironment(r);
    OptionHasFlags(fixed, "JVM_XX_OPTS", Select(flags, true));
    OptionKeepsEntries(fixed, "JVM_XX_OPTS", Select(flags, true), r);
    var one := WithOption(fixed, "JVM_XX_OPTS", Select(flags, true));
    OptionHasFlags(one, "JVM_OPTS", Select(flags, false));
    OptionKeepsEntries(one, "JVM_OPTS", Select(flags, false), r);
  }

  lemma SameProfileSameLaunch(split: Splitter, made: Record, launch: Launch, r: Record)
    requires LaunchOf(split, made) == Some(launch) && SameProfile(made, r)
    ensures AgreesButForJava(split, launch, r) && RunsOnJava(launch, made.java)
  {
    var flags := split(r.customFlags).value;
    EnvironmentAgrees(made, flags);
    SelectDivides(flags);
  }

  // ------------------------------------------------------------------
  // The calls, as functions of the container
  // ------------------------------------------------------------------

  datatype RunResult = Ran | Refused | LeftBehind

  /** Which of the Docker calls that a panel call may make go through, and the id of a container it creates. */
  datatype Docker = Docker(
    ready: bool,      // directory and network
    starts: bool,
    removes: bool,
    runs: RunResult,  // `containers.run` creates, then starts
    sends: bool,
    waits: bool,
    stops: bool,
    newId: string)

  datatype RuntimeError = Unmanaged | DockerFailed | NoProfile

  datatype Answer = Answer(container: Option<Container>, result: Result<string, RuntimeError>)

  function StartFresh(split: Splitter, serverId: string, r: Record, d: Docker): Answer {
    var launch := LaunchOf(split, r);
    if launch.None? then Answer(None, Err(NoProfile))
    else
      match d.runs
      case Refused => Answer(None, Err(DockerFailed))
      case LeftBehind => Answer(Some(Container(d.newId, Created, LabelsOf(serverId, r), launch.value)), Err(DockerFailed))
      case Ran => Answer(Some(Container(d.newId, Running, LabelsOf(serverId, r), launch.value)), Ok(d.newId))
  }

  function Start(split: Splitter, serverId: string, c: Option<Container>, r: Record, d: Docker): Answer {
    if !d.ready then Answer(c, Err(DockerFailed))
    else if c.None? then StartFresh(split, serverId, r, d)
    else if !IsManaged(serverId, c.value) then Answer(c, Err(Unmanaged))
    else if c.value.status.Running? then Answer(c, Ok(c.value.id))
    else if ProfileMatches(c.value.labels, r) then
      if d.starts then Answer(Some(c.value.(status := Running)), Ok(c.value.id)) else Answer(c, Err(DockerFailed))
    else if d.removes then StartFresh(split, serverId, r, d)
    else Answer(c, Err(DockerFailed))
  }

  function Stop(serverId: string, c: Option<Container>, d: Docker): Answer {
    if c.None? then Answer(None, Ok(""))
    else if !IsManaged(serverId, c.value) then Answer(c, Err(Unmanaged))
    else if !c.value.status.Running? then Answer(c, Ok(c.value.id))
    else if d.sends && (d.waits || d.stops) then Answer(Some(c.value.(status := Exited)), Ok(c.value.id))
    else Answer(c, Err(DockerFailed))
  }

  function Restart(split: Splitter, serverId: string, c: Option<Container>, r: Record, d: Docker): Answer {
    var stopped := Stop(serverId, c, d);
    if stopped.result.Err? then stopped else Start(split, serverId, stopped.container, r, d)
  }

  function Remove(serverId: string, c: Option<Container>, d: Docker): Answer {
    if c.None? then Answer(None, Ok(""))
    else if !IsManaged(serverId, c.value) then Answer(c, Err(Unmanaged))
    else if c.value.status.Running? && !d.stops then Answer(c, Err(DockerFailed))
    else if d.removes then Answer(None, Ok(c.value.id))
    else Answer(Some(if c.value.status.Running? then c.value.(status := Exited) else c.value), Err(DockerFailed))
  }

  // ------------------------------------------------------------------
  // When the calls succeed, and what they leave otherwise
  // ------------------------------------------------------------------

  /** A container can be created for the record: a supported Java version, and flags that can be read. */
  predicate CanLaunch(split: Splitter, r: Record) {
    r.java.Some? && r.java.value in {8, 11, 17, 21, 25} && split(r.customFlags).Some?
  }

  predicate IsForeign(serverId: string, c: Container) {
    !(&& Has(c.labels, "io.talos-panel.managed", Plain("true"))
      && Has(c.labels, "io.talos-panel.server-id", Plain(serverId)))
  }

  /** The container was created for the record `r`: its labels and its launch parameters are those of `r`. */
  predicate CreatedFor(split: Splitter, serverId: string, c: Container, r: Record) {
    c.labels == LabelsOf(serverId, r) && LaunchOf(split, r) == Some(c.launch)
  }

  /**
    * With Docker willing, a start succeeds exactly if a container can be created for the record or none has to
    * be, and the name is not taken by a container that is not the panel's.
    */
  lemma StartSucceeds(split: Splitter, serverId: string, c: Option<Container>, r: Record, d: Docker)
    requires d.ready && d.starts && d.removes && d.runs.Ran?
    ensures Start(split, serverId, c, r, d).result.Ok? <==>
            if c.None? then CanLaunch(split, r)
            else !IsForeign(serverId, c.value) &&
                 (c.value.status.Running? || ProfileMatches(c.value.labels, r) || CanLaunch(split, r))
    ensures Start(split, serverId, c, r, d).result.Ok? ==>
              var now := Start(split, serverId, c, r, d).container;
              now.Some? && now.value.status.Running? && Start(split, serverId, c, r, d).result == Ok(now.value.id)
  {
  }

  /** A start that raises leaves the container as it was, or none, or a new one for the record that does not run. */
  lemma FailedStartLeaves(split: Splitter, serverId: string, c: Option<Container>, r: Record, d: Docker)
    requires Start(split, serverId, c, r, d).result.Err?
    ensures
      var now := Start(split, serverId, c, r, d).container;
      || now == c
      || now.None?
      || (now.value.status.Created? && CreatedFor(split, serverId, now.value, r))
    ensures c.Some? && (IsForeign(serverId, c.value) || c.value.status.Running? || ProfileMatches(c.value.labels, r)) ==>
              Start(split, serverId, c, r, d).container == c
  {
  }

  /** A stop changes the status of a running container of the panel and nothing else. */
  lemma StopStops(serverId: string, c: Option<Container>, d: Docker)
    ensures Stop(serverId, c, d).result.Err? ==> Stop(serverId, c, d).container == c
    ensures Stop(serverId, c, d).result.Ok? ==>
              && (c.None? || !IsForeign(serverId, c.value))
              && Stop(serverId, c, d).container ==
                 if c.Some? && c.value.status.Running? then Some(c.value.(status := Exited)) else c
    ensures d.sends && (d.waits || d.stops) && (c.None? || !IsForeign(serverId, c.value)) ==>
              Stop(serverId, c, d).result.Ok?
    ensures c.Some? && !IsForeign(serverId, c.value) && !c.value.status.Running? ==> Stop(serverId, c, d).result.Ok?
  {
  }

  /** With Docker willing, a restart succeeds exactly if the container's profile matches or a new one can be created. */
  lemma RestartSucceeds(split: Splitter, serverId: string, c: Option<Container>, r: Record, d: Docker)
    requires d.ready && d.starts && d.removes && d.runs.Ran? && d.sends && (d.waits || d.stops)
    ensures Restart(split, serverId, c, r, d).result.Ok? <==>
            if c.None? then CanLaunch(split, r)
            else !IsForeign(serverId, c.value) && (ProfileMatches(c.value.labels, r) || CanLaunch(split, r))
  {
    StopStops(serverId, c, d);
    StartSucceeds(split, serverId, Stop(serverId, c, d).container, r, d);
  }

  /** A removal that succeeds leaves no container; one that raises leaves it, perhaps stopped. */
  lemma RemoveRemoves(serverId: string, c: Option<Container>, d: Docker)
    ensures Remove(serverId, c, d).result.Ok? ==> Remove(serverId, c, d).container.None?
    ensures Remove(serverId, c, d).result.Err? ==>
              && c.Some?
              && Remove(serverId, c, d).container in {c, Some(c.value.(status := Exited))}
              && (!c.value.status.Running? || IsForeign(serverId, c.value) ==> Remove(serverId, c, d).container == c)
    ensures d.stops && d.removes ==>
              (Remove(serverId, c, d).result.Ok? <==> c.None? || !IsForeign(serverId, c.value))
  {
  }

  // ------------------------------------------------------------------
  // What every run keeps
  // ------------------------------------------------------------------

  /** A container that carries the panel's own labels was created by the panel, and they tell for which record. */
  ghost predicate LabelsAreTrue(split: Splitter, serverId: string, c: Option<Container>) {
    c.Some? && IsManaged(serverId, c.value) ==> exists r :: CreatedFor(split, serverId, c.value, r)
  }

  /** The panel's calls, and what happens to the container outside of it. */
  datatype Action =
    | CallStart(record: Record, docker: Docker)
    | CallStop(docker: Docker)
    | CallRestart(record: Record, docker: Docker)
    | CallRemove(docker: Docker)
    | StatusChanges(status: Status)
    | Appears(foreign: Container)
    | Disappears

  function Step(split: Splitter, serverId: string, c: Option<Container>, a: Action): Option<Container> {
    match a
    case CallStart(r, d) => Start(split, serverId, c, r, d).container
    case CallStop(d) => Stop(serverId, c, d).container
    case CallRestart(r, d) => Restart(split, serverId, c, r, d).container
    case CallRemove(d) => Remove(serverId, c, d).container
    case StatusChanges(status) => if c.Some? then Some(c.value.(status := status)) else c
    case Appears(foreign) => if c.None? && !IsManaged(serverId, foreign) then Some(foreign) else c
    case Disappears => None
  }

  function Run(split: Splitter, serverId: string, c: Option<Container>, actions: seq<Action>): Option<Container>
    decreases |actions|
  {
    if actions == [] then c else Run(split, serverId, Step(split, serverId, c, actions[0]), actions[1..])
  }

  lemma FreshLabelsAreTrue(split: Splitter, serverId: string, r: Record, d: Docker)
    ensures LabelsAreTrue(split, serverId, StartFresh(split, serverId, r, d).container)
  {
    var c := StartFresh(split, serverId, r, d).container;
    if c.Some? {
      assert CreatedFor(split, serverId, c.value, r);
    }
  }

  lemma StatusKeepsLabelsTrue(split: Splitter, serverId: string, c: Container, status: Status)
    requires LabelsAreTrue(split, serverId, Some(c))
    ensures LabelsAreTrue(split, serverId, Some(c.(status := status)))
  {
    if IsManaged(serverId, c) {
      var r :| CreatedFor(split, serverId, c, r);
      assert CreatedFor(split, serverId, c.(status := status), r);
    }
  }

  lemma StartKeepsLabelsTrue(split: Splitter, serverId: string, c: Option<Container>, r: Record, d: Docker)
    requires LabelsAreTrue(split, serverId, c)
    ensures LabelsAreTrue(split, serverId, Start(split, serverId, c, r, d).container)
  {
    FreshLabelsAreTrue(split, serverId, r, d);
    if c.Some? {
      StatusKeepsLabelsTrue(split, serverId, c.value, Running);
    }
  }

  lemma StopKeepsLabelsTrue(split: Splitter, serverId: string, c: Option<Container>, d: Docker)
    requires LabelsAreTrue(split, serverId, c)
    ensures LabelsAreTrue(split, serverId, Stop(serverId, c, d).container)
    ensures LabelsAreTrue(split, serverId, Remove(serverId, c, d).container)
  {
    if c.Some? {
      StatusKeepsLabelsTrue(split, serverId, c.value, Exited);
    }
  }

  lemma StepKeepsLabelsTrue(split: Splitter, serverId: string, c: Option<Container>, a: Action)
    requires LabelsAreTrue(split, serverId, c)
    ensures LabelsAreTrue(split, serverId, Step(split, serverId, c, a))
  {
    match a
    case CallStart(r, d) => StartKeepsLabelsTrue(split, serverId, c, r, d);
    case CallStop(d) => StopKeepsLabelsTrue(split, serverId, c, d);
    case CallRestart(r, d) =>
      StopKeepsLabelsTrue(split, serverId, c, d);
      StartKeepsLabelsTrue(split, serverId, Stop(serverId, c, d).container, r, d);
    case CallRemove(d) => StopKeepsLabelsTrue(split, serverId, c, d);
    case StatusChanges(status) =>
      if c.Some? {
        StatusKeepsLabelsTrue(split, serverId, c.value, status);
      }
    case Appears(foreign) =>
    case Disappears =>
  }

  /** In every run, the labels of the panel's container are those of the record it was created for. */
  lemma {:induction false} LabelsStayTrue(split: Splitter, serverId: string, c: Option<Container>, actions: seq<Action>)
    requires LabelsAreTrue(split, serverId, c)
    ensures LabelsAreTrue(split, serverId, Run(split, serverId, c, actions))
    decreases |actions|
  {
    if actions != [] {
      StepKeepsLabelsTrue(split, serverId, c, actions[0]);
      LabelsStayTrue(split, serverId, Step(split, serverId, c, actions[0]), actions[1..]);
    }
  }

  // ------------------------------------------------------------------
  // What a started container runs
  // ------------------------------------------------------------------

  /** The container runs and was created with the record's memory, port, flags, server type and game version. */
  ghost predicate RunsTheRecord(split: Splitter, c: Option<Container>, r: Record) {
    && c.Some?
    && c.value.status.Running?
    && ProfileMatches(c.value.labels, r)
    && AgreesButForJava(split, c.value.launch, r)
  }

  lemma FreshRunsTheRecord(split: Splitter, serverId: string, r: Record, d: Docker)
    requires StartFresh(split, serverId, r, d).result.Ok?
    ensures RunsTheRecord(split, StartFresh(split, serverId, r, d).container, r)
  {
    var launch := LaunchOf(split, r).value;
    LabelsTellTheProfile(serverId, r, r);
    SameProfileSameLaunch(split, r, launch, r);
    assert StartFresh(split, serverId, r, d).container == Some(Container(d.newId, Running, LabelsOf(serverId, r), launch));
  }

  lemma MatchingRunsTheRecord(split: Splitter, serverId: string, c: Container, r: Record)
    requires LabelsAreTrue(split, serverId, Some(c)) && IsManaged(serverId, c) && ProfileMatches(c.labels, r)
    ensures RunsTheRecord(split, Some(c.(status := Running)), r)
  {
    var made :| CreatedFor(split, serverId, c, made);
    LabelsTellTheProfile(serverId, made, r);
    SameProfileSameLaunch(split, made, c.launch, r);
  }

  /** A start that succeeds on a container that was not running leaves one that runs the record's profile. */
  lemma StartRunsTheRecord(split: Splitter, serverId: string, c: Option<Container>, r: Record, d: Docker)
    requires LabelsAreTrue(split, serverId, c)
    requires c.Some? ==> !c.value.status.Running?
    requires Start(split, serverId, c, r, d).result.Ok?
    ensures RunsTheRecord(split, Start(split, serverId, c, r, d).container, r)
  {
    if c.None? || !ProfileMatches(c.value.labels, r) {
      FreshRunsTheRecord(split, serverId, r, d);
    } else {
      MatchingRunsTheRecord(split, serverId, c.value, r);
    }
  }

  /** After any run, a restart that succeeds leaves a container that runs the record's profile. */
  lemma RestartRunsTheRecord(
    split: Splitter, serverId: string, c: Option<Container>, actions: seq<Action>, r: Record, d: Docker)
    requires LabelsAreTrue(split, serverId, c)
    requires Restart(split, serverId, Run(split, serverId, c, actions), r, d).result.Ok?
    ensures RunsTheRecord(split, Restart(split, serverId, Run(split, serverId, c, actions), r, d).container, r)
  {
    var before := Run(split, serverId, c, actions);
    LabelsStayTrue(split, serverId, c, actions);
    StopKeepsLabelsTrue(split, serverId, before, d);
    StartRunsTheRecord(split, serverId, Stop(serverId, before, d).container, r, d);
  }

  /**
    * The Java version is another matter, for it has no label: a start of a stopped container that was created
    * for `made` runs exactly what the record asks for, image included, if and only if the container is
    * replaced or its Java version is the record's.
    */
  lemma JavaIsKeptWhenLabelsMatch(split: Splitter, serverId: string, c: Container, made: Record, r: Record, d: Docker)
    requires CreatedFor(split, serverId, c, made) && !c.status.Running?
    requires Start(split, serverId, Some(c), r, d).result.Ok?
    ensures Some(Start(split, serverId, Some(c), r, d).container.value.launch) == LaunchOf(split, r) <==>
            !SameProfile(made, r) || made.java == r.java
    ensures RunsOnJava(Start(split, serverId, Some(c), r, d).container.value.launch, r.java) <==>
            !SameProfile(made, r) || made.java == r.java
  {
    LabelsTellTheProfile(serverId, made, r);
    var now := Start(split, serverId, Some(c), r, d).container;
    if SameProfile(made, r) {
      assert now == Some(c.(status := Running));
      assert Environment(made, split(r.customFlags).value) == Environment(r, split(r.customFlags).value);
      if r.java.Some? && Image(made.java.value) == Image(r.java.value) {
        var n := |"itzg/minecraft-server:java"|;
        assert Image(made.java.value)[n..] == ShowNat(made.java.value);
        assert Image(r.java.value)[n..] == ShowNat(r.java.value);
        ShowNatInjective(made.java.value, r.java.value);
      }
    }
  }

  /** No start touches a running container, and a container is replaced only when its profile is not the record's. */
  lemma StartSparesWhatRuns(split: Splitter, serverId: string, c: Container, made: Record, r: Record, d: Docker)
    ensures c.status.Running? ==> Start(split, serverId, Some(c), r, d).container == Some(c)
    ensures CreatedFor(split, serverId, c, made) && SameProfile(made, r) ==>
              && Start(split, serverId, Some(c), r, d).container.Some?
              && Start(split, serverId, Some(c), r, d).container.value.id == c.id
  {
    LabelsTellTheProfile(serverId, made, r);
  }

  /** A container that is not the panel's is never touched. */
  lemma {:induction false} ForeignIsLeftAlone(
    split: Splitter, serverId: string, c: Container, actions: seq<Action>)
    requires !IsManaged(serverId, c)
    requires forall i :: 0 <= i < |actions| ==> !actions[i].StatusChanges? && !actions[i].Disappears?
    ensures Run(split, serverId, Some(c), actions) == Some(c)
    decreases |actions|
  {
    if actions != [] {
      assert !actions[0].StatusChanges? && !actions[0].Disappears?;
      assert forall i :: 0 <= i < |actions[1..]| ==> actions[1..][i] == actions[i + 1];
      ForeignIsLeftAlone(split, serverId, c, actions[1..]);
    }
  }

  // ------------------------------------------------------------------
  // The runtime itself
  // ------------------------------------------------------------------

  class DockerRuntime {
    const serverId: string
    const split: Splitter
    var container: Option<Container>

    constructor (serverId: string, split: Splitter)
      ensures this.serverId == serverId && this.split == split && container == None
      ensures LabelsAreTrue(split, serverId, container)
    {
      this.serverId, this.split, container := serverId, split, None;
    }

    method StartSync(r: Record, d: Docker) returns (result: Result<string, RuntimeError>)
      modifies this
      ensures Answer(container, result) == Start(split, serverId, old(container), r, d)
    {
      if !d.ready {
        return Err(DockerFailed);
      }
      if container.Some? {
        var found := container.value;
        if !IsManaged(serverId, found) {
          return Err(Unmanaged);
        }
        var profileMatches := ProfileMatches(found.labels, r);
        if found.status == Running || profileMatches {
          if found.status != Running {
            if !d.starts {
              return Err(DockerFailed);
            }
            container := Some(found.(status := Running));
          }
          return Ok(found.id);
        }
        if !d.removes {
          return Err(DockerFailed);
        }
        container := None;
      }
      var launch := LaunchOf(split, r);
      if launch.None? {
        return Err(NoProfile);
      }
      if d.runs == Refused {
        return Err(DockerFailed);
      }
      container := Some(Container(d.newId, Created, LabelsOf(serverId, r), launch.value));
      if d.runs == LeftBehind {
        return Err(DockerFailed);
      }
      container := Some(container.value.(status := Running));
      result := Ok(d.newId);
    }

    method StopServer(d: Docker) returns (result: Result<string, RuntimeError>)
      modifies this
      ensures Answer(container, result) == Stop(serverId, old(container), d)
    {
      if container.None? {
        return Ok("");
      }
      var found := container.value;
      if !IsManaged(serverId, found) {
        return Err(Unmanaged);
      }
      if found.status != Running {
        return Ok(found.id);
      }
      if !d.sends {
        return Err(DockerFailed);
      }
      if !d.waits {
        if !d.stops {
          return Err(DockerFailed);
        }
      }
      container := Some(found.(status := Exited));
      result := Ok(found.id);
    }

    method RestartServer(r: Record, d: Docker) returns (result: Result<string, RuntimeError>)
      modifies this
      ensures Answer(container, result) == Restart(split, serverId, old(container), r, d)
    {
      result := StopServer(d);
      if result.Ok? {
        result := StartSync(r, d);
      }
    }

    method RemoveContainer(d: Docker) returns (result: Result<string, RuntimeError>)
      modifies this
      ensures Answer(container, result) == Remove(serverId, old(container), d)
    {
      if container.None? {
        return Ok("");
      }
      var found := container.value;
      if !IsManaged(serverId, found) {
        return Err(Unmanaged);
      }
      if found.status == Running {
        if !d.stops {
          return Err(DockerFailed);
        }
        container := Some(found.(status := Exited));
      }
      if !d.removes {
        return Err(DockerFailed);
      }
      container := None;
      result := Ok(found.id);
    }
  }
}
