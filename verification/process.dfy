/** What the harness does to the outside world, as trace events: commands
    run synchronously against the `ad4m-host` binary, processes spawned,
    killed and reaped, test callbacks run, and how a promise or the process
    ends. The provisioning sequences of src/cli.ts and
    src/installSystemLanguages.ts are modelled as such traces. */
module Process {
  import opened Wrappers
  import opened Strings

  /** The passphrase every generated test agent gets. */
  const Passphrase: string := "123456789"


  /** One `execSync` of `ad4m-host` with its sub-command and options. */
  datatype HostCommand =
    | InitHost(dataPath: string)                                  // init --dataPath <p>
    | GenerateAgent(passphrase: string)                           // agent generate --passphrase <p>
    | PublishLanguage(path: string, meta: string)                 // languages publish --path <p> --meta '<m>'
    | AddTrustedAgent(did: string)                                // runtime addTrustedAgent --did "<d>"
    | ApplyTemplateAndPublish(address: string, templateData: string)
    | AddPerspective(name: string)                                // perspective add --name "<n>"
    | PublishNeighbourhood(uuid: string, address: string, meta: string)

  /** The settings a test file's run sees, set once per file by `run`. */
  datatype RunConfig = RunConfig(
    relativePath: string,
    bundle: string,
    meta: string,
    languageType: Option<string>,
    defaultLangPath: string,
    port: int)

  datatype Event =
    | Exec(cmd: HostCommand)
    | Spawn(args: seq<string>)            // spawn(binaryPath, args)
    | Reap(processName: string)           // findAndKillProcess(name)
    | KillChild                           // kill(child.pid, ...)
    | HookRan(hook: nat)                  // one of the test object's hooks
    | TestBody                            // test.func()
    | LogError                            // an error caught and only logged
    | Threw                               // an exception nobody catches
    | Resolve
    | Reject
    | Download(url: string)
    | RunFile(path: string, config: RunConfig)  // set the config, import the file, run its tests
    | ShowResults
    | Exit(code: int)

  /** The events of running some hooks, in order. */
  function HookRuns(hooks: seq<nat>): (events: seq<Event>)
    ensures |events| == |hooks|
    ensures forall i :: 0 <= i < |hooks| ==> events[i] == HookRan(hooks[i])
  {
    if |hooks| == 0 then [] else [HookRan(hooks[0])] + HookRuns(hooks[1..])
  }

  /** Killing the child and reaping the processes it leaves, then resolving. */
  const Teardown: seq<Event> := [KillChild, Reap("holochain"), Reap("lair-keystore"), Resolve]

  /** The reaping and rejection that follow a spawn error. */
  const SpawnErrorTeardown: seq<Event> := [Reap("holochain"), Reap("lair-keystore"), Reap("ad4m-host"), Reject]

  /** What the spawned child reports. */
  datatype ChildSignal =
    | Stdout(chunk: string)
    | Stderr(chunk: string)
    | Exited(code: int)
    | SpawnFailed

  const ReadyMarker: string := "AD4M init complete"

  /** The readiness test, applied to each stdout chunk on its own. */
  predicate Ready(chunk: string) {
    Contains(chunk, ReadyMarker)
  }

  /** The marker starts at offset `i` of `chunk`. */
  predicate MarkerAt(chunk: string, i: nat) {
    i + |ReadyMarker| <= |chunk| && chunk[i..i + |ReadyMarker|] == ReadyMarker
  }

  /** A chunk is ready exactly when the marker occurs in it at some offset. */
  lemma ReadyAt(chunk: string)
    ensures Ready(chunk) <==> exists i: nat :: MarkerAt(chunk, i)
  {
    ContainsAt(chunk, ReadyMarker);
    if Ready(chunk) {
      var i :| 0 <= i <= |chunk| - |ReadyMarker| && StartsWith(chunk[i..], ReadyMarker);
      assert chunk[i..][..|ReadyMarker|] == chunk[i..i + |ReadyMarker|];
      assert MarkerAt(chunk, i);
    }
    if exists i: nat :: MarkerAt(chunk, i) {
      var i: nat :| MarkerAt(chunk, i);
      ContainsWitness(chunk, ReadyMarker, i);
    }
  }

  /** A marker split across two chunks is seen in neither. */
  lemma SplitMarkerNotSeen(k: nat)
    requires 0 < k < |ReadyMarker|
    ensures !Ready(ReadyMarker[..k]) && !Ready(ReadyMarker[k..])
  {
    ShortTextLacksPattern(ReadyMarker[..k], ReadyMarker);
    ShortTextLacksPattern(ReadyMarker[k..], ReadyMarker);
  }
}
