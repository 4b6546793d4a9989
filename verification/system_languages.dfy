/** The system-language installer of src/installSystemLanguages.ts: it
    starts `ad4m-host` in language-language-only mode, publishes the four
    system languages once the host is ready, fills the bootstrap seed with
    their addresses, writes it, and tears the host down. What each publish
    printed (its decoded address, or `None` when the command or the decoding
    threw) is an input, as is `JSON.stringify` of a language's meta. */
module SystemLanguages {
  import opened Wrappers
  import opened Strings
  import opened Process

  /** The bootstrap seed the host is started with. */
  datatype Seed = Seed(
    trustedAgents: seq<string>,
    knownLinkLanguages: seq<string>,
    directMessageLanguage: string,
    agentLanguage: string,
    perspectiveLanguage: string,
    neighbourhoodLanguage: string,
    languageLanguageBundle: string)

  const InitialSeed := Seed([], [], "", "", "", "", "")

  datatype LanguageMeta = LanguageMeta(name: string, description: string, possibleTemplateParams: seq<string>, sourceCodeLink: string)

  /** One entry of the publish table, in the table's own order. */
  datatype Entry = Entry(key: string, meta: LanguageMeta)

  const AgentStore := "agent-expression-store"
  const DirectMessage := "direct-message-language"
  const NeighbourhoodStore := "neighbourhood-store"
  const PerspectiveLanguage := "perspective-language"

  const CommonParams: seq<string> := ["id", "name", "description"]
  const DirectMessageParams: seq<string> := ["recipient_did", "recipient_hc_agent_pubkey"]

  /** `languagesToPublish`. */
  const Table: seq<Entry> := [
    Entry(AgentStore, LanguageMeta(AgentStore, "", CommonParams, "")),
    Entry(DirectMessage, LanguageMeta(DirectMessage, "", DirectMessageParams, "")),
    Entry(NeighbourhoodStore, LanguageMeta(NeighbourhoodStore, "", CommonParams, "")),
    Entry(PerspectiveLanguage, LanguageMeta(PerspectiveLanguage, "", CommonParams, ""))]

  /** Four entries with distinct keys, each naming itself; only the
      direct-message language takes recipient parameters. */
  lemma TableShape()
    ensures |Table| == 4
    ensures forall i :: 0 <= i < |Table| ==> Table[i].meta.name == Table[i].key
    ensures forall i, j :: 0 <= i < j < |Table| ==> Table[i].key != Table[j].key
    ensures forall i :: 0 <= i < |Table| ==>
              Table[i].meta.possibleTemplateParams == (if Table[i].key == DirectMessage then DirectMessageParams else CommonParams)
  {
  }

  /** The seed fields no publish touches. */
  predicate SameFixedFields(a: Seed, b: Seed) {
    && a.trustedAgents == b.trustedAgents
    && a.knownLinkLanguages == b.knownLinkLanguages
    && a.languageLanguageBundle == b.languageLanguageBundle
  }

  /** The address of a published language goes into the one seed field its
      key selects; any other key changes nothing. */
  function UpdateSeed(seed: Seed, key: string, address: string): (r: Seed)
    ensures SameFixedFields(r, seed)
    ensures r.agentLanguage == (if key == AgentStore then address else seed.agentLanguage)
    ensures r.neighbourhoodLanguage == (if key == NeighbourhoodStore then address else seed.neighbourhoodLanguage)
    ensures r.directMessageLanguage == (if key == DirectMessage then address else seed.directMessageLanguage)
    ensures r.perspectiveLanguage == (if key == PerspectiveLanguage then address else seed.perspectiveLanguage)
  {
    var s1 := if key == AgentStore then seed.(agentLanguage := address) else seed;
    var s2 := if key == NeighbourhoodStore then s1.(neighbourhoodLanguage := address) else s1;
    var s3 := if key == DirectMessage then s2.(directMessageLanguage := address) else s2;
    if key == PerspectiveLanguage then s3.(perspectiveLanguage := address) else s3
  }

  /** Where the publish loop got to: the seed as it then stands, and how
      many entries were published before one threw. */
  datatype Progress = Progress(seed: Seed, published: nat)

  /** The publish loop over `entries`, with `addresses[i]` the decoded
      address of the `i`-th publish. The seed is module state, so what was
      filled before a throw stays filled. */
  function PublishAll(seed: Seed, entries: seq<Entry>, addresses: seq<Option<string>>): (r: Progress)
    requires |addresses| == |entries|
    ensures r.published <= |entries|
    ensures forall i :: 0 <= i < r.published ==> addresses[i].Some?
    ensures r.published < |entries| ==> addresses[r.published].None?
    ensures SameFixedFields(r.seed, seed)
    decreases |entries|
  {
    if |entries| == 0 then Progress(seed, 0)
    else
      match addresses[0]
      case None => Progress(seed, 0)
      case Some(a) =>
        var rest := PublishAll(UpdateSeed(seed, entries[0].key, a), entries[1..], addresses[1..]);
        Progress(rest.seed, rest.published + 1)
  }

  /** When every publish of the table succeeds, the four system-language
      fields hold the address returned for their own language. */
  lemma PublishAllFills(seed: Seed, addresses: seq<Option<string>>)
    requires |addresses| == |Table|
    requires forall i :: 0 <= i < |addresses| ==> addresses[i].Some?
    ensures var r := PublishAll(seed, Table, addresses);
            && r.published == 4
            && SameFixedFields(r.seed, seed)
            && r.seed.agentLanguage == addresses[0].value
            && r.seed.directMessageLanguage == addresses[1].value
            && r.seed.neighbourhoodLanguage == addresses[2].value
            && r.seed.perspectiveLanguage == addresses[3].value
  {
    var s1 := UpdateSeed(seed, AgentStore, addresses[0].value);
    var s2 := UpdateSeed(s1, DirectMessage, addresses[1].value);
    var s3 := UpdateSeed(s2, NeighbourhoodStore, addresses[2].value);
    var s4 := UpdateSeed(s3, PerspectiveLanguage, addresses[3].value);
    assert PublishAll(s4, Table[4..], addresses[4..]) == Progress(s4, 0);
    assert PublishAll(s3, Table[3..], addresses[3..]) == Progress(s4, 1);
    assert PublishAll(s2, Table[2..], addresses[2..]) == Progress(s4, 2);
    assert PublishAll(s1, Table[1..], addresses[1..]) == Progress(s4, 3);
  }

  /** The installer's own trace: host events and writes of the seed file. */
  datatype SysEvent = Host(e: Event) | WriteSeed(seed: Seed)

  function Hosted(events: seq<Event>): (r: seq<SysEvent>)
    ensures |r| == |events|
    ensures forall i :: 0 <= i < |events| ==> r[i] == Host(events[i])
  {
    if |events| == 0 then [] else [Host(events[0])] + Hosted(events[1..])
  }

  /** The bundle of a system language, under the installer's directory `dir`. */
  function BundlePath(dir: string, key: string): string {
    dir + "/languages/" + key + "/build/bundle.js"
  }

  function PublishCommands(dir: string, entries: seq<Entry>, stringify: LanguageMeta -> string): (r: seq<SysEvent>)
    ensures |r| == |entries|
    ensures forall i :: 0 <= i < |entries| ==>
              r[i] == Host(Exec(PublishLanguage(BundlePath(dir, entries[i].key), stringify(entries[i].meta))))
  {
    if |entries| == 0 then []
    else [Host(Exec(PublishLanguage(BundlePath(dir, entries[0].key), stringify(entries[0].meta))))]
         + PublishCommands(dir, entries[1..], stringify)
  }

  datatype Reaction = Reaction(trace: seq<SysEvent>, seed: Seed)

  /** What one ready chunk sets off: generate an agent, publish the table
      in order, write the filled seed, kill the child and reap. The generate
      command (`generateOk` says whether it exited with status 0) and each
      publish run under `execSync`, so a failing one throws, uncaught, and
      ends the reaction. */
  function OnReady(dir: string, seed: Seed, generateOk: bool, addresses: seq<Option<string>>,
                   stringify: LanguageMeta -> string): (r: Reaction)
    requires |addresses| == |Table|
    ensures |r.trace| >= 2 && r.trace[0] == Host(Exec(GenerateAgent(Passphrase)))
    ensures r.trace[|r.trace| - 1]
            == (if generateOk && forall i :: 0 <= i < |addresses| ==> addresses[i].Some? then Host(Resolve) else Host(Threw))
    ensures !generateOk ==> r.trace == [Host(Exec(GenerateAgent(Passphrase))), Host(Threw)] && r.seed == seed
    ensures generateOk ==> |r.trace| >= 3 && r.trace[1] == Host(Exec(PublishLanguage(BundlePath(dir, Table[0].key), stringify(Table[0].meta))))
    ensures SameFixedFields(r.seed, seed)
  {
    var p := PublishAll(seed, Table, addresses);
    var generate := [Host(Exec(GenerateAgent(Passphrase)))];
    if !generateOk then Reaction(generate + [Host(Threw)], seed)
    else if p.published == |Table| then
      Reaction(generate + PublishCommands(dir, Table, stringify) + [WriteSeed(p.seed)] + Hosted(Teardown), p.seed)
    else
      Reaction(generate + PublishCommands(dir, Table[..p.published + 1], stringify) + [Host(Threw)], p.seed)
  }

  /** A successful reaction writes exactly the filled seed, then kills the
      child and reaps `holochain` and `lair-keystore` before resolving. */
  lemma OnReadySuccess(dir: string, seed: Seed, addresses: seq<Option<string>>, stringify: LanguageMeta -> string)
    requires |addresses| == |Table|
    requires forall i :: 0 <= i < |addresses| ==> addresses[i].Some?
    ensures var r := OnReady(dir, seed, true, addresses, stringify);
            var n := |r.trace|;
            && n == 10
            && r.trace[0] == Host(Exec(GenerateAgent(Passphrase)))
            && r.trace[1..5] == PublishCommands(dir, Table, stringify)
            && r.trace[5] == WriteSeed(r.seed)
            && r.trace[6..] == [Host(KillChild), Host(Reap("holochain")), Host(Reap("lair-keystore")), Host(Resolve)]
            && r.seed.agentLanguage == addresses[0].value
            && r.seed.directMessageLanguage == addresses[1].value
            && r.seed.neighbourhoodLanguage == addresses[2].value
            && r.seed.perspectiveLanguage == addresses[3].value
            && SameFixedFields(r.seed, seed)
  {
    PublishAllFills(seed, addresses);
    var r := OnReady(dir, seed, true, addresses, stringify);
    var head := [Host(Exec(GenerateAgent(Passphrase)))] + PublishCommands(dir, Table, stringify) + [WriteSeed(r.seed)];
    assert r.trace == head + Hosted(Teardown);
    assert r.trace[1..5] == PublishCommands(dir, Table, stringify);
    assert r.trace[6..] == Hosted(Teardown);
  }

  /** A publish that throws stops the reaction there: the seed is not
      written, the child is not killed, and the commands issued are the
      agent generation and the publishes up to the failing one. */
  lemma OnReadyFailure(dir: string, seed: Seed, addresses: seq<Option<string>>, stringify: LanguageMeta -> string, k: nat)
    requires |addresses| == |Table|
    requires k < |Table| && addresses[k].None?
    requires forall i :: 0 <= i < k ==> addresses[i].Some?
    ensures var r := OnReady(dir, seed, true, addresses, stringify);
            && |r.trace| == k + 3
            && r.trace[|r.trace| - 1] == Host(Threw)
            && (forall s :: WriteSeed(s) !in r.trace)
            && Host(KillChild) !in r.trace && Host(Resolve) !in r.trace
  {
    var p := PublishAll(seed, Table, addresses);
    assert p.published == k;
    var r := OnReady(dir, seed, true, addresses, stringify);
    var cmds := PublishCommands(dir, Table[..k + 1], stringify);
    assert r.trace == [Host(Exec(GenerateAgent(Passphrase)))] + cmds + [Host(Threw)];
    assert forall e :: e in cmds ==> e.Host? && e.e.Exec?;
  }

  /** A failing generate command throws before any publish: no language is
      published, the seed is neither changed nor written, nothing is killed
      and nothing resolves. */
  lemma OnReadyGenerateFails(dir: string, seed: Seed, addresses: seq<Option<string>>, stringify: LanguageMeta -> string)
    requires |addresses| == |Table|
    ensures var r := OnReady(dir, seed, false, addresses, stringify);
            && r.seed == seed
            && (forall e :: e in r.trace && e.Host? && e.e.Exec? ==> e.e.cmd == GenerateAgent(Passphrase))
            && (forall s :: WriteSeed(s) !in r.trace)
            && Host(KillChild) !in r.trace && Host(Resolve) !in r.trace
  {
    var r := OnReady(dir, seed, false, addresses, stringify);
    assert r.trace == [Host(Exec(GenerateAgent(Passphrase))), Host(Threw)];
  }

  /** The `serve` arguments: port 4000, the seed file, and language-language
      only; the default-language path is passed when it is not empty. */
  function ServeArgs(relativePath: string, defaultLangPath: string, seedFile: string): (args: seq<string>)
    ensures |args| == 9 || |args| == 11
    ensures args[..4] == ["serve", "--dataPath", relativePath, "--port"] && args[4] == "4000"
    ensures args[|args| - 4..] == ["--networkBootstrapSeed", seedFile, "--languageLanguageOnly", "true"]
    ensures defaultLangPath != "" <==> |args| == 11
    ensures defaultLangPath != "" ==> args[5..7] == ["--defaultLangPath", defaultLangPath]
    ensures defaultLangPath == "" ==> |args| == 9
  {
    var tail := ["--networkBootstrapSeed", seedFile, "--languageLanguageOnly", "true"];
    if defaultLangPath != "" then ["serve", "--dataPath", relativePath, "--port", "4000", "--defaultLangPath", defaultLangPath] + tail
    else ["serve", "--dataPath", relativePath, "--port", "4000"] + tail
  }

  /** The reaction to each signal. The seed carries over from one ready
      chunk to the next. In the `k`-th round, `generated(k)` says whether the
      generate command succeeded and `responses(k)` is what the publishes
      printed. An exit of the child resolves too. */
  function React(dir: string, signals: seq<ChildSignal>, seed: Seed, generated: nat -> bool,
                 responses: nat -> seq<Option<string>>, round: nat, stringify: LanguageMeta -> string): (r: seq<SysEvent>)
    requires forall k :: |responses(k)| == |Table|
    ensures (forall k :: 0 <= k < |signals| ==> signals[k].Stdout? && !Ready(signals[k].chunk)) ==> r == []
    decreases |signals|
  {
    if |signals| == 0 then []
    else
      var s := signals[0];
      if s.Stdout? && Ready(s.chunk) then
        var r := OnReady(dir, seed, generated(round), responses(round), stringify);
        r.trace + React(dir, signals[1..], r.seed, generated, responses, round + 1, stringify)
      else if s.Exited? then [Host(Resolve)] + React(dir, signals[1..], seed, generated, responses, round, stringify)
      else if s.SpawnFailed? then Hosted(SpawnErrorTeardown) + React(dir, signals[1..], seed, generated, responses, round, stringify)
      else React(dir, signals[1..], seed, generated, responses, round, stringify)
  }

  /** The seed written before `serve` starts: the initial seed with only
      the language-language bundle filled in. */
  function StartSeed(bundleText: string): Seed {
    InitialSeed.(languageLanguageBundle := bundleText)
  }

  /** The default-language path the installer computes: the `languages`
      directory next to it, which is never empty. */
  function DefaultLangPath(dir: string): (p: string)
    ensures |p| > |dir| && p[..|dir|] == dir && p[|dir|..] == "/languages"
  {
    dir + "/languages"
  }

  /** `installSystemLanguages`: make sure the binary is there, reap
      leftovers, initialise, write the seed with the bundle, spawn `serve`,
      then react to what the child reports. `initOk` says whether `init`
      exited with status 0; when it did not, `execSync` throws inside the
      promise's executor, so nothing is written or spawned and the promise
      never settles. */
  function InstallSystemLanguages(relativePath: string, dir: string, binaryReady: bool, initOk: bool,
                                  bundleText: string, seedFile: string, signals: seq<ChildSignal>,
                                  generated: nat -> bool, responses: nat -> seq<Option<string>>,
                                  stringify: LanguageMeta -> string): (t: seq<SysEvent>)
    requires forall k :: |responses(k)| == |Table|
    ensures !binaryReady <==> t == [Host(Threw)]
    ensures binaryReady ==> |t| >= 4 && t[2] == Host(Exec(InitHost(relativePath)))
    ensures binaryReady ==> (|t| >= 5 <==> initOk)
    ensures binaryReady && !initOk ==> t[3] == Host(Threw)
    ensures binaryReady && initOk ==> |t| >= 5 && t[3] == WriteSeed(StartSeed(bundleText))
                                      && t[4] == Host(Spawn(ServeArgs(relativePath, DefaultLangPath(dir), seedFile)))
  {
    var startup := [Host(Reap("holochain")), Host(Reap("lair-keystore")), Host(Exec(InitHost(relativePath)))];
    if !binaryReady then [Host(Threw)]
    else if !initOk then startup + [Host(Threw)]
    else
      startup + [WriteSeed(StartSeed(bundleText)), Host(Spawn(ServeArgs(relativePath, DefaultLangPath(dir), seedFile)))]
      + React(dir, signals, StartSeed(bundleText), generated, responses, 0, stringify)
  }

  /** The language-language bundle is in the seed before it is first
      written and before `serve` is spawned; with a first ready chunk whose
      publishes all succeed, the seed written next differs only in the four
      system-language fields. */
  lemma BundleBeforeSpawn(relativePath: string, dir: string, bundleText: string, seedFile: string,
                          chunk: string, rest: seq<ChildSignal>, generated: nat -> bool,
                          responses: nat -> seq<Option<string>>, stringify: LanguageMeta -> string)
    requires forall k :: |responses(k)| == |Table|
    requires Ready(chunk) && generated(0)
    requires forall i :: 0 <= i < |Table| ==> responses(0)[i].Some?
    ensures var t := InstallSystemLanguages(relativePath, dir, true, true, bundleText, seedFile,
                                            [Stdout(chunk)] + rest, generated, responses, stringify);
            && t[3] == WriteSeed(StartSeed(bundleText))
            && t[4].Host? && t[4].e.Spawn?
            && t[10].WriteSeed?
            && t[10].seed.languageLanguageBundle == bundleText
            && t[10].seed.trustedAgents == [] && t[10].seed.knownLinkLanguages == []
            && t[10].seed.agentLanguage == responses(0)[0].value
            && t[10].seed.directMessageLanguage == responses(0)[1].value
            && t[10].seed.neighbourhoodLanguage == responses(0)[2].value
            && t[10].seed.perspectiveLanguage == responses(0)[3].value
  {
    var seed := StartSeed(bundleText);
    OnReadySuccess(dir, seed, responses(0), stringify);
    var r := OnReady(dir, seed, true, responses(0), stringify);
    var startup := [Host(Reap("holochain")), Host(Reap("lair-keystore")), Host(Exec(InitHost(relativePath))),
                    WriteSeed(seed), Host(Spawn(ServeArgs(relativePath, DefaultLangPath(dir), seedFile)))];
    var tail := React(dir, rest, r.seed, generated, responses, 1, stringify);
    InstallThenFirstReady(relativePath, dir, bundleText, seedFile, chunk, rest, generated, responses, stringify);
    var t := InstallSystemLanguages(relativePath, dir, true, true, bundleText, seedFile,
                                    [Stdout(chunk)] + rest, generated, responses, stringify);
    assert t[10] == (startup + (r.trace + tail))[10] == r.trace[5];
  }

  /** With `init` succeeding and a ready first chunk, the installer's trace
      is the start-up events, the first reaction, and the rest. */
  lemma InstallThenFirstReady(relativePath: string, dir: string, bundleText: string, seedFile: string,
                              chunk: string, rest: seq<ChildSignal>, generated: nat -> bool,
                              responses: nat -> seq<Option<string>>, stringify: LanguageMeta -> string)
    requires forall k :: |responses(k)| == |Table|
    requires Ready(chunk)
    ensures var seed := StartSeed(bundleText);
            var r := OnReady(dir, seed, generated(0), responses(0), stringify);
            InstallSystemLanguages(relativePath, dir, true, true, bundleText, seedFile,
                                   [Stdout(chunk)] + rest, generated, responses, stringify)
            == [Host(Reap("holochain")), Host(Reap("lair-keystore")), Host(Exec(InitHost(relativePath))),
                WriteSeed(seed), Host(Spawn(ServeArgs(relativePath, DefaultLangPath(dir), seedFile)))]
               + (r.trace + React(dir, rest, r.seed, generated, responses, 1, stringify))
  {
    var signals := [Stdout(chunk)] + rest;
    assert signals[1..] == rest;
    assert signals[0] == Stdout(chunk);
  }

  /** The installer's own path is never empty, so `serve` is always spawned
      with `--defaultLangPath` pointing at the installer's `languages`
      directory: 11 arguments, and the 9-argument form never occurs. */
  lemma SpawnAlwaysPassesDefaultLangPath(relativePath: string, dir: string, initOk: bool, bundleText: string,
                                         seedFile: string, signals: seq<ChildSignal>, generated: nat -> bool,
                                         responses: nat -> seq<Option<string>>, stringify: LanguageMeta -> string)
    requires forall k :: |responses(k)| == |Table|
    ensures var t := InstallSystemLanguages(relativePath, dir, true, initOk, bundleText, seedFile, signals,
                                            generated, responses, stringify);
            initOk ==> && t[4].Host? && t[4].e.Spawn?
                       && |t[4].e.args| == 11
                       && t[4].e.args[5..7] == ["--defaultLangPath", dir + "/languages"]
  {
  }
}
