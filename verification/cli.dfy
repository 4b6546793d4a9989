/** The command-line runner of src/cli.ts: agent-id extraction, the
    `installLanguage` provisioning sequence and its teardown, the readiness
    trigger and serve arguments of `startServer`, and `run`'s argument
    checks and file selection. Command outputs, download results and the
    discovered test files are inputs; the result is the trace of what the
    runner does. */
module Cli {
  import opened Wrappers
  import opened Strings
  import opened Process
  import CleanOutput
  import Utils
  import Paths

  // ---------------------------------------------------------------------
  // the agent id: .match(/did:key:\w+/)[0]

  const DidPrefix: string := "did:key:"

  /** A match of `did:key:\w+` starts at offset `i`. */
  predicate DidAt(s: string, i: nat) {
    i + |DidPrefix| < |s| && s[i..i + |DidPrefix|] == DidPrefix && IsWordChar(s[i + |DidPrefix|])
  }

  /** The leftmost offset at or after `from` where a match starts. */
  function FindDid(s: string, from: nat): (r: Option<nat>)
    ensures r.Some? ==> from <= r.value && DidAt(s, r.value)
    decreases |s| - from
  {
    if |s| <= from + |DidPrefix| then None
    else if DidAt(s, from) then Some(from)
    else FindDid(s, from + 1)
  }

  /** The search skips no match: nothing matches before what it finds, and
      nothing matches at all when it finds nothing. */
  lemma {:induction false} FindDidLeftmost(s: string, from: nat)
    ensures FindDid(s, from).Some? ==> forall j :: from <= j < FindDid(s, from).value ==> !DidAt(s, j)
    ensures FindDid(s, from).None? ==> forall j :: from <= j ==> !DidAt(s, j)
    decreases |s| - from
  {
    if |s| > from + |DidPrefix| && !DidAt(s, from) {
      FindDidLeftmost(s, from + 1);
    }
  }

  /** The text matched at `i`: the prefix and the whole run of word
      characters after it, which holds at least one. */
  function MatchAt(s: string, i: nat): (m: string)
    requires DidAt(s, i)
    ensures StartsWith(m, DidPrefix) && |m| > |DidPrefix|
    ensures forall k :: |DidPrefix| <= k < |m| ==> IsWordChar(m[k])
  {
    var tail := s[i + |DidPrefix|..];
    var n := CleanOutput.WordRun(tail);
    assert n > 0 && s[i..i + |DidPrefix| + n] == s[i..i + |DidPrefix|] + tail[..n];
    s[i..i + |DidPrefix| + n]
  }

  /** `.match(/did:key:\w+/)`: the leftmost match, if any. */
  function ExtractDid(s: string): (r: Option<string>)
    ensures r.Some? ==> StartsWith(r.value, DidPrefix) && |r.value| > |DidPrefix|
  {
    match FindDid(s, 0)
    case None => None
    case Some(i) => Some(MatchAt(s, i))
  }

  /** There is a match exactly when the pattern occurs, and a match is the
      prefix followed by one or more word characters. */
  lemma ExtractDidMatches(s: string)
    ensures ExtractDid(s).None? <==> forall j :: 0 <= j ==> !DidAt(s, j)
    ensures ExtractDid(s).Some? ==> StartsWith(ExtractDid(s).value, DidPrefix) && |ExtractDid(s).value| > |DidPrefix|
    ensures ExtractDid(s).Some? ==> forall k :: |DidPrefix| <= k < |ExtractDid(s).value| ==> IsWordChar(ExtractDid(s).value[k])
  {
    FindDidLeftmost(s, 0);
  }

  /** The id is recovered from any output of the form
      `<text without a match> did:key:<word> <rest>`. */
  lemma ExtractDidOf(p: string, w: string, rest: string)
    requires |w| > 0 && forall k :: 0 <= k < |w| ==> IsWordChar(w[k])
    requires |rest| == 0 || !IsWordChar(rest[0])
    requires forall j :: 0 <= j < |p| ==> !DidAt(p + DidPrefix + w + rest, j)
    ensures ExtractDid(p + DidPrefix + w + rest) == Some(DidPrefix + w)
  {
    var s := p + DidPrefix + w + rest;
    var i := |p|;
    assert DidAt(s, i) by {
      assert s[i..i + |DidPrefix|] == DidPrefix;
      assert s[i + |DidPrefix|] == w[0];
    }
    FindDidLeftmost(s, 0);
    assert FindDid(s, 0) == Some(i);
    MatchOfWord(s, i, w, rest);
  }

  /** The text matched where the prefix is followed by `w` and then `rest`. */
  lemma MatchOfWord(s: string, i: nat, w: string, rest: string)
    requires |w| > 0 && forall k :: 0 <= k < |w| ==> IsWordChar(w[k])
    requires |rest| == 0 || !IsWordChar(rest[0])
    requires i + |DidPrefix| <= |s| && s[i..] == DidPrefix + w + rest
    ensures DidAt(s, i) && MatchAt(s, i) == DidPrefix + w
  {
    assert s[i..i + |DidPrefix|] == s[i..][..|DidPrefix|] == DidPrefix;
    assert s[i + |DidPrefix|..] == s[i..][|DidPrefix|..] == w + rest;
    WordRunOfWord(w, rest);
    assert s[i..i + |DidPrefix| + |w|] == s[i..][..|DidPrefix| + |w|] == DidPrefix + w;
  }

  lemma {:induction false} WordRunOfWord(w: string, rest: string)
    requires forall k :: 0 <= k < |w| ==> IsWordChar(w[k])
    requires |rest| == 0 || !IsWordChar(rest[0])
    ensures CleanOutput.WordRun(w + rest) == |w|
  {
    if |w| > 0 {
      assert (w + rest)[1..] == w[1..] + rest;
      WordRunOfWord(w[1..], rest);
    } else {
      assert w + rest == rest;
    }
  }

  // ---------------------------------------------------------------------
  // installLanguage

  const TemplateData: string := "{\"uid\":\"123\",\"name\":\"test-link-language\"}"
  const PerspectiveName: string := "Test perspective"
  const NeighbourhoodMeta: string := "{\"links\":[]}"
  const LinkLanguage: string := "linkLanguage"

  /** The fields read from a decoded `languages publish` output. */
  datatype Published = Published(author: string, address: string)

  /** What one provisioning round meets outside the model: the runner's
      working directory, which `path.resolve` reads, and what each command
      of the sequence printed, once decoded. A step that threw (the command
      failed or its output did not decode) is `None`. */
  datatype Responses = Responses(
    workingDir: string,
    generateOutput: string,
    publish: Option<Published>,
    trustOk: bool,
    template: Option<Published>,
    perspective: Option<string>,          // the new perspective's uuid
    neighbourhood: Option<string>)

  /** The test object `installLanguage` is handed; absent when none was given. */
  datatype TestObject = TestObject(beforeEachs: seq<nat>, afterEachs: seq<nat>)

  /** The globals provisioning stores for the helpers. */
  datatype Stored = Stored(languageAddress: Option<string>, perspective: Option<string>, neighbourhood: Option<string>)

  const NothingStored := Stored(None, None, None)

  datatype Provisioned = Provisioned(trace: seq<Event>, stored: Stored)

  /** The part run by `test` after provisioning: every `beforeEach`, the
      body, every `afterEach`, then the teardown. Reading the hooks of a
      missing test object throws inside the `try`, which logs it. */
  function TestRun(test: Option<TestObject>): (t: seq<Event>)
    ensures Resolve in t <==> test.Some?
    ensures test.Some? ==> |t| > |Teardown| && t[|t| - |Teardown|..] == Teardown && TestBody in t
  {
    match test
    case None => [LogError]
    case Some(obj) => HookRuns(obj.beforeEachs) + [TestBody] + HookRuns(obj.afterEachs) + Teardown
  }

  /** A trace with `prefix` put in front of it. */
  function After(prefix: seq<Event>, rest: Provisioned): Provisioned {
    Provisioned(prefix + rest.trace, rest.stored)
  }

  /** `installLanguage`: generate an agent and read its id from what the
      command printed; the rest depends only on whether one was found. */
  function InstallLanguage(bundle: string, meta: string, languageType: string,
                           test: Option<TestObject>, resp: Responses): (r: Provisioned)
    ensures |r.trace| >= 1 && r.trace[0] == Exec(GenerateAgent(Passphrase))
    ensures r.stored != NothingStored ==>
              ExtractDid(resp.generateOutput).Some? && bundle != "" && meta != ""
              && resp.publish.Some? && resp.trustOk && resp.template.Some?
  {
    Provision(ExtractDid(resp.generateOutput).Some?, bundle, meta, languageType, test, resp)
  }

  /** An output without a match makes `installLanguage` throw right after
      generating the agent; with one, the provisioning goes on. */
  lemma InstallNeedsAgentId(bundle: string, meta: string, languageType: string, test: Option<TestObject>, resp: Responses)
    ensures (forall j :: 0 <= j ==> !DidAt(resp.generateOutput, j)) ==>
              InstallLanguage(bundle, meta, languageType, test, resp) == Provisioned([Exec(GenerateAgent(Passphrase)), Threw], NothingStored)
    ensures (exists j :: 0 <= j && DidAt(resp.generateOutput, j)) ==>
              InstallLanguage(bundle, meta, languageType, test, resp) == Provision(true, bundle, meta, languageType, test, resp)
  {
    ExtractDidMatches(resp.generateOutput);
  }

  /** `languages publish` of the bundle, resolved against the working
      directory: an absolute result, and for a relative bundle of plain
      segments exactly the bundle under that directory. */
  function PublishBundle(bundle: string, meta: string, resp: Responses): (e: Event)
    ensures e.Exec? && e.cmd.PublishLanguage? && e.cmd.meta == meta
    ensures Paths.IsAbsolute(resp.workingDir) ==> Paths.Normal(e.cmd.path)
  {
    Exec(PublishLanguage(Paths.ResolvePath(resp.workingDir, bundle), meta))
  }

  /** The bundle is published from its resolved path: a relative bundle of
      plain segments is published from under the working directory, and a
      leading `./` makes no difference. */
  lemma PublishesResolvedBundle(bundle: string, meta: string, resp: Responses)
    requires Paths.Normal(resp.workingDir) && resp.workingDir != "/"
    requires |bundle| > 0 && forall k :: 0 <= k < |Split(bundle, '/')| ==> Paths.Plain(Split(bundle, '/')[k])
    ensures PublishBundle(bundle, meta, resp).cmd.path == resp.workingDir + "/" + bundle
    ensures PublishBundle("./" + bundle, meta, resp) == PublishBundle(bundle, meta, resp)
  {
    Paths.ResolveRelative(resp.workingDir, bundle);
    assert !Paths.IsAbsolute(bundle);
    Paths.ResolveDropsDot(resp.workingDir, bundle);
  }

  /** The sequence after `agent generate`, given whether its output held an
      agent id: without one reading the match throws; then, only with a
      bundle and a meta, publish, trust the author, publish the templated
      language, add a perspective, publish a neighbourhood for a link
      language, run the test and tear down. A failing step logs and skips
      everything after it. */
  function Provision(agent: bool, bundle: string, meta: string, languageType: string,
                     test: Option<TestObject>, resp: Responses): (r: Provisioned)
    ensures |r.trace| >= 1 && r.trace[0] == Exec(GenerateAgent(Passphrase))
    ensures r.stored != NothingStored ==>
              agent && bundle != "" && meta != "" && resp.publish.Some? && resp.trustOk && resp.template.Some?
  {
    var t0 := [Exec(GenerateAgent(Passphrase))];
    if !agent then Provisioned(t0 + [Threw], NothingStored)
    else if bundle == "" || meta == "" then Provisioned(t0, NothingStored)
    else After(t0 + [PublishBundle(bundle, meta, resp)], AfterPublish(languageType, test, resp))
  }

  /** From the decoded publish output on: trust its author. */
  function AfterPublish(languageType: string, test: Option<TestObject>, resp: Responses): Provisioned {
    match resp.publish
    case None => Provisioned([LogError], NothingStored)
    case Some(lang) =>
      if !resp.trustOk then Provisioned([Exec(AddTrustedAgent(lang.author)), LogError], NothingStored)
      else After([Exec(AddTrustedAgent(lang.author)), Exec(ApplyTemplateAndPublish(lang.address, TemplateData))],
                 AfterTemplate(languageType, test, resp))
  }

  /** From the templated publish on: store its address, add the perspective. */
  function AfterTemplate(languageType: string, test: Option<TestObject>, resp: Responses): Provisioned {
    match resp.template
    case None => Provisioned([LogError], NothingStored)
    case Some(templ) => After([Exec(AddPerspective(PerspectiveName))], AfterPerspective(templ.address, languageType, test, resp))
  }

  /** From the new perspective on, with the templated `address` stored. */
  function AfterPerspective(address: string, languageType: string, test: Option<TestObject>, resp: Responses): Provisioned {
    var g1 := NothingStored.(languageAddress := Some(address));
    match resp.perspective
    case None => Provisioned([LogError], g1)
    case Some(uuid) =>
      var g2 := g1.(perspective := Some(uuid));
      if languageType != LinkLanguage then Provisioned(TestRun(test), g2)
      else
        var publish := Exec(PublishNeighbourhood(uuid, address, NeighbourhoodMeta));
        match resp.neighbourhood
        case None => Provisioned([publish, LogError], g2)
        case Some(n) => Provisioned([publish] + TestRun(test), g2.(neighbourhood := Some(n)))
  }

  /** Every step up to the test run succeeds. */
  predicate StepsSucceed(agent: bool, bundle: string, meta: string, languageType: string, resp: Responses) {
    && agent
    && bundle != "" && meta != ""
    && resp.publish.Some? && resp.trustOk && resp.template.Some? && resp.perspective.Some?
    && (languageType == LinkLanguage ==> resp.neighbourhood.Some?)
  }

  /** The commands of a successful sequence, in order. */
  function ProvisionCommands(bundle: string, meta: string, languageType: string, resp: Responses): seq<Event>
    requires resp.publish.Some? && resp.template.Some? && resp.perspective.Some?
  {
    [Exec(GenerateAgent(Passphrase)),
     PublishBundle(bundle, meta, resp),
     Exec(AddTrustedAgent(resp.publish.value.author)),
     Exec(ApplyTemplateAndPublish(resp.publish.value.address, TemplateData)),
     Exec(AddPerspective(PerspectiveName))]
    + SuccessNeighbourhood(languageType, resp)
  }

  /** When every step succeeds, the commands run in the fixed order and
      then the test does: its hooks and body, then the child is killed,
      `holochain` and `lair-keystore` are reaped, and only then the promise
      resolves. */
  lemma InstallSuccess(agent: bool, bundle: string, meta: string, languageType: string, t: TestObject, resp: Responses)
    requires StepsSucceed(agent, bundle, meta, languageType, resp)
    ensures Provision(agent, bundle, meta, languageType, Some(t), resp).trace
            == ProvisionCommands(bundle, meta, languageType, resp) + TestRun(Some(t))
  {
    var lang := resp.publish.value;
    var neighbourhood := SuccessNeighbourhood(languageType, resp);
    var c4 := [Exec(AddPerspective(PerspectiveName))];
    var c23 := [Exec(AddTrustedAgent(lang.author)), Exec(ApplyTemplateAndPublish(lang.address, TemplateData))];
    var c01 := [Exec(GenerateAgent(Passphrase)), PublishBundle(bundle, meta, resp)];
    PublishTrace(languageType, Some(t), resp);
    ProvisionPublishes(agent, bundle, meta, languageType, Some(t), resp);
    assert Provision(agent, bundle, meta, languageType, Some(t), resp).trace == c01 + (c23 + (c4 + (neighbourhood + TestRun(Some(t)))));
    assert ProvisionCommands(bundle, meta, languageType, resp) == c01 + c23 + c4 + neighbourhood;
    Regroup(c01, c23, c4, neighbourhood, TestRun(Some(t)));
  }

  /** With an agent and a given bundle and meta, provisioning generates the
      agent, publishes the bundle and carries on from the publish output. */
  lemma ProvisionPublishes(agent: bool, bundle: string, meta: string, languageType: string,
                           test: Option<TestObject>, resp: Responses)
    requires agent && bundle != "" && meta != ""
    ensures Provision(agent, bundle, meta, languageType, test, resp).trace
            == [Exec(GenerateAgent(Passphrase)), PublishBundle(bundle, meta, resp)]
               + AfterPublish(languageType, test, resp).trace
  {
    assert [Exec(GenerateAgent(Passphrase))] + [PublishBundle(bundle, meta, resp)]
           == [Exec(GenerateAgent(Passphrase)), PublishBundle(bundle, meta, resp)];
  }

  /** The neighbourhood publish of a successful sequence, if any. */
  function SuccessNeighbourhood(languageType: string, resp: Responses): seq<Event>
    requires resp.template.Some? && resp.perspective.Some?
  {
    if languageType == LinkLanguage
    then [Exec(PublishNeighbourhood(resp.perspective.value, resp.template.value.address, NeighbourhoodMeta))]
    else []
  }

  lemma PerspectiveTrace(languageType: string, test: Option<TestObject>, resp: Responses)
    requires resp.template.Some? && resp.perspective.Some? && (languageType == LinkLanguage ==> resp.neighbourhood.Some?)
    ensures AfterPerspective(resp.template.value.address, languageType, test, resp).trace
            == SuccessNeighbourhood(languageType, resp) + TestRun(test)
  {
  }

  lemma PublishTrace(languageType: string, test: Option<TestObject>, resp: Responses)
    requires StepsAfterPublishSucceed(languageType, resp)
    ensures AfterPublish(languageType, test, resp).trace
            == [Exec(AddTrustedAgent(resp.publish.value.author)), Exec(ApplyTemplateAndPublish(resp.publish.value.address, TemplateData))]
               + ([Exec(AddPerspective(PerspectiveName))] + (SuccessNeighbourhood(languageType, resp) + TestRun(test)))
  {
    PerspectiveTrace(languageType, test, resp);
  }

  lemma Regroup<T>(a: seq<T>, b: seq<T>, c: seq<T>, d: seq<T>, e: seq<T>)
    ensures a + (b + (c + (d + e))) == (a + b + c + d) + e
  {
  }

  /** How a provisioning trace ends: with `Resolve` after the child was
      killed and the test body ran when `ok`, otherwise with a logged error
      and with none of those. */
  predicate Settled(trace: seq<Event>, ok: bool) {
    && |trace| > 0
    && trace[|trace| - 1] == (if ok then Resolve else LogError)
    && (Resolve in trace <==> ok)
    && (KillChild in trace <==> ok)
    && (TestBody in trace <==> ok)
  }

  /** The neighbourhood publishes a trace issues, in order. */
  function Neighbourhoods(trace: seq<Event>): seq<HostCommand> {
    if |trace| == 0 then []
    else (if trace[0].Exec? && trace[0].cmd.PublishNeighbourhood? then [trace[0].cmd] else []) + Neighbourhoods(trace[1..])
  }

  lemma {:induction false} NeighbourhoodsAppend(a: seq<Event>, b: seq<Event>)
    ensures Neighbourhoods(a + b) == Neighbourhoods(a) + Neighbourhoods(b)
  {
    if |a| > 0 {
      assert (a + b)[1..] == a[1..] + b;
      NeighbourhoodsAppend(a[1..], b);
    } else {
      assert a + b == b;
    }
  }

  lemma {:induction false} NoCommandsNoNeighbourhoods(trace: seq<Event>)
    requires forall e :: e in trace ==> !e.Exec?
    ensures Neighbourhoods(trace) == []
  {
    if |trace| > 0 {
      assert trace[0] in trace;
      assert forall e :: e in trace[1..] ==> e in trace;
      NoCommandsNoNeighbourhoods(trace[1..]);
    }
  }

  /** The one neighbourhood a link language gets once the template and the
      perspective exist: the new perspective bound to the templated address,
      with meta `{"links":[]}`. */
  function ExpectedNeighbourhood(languageType: string, resp: Responses): seq<HostCommand> {
    if languageType == LinkLanguage && resp.template.Some? && resp.perspective.Some?
    then [PublishNeighbourhood(resp.perspective.value, resp.template.value.address, NeighbourhoodMeta)]
    else []
  }

  lemma TestRunSettles(test: Option<TestObject>)
    ensures Settled(TestRun(test), test.Some?)
    ensures forall e :: e in TestRun(test) ==> !e.Exec?
  {
    if test.Some? {
      var t := test.value;
      var before, after := HookRuns(t.beforeEachs), HookRuns(t.afterEachs);
      var tr := TestRun(test);
      var n := |before| + 1 + |after|;
      assert tr == (before + [TestBody] + after) + Teardown;
      assert tr[n + 3] == Resolve;
      assert tr[n] == KillChild;
      assert tr[|before|] == TestBody;
      forall e | e in tr
        ensures !e.Exec?
      {
        if e in before {
          HookRunsOnlyHooks(t.beforeEachs, e);
        } else if e in after {
          HookRunsOnlyHooks(t.afterEachs, e);
        }
      }
    }
  }

  lemma HookRunsOnlyHooks(hooks: seq<nat>, e: Event)
    requires e in HookRuns(hooks)
    ensures e.HookRan?
  {
    var events := HookRuns(hooks);
    var i :| 0 <= i < |events| && events[i] == e;
  }

  /** A prefix of commands changes neither how a trace settles nor which
      neighbourhoods it publishes. */
  lemma SettledAfterCommands(prefix: seq<Event>, rest: seq<Event>, ok: bool)
    requires forall e :: e in prefix ==> e.Exec?
    requires Settled(rest, ok)
    ensures Settled(prefix + rest, ok)
  {
    assert (prefix + rest)[|prefix + rest| - 1] == rest[|rest| - 1];
  }

  lemma PerspectiveStage(address: string, languageType: string, test: Option<TestObject>, resp: Responses)
    ensures Settled(AfterPerspective(address, languageType, test, resp).trace,
                    resp.perspective.Some? && (languageType == LinkLanguage ==> resp.neighbourhood.Some?) && test.Some?)
  {
    TestRunSettles(test);
    if resp.perspective.Some? && languageType == LinkLanguage && resp.neighbourhood.Some? {
      var publish := Exec(PublishNeighbourhood(resp.perspective.value, address, NeighbourhoodMeta));
      SettledAfterCommands([publish], TestRun(test), test.Some?);
    }
  }

  lemma PerspectiveStageNeighbourhoods(address: string, languageType: string, test: Option<TestObject>, resp: Responses)
    requires resp.template.Some? && resp.template.value.address == address
    ensures Neighbourhoods(AfterPerspective(address, languageType, test, resp).trace) == ExpectedNeighbourhood(languageType, resp)
  {
    TestRunSettles(test);
    NoCommandsNoNeighbourhoods(TestRun(test));
    if resp.perspective.Some? && languageType == LinkLanguage {
      var publish := Exec(PublishNeighbourhood(resp.perspective.value, address, NeighbourhoodMeta));
      if resp.neighbourhood.Some? {
        NeighbourhoodsAppend([publish], TestRun(test));
      } else {
        NeighbourhoodsAppend([publish], [LogError]);
      }
    }
  }

  lemma TemplateStage(languageType: string, test: Option<TestObject>, resp: Responses)
    ensures Settled(AfterTemplate(languageType, test, resp).trace,
                    && resp.template.Some? && resp.perspective.Some?
                    && (languageType == LinkLanguage ==> resp.neighbourhood.Some?) && test.Some?)
  {
    if resp.template.Some? {
      var address := resp.template.value.address;
      PerspectiveStage(address, languageType, test, resp);
      SettledAfterCommands([Exec(AddPerspective(PerspectiveName))], AfterPerspective(address, languageType, test, resp).trace,
        resp.perspective.Some? && (languageType == LinkLanguage ==> resp.neighbourhood.Some?) && test.Some?);
    }
  }

  lemma TemplateStageNeighbourhoods(languageType: string, test: Option<TestObject>, resp: Responses)
    ensures Neighbourhoods(AfterTemplate(languageType, test, resp).trace) == ExpectedNeighbourhood(languageType, resp)
  {
    if resp.template.Some? {
      var address := resp.template.value.address;
      PerspectiveStageNeighbourhoods(address, languageType, test, resp);
      NeighbourhoodsAppend([Exec(AddPerspective(PerspectiveName))], AfterPerspective(address, languageType, test, resp).trace);
    }
  }

  lemma PublishStage(languageType: string, test: Option<TestObject>, resp: Responses)
    ensures Settled(AfterPublish(languageType, test, resp).trace, StepsAfterPublishSucceed(languageType, resp) && test.Some?)
  {
    if resp.publish.Some? && resp.trustOk {
      var lang := resp.publish.value;
      TemplateStage(languageType, test, resp);
      SettledAfterCommands([Exec(AddTrustedAgent(lang.author)), Exec(ApplyTemplateAndPublish(lang.address, TemplateData))],
        AfterTemplate(languageType, test, resp).trace,
        && resp.template.Some? && resp.perspective.Some?
        && (languageType == LinkLanguage ==> resp.neighbourhood.Some?) && test.Some?);
    }
  }

  lemma PublishStageNeighbourhoods(languageType: string, test: Option<TestObject>, resp: Responses)
    ensures Neighbourhoods(AfterPublish(languageType, test, resp).trace)
            == if resp.publish.Some? && resp.trustOk then ExpectedNeighbourhood(languageType, resp) else []
  {
    if resp.publish.Some? && resp.trustOk {
      var lang := resp.publish.value;
      TemplateStageNeighbourhoods(languageType, test, resp);
      NeighbourhoodsAppend([Exec(AddTrustedAgent(lang.author)), Exec(ApplyTemplateAndPublish(lang.address, TemplateData))],
        AfterTemplate(languageType, test, resp).trace);
    } else if resp.publish.Some? {
      NeighbourhoodsAppend([Exec(AddTrustedAgent(resp.publish.value.author))], [LogError]);
    }
  }

  predicate StepsAfterPublishSucceed(languageType: string, resp: Responses) {
    && resp.publish.Some? && resp.trustOk && resp.template.Some? && resp.perspective.Some?
    && (languageType == LinkLanguage ==> resp.neighbourhood.Some?)
  }

  /** Once an agent exists and a bundle and a meta are given, the promise
      resolves exactly when every step succeeds and a test object was given;
      otherwise the error is the last event and the test body never runs nor
      is the child killed. */
  lemma InstallSettles(agent: bool, bundle: string, meta: string, languageType: string, test: Option<TestObject>, resp: Responses)
    requires agent && bundle != "" && meta != ""
    ensures Settled(Provision(agent, bundle, meta, languageType, test, resp).trace,
                    StepsSucceed(agent, bundle, meta, languageType, resp) && test.Some?)
  {
    PublishStage(languageType, test, resp);
    SettledAfterCommands([Exec(GenerateAgent(Passphrase)), PublishBundle(bundle, meta, resp)],
      AfterPublish(languageType, test, resp).trace, StepsSucceed(agent, bundle, meta, languageType, resp) && test.Some?);
  }

  /** Without an agent id the run throws right after generating; without a
      bundle or a meta it stops there silently. Neither resolves. */
  lemma InstallStopsEarly(agent: bool, bundle: string, meta: string, languageType: string, test: Option<TestObject>, resp: Responses)
    requires !agent || bundle == "" || meta == ""
    ensures var r := Provision(agent, bundle, meta, languageType, test, resp);
            && r.stored == NothingStored
            && r.trace == [Exec(GenerateAgent(Passphrase))] + (if !agent then [Threw] else [])
  {
  }

  /** The stored language address is the templated one, never the address
      first published; it is stored as soon as the template step succeeds. */
  lemma StoredAddressIsTemplated(agent: bool, bundle: string, meta: string, languageType: string, test: Option<TestObject>, resp: Responses)
    ensures var r := Provision(agent, bundle, meta, languageType, test, resp);
            && (r.stored.languageAddress.Some? ==> resp.template.Some? && r.stored.languageAddress.value == resp.template.value.address)
            && (r.stored.perspective.Some? ==> r.stored.perspective == resp.perspective && r.stored.languageAddress.Some?)
            && (r.stored.neighbourhood.Some? ==> languageType == LinkLanguage)
  {
  }

  /** A neighbourhood is published, once, exactly for a link language whose
      earlier steps succeeded, and it binds the new perspective to the
      templated address with meta `{"links":[]}`. */
  lemma NeighbourhoodOnce(agent: bool, bundle: string, meta: string, languageType: string, test: Option<TestObject>, resp: Responses)
    ensures Neighbourhoods(Provision(agent, bundle, meta, languageType, test, resp).trace)
            == if agent && bundle != "" && meta != "" && resp.publish.Some? && resp.trustOk
               then ExpectedNeighbourhood(languageType, resp) else []
  {
    var t := Provision(agent, bundle, meta, languageType, test, resp).trace;
    if agent && bundle != "" && meta != "" {
      PublishStageNeighbourhoods(languageType, test, resp);
      var prefix := [Exec(GenerateAgent(Passphrase)), PublishBundle(bundle, meta, resp)];
      var rest := AfterPublish(languageType, test, resp).trace;
      assert t == prefix + rest;
      NeighbourhoodsAppend(prefix, rest);
    } else if !agent {
      assert t == [Exec(GenerateAgent(Passphrase))] + [Threw];
      NeighbourhoodsAppend([Exec(GenerateAgent(Passphrase))], [Threw]);
    } else {
      assert t == [Exec(GenerateAgent(Passphrase))];
    }
  }

  // ---------------------------------------------------------------------
  // startServer

  /** `serve` arguments: `--defaultLangPath` only when one is supplied. */
  function ServeArgs(relativePath: string, port: int, defaultLangPath: Option<string>): (args: seq<string>)
    ensures |args| == 5 || |args| == 7
    ensures args[..5] == ["serve", "--dataPath", relativePath, "--port", IntToString(port)]
    ensures |args| == 7 <==> defaultLangPath.Some? && defaultLangPath.value != ""
    ensures |args| == 7 ==> args[5..] == ["--defaultLangPath", defaultLangPath.value]
  {
    var base := ["serve", "--dataPath", relativePath, "--port", IntToString(port)];
    match defaultLangPath
    case Some(p) => if p != "" then base + ["--defaultLangPath", p] else base
    case None => base
  }

  /** The reaction to each signal: a ready chunk starts a provisioning
      (`provision(k)` is the trace of the `k`-th one), a spawn error reaps
      every host process and rejects; anything else is only logged. */
  function React(signals: seq<ChildSignal>, provision: nat -> seq<Event>, started: nat): (r: seq<Event>)
    ensures (forall k :: 0 <= k < |signals| ==> signals[k].Stdout? && !Ready(signals[k].chunk)) ==> r == []
    decreases |signals|
  {
    if |signals| == 0 then []
    else
      var s := signals[0];
      if s.Stdout? && Ready(s.chunk) then provision(started) + React(signals[1..], provision, started + 1)
      else if s.SpawnFailed? then
        SpawnErrorTeardown + React(signals[1..], provision, started)
      else React(signals[1..], provision, started)
  }

  /** Number of stdout chunks that contain the marker. */
  function ReadyCount(signals: seq<ChildSignal>): (n: nat)
    ensures n <= |signals|
  {
    if |signals| == 0 then 0
    else (if signals[0].Stdout? && Ready(signals[0].chunk) then 1 else 0) + ReadyCount(signals[1..])
  }

  /** Number of ready chunks whose round, counting rounds from `started`,
      satisfies `ok`. */
  function ReadyWhere(signals: seq<ChildSignal>, ok: nat -> bool, started: nat): (n: nat)
    ensures n <= ReadyCount(signals)
    decreases |signals|
  {
    if |signals| == 0 then 0
    else if signals[0].Stdout? && Ready(signals[0].chunk) then
      (if ok(started) then 1 else 0) + ReadyWhere(signals[1..], ok, started + 1)
    else ReadyWhere(signals[1..], ok, started)
  }

  lemma {:induction false} ReadyWhereAll(signals: seq<ChildSignal>, ok: nat -> bool, started: nat)
    requires forall k :: ok(k)
    ensures ReadyWhere(signals, ok, started) == ReadyCount(signals)
    decreases |signals|
  {
    if |signals| > 0 {
      var s := signals[0];
      ReadyWhereAll(signals[1..], ok, if s.Stdout? && Ready(s.chunk) then started + 1 else started);
    }
  }

  /** How many times `e` occurs in `trace`. */
  function Occurrences(trace: seq<Event>, e: Event): (n: nat)
    ensures n <= |trace|
    ensures n == 0 <==> e !in trace
  {
    if |trace| == 0 then 0
    else
      assert trace == [trace[0]] + trace[1..];
      (if trace[0] == e then 1 else 0) + Occurrences(trace[1..], e)
  }

  lemma {:induction false} OccurrencesAppend(a: seq<Event>, b: seq<Event>, e: Event)
    ensures Occurrences(a + b, e) == Occurrences(a, e) + Occurrences(b, e)
  {
    if |a| > 0 {
      assert (a + b)[1..] == a[1..] + b;
      OccurrencesAppend(a[1..], b, e);
    } else {
      assert a + b == b;
    }
  }

  /** With no once-guard, every ready chunk starts its own provisioning, so
      an event that the spawn-error teardown never emits occurs once for
      each ready chunk whose provisioning emits it once. */
  lemma {:induction false} ProvisionPerReadyChunk(signals: seq<ChildSignal>, provision: nat -> seq<Event>, started: nat,
                                                  e: Event, ok: nat -> bool)
    requires e !in SpawnErrorTeardown
    requires forall k :: Occurrences(provision(k), e) == (if ok(k) then 1 else 0)
    ensures Occurrences(React(signals, provision, started), e) == ReadyWhere(signals, ok, started)
    decreases |signals|
  {
    if |signals| > 0 {
      var s := signals[0];
      ProvisionPerReadyChunk(signals[1..], provision, if s.Stdout? && Ready(s.chunk) then started + 1 else started, e, ok);
      if s.Stdout? && Ready(s.chunk) {
        OccurrencesAppend(provision(started), React(signals[1..], provision, started + 1), e);
      } else if s.SpawnFailed? {
        OccurrencesAppend(SpawnErrorTeardown, React(signals[1..], provision, started), e);
      }
    }
  }

  /** Nothing after the publish generates another agent. */
  lemma NoAgentAfterPublish(languageType: string, test: Option<TestObject>, resp: Responses)
    ensures Exec(GenerateAgent(Passphrase)) !in AfterPublish(languageType, test, resp).trace
  {
    TestRunSettles(test);
  }

  /** Every `installLanguage` generates exactly one agent. */
  lemma InstallGeneratesOnce(bundle: string, meta: string, languageType: string, test: Option<TestObject>, resp: Responses)
    ensures Occurrences(InstallLanguage(bundle, meta, languageType, test, resp).trace, Exec(GenerateAgent(Passphrase))) == 1
  {
    var g := Exec(GenerateAgent(Passphrase));
    var agent := ExtractDid(resp.generateOutput).Some?;
    var t := InstallLanguage(bundle, meta, languageType, test, resp).trace;
    var rest := t[1..];
    if agent && bundle != "" && meta != "" {
      NoAgentAfterPublish(languageType, test, resp);
      assert rest == [PublishBundle(bundle, meta, resp)] + AfterPublish(languageType, test, resp).trace;
    }
    assert g !in rest;
    assert t == [g] + rest;
    OccurrencesAppend([g], rest, g);
  }

  /** An `installLanguage` resolves the promise once when every step
      succeeds and a test object was given, and never otherwise. */
  lemma InstallResolvesOnce(bundle: string, meta: string, languageType: string, test: Option<TestObject>, resp: Responses)
    ensures Occurrences(InstallLanguage(bundle, meta, languageType, test, resp).trace, Resolve)
            == if StepsSucceed(ExtractDid(resp.generateOutput).Some?, bundle, meta, languageType, resp) && test.Some? then 1 else 0
  {
    var agent := ExtractDid(resp.generateOutput).Some?;
    var ok := StepsSucceed(agent, bundle, meta, languageType, resp) && test.Some?;
    var tr := InstallLanguage(bundle, meta, languageType, test, resp).trace;
    if !agent || bundle == "" || meta == "" {
      InstallStopsEarly(agent, bundle, meta, languageType, test, resp);
    } else if !ok {
      InstallSettles(agent, bundle, meta, languageType, test, resp);
    } else {
      SuccessResolvesOnce(agent, bundle, meta, languageType, test.value, resp);
    }
  }

  /** A successful sequence resolves once, in the test run's teardown. */
  lemma SuccessResolvesOnce(agent: bool, bundle: string, meta: string, languageType: string, t: TestObject, resp: Responses)
    requires StepsSucceed(agent, bundle, meta, languageType, resp)
    ensures Occurrences(Provision(agent, bundle, meta, languageType, Some(t), resp).trace, Resolve) == 1
  {
    InstallSuccess(agent, bundle, meta, languageType, t, resp);
    var cmds := ProvisionCommands(bundle, meta, languageType, resp);
    assert Resolve !in cmds;
    TestRunResolvesOnce(t);
    OccurrencesAppend(cmds, TestRun(Some(t)), Resolve);
  }

  /** A test run resolves once: only its teardown does. */
  lemma TestRunResolvesOnce(t: TestObject)
    ensures Occurrences(TestRun(Some(t)), Resolve) == 1
  {
    var before, after := HookRuns(t.beforeEachs), HookRuns(t.afterEachs);
    assert Resolve !in before && Resolve !in after by {
      if Resolve in before { HookRunsOnlyHooks(t.beforeEachs, Resolve); }
      if Resolve in after { HookRunsOnlyHooks(t.afterEachs, Resolve); }
    }
    var body := before + [TestBody] + after;
    assert Resolve !in body;
    assert Occurrences(Teardown, Resolve) == 1;
    OccurrencesAppend(body, Teardown, Resolve);
  }

  /** `startServer`: reap leftovers, initialise the data path, spawn `serve`,
      then react to what the child reports. `initOk` says whether `init`
      exited with status 0; when it did not, `execSync` throws inside the
      promise's executor, so `serve` is never spawned and the promise never
      settles. */
  function StartServer(relativePath: string, port: int, defaultLangPath: Option<string>, initOk: bool,
                       signals: seq<ChildSignal>, provision: nat -> seq<Event>): (trace: seq<Event>)
    ensures |trace| >= 4
    ensures trace[..3] == [Reap("holochain"), Reap("lair-keystore"), Exec(InitHost(relativePath))]
    ensures trace[3] == Spawn(ServeArgs(relativePath, port, defaultLangPath)) <==> initOk
    ensures !initOk ==> trace == trace[..3] + [Threw]
  {
    var startup := [Reap("holochain"), Reap("lair-keystore"), Exec(InitHost(relativePath))];
    if !initOk then startup + [Threw]
    else startup + [Spawn(ServeArgs(relativePath, port, defaultLangPath))] + React(signals, provision, 0)
  }

  /** A failing `init` ends start-up: nothing is spawned, nothing is
      provisioned, and the promise neither resolves nor rejects. */
  lemma InitFailureStopsStartUp(relativePath: string, port: int, defaultLangPath: Option<string>,
                                signals: seq<ChildSignal>, provision: nat -> seq<Event>)
    ensures var t := StartServer(relativePath, port, defaultLangPath, false, signals, provision);
            && |t| == 4 && t[3] == Threw
            && (forall e :: e in t ==> !e.Spawn?)
            && Resolve !in t && Reject !in t && Exec(GenerateAgent(Passphrase)) !in t
  {
    var t := StartServer(relativePath, port, defaultLangPath, false, signals, provision);
    assert t == [Reap("holochain"), Reap("lair-keystore"), Exec(InitHost(relativePath)), Threw];
  }

  /** `startServer` hands every ready chunk to `installLanguage`, with
      `resp(k)` what the commands of the `k`-th round printed. There is no
      once-guard: every ready chunk generates an agent of its own, and
      `resolve` is called once for each ready chunk whose round succeeds.
      When `init` fails, nothing of this happens. */
  lemma StartServerProvisionsPerReadyChunk(relativePath: string, port: int, defaultLangPath: Option<string>,
                                           initOk: bool, signals: seq<ChildSignal>, bundle: string, meta: string,
                                           languageType: string, test: Option<TestObject>, resp: nat -> Responses)
    ensures var t := StartServer(relativePath, port, defaultLangPath, initOk, signals,
                                 (k: nat) => InstallLanguage(bundle, meta, languageType, test, resp(k)).trace);
            && Occurrences(t, Exec(GenerateAgent(Passphrase))) == (if initOk then ReadyCount(signals) else 0)
            && Occurrences(t, Resolve)
               == (if initOk
                   then ReadyWhere(signals, (k: nat) => StepsSucceed(ExtractDid(resp(k).generateOutput).Some?, bundle, meta, languageType, resp(k))
                                                && test.Some?, 0)
                   else 0)
  {
    var provision := (k: nat) => InstallLanguage(bundle, meta, languageType, test, resp(k)).trace;
    var g := Exec(GenerateAgent(Passphrase));
    var t := StartServer(relativePath, port, defaultLangPath, initOk, signals, provision);
    if initOk {
      ReactProvisionCounts(signals, bundle, meta, languageType, test, resp);
      StartedCounts(relativePath, port, defaultLangPath, signals, provision, g);
      StartedCounts(relativePath, port, defaultLangPath, signals, provision, Resolve);
    } else {
      assert t == [Reap("holochain"), Reap("lair-keystore"), Exec(InitHost(relativePath)), Threw];
    }
  }

  /** Past the start-up events, a started server's trace counts what its
      reaction counts. */
  lemma StartedCounts(relativePath: string, port: int, defaultLangPath: Option<string>,
                      signals: seq<ChildSignal>, provision: nat -> seq<Event>, e: Event)
    requires !e.Reap? && !e.Spawn? && e != Exec(InitHost(relativePath))
    ensures Occurrences(StartServer(relativePath, port, defaultLangPath, true, signals, provision), e)
            == Occurrences(React(signals, provision, 0), e)
  {
    var prefix := [Reap("holochain"), Reap("lair-keystore"), Exec(InitHost(relativePath)),
                   Spawn(ServeArgs(relativePath, port, defaultLangPath))];
    assert StartServer(relativePath, port, defaultLangPath, true, signals, provision) == prefix + React(signals, provision, 0);
    assert e !in prefix;
    OccurrencesAppend(prefix, React(signals, provision, 0), e);
  }

  /** The reaction part of `StartServerProvisionsPerReadyChunk`: one
      generated agent per ready chunk, one `resolve` per successful round. */
  lemma ReactProvisionCounts(signals: seq<ChildSignal>, bundle: string, meta: string, languageType: string,
                             test: Option<TestObject>, resp: nat -> Responses)
    ensures var r := React(signals, (k: nat) => InstallLanguage(bundle, meta, languageType, test, resp(k)).trace, 0);
            && Occurrences(r, Exec(GenerateAgent(Passphrase))) == ReadyCount(signals)
            && Occurrences(r, Resolve)
               == ReadyWhere(signals, (k: nat) => StepsSucceed(ExtractDid(resp(k).generateOutput).Some?, bundle, meta, languageType, resp(k))
                                            && test.Some?, 0)
  {
    var provision := (k: nat) => InstallLanguage(bundle, meta, languageType, test, resp(k)).trace;
    var g := Exec(GenerateAgent(Passphrase));
    var succeeds := (k: nat) => StepsSucceed(ExtractDid(resp(k).generateOutput).Some?, bundle, meta, languageType, resp(k)) && test.Some?;
    var always := (k: nat) => true;
    forall k: nat ensures Occurrences(provision(k), g) == (if always(k) then 1 else 0) {
      InstallGeneratesOnce(bundle, meta, languageType, test, resp(k));
    }
    forall k: nat ensures Occurrences(provision(k), Resolve) == (if succeeds(k) then 1 else 0) {
      InstallResolvesOnce(bundle, meta, languageType, test, resp(k));
    }
    ProvisionPerReadyChunk(signals, provision, 0, g, always);
    ProvisionPerReadyChunk(signals, provision, 0, Resolve, succeeds);
    ReadyWhereAll(signals, always, 0);
  }

  /** A spawn error as the child's first signal, after `init` succeeded:
      after the start-up events come the reaping of `holochain`,
      `lair-keystore` and `ad4m-host`, and the rejection; no provisioning
      runs and nothing resolves. */
  lemma SpawnErrorRejects(relativePath: string, port: int, defaultLangPath: Option<string>,
                          provision: nat -> seq<Event>)
    ensures var t := StartServer(relativePath, port, defaultLangPath, true, [SpawnFailed], provision);
            && t[3] == Spawn(ServeArgs(relativePath, port, defaultLangPath))
            && t[4..] == [Reap("holochain"), Reap("lair-keystore"), Reap("ad4m-host"), Reject]
            && Resolve !in t && KillChild !in t
  {
    var t := StartServer(relativePath, port, defaultLangPath, true, [SpawnFailed], provision);
    assert React([SpawnFailed], provision, 0) == SpawnErrorTeardown;
    assert t == t[..4] + SpawnErrorTeardown;
  }

  // ---------------------------------------------------------------------
  // run

  /** The fixed release the runner downloads. */
  const ReleaseBase: string := "https://github.com/fluxsocial/ad4m-host/releases/download/v0.0.6/ad4m-"

  function HostUrl(platform: string): string {
    if platform == "darwin" then ReleaseBase + "macos-x64"
    else if platform == "win32" then ReleaseBase + "windows-x64.exe"
    else ReleaseBase + "linux-x64"
  }

  /** The runner's fixed URLs name the same platform build as the asset
      choice of the release-listing download. */
  lemma HostUrlMatchesAssetChoice(platform: string)
    ensures Contains(HostUrl(platform), Utils.PlatformKeyword(platform))
  {
    var u := HostUrl(platform);
    var k := Utils.PlatformKeyword(platform);
    assert u[|ReleaseBase|..|ReleaseBase| + |k|] == k;
    ContainsWitness(u, k, |ReleaseBase|);
  }

  /** An option given on the command line, as JavaScript truthiness sees it. */
  predicate Given(o: Option<string>) {
    o.Some? && o.value != ""
  }

  /** The parsed command line, with the defaults of `port` (4000) and
      `defaultLangPath` already applied. */
  datatype CliArgs = CliArgs(
    relativePath: Option<string>,
    port: int,
    test: Option<string>,
    bundle: Option<string>,
    meta: Option<string>,
    languageType: Option<string>,
    defaultLangPath: string)

  /** `args.relativePath || 'ad4m-test'`. */
  function RelativePath(args: CliArgs): string {
    if Given(args.relativePath) then args.relativePath.value else "ad4m-test"
  }

  /** The files run: the one named by `--test`, else the discovered ones
      outside `node_modules`. */
  function SelectFiles(args: CliArgs, discovered: seq<string>): (files: seq<string>)
    ensures Given(args.test) ==> files == [args.test.value]
    ensures !Given(args.test) ==> files == Utils.WithoutNodeModules(discovered)
  {
    if Given(args.test) then [args.test.value] else Utils.WithoutNodeModules(discovered)
  }

  /** The settings every file runs with; only called once a bundle and a
      meta are known to be given. */
  function Config(args: CliArgs): RunConfig
    requires Given(args.bundle) && Given(args.meta)
  {
    RunConfig(RelativePath(args), args.bundle.value, args.meta.value, args.languageType, args.defaultLangPath, args.port)
  }

  function RunFiles(files: seq<string>, config: RunConfig): (events: seq<Event>)
    ensures |events| == |files|
    ensures forall i :: 0 <= i < |files| ==> events[i] == RunFile(files[i], config)
  {
    if |files| == 0 then [] else [RunFile(files[0], config)] + RunFiles(files[1..], config)
  }

  /** `run`: make sure the binary is there, insist on a bundle and a meta,
      run each selected file in order, show the results once, exit 0. */
  function RunCli(args: CliArgs, platform: string, binaryExists: bool, downloadOk: bool,
                  discovered: seq<string>): (t: seq<Event>)
    ensures |t| > 0
    ensures t[|t| - 1] == Threw <==> !binaryExists && !downloadOk
    ensures Download(HostUrl(platform)) in t <==> !binaryExists
  {
    var dl := if binaryExists then [] else [Download(HostUrl(platform))];
    if !binaryExists && !downloadOk then dl + [Threw]
    else if !Given(args.bundle) || !Given(args.meta) then dl + [Exit(1)]
    else dl + RunFiles(SelectFiles(args, discovered), Config(args)) + [ShowResults, Exit(0)]
  }

  /** Missing bundle or meta ends the run with status 1 before any file. */
  lemma RunRequiresBundleAndMeta(args: CliArgs, platform: string, binaryExists: bool, downloadOk: bool,
                                 discovered: seq<string>)
    requires binaryExists || downloadOk
    ensures var t := RunCli(args, platform, binaryExists, downloadOk, discovered);
            && |t| > 0
            && (t[|t| - 1] == Exit(1) <==> !Given(args.bundle) || !Given(args.meta))
            && (t[|t| - 1] == Exit(0) <==> Given(args.bundle) && Given(args.meta))
            && (!Given(args.bundle) || !Given(args.meta) ==> forall e :: e in t ==> !e.RunFile?)
  {
  }

  /** With both given, the selected files run in order, each with the
      given settings and the relative path defaulting to `ad4m-test`, and
      the results are shown exactly once, after the last file. */
  lemma RunOrder(args: CliArgs, platform: string, binaryExists: bool, downloadOk: bool,
                 discovered: seq<string>)
    requires binaryExists || downloadOk
    requires Given(args.bundle) && Given(args.meta)
    ensures var t := RunCli(args, platform, binaryExists, downloadOk, discovered);
            var files := SelectFiles(args, discovered);
            var d := if binaryExists then 0 else 1;
            var config := RunConfig(if Given(args.relativePath) then args.relativePath.value else "ad4m-test",
                                    args.bundle.value, args.meta.value, args.languageType, args.defaultLangPath, args.port);
            && |t| == d + |files| + 2
            && (forall i :: 0 <= i < |files| ==> t[d + i] == RunFile(files[i], config))
            && t[|t| - 2] == ShowResults
            && (forall i :: 0 <= i < |t| - 2 ==> t[i] != ShowResults)
  {
    var t := RunCli(args, platform, binaryExists, downloadOk, discovered);
    var files := SelectFiles(args, discovered);
    var dl := if binaryExists then [] else [Download(HostUrl(platform))];
    var config := RunConfig(if Given(args.relativePath) then args.relativePath.value else "ad4m-test",
                            args.bundle.value, args.meta.value, args.languageType, args.defaultLangPath, args.port);
    assert Config(args) == config;
    RunCliLayout(args, platform, binaryExists, downloadOk, discovered);
    assert t == dl + RunFiles(files, config) + [ShowResults, Exit(0)];
    RunsBeforeResults(dl, files, config);
  }

  /** The layout of a run: the download events, the file runs in order, then
      the results; the results are shown nowhere earlier. */
  lemma RunsBeforeResults(dl: seq<Event>, files: seq<string>, config: RunConfig)
    requires forall e :: e in dl ==> e.Download?
    ensures var t := dl + RunFiles(files, config) + [ShowResults, Exit(0)];
            && |t| == |dl| + |files| + 2
            && (forall i :: 0 <= i < |files| ==> t[|dl| + i] == RunFile(files[i], config))
            && t[|t| - 2] == ShowResults
            && (forall i :: 0 <= i < |t| - 2 ==> t[i] != ShowResults)
  {
    var runs := RunFiles(files, config);
    var t := dl + runs + [ShowResults, Exit(0)];
    forall i | 0 <= i < |files|
      ensures t[|dl| + i] == RunFile(files[i], config)
    {
      assert t[|dl| + i] == runs[i];
    }
    forall i | 0 <= i < |t| - 2
      ensures t[i] != ShowResults
    {
      if i < |dl| {
        assert t[i] == dl[i] && dl[i] in dl;
      } else {
        assert t[i] == runs[i - |dl|];
      }
    }
  }

  /** With the binary available and the bundle and meta given, a run is the
      optional download, one run per selected file, the results and exit 0. */
  lemma RunCliLayout(args: CliArgs, platform: string, binaryExists: bool, downloadOk: bool,
                     discovered: seq<string>)
    requires binaryExists || downloadOk
    requires Given(args.bundle) && Given(args.meta)
    ensures RunCli(args, platform, binaryExists, downloadOk, discovered)
            == (if binaryExists then [] else [Download(HostUrl(platform))])
               + RunFiles(SelectFiles(args, discovered), Config(args)) + [ShowResults, Exit(0)]
  {
  }

  /** The binary is downloaded only when it is missing, from the build for
      the platform. */
  lemma DownloadOnlyWhenMissing(args: CliArgs, platform: string, binaryExists: bool, downloadOk: bool,
                                discovered: seq<string>)
    ensures var t := RunCli(args, platform, binaryExists, downloadOk, discovered);
            && (binaryExists ==> forall e :: e in t ==> !e.Download?)
            && (!binaryExists ==> t[0] == Download(HostUrl(platform)))
            && (!binaryExists && !downloadOk ==> t == [Download(HostUrl(platform)), Threw])
  {
  }
}
