/** The assertion micro-framework of src/index.ts: four hook lists, `describe`,
    `it` and `expect(v).toBe/toEqual`, with pass/fail/total counters and a
    `stats` log of describe records.

    The source keeps module-level mutable state and pushes REFERENCES: the
    current `it` record is pushed into the current describe's `it` array, and
    the current describe record into `stats`, and both stay reachable through
    `currIt`/`currDesc` afterwards. The model makes that heap explicit: records
    live in `descStore`/`itStore` and are referred to by index.

    A test file's code is a tree of `Action`s. Hook callbacks are opaque: the
    model records, in `log`, that a hook ran, and does not look inside it. */
module Framework {
  import opened Wrappers
  import opened Js

  /** A registered callback, by identity. */
  type Hook = nat

  datatype HookKind = BeforeEachKind | AfterEachKind | AfterAllKind | BeforeAllKind

  datatype Matcher = ToBeMatcher | ToEqualMatcher

  /** What test-file code calls, in program order. */
  datatype Action =
    | Register(kind: HookKind, hook: Hook)          // beforeEach(fn), afterEach(fn), ...
    | Describe(name: string, body: seq<Action>)     // describe(name, () => { body })
    | It(name: string, body: seq<Action>)           // it(name, () => { body })
    | Expect(value: Value, matcher: Matcher, expected: Value)

  /** One recorded assertion: `{name, status}`. */
  datatype Outcome = Outcome(name: string, status: bool)

  /** An `it` record `{name, expects}` created by `it`. */
  datatype ItRecord = ItRecord(name: string, expects: seq<Outcome>)

  /** A describe record `{it, name}`; `its` refers into `itStore`. */
  datatype DescRecord = DescRecord(name: Option<string>, its: seq<nat>)

  /** What can be observed of the run's order: hooks running, and a callback
      body being entered and left. */
  datatype Event =
    | HookRan(kind: HookKind, hook: Hook)
    | BodyStart(name: string)
    | BodyEnd(name: string)

  datatype State = State(
    beforeEachs: seq<Hook>,
    afterEachs: seq<Hook>,
    afterAlls: seq<Hook>,
    beforeAlls: seq<Hook>,
    totalTests: nat,
    passedTests: nat,
    failedTests: nat,
    stats: seq<nat>,            // refers into descStore
    descStore: seq<DescRecord>,
    currDesc: nat,              // refers into descStore
    itStore: seq<ItRecord>,
    currIt: Option<nat>,        // refers into itStore; None is the initial `{}` with no `expects`
    log: seq<Event>)

  /** The module's state when a test file is loaded. */
  function Init(): State {
    State([], [], [], [], 0, 0, 0, [], [DescRecord(None, [])], 0, [], None, [])
  }

  /** Every reference points at an existing record. */
  ghost predicate WellFormed(st: State) {
    && st.currDesc < |st.descStore|
    && (st.currIt.Some? ==> st.currIt.value < |st.itStore|)
    && (forall i :: 0 <= i < |st.stats| ==> st.stats[i] < |st.descStore|)
    && (forall d, j :: 0 <= d < |st.descStore| && 0 <= j < |st.descStore[d].its| ==> st.descStore[d].its[j] < |st.itStore|)
  }

  function HooksOf(st: State, kind: HookKind): seq<Hook> {
    match kind
    case BeforeEachKind => st.beforeEachs
    case AfterEachKind => st.afterEachs
    case AfterAllKind => st.afterAlls
    case BeforeAllKind => st.beforeAlls
  }

  // ---------------------------------------------------------------------
  // registrars

  /** `beforeEach(fn)` and its three siblings: append to the list of that kind. */
  function RegisterHook(st: State, kind: HookKind, h: Hook): (r: State)
    ensures HooksOf(r, kind) == HooksOf(st, kind) + [h]
    ensures forall k :: k != kind ==> HooksOf(r, k) == HooksOf(st, k)
    ensures r == st.(beforeEachs := r.beforeEachs, afterEachs := r.afterEachs,
                     afterAlls := r.afterAlls, beforeAlls := r.beforeAlls)
  {
    match kind
    case BeforeEachKind => st.(beforeEachs := st.beforeEachs + [h])
    case AfterEachKind => st.(afterEachs := st.afterEachs + [h])
    case AfterAllKind => st.(afterAlls := st.afterAlls + [h])
    case BeforeAllKind => st.(beforeAlls := st.beforeAlls + [h])
  }

  /** The log entries of running `hooks` one after the other. */
  function HookEvents(hooks: seq<Hook>, kind: HookKind): (events: seq<Event>)
    ensures |events| == |hooks|
    ensures forall i :: 0 <= i < |hooks| ==> events[i] == HookRan(kind, hooks[i])
  {
    if |hooks| == 0 then [] else [HookRan(kind, hooks[0])] + HookEvents(hooks[1..], kind)
  }

  /** `for (const h of list) h()` over the list as it is at that moment. */
  function RunHooks(st: State, kind: HookKind): State {
    st.(log := st.log + HookEvents(HooksOf(st, kind), kind))
  }

  // ---------------------------------------------------------------------
  // expect(value).toBe(expected) / .toEqual(expected)

  /** The outcome text of `toBe`/`toEqual`. Two strings appear as they are,
      and a passing comparison names the same value twice. */
  function Message(value: Value, expected: Value): (m: string)
    ensures value.Str? && expected.Str? ==> m == "expected " + value.s + " toBe " + expected.s
    ensures StrictEquals(value, expected) ==> m == "expected " + TemplateText(value) + " toBe " + TemplateText(value)
  {
    "expected " + TemplateText(value) + " toBe " + TemplateText(expected)
  }

  /** Appends to the current record's `expects` when it has one (`?.push`). */
  function Record(st: State, o: Outcome): (r: State)
    requires WellFormed(st)
    ensures WellFormed(r)
  {
    match st.currIt
    case Some(k) => st.(itStore := st.itStore[k := st.itStore[k].(expects := st.itStore[k].expects + [o])])
    case None => st
  }

  /** `toBe`: strict equality decides the outcome; exactly one of the pass and
      fail counters moves; the outcome is recorded only on a current `it`. */
  function ToBe(st: State, value: Value, expected: Value): (r: State)
    requires WellFormed(st)
    ensures WellFormed(r)
    ensures StrictEquals(value, expected) ==> r.passedTests == st.passedTests + 1 && r.failedTests == st.failedTests
    ensures !StrictEquals(value, expected) ==> r.failedTests == st.failedTests + 1 && r.passedTests == st.passedTests
    ensures st.currIt.Some? ==>
              var k := st.currIt.value;
              r.itStore == st.itStore[k := ItRecord(st.itStore[k].name,
                             st.itStore[k].expects + [Outcome(Message(value, expected), StrictEquals(value, expected))])]
    ensures st.currIt.None? ==> r.itStore == st.itStore
    ensures r == st.(itStore := r.itStore, passedTests := r.passedTests, failedTests := r.failedTests)
  {
    if value.NaN? || value != expected then
      Record(st, Outcome(Message(value, expected), false)).(failedTests := st.failedTests + 1)
    else
      Record(st, Outcome(Message(value, expected), true)).(passedTests := st.passedTests + 1)
  }

  /** `toEqual` is written out separately in the source, with the same
      strict comparison and the same `toBe` message. */
  function ToEqual(st: State, value: Value, expected: Value): (r: State)
    requires WellFormed(st)
    ensures WellFormed(r)
  {
    match st.currIt
    case Some(k) =>
      var status := !value.NaN? && value == expected;
      var o := Outcome("expected " + TemplateText(value) + " toBe " + TemplateText(expected), status);
      var st1 := st.(itStore := st.itStore[k := st.itStore[k].(expects := st.itStore[k].expects + [o])]);
      if status then st1.(passedTests := st.passedTests + 1) else st1.(failedTests := st.failedTests + 1)
    case None =>
      if !value.NaN? && value == expected then st.(passedTests := st.passedTests + 1)
      else st.(failedTests := st.failedTests + 1)
  }

  /** `toEqual` behaves exactly like `toBe`, message included. */
  lemma ToEqualIsToBe(st: State, value: Value, expected: Value)
    requires WellFormed(st)
    ensures ToEqual(st, value, expected) == ToBe(st, value, expected)
  {
  }

  /** Before any `it` has run there is no `expects` list: an assertion moves
      a counter and records nothing. */
  lemma ExpectBeforeAnyIt(value: Value, expected: Value)
    ensures ToBe(Init(), value, expected).itStore == []
    ensures ToBe(Init(), value, expected).passedTests + ToBe(Init(), value, expected).failedTests == 1
  {
  }

  // ---------------------------------------------------------------------
  // reference counts over a test file's code

  /** How much running some code moves the state: `it` calls, `describe`
      calls, assertions, assertions whose values are `===`, and the hooks of
      each kind registered, in execution order. */
  datatype Tally = Tally(its: nat, describes: nat, expects: nat, passes: nat,
                         beforeEachs: seq<Hook>, afterEachs: seq<Hook>,
                         afterAlls: seq<Hook>, beforeAlls: seq<Hook>)

  const Zero := Tally(0, 0, 0, 0, [], [], [], [])

  function Plus(a: Tally, b: Tally): Tally {
    Tally(a.its + b.its, a.describes + b.describes, a.expects + b.expects, a.passes + b.passes,
          a.beforeEachs + b.beforeEachs, a.afterEachs + b.afterEachs,
          a.afterAlls + b.afterAlls, a.beforeAlls + b.beforeAlls)
  }

  function HookTally(kind: HookKind, h: Hook): Tally {
    match kind
    case BeforeEachKind => Zero.(beforeEachs := [h])
    case AfterEachKind => Zero.(afterEachs := [h])
    case AfterAllKind => Zero.(afterAlls := [h])
    case BeforeAllKind => Zero.(beforeAlls := [h])
  }

  function TallyOf(acts: seq<Action>): Tally decreases acts {
    if |acts| == 0 then Zero else Plus(TallyOfAction(acts[0]), TallyOf(acts[1..]))
  }

  function TallyOfAction(a: Action): Tally decreases a {
    match a
    case Register(kind, h) => HookTally(kind, h)
    case Expect(v, _, e) => Zero.(expects := 1, passes := if StrictEquals(v, e) then 1 else 0)
    case It(_, body) => Plus(Zero.(its := 1), TallyOf(body))
    case Describe(_, body) => Plus(TallyOf(body), Zero.(describes := 1))
  }

  // ---------------------------------------------------------------------
  // running test-file code

  /** What running any code keeps: the stores, `stats` and the log only grow. */
  ghost predicate Grows(st: State, r: State) {
    && |st.itStore| <= |r.itStore|
    && |st.descStore| <= |r.descStore|
    && st.stats <= r.stats
    && st.log <= r.log
  }

  /** The counters move by the tally, and each hook list gains exactly the
      hooks registered. */
  ghost predicate Moves(st: State, r: State, t: Tally) {
    && |r.stats| == |st.stats| + t.describes
    && r.totalTests == st.totalTests + t.its
    && r.passedTests == st.passedTests + t.passes
    && r.passedTests + r.failedTests == st.passedTests + st.failedTests + t.expects
    && r.beforeEachs == st.beforeEachs + t.beforeEachs
    && r.afterEachs == st.afterEachs + t.afterEachs
    && r.afterAlls == st.afterAlls + t.afterAlls
    && r.beforeAlls == st.beforeAlls + t.beforeAlls
  }

  ghost predicate RunSpec(st: State, r: State, t: Tally) {
    Grows(st, r) && Moves(st, r, t)
  }

  /** Runs the code of a test file or of a callback body, in order. */
  function Run(st: State, acts: seq<Action>): (r: State)
    requires WellFormed(st)
    ensures WellFormed(r)
    decreases acts
  {
    if |acts| == 0 then st else Run(Step(st, acts[0]), acts[1..])
  }

  /** One call of test-file code. */
  function Step(st: State, a: Action): (r: State)
    requires WellFormed(st)
    ensures WellFormed(r)
    decreases a
  {
    match a
    case Register(kind, h) => RegisterHook(st, kind, h)
    case Expect(v, m, e) =>
      if m == ToBeMatcher then ToBe(st, v, e) else (ToEqualIsToBe(st, v, e); ToEqual(st, v, e))
    case It(name, body) => RunIt(st, name, body)
    case Describe(name, body) => RunDescribe(st, name, body)
  }

  /** The part of `it` before its body: count the test, run every
      `beforeEach`, make a fresh record current. */
  function OpenIt(st: State, name: string): (r: State)
    requires WellFormed(st)
    ensures WellFormed(r) && RunSpec(st, r, Zero.(its := 1))
    ensures r.currIt == Some(|st.itStore|) && r.itStore == st.itStore + [ItRecord(name, [])]
    ensures r.currDesc == st.currDesc && r.descStore == st.descStore
    ensures r.log == st.log + HookEvents(st.beforeEachs, BeforeEachKind) + [BodyStart(name)]
  {
    var s1 := RunHooks(st.(totalTests := st.totalTests + 1), BeforeEachKind);
    s1.(itStore := s1.itStore + [ItRecord(name, [])], currIt := Some(|s1.itStore|),
        log := s1.log + [BodyStart(name)])
  }

  /** `descStore[d].it.push(k)`. */
  function PushIt(descStore: seq<DescRecord>, d: nat, k: nat): (r: seq<DescRecord>)
    requires d < |descStore|
    ensures |r| == |descStore| && r[d].its == descStore[d].its + [k] && r[d].name == descStore[d].name
  {
    descStore[d := descStore[d].(its := descStore[d].its + [k])]
  }

  /** The part of `it` after its body: run every `afterEach`, then push the
      record current at that moment onto the describe current at that moment. */
  function CloseIt(st: State, name: string): (r: State)
    requires WellFormed(st)
    ensures WellFormed(r) && RunSpec(st, r, Zero)
    ensures r.log == st.log + [BodyEnd(name)] + HookEvents(st.afterEachs, AfterEachKind)
    ensures r.itStore == st.itStore && r.currIt == st.currIt && r.currDesc == st.currDesc
    ensures st.currIt.Some? ==> r.descStore == PushIt(st.descStore, st.currDesc, st.currIt.value)
    ensures st.currIt.None? ==> r.descStore == st.descStore
  {
    var s1 := RunHooks(st.(log := st.log + [BodyEnd(name)]), AfterEachKind);
    match s1.currIt
    case Some(k) => s1.(descStore := PushIt(s1.descStore, s1.currDesc, k))
    case None => s1
  }

  /** `it(name, fn)`: count the test, run every `beforeEach`, make a fresh
      record current, run the body, run every `afterEach`, and push the record
      that is current then onto the describe that is current then. */
  function RunIt(st: State, name: string, body: seq<Action>): (r: State)
    requires WellFormed(st)
    ensures WellFormed(r)
    decreases It(name, body), 0
  {
    CloseIt(Run(OpenIt(st, name), body), name)
  }

  /** The part of `describe` before its body: make a fresh describe record
      current, run every `beforeAll`, and name the record. */
  function OpenDescribe(st: State, name: string): (r: State)
    requires WellFormed(st)
    ensures WellFormed(r) && RunSpec(st, r, Zero)
    ensures r.currDesc == |st.descStore|
    ensures r.descStore == st.descStore + [DescRecord(Some(name), [])]
    ensures r.itStore == st.itStore && r.currIt == st.currIt
    ensures r.log == st.log + HookEvents(st.beforeAlls, BeforeAllKind) + [BodyStart(name)]
  {
    var s1 := RunHooks(FreshDescribe(st), BeforeAllKind);
    NameDescribe(s1, name).(log := s1.log + [BodyStart(name)])
  }

  /** `currDesc = {name: '', it: []}`: a fresh unnamed record made current. */
  function FreshDescribe(st: State): (r: State)
    requires WellFormed(st)
    ensures WellFormed(r) && r.currDesc == |st.descStore| && r.descStore == st.descStore + [DescRecord(None, [])]
    ensures r == st.(descStore := r.descStore, currDesc := r.currDesc)
  {
    st.(descStore := st.descStore + [DescRecord(None, [])], currDesc := |st.descStore|)
  }

  /** `currDesc.name = name`: only the current record's name changes. */
  function NameDescribe(st: State, name: string): (r: State)
    requires WellFormed(st)
    ensures WellFormed(r) && r == st.(descStore := r.descStore)
    ensures r.descStore == st.descStore[st.currDesc := DescRecord(Some(name), st.descStore[st.currDesc].its)]
  {
    var d := st.currDesc;
    var r := st.(descStore := st.descStore[d := st.descStore[d].(name := Some(name))]);
    assert forall e :: 0 <= e < |r.descStore| ==> r.descStore[e].its == st.descStore[e].its;
    r
  }

  /** The part of `describe` after its body: run every `afterAll`, then push
      the describe record current at that moment onto `stats`. */
  function CloseDescribe(st: State, name: string): (r: State)
    requires WellFormed(st)
    ensures WellFormed(r) && RunSpec(st, r, Zero.(describes := 1))
    ensures r.stats == st.stats + [st.currDesc]
    ensures r.log == st.log + [BodyEnd(name)] + HookEvents(st.afterAlls, AfterAllKind)
    ensures r == st.(stats := r.stats, log := r.log)
  {
    var s1 := RunHooks(st.(log := st.log + [BodyEnd(name)]), AfterAllKind);
    s1.(stats := s1.stats + [s1.currDesc])
  }

  /** `describe(name, fn)`: make a fresh describe record current, run every
      `beforeAll`, name the record, run the body, run every `afterAll`, and
      push the describe record that is current then onto `stats`. */
  function RunDescribe(st: State, name: string, body: seq<Action>): (r: State)
    requires WellFormed(st)
    ensures WellFormed(r)
    decreases Describe(name, body), 0
  {
    CloseDescribe(Run(OpenDescribe(st, name), body), name)
  }

  // ---------------------------------------------------------------------
  // what running code moves

  lemma RunSpecChain(st: State, mid: State, r: State, t1: Tally, t2: Tally)
    requires RunSpec(st, mid, t1) && RunSpec(mid, r, t2)
    ensures RunSpec(st, r, Plus(t1, t2))
  {
  }

  lemma PlusZero(t: Tally)
    ensures Plus(t, Zero) == t
  {
    assert t.beforeEachs + [] == t.beforeEachs;
    assert t.afterEachs + [] == t.afterEachs;
    assert t.afterAlls + [] == t.afterAlls;
    assert t.beforeAlls + [] == t.beforeAlls;
  }

  lemma ZeroPlus(t: Tally)
    ensures Plus(Zero, t) == t
  {
    assert [] + t.beforeEachs == t.beforeEachs;
    assert [] + t.afterEachs == t.afterEachs;
    assert [] + t.afterAlls == t.afterAlls;
    assert [] + t.beforeAlls == t.beforeAlls;
  }

  /** Running code moves the counters by exactly its tally: every `it` adds
      one test, every assertion one pass or one failure, every `describe` one
      entry of `stats`, and each hook list gains the hooks registered, in
      order; the stores and the log only grow. */
  lemma {:induction false} RunMoves(st: State, acts: seq<Action>)
    requires WellFormed(st)
    ensures RunSpec(st, Run(st, acts), TallyOf(acts))
    decreases acts
  {
    if |acts| == 0 {
      assert st.beforeEachs + [] == st.beforeEachs;
      assert st.afterEachs + [] == st.afterEachs;
      assert st.afterAlls + [] == st.afterAlls;
      assert st.beforeAlls + [] == st.beforeAlls;
    } else {
      var s1 := Step(st, acts[0]);
      StepMoves(st, acts[0]);
      RunMoves(s1, acts[1..]);
      RunSpecChain(st, s1, Run(s1, acts[1..]), TallyOfAction(acts[0]), TallyOf(acts[1..]));
    }
  }

  lemma {:induction false} StepMoves(st: State, a: Action)
    requires WellFormed(st)
    ensures RunSpec(st, Step(st, a), TallyOfAction(a))
    decreases a
  {
    match a
    case Register(kind, h) =>
      var r := RegisterHook(st, kind, h);
      assert r.stats == st.stats && r.log == st.log;
      match kind {
        case BeforeEachKind => assert r.afterEachs + [] == r.afterEachs;
        case AfterEachKind => assert r.beforeEachs + [] == r.beforeEachs;
        case AfterAllKind => assert r.beforeEachs + [] == r.beforeEachs;
        case BeforeAllKind => assert r.beforeEachs + [] == r.beforeEachs;
      }
      assert st.beforeEachs + [] == st.beforeEachs;
      assert st.afterEachs + [] == st.afterEachs;
      assert st.afterAlls + [] == st.afterAlls;
      assert st.beforeAlls + [] == st.beforeAlls;
    case Expect(v, m, e) =>
      if m == ToEqualMatcher {
        ToEqualIsToBe(st, v, e);
      }
      var r := ToBe(st, v, e);
      assert r.stats == st.stats && r.log == st.log;
      assert st.beforeEachs + [] == st.beforeEachs;
      assert st.afterEachs + [] == st.afterEachs;
      assert st.afterAlls + [] == st.afterAlls;
      assert st.beforeAlls + [] == st.beforeAlls;
    case It(name, body) => ItMoves(st, name, body);
    case Describe(name, body) => DescribeMoves(st, name, body);
  }

  lemma {:induction false} ItMoves(st: State, name: string, body: seq<Action>)
    requires WellFormed(st)
    ensures RunSpec(st, RunIt(st, name, body), TallyOfAction(It(name, body)))
    decreases It(name, body), 0
  {
    var s1 := OpenIt(st, name);
    var s2 := Run(s1, body);
    var r := CloseIt(s2, name);
    RunMoves(s1, body);
    var t := TallyOfAction(It(name, body));
    assert t == Plus(Zero.(its := 1), TallyOf(body));
    RunSpecChain(st, s1, s2, Zero.(its := 1), TallyOf(body));
    PlusZero(t);
    RunSpecChain(st, s2, r, t, Zero);
  }

  lemma TallyOfDescribe(name: string, body: seq<Action>)
    ensures TallyOfAction(Describe(name, body)) == Plus(TallyOf(body), Zero.(describes := 1))
  {
  }

  lemma {:induction false} DescribeMoves(st: State, name: string, body: seq<Action>)
    requires WellFormed(st)
    ensures RunSpec(st, RunDescribe(st, name, body), TallyOfAction(Describe(name, body)))
    decreases Describe(name, body), 0
  {
    var s1 := OpenDescribe(st, name);
    var s2 := Run(s1, body);
    var r := CloseDescribe(s2, name);
    RunMoves(s1, body);
    var b := TallyOf(body);
    ZeroPlus(b);
    RunSpecChain(st, s1, s2, Zero, b);
    RunSpecChain(st, s2, r, b, Zero.(describes := 1));
    TallyOfDescribe(name, body);
  }

  // ---------------------------------------------------------------------
  // what a run records

  /** Code made of assertions only. */
  predicate OnlyExpects(acts: seq<Action>) {
    forall i :: 0 <= i < |acts| ==> acts[i].Expect?
  }

  /** The outcomes a sequence of assertions produces, in order. */
  function Outcomes(acts: seq<Action>): seq<Outcome>
    requires OnlyExpects(acts)
  {
    if |acts| == 0 then []
    else
      var a := acts[0];
      [Outcome(Message(a.value, a.expected), StrictEquals(a.value, a.expected))] + Outcomes(acts[1..])
  }

  /** Everything but the `it` records and the pass and fail counters. */
  ghost predicate SameFrame(st: State, r: State) {
    && r.beforeEachs == st.beforeEachs && r.afterEachs == st.afterEachs
    && r.afterAlls == st.afterAlls && r.beforeAlls == st.beforeAlls
    && r.totalTests == st.totalTests && r.stats == st.stats
    && r.descStore == st.descStore && r.currDesc == st.currDesc
    && r.currIt == st.currIt && r.log == st.log
  }

  /** The record `k` with `more` appended to its outcomes. */
  function Appended(store: seq<ItRecord>, k: nat, more: seq<Outcome>): seq<ItRecord>
    requires k < |store|
  {
    store[k := ItRecord(store[k].name, store[k].expects + more)]
  }

  lemma AppendedTwice(store: seq<ItRecord>, k: nat, a: seq<Outcome>, b: seq<Outcome>)
    requires k < |store|
    ensures Appended(Appended(store, k, a), k, b) == Appended(store, k, a + b)
  {
    assert store[k].expects + a + b == store[k].expects + (a + b);
  }

  /** One assertion inside a current `it`. */
  lemma StepExpect(st: State, a: Action)
    requires WellFormed(st) && st.currIt.Some? && a.Expect?
    ensures var r := Step(st, a);
            && SameFrame(st, r)
            && r.itStore == Appended(st.itStore, st.currIt.value,
                              [Outcome(Message(a.value, a.expected), StrictEquals(a.value, a.expected))])
  {
    if a.matcher == ToEqualMatcher {
      ToEqualIsToBe(st, a.value, a.expected);
    }
  }

  /** Assertions inside a current `it` append exactly their outcomes to its
      record, and touch nothing else but the pass and fail counters. */
  lemma {:induction false} RunExpects(st: State, acts: seq<Action>)
    requires WellFormed(st) && st.currIt.Some? && OnlyExpects(acts)
    decreases |acts|
    ensures var r := Run(st, acts);
            && SameFrame(st, r)
            && r.itStore == Appended(st.itStore, st.currIt.value, Outcomes(acts))
  {
    var k := st.currIt.value;
    if |acts| == 0 {
      assert st.itStore[k].expects + [] == st.itStore[k].expects;
    } else {
      var a := acts[0];
      StepExpect(st, a);
      var s1 := Step(st, a);
      assert OnlyExpects(acts[1..]);
      RunExpects(s1, acts[1..]);
      var o := [Outcome(Message(a.value, a.expected), StrictEquals(a.value, a.expected))];
      AppendedTwice(st.itStore, k, o, Outcomes(acts[1..]));
    }
  }

  /** An `it` whose body only asserts: one new record holding exactly the
      body's outcomes, made current and pushed onto the current describe. */
  lemma ItOfExpects(st: State, name: string, body: seq<Action>)
    requires WellFormed(st) && OnlyExpects(body)
    ensures var r := RunIt(st, name, body);
            && r.itStore == st.itStore + [ItRecord(name, Outcomes(body))]
            && r.currIt == Some(|st.itStore|) && r.currDesc == st.currDesc
            && r.descStore == PushIt(st.descStore, st.currDesc, |st.itStore|)
            && r.stats == st.stats
  {
    var s1 := OpenIt(st, name);
    RunExpects(s1, body);
    var s2 := Run(s1, body);
    assert s2.itStore == st.itStore + [ItRecord(name, Outcomes(body))] by {
      assert [] + Outcomes(body) == Outcomes(body);
    }
    assert s2.currIt == Some(|st.itStore|) && s2.currDesc == st.currDesc && s2.descStore == st.descStore;
  }

  /** The order inside such an `it`: every `beforeEach`, the body, then every
      `afterEach`. */
  lemma ItLogOfExpects(st: State, name: string, body: seq<Action>)
    requires WellFormed(st) && OnlyExpects(body)
    ensures RunIt(st, name, body).log
              == st.log + HookEvents(st.beforeEachs, BeforeEachKind) + [BodyStart(name), BodyEnd(name)]
                 + HookEvents(st.afterEachs, AfterEachKind)
  {
    var s1 := OpenIt(st, name);
    RunExpects(s1, body);
    var s2 := Run(s1, body);
    var r := CloseIt(s2, name);
    var pre := st.log + HookEvents(st.beforeEachs, BeforeEachKind);
    assert s1.afterEachs == st.afterEachs;
    assert s2.log == pre + [BodyStart(name)] && s2.afterEachs == st.afterEachs;
    var post := HookEvents(st.afterEachs, AfterEachKind);
    assert r.log == s2.log + [BodyEnd(name)] + post;
    assert pre + [BodyStart(name)] + [BodyEnd(name)] + post == pre + [BodyStart(name), BodyEnd(name)] + post;
  }

  /** Code made of `it` calls whose bodies only assert. */
  predicate FlatIts(acts: seq<Action>) {
    forall i :: 0 <= i < |acts| ==> acts[i].It? && OnlyExpects(acts[i].body)
  }

  /** The records such `it` calls create, in order. */
  function ItRecords(acts: seq<Action>): (recs: seq<ItRecord>)
    requires FlatIts(acts)
    ensures |recs| == |acts|
  {
    if |acts| == 0 then [] else [ItRecord(acts[0].name, Outcomes(acts[0].body))] + ItRecords(acts[1..])
  }

  /** `from, from + 1, ..., from + n - 1`. */
  function Range(from: nat, n: nat): (r: seq<nat>)
    ensures |r| == n
    decreases n
  {
    if n == 0 then [] else [from] + Range(from + 1, n - 1)
  }

  /** `descStore[d].it.push(...ks)`. */
  function PushIts(descStore: seq<DescRecord>, d: nat, ks: seq<nat>): seq<DescRecord>
    requires d < |descStore|
  {
    descStore[d := descStore[d].(its := descStore[d].its + ks)]
  }

  lemma PushItThenPushIts(descStore: seq<DescRecord>, d: nat, k: nat, ks: seq<nat>)
    requires d < |descStore|
    ensures PushIts(PushIt(descStore, d, k), d, ks) == PushIts(descStore, d, [k] + ks)
  {
    assert descStore[d].its + [k] + ks == descStore[d].its + ([k] + ks);
  }

  /** The records of one more `it` in front of a run of them. */
  lemma ItRecordsCons(store: seq<ItRecord>, acts: seq<Action>)
    requires |acts| > 0 && FlatIts(acts)
    ensures store + [ItRecord(acts[0].name, Outcomes(acts[0].body))] + ItRecords(acts[1..]) == store + ItRecords(acts)
  {
    var rec := [ItRecord(acts[0].name, Outcomes(acts[0].body))];
    assert ItRecords(acts) == rec + ItRecords(acts[1..]);
    assert store + rec + ItRecords(acts[1..]) == store + (rec + ItRecords(acts[1..]));
  }

  /** The pushes of one more `it` in front of a run of them. */
  lemma PushesCons(descStore: seq<DescRecord>, d: nat, from: nat, n: nat)
    requires d < |descStore| && n > 0
    ensures PushIts(PushIt(descStore, d, from), d, Range(from + 1, n - 1)) == PushIts(descStore, d, Range(from, n))
  {
    PushItThenPushIts(descStore, d, from, Range(from + 1, n - 1));
  }

  /** A run of `it` calls that only assert appends their records in order. */
  lemma {:induction false} RunItsRecords(st: State, acts: seq<Action>)
    requires WellFormed(st) && FlatIts(acts)
    decreases |acts|
    ensures var r := Run(st, acts);
            && r.itStore == st.itStore + ItRecords(acts)
            && r.currDesc == st.currDesc && r.stats == st.stats
  {
    if |acts| == 0 {
      assert st.itStore + [] == st.itStore;
    } else {
      var a := acts[0];
      ItOfExpects(st, a.name, a.body);
      var s1 := Step(st, a);
      assert FlatIts(acts[1..]);
      RunItsRecords(s1, acts[1..]);
      ItRecordsCons(st.itStore, acts);
    }
  }

  /** ... and pushes them, in order, onto the current describe. */
  lemma {:induction false} RunItsPushes(st: State, acts: seq<Action>)
    requires WellFormed(st) && FlatIts(acts)
    decreases |acts|
    ensures Run(st, acts).descStore == PushIts(st.descStore, st.currDesc, Range(|st.itStore|, |acts|))
  {
    if |acts| == 0 {
      assert st.descStore[st.currDesc].its + [] == st.descStore[st.currDesc].its;
    } else {
      var s1 := Step(st, acts[0]);
      assert FlatIts(acts[1..]);
      RunItsPushes(s1, acts[1..]);
      PushesStep(st, acts);
    }
  }

  /** One `it` whose body only asserts, as a step of test-file code. */
  lemma StepOfFlatIt(st: State, a: Action)
    requires WellFormed(st) && a.It? && OnlyExpects(a.body)
    ensures var s1 := Step(st, a);
            && s1.descStore == PushIt(st.descStore, st.currDesc, |st.itStore|)
            && s1.currDesc == st.currDesc && |s1.itStore| == |st.itStore| + 1
  {
    ItOfExpects(st, a.name, a.body);
    assert Step(st, a) == RunIt(st, a.name, a.body);
  }

  /** The step of `RunItsPushes`: one more `it` in front. */
  lemma PushesStep(st: State, acts: seq<Action>)
    requires WellFormed(st) && |acts| > 0 && FlatIts(acts)
    requires var s1 := Step(st, acts[0]);
             Run(s1, acts[1..]).descStore == PushIts(s1.descStore, s1.currDesc, Range(|s1.itStore|, |acts| - 1))
    ensures Run(st, acts).descStore == PushIts(st.descStore, st.currDesc, Range(|st.itStore|, |acts|))
  {
    StepOfFlatIt(st, acts[0]);
    assert Run(st, acts) == Run(Step(st, acts[0]), acts[1..]);
    PushesCons(st.descStore, st.currDesc, |st.itStore|, |acts|);
  }

  /** A `describe` whose body is `it` calls that only assert: one new describe
      record, named, holding exactly those tests' records in order, pushed
      onto `stats`; it stays the current describe afterwards. */
  lemma DescribeOfIts(st: State, name: string, acts: seq<Action>)
    requires WellFormed(st) && FlatIts(acts)
    ensures var r := RunDescribe(st, name, acts);
            && r.descStore == st.descStore + [DescRecord(Some(name), Range(|st.itStore|, |acts|))]
            && r.stats == st.stats + [|st.descStore|]
            && r.itStore == st.itStore + ItRecords(acts)
            && r.currDesc == |st.descStore|
  {
    var s1 := OpenDescribe(st, name);
    RunItsRecords(s1, acts);
    RunItsPushes(s1, acts);
    var s2 := Run(s1, acts);
    assert [] + Range(|st.itStore|, |acts|) == Range(|st.itStore|, |acts|);
    assert s2.descStore == st.descStore + [DescRecord(Some(name), Range(|st.itStore|, |acts|))];
  }

  /** An assertion made after an `it` returned still lands in that test's
      record, which the describe already holds: `currIt` is never reset. */
  lemma LateExpectJoinsLastIt(st: State, name: string, body: seq<Action>, v: Value, e: Value)
    requires WellFormed(st) && OnlyExpects(body)
    ensures var s1 := RunIt(st, name, body);
            var r := ToBe(s1, v, e);
            && r.itStore == st.itStore + [ItRecord(name, Outcomes(body) + [Outcome(Message(v, e), StrictEquals(v, e))])]
            && r.descStore == s1.descStore == PushIt(st.descStore, st.currDesc, |st.itStore|)
  {
    ItOfExpects(st, name, body);
    ToBeOnLastRecord(RunIt(st, name, body), st.itStore, ItRecord(name, Outcomes(body)), v, e);
  }

  /** An assertion while the last record is current extends that record. */
  lemma ToBeOnLastRecord(st: State, before: seq<ItRecord>, rec: ItRecord, v: Value, e: Value)
    requires WellFormed(st) && st.itStore == before + [rec] && st.currIt == Some(|before|)
    ensures var r := ToBe(st, v, e);
            && r.itStore == before + [ItRecord(rec.name, rec.expects + [Outcome(Message(v, e), StrictEquals(v, e))])]
            && r.descStore == st.descStore
  {
    var o := Outcome(Message(v, e), StrictEquals(v, e));
    assert st.itStore[|before|] == rec;
    assert (before + [rec])[|before| := ItRecord(rec.name, rec.expects + [o])]
           == before + [ItRecord(rec.name, rec.expects + [o])];
  }

  /** Counters and hook lists of a whole test file run from the start. */
  lemma RunFromStart(acts: seq<Action>)
    ensures var r := Run(Init(), acts);
            var t := TallyOf(acts);
            && r.totalTests == t.its
            && r.passedTests == t.passes
            && r.failedTests == t.expects - t.passes
            && |r.stats| == t.describes
            && r.beforeEachs == t.beforeEachs && r.afterEachs == t.afterEachs
            && r.afterAlls == t.afterAlls && r.beforeAlls == t.beforeAlls
  {
    var r := Run(Init(), acts);
    var t := TallyOf(acts);
    RunMoves(Init(), acts);
    assert r.beforeEachs == [] + t.beforeEachs;
    assert r.afterEachs == [] + t.afterEachs;
    assert r.afterAlls == [] + t.afterAlls;
    assert r.beforeAlls == [] + t.beforeAlls;
  }

  // ---------------------------------------------------------------------
  // showTestsResults

  /** The lines `showTestsResults` prints, without colours: the totals, the
      title (red when any assertion failed), then per describe record its
      name, per test record its name and one mark per outcome, and a blank. */
  datatype ReportLine =
    | Totals(total: nat, passed: nat)
    | Title(red: bool)
    | SuiteName(suite: Option<string>)
    | TestName(name: string)
    | Mark(ok: bool, text: string)
    | Blank

  function MarkLines(expects: seq<Outcome>): (lines: seq<ReportLine>)
    ensures |lines| == |expects|
    ensures forall i :: 0 <= i < |expects| ==> lines[i] == Mark(expects[i].status, expects[i].name)
  {
    if |expects| == 0 then [] else [Mark(expects[0].status, expects[0].name)] + MarkLines(expects[1..])
  }

  /** The lines of some test records, in order. */
  function RecordLines(recs: seq<ItRecord>): seq<ReportLine> {
    if |recs| == 0 then [] else [TestName(recs[0].name)] + MarkLines(recs[0].expects) + RecordLines(recs[1..])
  }

  /** The records `refs` refers to, in order. */
  function Deref(store: seq<ItRecord>, refs: seq<nat>): (recs: seq<ItRecord>)
    requires forall j :: 0 <= j < |refs| ==> refs[j] < |store|
    ensures |recs| == |refs| && forall j :: 0 <= j < |refs| ==> recs[j] == store[refs[j]]
  {
    seq(|refs|, j requires 0 <= j < |refs| => store[refs[j]])
  }

  /** The lines of the describe records `ds` refers to: at least a name and
      a blank line for each. */
  function StatLines(st: State, ds: seq<nat>): (lines: seq<ReportLine>)
    requires WellFormed(st)
    requires forall j :: 0 <= j < |ds| ==> ds[j] < |st.descStore|
    ensures |lines| >= 2 * |ds|
    ensures |ds| > 0 ==> lines[0] == SuiteName(st.descStore[ds[0]].name)
  {
    if |ds| == 0 then []
    else
      var d := st.descStore[ds[0]];
      [SuiteName(d.name)] + RecordLines(Deref(st.itStore, d.its)) + [Blank] + StatLines(st, ds[1..])
  }

  /** What `showTestsResults` prints: the totals and the title, then at
      least a name and a blank line for each `stats` entry, the first entry's
      name coming right after the title. */
  function Report(st: State): (lines: seq<ReportLine>)
    requires WellFormed(st)
    ensures |lines| >= 2 + 2 * |st.stats|
    ensures lines[0] == Totals(st.totalTests, st.passedTests) && lines[1] == Title(st.failedTests > 0)
    ensures |st.stats| > 0 ==> lines[2] == SuiteName(st.descStore[st.stats[0]].name)
  {
    [Totals(st.totalTests, st.passedTests), Title(st.failedTests > 0)] + StatLines(st, st.stats)
  }

  lemma {:induction false} RangeElements(from: nat, n: nat)
    ensures forall i :: 0 <= i < n ==> Range(from, n)[i] == from + i
    decreases n
  {
    if n > 0 {
      RangeElements(from + 1, n - 1);
    }
  }

  /** Following references `from, ..., from + n - 1` gives those records. */
  lemma DerefRange(store: seq<ItRecord>, from: nat, n: nat)
    requires from + n <= |store|
    ensures (RangeElements(from, n); Deref(store, Range(from, n)) == store[from..from + n])
  {
    RangeElements(from, n);
  }

  /** Assertions only: no tests, no describes. */
  lemma {:induction false} ExpectsTally(acts: seq<Action>)
    requires OnlyExpects(acts)
    ensures TallyOf(acts).its == 0 && TallyOf(acts).describes == 0
  {
    if |acts| > 0 {
      assert OnlyExpects(acts[1..]);
      ExpectsTally(acts[1..]);
    }
  }

  /** `it` calls that only assert: one test each, no describes. */
  lemma {:induction false} FlatItsTally(acts: seq<Action>)
    requires FlatIts(acts)
    ensures TallyOf(acts).its == |acts| && TallyOf(acts).describes == 0
  {
    if |acts| > 0 {
      ExpectsTally(acts[0].body);
      assert FlatIts(acts[1..]);
      FlatItsTally(acts[1..]);
    }
  }

  /** The counters after a test file that is one `describe` of `it` calls:
      every `it` counts once and every assertion passes or fails. */
  lemma OneDescribeCounts(name: string, acts: seq<Action>)
    requires FlatIts(acts)
    ensures var r := RunDescribe(Init(), name, acts);
            var t := TallyOf(acts);
            r.totalTests == |acts| && r.passedTests == t.passes && r.failedTests == t.expects - t.passes
  {
    var t := TallyOf(acts);
    DescribeMoves(Init(), name, acts);
    TallyOfDescribe(name, acts);
    var td := TallyOfAction(Describe(name, acts));
    assert td.its == t.its && td.passes == t.passes && td.expects == t.expects;
    FlatItsTally(acts);
  }

  /** The state after a test file that is one `describe` of `it` calls
      that only assert. */
  lemma OneDescribeState(name: string, acts: seq<Action>)
    requires FlatIts(acts)
    ensures var r := RunDescribe(Init(), name, acts);
            var t := TallyOf(acts);
            && r.stats == [1]
            && r.descStore == [DescRecord(None, []), DescRecord(Some(name), Range(0, |acts|))]
            && r.itStore == ItRecords(acts)
            && r.totalTests == |acts| && r.passedTests == t.passes && r.failedTests == t.expects - t.passes
  {
    DescribeOfIts(Init(), name, acts);
    OneDescribeCounts(name, acts);
  }

  /** The lines of a single describe record: its name, its tests, a blank. */
  lemma StatLinesOne(st: State, d: nat)
    requires WellFormed(st) && d < |st.descStore|
    ensures StatLines(st, [d]) == [SuiteName(st.descStore[d].name)] + RecordLines(Deref(st.itStore, st.descStore[d].its)) + [Blank]
  {
    assert [d][1..] == [];
  }

  /** A describe record that refers to the first `n` test records holds
      exactly those records. */
  lemma SuiteRecords(st: State, d: nat, n: nat)
    requires WellFormed(st) && d < |st.descStore| && n <= |st.itStore| && st.descStore[d].its == Range(0, n)
    ensures Deref(st.itStore, st.descStore[d].its) == st.itStore[0..n]
  {
    DerefRange(st.itStore, 0, n);
  }

  /** The report is the totals, the title and the lines of `stats`. */
  lemma ReportParts(st: State, body: seq<ReportLine>)
    requires WellFormed(st) && StatLines(st, st.stats) == body
    ensures Report(st) == [Totals(st.totalTests, st.passedTests), Title(st.failedTests > 0)] + body
  {
  }

  /** The report of a state holding one describe record that refers to the
      first `n` test records. */
  lemma ReportOfOneSuite(st: State, name: string, n: nat)
    requires WellFormed(st) && st.stats == [1] && |st.descStore| == 2 && n <= |st.itStore|
    requires st.descStore[1] == DescRecord(Some(name), Range(0, n))
    ensures Report(st) == [Totals(st.totalTests, st.passedTests), Title(st.failedTests > 0), SuiteName(Some(name))]
                          + RecordLines(st.itStore[0..n]) + [Blank]
  {
    SuiteRecords(st, 1, n);
    StatLinesOne(st, 1);
    var body := [SuiteName(Some(name))] + RecordLines(st.itStore[0..n]) + [Blank];
    ReportParts(st, body);
    var head := [Totals(st.totalTests, st.passedTests), Title(st.failedTests > 0)];
    assert head + body == head + [SuiteName(Some(name))] + RecordLines(st.itStore[0..n]) + [Blank];
  }

  /** A test file that is one `describe` of `it` calls that only assert
      prints the totals, the title, the describe's name, each test's name
      followed by one mark per assertion in order, and a blank line. */
  lemma ReportOfOneDescribe(name: string, acts: seq<Action>)
    requires FlatIts(acts)
    ensures var t := TallyOf(acts);
            Report(RunDescribe(Init(), name, acts))
              == [Totals(|acts|, t.passes), Title(t.passes < t.expects), SuiteName(Some(name))]
                 + RecordLines(ItRecords(acts)) + [Blank]
  {
    var r := RunDescribe(Init(), name, acts);
    OneDescribeState(name, acts);
    ReportOfOneSuite(r, name, |acts|);
    assert r.itStore[0..|acts|] == ItRecords(acts);
  }
}
