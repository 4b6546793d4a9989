/** The link adapter of the example social-context language
    (example/languages/social-context.js): how it normalises link
    expressions and link queries before handing them to the Holochain zome,
    the inputs it builds for each zome call, and its signal callback. The
    zome calls themselves are foreign and appear only as the call the
    adapter issues; `Date.toISOString` is a parameter. */
module SocialContext {
  import opened Wrappers
  import opened Js

  // ---------------------------------------------------------------------
  // link expressions

  /** The `data` object of a link expression (`pred` is its `predicate`). */
  datatype LinkData = LinkData(source: Value, target: Value, pred: Value)

  /** A link expression: its `data` and every other property by name. */
  datatype LinkExpression = LinkExpression(data: LinkData, fields: map<string, Value>)

  /** `if (v == "") v = null`: a value loosely equal to `""` becomes `null`,
      every other value is kept. */
  function NullIfEmpty(v: Value): (r: Value)
    ensures !LooselyEqualsEmpty(r)
    ensures r == v <==> !LooselyEqualsEmpty(v)
    ensures r != v ==> r == Null
  {
    if LooselyEqualsEmpty(v) then Null else v
  }

  /** `prepareExpressionLink`: the source, target and predicate of the
      link's data lose any value loosely equal to `""`; nothing else changes. */
  function PrepareExpressionLink(link: LinkExpression): (r: LinkExpression)
    ensures r.fields == link.fields
    ensures !LooselyEqualsEmpty(r.data.source) && !LooselyEqualsEmpty(r.data.target) && !LooselyEqualsEmpty(r.data.pred)
    ensures r.data.source == link.data.source || r.data.source == Null
    ensures r.data.target == link.data.target || r.data.target == Null
    ensures r.data.pred == link.data.pred || r.data.pred == Null
  {
    var d := link.data;
    LinkExpression(LinkData(NullIfEmpty(d.source), NullIfEmpty(d.target), NullIfEmpty(d.pred)), link.fields)
  }

  /** A field becomes `null` exactly when it was `""` (or a value loosely
      equal to it: `0`, `false`) or already `null`. */
  lemma PrepareNullsExactlyEmpty(link: LinkExpression)
    ensures var r := PrepareExpressionLink(link);
            && (r.data.source == Null <==> LooselyEqualsEmpty(link.data.source) || link.data.source == Null)
            && (r.data.target == Null <==> LooselyEqualsEmpty(link.data.target) || link.data.target == Null)
            && (r.data.pred == Null <==> LooselyEqualsEmpty(link.data.pred) || link.data.pred == Null)
  {
  }

  /** Preparing a prepared link changes nothing. */
  lemma PrepareIdempotent(link: LinkExpression)
    ensures PrepareExpressionLink(PrepareExpressionLink(link)) == PrepareExpressionLink(link)
  {
    var r := PrepareExpressionLink(link);
    assert NullIfEmpty(r.data.source) == r.data.source;
    assert NullIfEmpty(r.data.target) == r.data.target;
    assert NullIfEmpty(r.data.pred) == r.data.pred;
  }

  // ---------------------------------------------------------------------
  // link queries

  /** A link query (`pred` is its `predicate`); a property that is absent
      reads as `undefined`. */
  datatype LinkQuery = LinkQuery(source: Value, target: Value, pred: Value,
                                 fromDate: Value, untilDate: Value)

  /** `if (v == undefined) v = null`. */
  function NullIfMissing(v: Value): (r: Value)
    ensures IsNullish(v) ==> r == Null
    ensures !IsNullish(v) ==> r == v
  {
    if IsNullish(v) then Null else v
  }

  /** Calling `toISOString` on something that is not a date. */
  datatype QueryError = NotADate(v: Value)

  /** `if (d) d = d.toISOString()`, where `iso(ref)` is the ISO text of the
      date object `ref`, or `None` when that object is not a date. */
  function DateText(d: Value, iso: nat -> Option<string>): (r: Result<Value, QueryError>)
    ensures !Truthy(d) ==> r == Success(d)
    ensures r.Success? && Truthy(d) ==> d.Obj? && iso(d.ref).Some? && r.value == Str(iso(d.ref).value)
    ensures r.Failure? <==> Truthy(d) && (!d.Obj? || iso(d.ref).None?)
  {
    if !Truthy(d) then Success(d)
    else if d.Obj? && iso(d.ref).Some? then Success(Str(iso(d.ref).value))
    else Failure(NotADate(d))
  }

  /** `getLinks`' normalisation of its query. */
  function NormaliseQuery(q: LinkQuery, iso: nat -> Option<string>): (r: Result<LinkQuery, QueryError>)
    ensures r.Success? <==> DateText(q.fromDate, iso).Success? && DateText(q.untilDate, iso).Success?
    ensures r.Success? ==>
              && r.value.source == NullIfMissing(q.source)
              && r.value.target == NullIfMissing(q.target)
              && r.value.pred == NullIfMissing(q.pred)
              && r.value.fromDate == DateText(q.fromDate, iso).value
              && r.value.untilDate == DateText(q.untilDate, iso).value
  {
    var from :- DateText(q.fromDate, iso);
    var until :- DateText(q.untilDate, iso);
    Success(LinkQuery(NullIfMissing(q.source), NullIfMissing(q.target), NullIfMissing(q.pred), from, until))
  }

  /** Missing endpoints and predicate are sent as `null` and present ones as
      given, `""` included; a falsy date (absent, `null`, `""`, `0`, `false`)
      is sent as it was, and a truthy one was a date object and is sent as
      its ISO text. */
  lemma QueryNormalisation(q: LinkQuery, iso: nat -> Option<string>)
    requires NormaliseQuery(q, iso).Success?
    ensures var r := NormaliseQuery(q, iso).value;
            && (r.source == Null <==> IsNullish(q.source))
            && (!IsNullish(q.source) ==> r.source == q.source)
            && (r.target == Null <==> IsNullish(q.target))
            && (!IsNullish(q.target) ==> r.target == q.target)
            && (r.pred == Null <==> IsNullish(q.pred))
            && (!IsNullish(q.pred) ==> r.pred == q.pred)
            && (!Truthy(q.fromDate) ==> r.fromDate == q.fromDate)
            && (!Truthy(q.untilDate) ==> r.untilDate == q.untilDate)
            && (Truthy(q.fromDate) ==> q.fromDate.Obj? && r.fromDate == Str(iso(q.fromDate.ref).value))
            && (Truthy(q.untilDate) ==> q.untilDate.Obj? && r.untilDate == Str(iso(q.untilDate.ref).value))
  {
  }

  /** The two normalisations treat `""` differently: a link loses it, a
      query keeps it; and `undefined` the other way round. */
  lemma EmptyStringTreatedDifferently(link: LinkExpression, q: LinkQuery, iso: nat -> Option<string>)
    requires link.data.source == Str("") && q.source == Str("")
    requires NormaliseQuery(q, iso).Success?
    ensures PrepareExpressionLink(link).data.source == Null
    ensures NormaliseQuery(q, iso).value.source == Str("")
    ensures PrepareExpressionLink(link.(data := link.data.(source := Undefined))).data.source == Undefined
    ensures NormaliseQuery(q.(source := Undefined), iso).value.source == Null
  {
  }

  // ---------------------------------------------------------------------
  // zome calls

  const DnaNick := "social-context"
  const ZomeName := "social_context"
  const FullWithWildCard := "FullWithWildCard"

  datatype Payload =
    | AddInput(linkExpression: LinkExpression, indexStrategy: string)
    | UpdateInput(source: LinkExpression, target: LinkExpression, indexStrategy: string)
    | LinkPayload(link: LinkExpression)
    | QueryPayload(query: LinkQuery)

  /** One `call(nick, zome, function, payload)` on a Holochain service. */
  datatype ZomeCall = ZomeCall(nick: string, zome: string, fn: string, payload: Payload)

  function AddLink(link: LinkExpression): (c: ZomeCall)
    ensures c.nick == DnaNick && c.zome == ZomeName && c.fn == "add_link"
    ensures c.payload == AddInput(PrepareExpressionLink(link), FullWithWildCard)
  {
    ZomeCall(DnaNick, ZomeName, "add_link", AddInput(PrepareExpressionLink(link), FullWithWildCard))
  }

  function UpdateLink(oldLink: LinkExpression, newLink: LinkExpression): (c: ZomeCall)
    ensures c.nick == DnaNick && c.zome == ZomeName && c.fn == "update_link"
    ensures c.payload.UpdateInput? && c.payload.indexStrategy == FullWithWildCard
  {
    ZomeCall(DnaNick, ZomeName, "update_link",
      UpdateInput(PrepareExpressionLink(oldLink), PrepareExpressionLink(newLink), FullWithWildCard))
  }

  function RemoveLink(link: LinkExpression): (c: ZomeCall)
    ensures c.nick == DnaNick && c.zome == ZomeName && c.fn == "remove_link"
    ensures c.payload == LinkPayload(PrepareExpressionLink(link))
  {
    ZomeCall(DnaNick, ZomeName, "remove_link", LinkPayload(PrepareExpressionLink(link)))
  }

  function GetLinks(q: LinkQuery, iso: nat -> Option<string>): (r: Result<ZomeCall, QueryError>)
    ensures r.Success? <==> NormaliseQuery(q, iso).Success?
    ensures r.Success? ==> r.value == ZomeCall(DnaNick, ZomeName, "get_links", QueryPayload(NormaliseQuery(q, iso).value))
  {
    var nq :- NormaliseQuery(q, iso);
    Success(ZomeCall(DnaNick, ZomeName, "get_links", QueryPayload(nq)))
  }

  /** `updateLink` prepares the old and the new link independently: its
      source and target are exactly what `addLink` would send for each. */
  lemma UpdateIsTwoIndependentPrepares(oldLink: LinkExpression, newLink: LinkExpression)
    ensures UpdateLink(oldLink, newLink).payload.source == AddLink(oldLink).payload.linkExpression
    ensures UpdateLink(oldLink, newLink).payload.target == AddLink(newLink).payload.linkExpression
    ensures UpdateLink(oldLink, newLink).payload.indexStrategy == AddLink(oldLink).payload.indexStrategy
  {
  }

  /** Which object `addActiveAgentLink` calls: the service passed in, or the
      adapter's `this` when none is. */
  function ActiveAgentTarget(hcDna: Value, self: Value): (target: Value)
    ensures !IsNullish(hcDna) ==> target == hcDna
    ensures IsNullish(hcDna) ==> target == self
  {
    if IsNullish(hcDna) then self else hcDna
  }

  /** `create` calls it with the Holochain service, and the heartbeat with
      `this` bound to that service and no argument: both reach the service. */
  lemma HeartbeatReachesService(holochain: nat)
    ensures ActiveAgentTarget(Obj(holochain), Undefined) == Obj(holochain)
    ensures ActiveAgentTarget(Undefined, Obj(holochain)) == Obj(holochain)
  {
  }

  // ---------------------------------------------------------------------
  // the signal callback

  /** The adapter's only state: the registered callback, `undefined` at first. */
  datatype Adapter = Adapter(linkCallback: Value)

  const NewAdapter := Adapter(Undefined)

  /** A callback invocation with its added and removed links. */
  datatype Invocation = Invocation(callback: Value, added: seq<Value>, removed: seq<Value>)

  datatype Registered = Registered(adapter: Adapter, result: int)

  /** `addCallback`: store the callback, replacing any earlier one, and return 1. */
  function AddCallback(a: Adapter, callback: Value): (r: Registered)
    ensures r.result == 1
    ensures r.adapter.linkCallback == callback
  {
    Registered(a.(linkCallback := callback), 1)
  }

  /** `handleHolochainSignal`: pass the signal's payload to the callback as
      the one added link, when a callback is registered. */
  function HandleSignal(a: Adapter, payload: Value): (calls: seq<Invocation>)
    ensures |calls| <= 1
    ensures |calls| == 1 <==> Truthy(a.linkCallback)
    ensures |calls| == 1 ==> calls[0] == Invocation(a.linkCallback, [payload], [])
  {
    if Truthy(a.linkCallback) then [Invocation(a.linkCallback, [payload], [])] else []
  }

  /** A signal before any registration calls nothing; after registering `f`
      and then `g`, a signal reaches `g` alone, once. */
  lemma LastCallbackWins(f: nat, g: nat, payload: Value)
    ensures HandleSignal(NewAdapter, payload) == []
    ensures var a := AddCallback(AddCallback(NewAdapter, Obj(f)).adapter, Obj(g)).adapter;
            HandleSignal(a, payload) == [Invocation(Obj(g), [payload], [])]
  {
  }

  /** The adapter's fixed capabilities. */
  datatype Capabilities = Capabilities(writable: bool, isPublic: bool, others: seq<Value>)

  const AdapterCapabilities := Capabilities(true, false, [])
}
