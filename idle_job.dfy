/**
 * The job that drains the proc-macro server's answers into the database
 * (idle_job.rs).  Each answer is classified by the request it answers, not by
 * when it arrived, and only resolution maps that received a result are
 * written back, so queries over the others stay valid.
 */
module IdleJob {
  import opened Wrappers
  import opened Plugins
  import opened Client
  import opened AnalysisDb

  /** A map plus a flag recording whether anything was inserted into it. */
  class HashMapChangeTracker<K(==), V> {
    var inner: map<K, V>
    var changed: bool

    constructor (inner: map<K, V>)
      ensures this.inner == inner && !changed
    {
      this.inner := inner;
      changed := false;
    }

    /** Inserts and marks the map changed, even when the value was already there. */
    method Insert(key: K, value: V)
      modifies this
      ensures inner == old(inner)[key := value]
      ensures changed
    {
      inner := inner[key := value];
      changed := true;
    }

    /** The map, but only if something was inserted. */
    method InnerIfChanged() returns (r: Option<map<K, V>>)
      ensures r.Some? <==> changed
      ensures r.Some? ==> r.value == inner
    {
      r := if changed then Some(inner) else None;
    }
  }

  datatype Resolutions = Resolutions(
    attribute: map<AttributeParams, ProcMacroResult>,
    derive: map<DeriveParams, ProcMacroResult>,
    inline: map<InlineParams, ProcMacroResult>)

  /** Where a drain stands: the correlation table, the three maps and their changed flags. */
  datatype Drain = Drain(
    requests: map<RequestId, RequestParams>,
    resolutions: Resolutions,
    attributeChanged: bool,
    deriveChanged: bool,
    inlineChanged: bool)

  datatype Kind = AttributeKind | DeriveKind | InlineKind

  function KindOf(params: RequestParams): Kind
  {
    match params
    case Attribute(_) => AttributeKind
    case Derive(_) => DeriveKind
    case Inline(_) => InlineKind
  }

  function ChangedFlag(d: Drain, kind: Kind): bool
  {
    match kind
    case AttributeKind => d.attributeChanged
    case DeriveKind => d.deriveChanged
    case InlineKind => d.inlineChanged
  }

  /** The stored result for the request described by `key`, in the map of its kind. */
  function Lookup(res: Resolutions, key: RequestParams): Option<ProcMacroResult>
  {
    match key
    case Attribute(p) => if p in res.attribute then Some(res.attribute[p]) else None
    case Derive(p) => if p in res.derive then Some(res.derive[p]) else None
    case Inline(p) => if p in res.inline then Some(res.inline[p]) else None
  }

  /** The drain before any response: the database's maps, nothing changed yet. */
  function Start(requests: map<RequestId, RequestParams>, v: DbView): Drain
  {
    Drain(requests, Resolutions(v.attributeResolution, v.deriveResolution, v.inlineResolution), false, false, false)
  }

  /** Every response answers a tracked request, and no request is answered twice. */
  predicate Correlated(responses: seq<RpcResponse>, requests: map<RequestId, RequestParams>)
  {
    && (forall i :: 0 <= i < |responses| ==> responses[i].id in requests)
    && (forall i, j :: 0 <= i < j < |responses| ==> responses[i].id != responses[j].id)
  }

  /** `response` answers a tracked request of `kind` and its payload parses. */
  predicate Answers(response: RpcResponse, requests: map<RequestId, RequestParams>, kind: Kind)
  {
    response.id in requests && KindOf(requests[response.id]) == kind && ParseExpansion(response.value).Some?
  }

  /** One response: its request leaves the table; a parsed result lands in the map of the request's kind. */
  function Route(d: Drain, response: RpcResponse): (r: Drain)
    requires response.id in d.requests
    ensures r.requests == d.requests - {response.id}
    ensures ParseExpansion(response.value).None? ==>
      r.resolutions == d.resolutions && forall kind :: ChangedFlag(r, kind) == ChangedFlag(d, kind)
    ensures forall kind :: ChangedFlag(r, kind) == (ChangedFlag(d, kind) || Answers(response, d.requests, kind))
    ensures forall key ::
      Lookup(r.resolutions, key) == (if key == d.requests[response.id] && ParseExpansion(response.value).Some?
        then ParseExpansion(response.value) else Lookup(d.resolutions, key))
  {
    var params := d.requests[response.id];
    var d' := d.(requests := d.requests - {response.id});
    match ParseExpansion(response.value)
    case None => d'
    case Some(result) =>
      match params
      case Attribute(p) =>
        d'.(resolutions := d.resolutions.(attribute := d.resolutions.attribute[p := result]), attributeChanged := true)
      case Derive(p) =>
        d'.(resolutions := d.resolutions.(derive := d.resolutions.derive[p := result]), deriveChanged := true)
      case Inline(p) =>
        d'.(resolutions := d.resolutions.(inline := d.resolutions.inline[p := result]), inlineChanged := true)
  }

  lemma CorrelatedTail(responses: seq<RpcResponse>, requests: map<RequestId, RequestParams>)
    requires responses != [] && Correlated(responses, requests)
    ensures Correlated(responses[1..], requests - {responses[0].id})
  {
    forall i | 0 <= i < |responses[1..]|
      ensures responses[1..][i].id in requests - {responses[0].id}
    {
      assert responses[1..][i] == responses[i + 1];
    }
  }

  /** All responses, in arrival order. */
  function DrainAll(d: Drain, responses: seq<RpcResponse>): Drain
    requires Correlated(responses, d.requests)
    decreases |responses|
  {
    if responses == [] then d
    else
      CorrelatedTail(responses, d.requests);
      DrainAll(Route(d, responses[0]), responses[1..])
  }

  /** The ids a sequence of responses answers. */
  function Ids(responses: seq<RpcResponse>): set<RequestId>
  {
    set i | 0 <= i < |responses| :: responses[i].id
  }

  /** Every drained id leaves the correlation table, and nothing else does. */
  lemma {:induction false} DrainRemovesAnswered(d: Drain, responses: seq<RpcResponse>)
    requires Correlated(responses, d.requests)
    ensures DrainAll(d, responses).requests == d.requests - Ids(responses)
    decreases |responses|
  {
    if responses != [] {
      CorrelatedTail(responses, d.requests);
      DrainRemovesAnswered(Route(d, responses[0]), responses[1..]);
      assert Ids(responses) == {responses[0].id} + Ids(responses[1..]) by {
        forall id | id in Ids(responses) ensures id in {responses[0].id} + Ids(responses[1..]) {
          var i :| 0 <= i < |responses| && responses[i].id == id;
          if i > 0 { assert responses[1..][i - 1] == responses[i]; }
        }
        forall id | id in Ids(responses[1..]) ensures id in Ids(responses) {
          var i :| 0 <= i < |responses[1..]| && responses[1..][i].id == id;
          assert responses[i + 1].id == id;
        }
      }
    }
  }

  /**
   * A kind's changed flag ends up set exactly when it was set already or some
   * drained response answers a request of that kind with a parseable payload.
   */
  lemma {:induction false} DrainChangedFlag(d: Drain, responses: seq<RpcResponse>, kind: Kind)
    requires Correlated(responses, d.requests)
    ensures ChangedFlag(DrainAll(d, responses), kind) <==>
      ChangedFlag(d, kind) || exists i :: 0 <= i < |responses| && Answers(responses[i], d.requests, kind)
    decreases |responses|
  {
    if responses != [] {
      var x := responses[0];
      var rest := responses[1..];
      CorrelatedTail(responses, d.requests);
      var d1 := Route(d, x);
      DrainChangedFlag(d1, rest, kind);
      var hitRest := exists i :: 0 <= i < |rest| && Answers(rest[i], d1.requests, kind);
      var hitAll := exists i :: 0 <= i < |responses| && Answers(responses[i], d.requests, kind);
      if hitRest {
        var i :| 0 <= i < |rest| && Answers(rest[i], d1.requests, kind);
        assert rest[i] == responses[i + 1];
        assert Answers(responses[i + 1], d.requests, kind);
      }
      if hitAll {
        var i :| 0 <= i < |responses| && Answers(responses[i], d.requests, kind);
        if i > 0 {
          assert rest[i - 1] == responses[i];
          assert responses[i].id != x.id;
          assert Answers(rest[i - 1], d1.requests, kind);
        }
      }
    }
  }

  /**
   * The result of the latest response in `responses` that answers the request
   * `key` with a parseable payload, if any.
   */
  function LastAnswer(responses: seq<RpcResponse>, requests: map<RequestId, RequestParams>, key: RequestParams): Option<ProcMacroResult>
  {
    if responses == [] then None
    else
      var later := LastAnswer(responses[1..], requests, key);
      if later.Some? then later
      else if responses[0].id in requests && requests[responses[0].id] == key then ParseExpansion(responses[0].value)
      else None
  }

  lemma {:induction false} LastAnswerIgnoresOtherIds(responses: seq<RpcResponse>, requests: map<RequestId, RequestParams>, id: RequestId, key: RequestParams)
    requires forall i :: 0 <= i < |responses| ==> responses[i].id != id
    ensures LastAnswer(responses, requests - {id}, key) == LastAnswer(responses, requests, key)
    decreases |responses|
  {
    if responses != [] {
      forall i | 0 <= i < |responses[1..]| ensures responses[1..][i].id != id {
        assert responses[1..][i] == responses[i + 1];
      }
      LastAnswerIgnoresOtherIds(responses[1..], requests, id, key);
    }
  }

  /**
   * After the drain, the stored result for a request is the one carried by the
   * latest parseable response answering it, whatever the arrival order of the
   * others; a request nobody answered keeps its old result.
   */
  lemma {:induction false} DrainLookup(d: Drain, responses: seq<RpcResponse>, key: RequestParams)
    requires Correlated(responses, d.requests)
    ensures Lookup(DrainAll(d, responses).resolutions, key) ==
      match LastAnswer(responses, d.requests, key)
      case Some(result) => Some(result)
      case None => Lookup(d.resolutions, key)
    decreases |responses|
  {
    if responses != [] {
      var x := responses[0];
      var rest := responses[1..];
      CorrelatedTail(responses, d.requests);
      DrainLookup(Route(d, x), rest, key);
      forall i | 0 <= i < |rest| ensures rest[i].id != x.id {
        assert rest[i] == responses[i + 1];
      }
      LastAnswerIgnoresOtherIds(rest, d.requests, x.id, key);
    }
  }

  /** `input` was not set between the two views. */
  predicate Untouched(before: DbView, after: DbView, input: Input)
  {
    && (input in after.changedAt <==> input in before.changedAt)
    && (input in before.changedAt ==> after.changedAt[input] == before.changedAt[input])
  }

  /** The database inputs after the changed maps of `out` are written back, attribute, derive, inline. */
  function WriteBack(v: DbView, out: Drain): (r: DbView)
    ensures r.status == v.status && r.macroPlugins == v.macroPlugins
    ensures r.inlineMacroPlugins == v.inlineMacroPlugins && r.fileOverrides == v.fileOverrides
    ensures r.attributeResolution == if out.attributeChanged then out.resolutions.attribute else v.attributeResolution
    ensures r.deriveResolution == if out.deriveChanged then out.resolutions.derive else v.deriveResolution
    ensures r.inlineResolution == if out.inlineChanged then out.resolutions.inline else v.inlineResolution
    ensures !out.attributeChanged && !out.deriveChanged && !out.inlineChanged ==> r == v
    ensures forall input :: input !in {AttributeResolutionInput, DeriveResolutionInput, InlineResolutionInput} ==> Untouched(v, r, input)
    ensures !out.attributeChanged ==> Untouched(v, r, AttributeResolutionInput)
    ensures out.attributeChanged ==> AttributeResolutionInput in r.changedAt && r.changedAt[AttributeResolutionInput] > v.revision
    ensures !out.deriveChanged ==> Untouched(v, r, DeriveResolutionInput)
    ensures out.deriveChanged ==> DeriveResolutionInput in r.changedAt && r.changedAt[DeriveResolutionInput] > v.revision
    ensures !out.inlineChanged ==> Untouched(v, r, InlineResolutionInput)
    ensures out.inlineChanged ==> InlineResolutionInput in r.changedAt && r.changedAt[InlineResolutionInput] > v.revision
  {
    var v1 := if out.attributeChanged
      then v.(attributeResolution := out.resolutions.attribute).Bump(AttributeResolutionInput) else v;
    var v2 := if out.deriveChanged
      then v1.(deriveResolution := out.resolutions.derive).Bump(DeriveResolutionInput) else v1;
    if out.inlineChanged
    then v2.(inlineResolution := out.resolutions.inline).Bump(InlineResolutionInput) else v2
  }

  /** The drain state held by a client's table and three trackers. */
  function Current(client: ProcMacroClient,
                   attribute: HashMapChangeTracker<AttributeParams, ProcMacroResult>,
                   derive: HashMapChangeTracker<DeriveParams, ProcMacroResult>,
                   inline: HashMapChangeTracker<InlineParams, ProcMacroResult>): Drain
    reads client, attribute, derive, inline
  {
    Drain(client.requests, Resolutions(attribute.inner, derive.inner, inline.inner),
          attribute.changed, derive.changed, inline.changed)
  }

  /** One step of the drain: the response's id leaves the table and its parsed result goes to the map of its kind. */
  method RouteResponse(response: RpcResponse, client: ProcMacroClient,
                       attribute: HashMapChangeTracker<AttributeParams, ProcMacroResult>,
                       derive: HashMapChangeTracker<DeriveParams, ProcMacroResult>,
                       inline: HashMapChangeTracker<InlineParams, ProcMacroResult>)
    requires response.id in client.requests
    modifies client, attribute, derive, inline
    ensures Current(client, attribute, derive, inline) == Route(old(Current(client, attribute, derive, inline)), response)
    ensures client.inbox == old(client.inbox) && client.nextId == old(client.nextId) && client.sent == old(client.sent)
  {
    var params := client.requests[response.id];
    client.requests := client.requests - {response.id};
    var parsed := ParseExpansion(response.value);
    match params {
      case Attribute(p) =>
        if parsed.Some? { attribute.Insert(p, parsed.value); }
      case Derive(p) =>
        if parsed.Some? { derive.Insert(p, parsed.value); }
      case Inline(p) =>
        if parsed.Some? { inline.Insert(p, parsed.value); }
    }
  }

  /** The loop of the drain: each response is removed from the table and routed by its request's kind. */
  method RouteResponses(responses: seq<RpcResponse>, client: ProcMacroClient,
                        attribute: HashMapChangeTracker<AttributeParams, ProcMacroResult>,
                        derive: HashMapChangeTracker<DeriveParams, ProcMacroResult>,
                        inline: HashMapChangeTracker<InlineParams, ProcMacroResult>)
    requires Correlated(responses, client.requests)
    modifies client, attribute, derive, inline
    ensures Current(client, attribute, derive, inline) == DrainAll(old(Current(client, attribute, derive, inline)), responses)
    ensures client.inbox == old(client.inbox) && client.nextId == old(client.nextId) && client.sent == old(client.sent)
  {
    ghost var start := Current(client, attribute, derive, inline);
    var i := 0;
    while i < |responses|
      invariant 0 <= i <= |responses|
      invariant Correlated(responses[i..], client.requests)
      invariant DrainAll(start, responses) == DrainAll(Current(client, attribute, derive, inline), responses[i..])
      invariant client.inbox == old(client.inbox) && client.nextId == old(client.nextId) && client.sent == old(client.sent)
    {
      CorrelatedTail(responses[i..], client.requests);
      assert responses[i..][1..] == responses[i + 1..];
      RouteResponse(responses[i], client, attribute, derive, inline);
      i := i + 1;
    }
    assert responses[i..] == [];
  }

  /** Sets in the database exactly the resolution maps whose trackers changed. */
  method WriteBackChanged(db: AnalysisDatabase,
                          attribute: HashMapChangeTracker<AttributeParams, ProcMacroResult>,
                          derive: HashMapChangeTracker<DeriveParams, ProcMacroResult>,
                          inline: HashMapChangeTracker<InlineParams, ProcMacroResult>,
                          ghost out: Drain)
    requires out.resolutions == Resolutions(attribute.inner, derive.inner, inline.inner)
    requires out.attributeChanged == attribute.changed && out.deriveChanged == derive.changed
    requires out.inlineChanged == inline.changed
    modifies db
    ensures db.View() == WriteBack(old(db.View()), out)
    ensures db.longIds == old(db.longIds) && db.fileIds == old(db.fileIds)
    ensures db.nextFileId == old(db.nextFileId) && db.invalidated == old(db.invalidated)
  {
    var attributeResolution := attribute.InnerIfChanged();
    if attributeResolution.Some? {
      db.SetAttributeResolution(attributeResolution.value);
    }
    var deriveResolution := derive.InnerIfChanged();
    if deriveResolution.Some? {
      db.SetDeriveResolution(deriveResolution.value);
    }
    var inlineResolution := inline.InnerIfChanged();
    if inlineResolution.Some? {
      db.SetInlineResolution(inlineResolution.value);
    }
  }

  /**
   * Drains every available response of a ready client into the database.
   * Returns whether any response was available, whether or not it parsed.
   */
  method ApplyProcMacroServerResponses(db: AnalysisDatabase) returns (result: bool)
    requires db.status.Ready? ==> Correlated(db.status.client.inbox, db.status.client.requests)
    modifies db, db.status.Clients()
    ensures !old(db.status).Ready? ==> !result && db.View() == old(db.View())
    ensures old(db.status).Ready? ==>
      var client := old(db.status).client;
      var out := DrainAll(Start(old(client.requests), old(db.View())), old(client.inbox));
      && result == (old(client.inbox) != [])
      && client.inbox == []
      && client.requests == out.requests
      && client.nextId == old(client.nextId) && client.sent == old(client.sent)
      && db.View() == WriteBack(old(db.View()), out)
    ensures db.longIds == old(db.longIds) && db.fileIds == old(db.fileIds)
    ensures db.nextFileId == old(db.nextFileId) && db.invalidated == old(db.invalidated)
  {
    var status := db.status;
    if !status.Ready? {
      return false;
    }
    var client := status.client;
    var attribute := new HashMapChangeTracker(db.attributeResolution);
    var derive := new HashMapChangeTracker(db.deriveResolution);
    var inline := new HashMapChangeTracker(db.inlineResolution);

    var responses := client.AvailableResponses();
    result := responses != [];
    RouteResponses(responses, client, attribute, derive, inline);
    WriteBackChanged(db, attribute, derive, inline, Current(client, attribute, derive, inline));
  }

  /** With nothing to drain, the database is left exactly as it was. */
  lemma NothingToDrain(requests: map<RequestId, RequestParams>, v: DbView)
    ensures Correlated([], requests)
    ensures WriteBack(v, DrainAll(Start(requests, v), [])) == v
  {
  }

  /** The drain of two answers to an attribute and a derive request, the later request answered first. */
  lemma ReversedAnswersDrain(pa: AttributeParams, pd: DeriveParams, ra: ProcMacroResult, rd: ProcMacroResult, v: DbView)
    requires v.attributeResolution == map[] && v.deriveResolution == map[]
    ensures var responses := [RpcResponse(8, ExpansionPayload(rd)), RpcResponse(7, ExpansionPayload(ra))];
      var requests := map[7 := Attribute(pa), 8 := Derive(pd)];
      && Correlated(responses, requests)
      && DrainAll(Start(requests, v), responses)
         == Drain(map[], Resolutions(map[pa := ra], map[pd := rd], v.inlineResolution), true, true, false)
  {
    var r8, r7 := RpcResponse(8, ExpansionPayload(rd)), RpcResponse(7, ExpansionPayload(ra));
    var d0 := Start(map[7 := Attribute(pa), 8 := Derive(pd)], v);
    var d1 := Route(d0, r8);
    var d2 := Route(d1, r7);
    assert d2.requests == map[];
    assert [r8, r7][1..] == [r7] && [r7][1..] == [];
    assert DrainAll(d1, [r7]) == DrainAll(d2, []) == d2;
  }

  /**
   * Two answers arriving in the reverse order of their requests still land in
   * the maps of their own kinds; the inline map is not written.
   */
  method OutOfOrderAnswers(pa: AttributeParams, pd: DeriveParams, ra: ProcMacroResult, rd: ProcMacroResult)
    returns (drained: bool, attributeMap: map<AttributeParams, ProcMacroResult>,
             deriveMap: map<DeriveParams, ProcMacroResult>, pending: map<RequestId, RequestParams>,
             inlineWritten: bool)
    ensures drained
    ensures attributeMap == map[pa := ra] && deriveMap == map[pd := rd]
    ensures pending == map[]
    ensures !inlineWritten
  {
    var db := new AnalysisDatabase([], map[]);
    var mailbox := new StatusMailbox();
    var client := new ProcMacroClient(mailbox, 7);
    client.RequestAttribute(pa, true);
    client.RequestDerives(pd, true);
    assert client.requests == map[7 := Attribute(pa), 8 := Derive(pd)];
    client.Deliver(RpcResponse(8, ExpansionPayload(rd)));
    client.Deliver(RpcResponse(7, ExpansionPayload(ra)));
    db.SetClientStatus(ClientStatus.Ready(client));
    ghost var v := db.View();
    assert InlineResolutionInput !in v.changedAt;
    assert client.inbox == [RpcResponse(8, ExpansionPayload(rd)), RpcResponse(7, ExpansionPayload(ra))];
    ReversedAnswersDrain(pa, pd, ra, rd, v);
    drained := ApplyProcMacroServerResponses(db);
    attributeMap := db.attributeResolution;
    deriveMap := db.deriveResolution;
    pending := client.requests;
    inlineWritten := InlineResolutionInput in db.changedAt;
  }
}
