/**
 * The client of the proc-macro server (client/mod.rs) together with the
 * one-slot status mailbox it shares with the lifecycle controller
 * (client/controller.rs).  The transport is two channels: `sent` is what
 * went out on the request channel, `inbox` what the server has answered
 * and nobody has read yet.  Whether a send reaches the server, and what a
 * blocking receive returns when nothing is buffered, are inputs.
 */
module Client {
  import opened Wrappers
  import opened Plugins

  type RequestId = nat

  datatype AttributeParams = AttributeParams(attr: string, args: string, item: string)
  datatype DeriveParams = DeriveParams(derives: seq<string>, item: string)
  datatype InlineParams = InlineParams(name: string, item: string)

  /** What a tracked request asked for; it decides which resolution map the answer goes to. */
  datatype RequestParams = Attribute(attribute: AttributeParams) | Derive(derive: DeriveParams) | Inline(inline: InlineParams)

  /** Method and parameters of an outgoing request. */
  datatype Call =
    | DefinedMacrosCall
    | ExpandAttributeCall(attributeParams: AttributeParams)
    | ExpandDeriveCall(deriveParams: DeriveParams)
    | ExpandInlineCall(inlineParams: InlineParams)

  datatype RpcRequest = RpcRequest(id: RequestId, call: Call)

  /**
   * The JSON value carried by a response, classified by what it can be
   * deserialised into: an expansion result, a macro manifest, or neither.
   */
  datatype Payload = ExpansionPayload(result: ProcMacroResult) | DefinedMacrosPayload(macros: DefinedMacros) | MalformedPayload

  datatype RpcResponse = RpcResponse(id: RequestId, value: Payload)

  /** Deserialisation of an expansion result; `None` when the value has another shape. */
  function ParseExpansion(value: Payload): (r: Option<ProcMacroResult>)
    ensures r.Some? <==> value.ExpansionPayload?
    ensures r.Some? ==> r.value == value.result
  {
    if value.ExpansionPayload? then Some(value.result) else None
  }

  /** Deserialisation of the macro manifest; `None` when the value has another shape. */
  function ParseDefinedMacros(value: Payload): (r: Option<DefinedMacros>)
    ensures r.Some? <==> value.DefinedMacrosPayload?
    ensures r.Some? ==> r.value == value.macros
  {
    if value.DefinedMacrosPayload? then Some(value.macros) else None
  }

  /** What the bootstrap's blocking receive returns: the oldest buffered response, else what arrives while waiting. */
  function BootstrapResponse(inbox: seq<RpcResponse>, arrival: Option<RpcResponse>): Option<RpcResponse>
  {
    if inbox != [] then Some(inbox[0]) else arrival
  }

  /** `got` answers request `id` with a macro manifest. */
  predicate Answered(id: RequestId, got: Option<RpcResponse>)
  {
    got.Some? && got.value.id == id && got.value.value.DefinedMacrosPayload?
  }

  /**
   * The bootstrap as written succeeds: delivered under an id that is NOT
   * zero, and answered under that id with a manifest.
   */
  predicate BootstrapAcceptedAsWritten(id: RequestId, delivered: bool, got: Option<RpcResponse>)
  {
    delivered && id != 0 && Answered(id, got)
  }

  /** The bootstrap succeeds: sent as the very first request (id zero), and answered under that id with a manifest. */
  predicate BootstrapAccepted(id: RequestId, delivered: bool, got: Option<RpcResponse>)
  {
    delivered && id == 0 && Answered(id, got)
  }

  /** A lifecycle event posted by a bootstrap attempt or by a failed send. */
  datatype ClientStatusChange = Ready(macros: DefinedMacros, client: ProcMacroClient) | Failed | FatalFailed
  {
    function Clients(): set<ProcMacroClient>
    {
      if Ready? then {client} else {}
    }
  }

  /** Single-slot, last-write-wins, take-on-read cell between the bootstrap thread and the main thread. */
  class StatusMailbox {
    var slot: Option<ClientStatusChange>

    constructor ()
      ensures slot == None
    {
      slot := None;
    }

    /** Overwrites whatever is in the slot. */
    method Update(change: ClientStatusChange)
      modifies this
      ensures slot == Some(change)
    {
      slot := Some(change);
    }

    /** Takes the pending event out of the slot. */
    method Changed() returns (change: Option<ClientStatusChange>)
      modifies this
      ensures change == old(slot)
      ensures slot == None
    {
      change := slot;
      slot := None;
    }
  }

  /** Two writes before a read: the reader sees only the second, and only once. */
  method MailboxLastWriteWins(a: ClientStatusChange, b: ClientStatusChange)
    returns (first: Option<ClientStatusChange>, second: Option<ClientStatusChange>)
    ensures first == Some(b)
    ensures second == None
  {
    var mailbox := new StatusMailbox();
    mailbox.Update(a);
    mailbox.Update(b);
    first := mailbox.Changed();
    second := mailbox.Changed();
  }

  class ProcMacroClient {
    /** Where failed sends are reported; shared with the controller. */
    const mailbox: StatusMailbox
    /** The next value of the request-id generator. */
    var nextId: RequestId
    /** In-flight tracked requests: id to what was asked. */
    var requests: map<RequestId, RequestParams>
    /** Requests written to the request channel. */
    var sent: seq<RpcRequest>
    /** Responses buffered on the response channel, oldest first. */
    var inbox: seq<RpcResponse>

    /** Every tracked request carries an id the generator has already issued. */
    ghost predicate Valid()
      reads this
    {
      forall id :: id in requests ==> id < nextId
    }

    /** A client over a fresh connection whose id generator starts at `firstId`. */
    constructor (mailbox: StatusMailbox, firstId: RequestId)
      ensures this.mailbox == mailbox
      ensures nextId == firstId && requests == map[] && sent == [] && inbox == []
      ensures Valid()
    {
      this.mailbox := mailbox;
      nextId := firstId;
      requests := map[];
      sent := [];
      inbox := [];
    }

    /** Takes everything buffered on the response channel, without waiting. */
    method AvailableResponses() returns (responses: seq<RpcResponse>)
      modifies this
      ensures responses == old(inbox) && inbox == []
      ensures nextId == old(nextId) && requests == old(requests) && sent == old(sent)
    {
      responses := inbox;
      inbox := [];
    }

    /** The server's answer arriving on the response channel. */
    method Deliver(response: RpcResponse)
      modifies this
      ensures inbox == old(inbox) + [response]
      ensures nextId == old(nextId) && requests == old(requests) && sent == old(sent)
    {
      inbox := inbox + [response];
    }

    /**
     * Takes a fresh id and sends `call` under it; `delivered` says whether
     * the request channel accepted the message.  Returns the id it used.
     */
    method SendRequest(call: Call, delivered: bool) returns (r: Result<RequestId, string>)
      modifies this
      ensures nextId == old(nextId) + 1
      ensures delivered ==> r == Ok(old(nextId)) && sent == old(sent) + [RpcRequest(old(nextId), call)]
      ensures !delivered ==> r.Err? && sent == old(sent)
      ensures requests == old(requests) && inbox == old(inbox)
    {
      var id := nextId;
      nextId := nextId + 1;
      if delivered {
        sent := sent + [RpcRequest(id, call)];
        r := Ok(id);
      } else {
        r := Err("sending request failed");
      }
    }

    /**
     * Sends `call` and remembers `params` under its id; a send that does not
     * go through is reported to the controller as `Failed` instead.
     */
    method SendRequestTracked(call: Call, params: RequestParams, delivered: bool)
      requires Valid()
      modifies this, mailbox
      ensures Valid()
      ensures nextId == old(nextId) + 1
      ensures delivered ==> requests == old(requests)[old(nextId) := params] && mailbox.slot == old(mailbox.slot)
      ensures delivered ==> old(nextId) !in old(requests)
      ensures delivered ==> sent == old(sent) + [RpcRequest(old(nextId), call)]
      ensures !delivered ==> requests == old(requests) && sent == old(sent) && mailbox.slot == Some(Failed)
      ensures inbox == old(inbox)
    {
      var r := SendRequest(call, delivered);
      match r {
        case Ok(id) =>
          requests := requests[id := params];
        case Err(_) =>
          mailbox.Update(Failed);
      }
    }

    method RequestAttribute(params: AttributeParams, delivered: bool)
      requires Valid()
      modifies this, mailbox
      ensures Valid()
      ensures nextId == old(nextId) + 1
      ensures delivered ==> requests == old(requests)[old(nextId) := Attribute(params)] && mailbox.slot == old(mailbox.slot)
      ensures delivered ==> sent == old(sent) + [RpcRequest(old(nextId), ExpandAttributeCall(params))]
      ensures !delivered ==> requests == old(requests) && sent == old(sent) && mailbox.slot == Some(Failed)
      ensures inbox == old(inbox)
    {
      SendRequestTracked(ExpandAttributeCall(params), Attribute(params), delivered);
    }

    method RequestDerives(params: DeriveParams, delivered: bool)
      requires Valid()
      modifies this, mailbox
      ensures Valid()
      ensures nextId == old(nextId) + 1
      ensures delivered ==> requests == old(requests)[old(nextId) := Derive(params)] && mailbox.slot == old(mailbox.slot)
      ensures delivered ==> sent == old(sent) + [RpcRequest(old(nextId), ExpandDeriveCall(params))]
      ensures !delivered ==> requests == old(requests) && sent == old(sent) && mailbox.slot == Some(Failed)
      ensures inbox == old(inbox)
    {
      SendRequestTracked(ExpandDeriveCall(params), Derive(params), delivered);
    }

    method RequestInlineMacros(params: InlineParams, delivered: bool)
      requires Valid()
      modifies this, mailbox
      ensures Valid()
      ensures nextId == old(nextId) + 1
      ensures delivered ==> requests == old(requests)[old(nextId) := Inline(params)] && mailbox.slot == old(mailbox.slot)
      ensures delivered ==> sent == old(sent) + [RpcRequest(old(nextId), ExpandInlineCall(params))]
      ensures !delivered ==> requests == old(requests) && sent == old(sent) && mailbox.slot == Some(Failed)
      ensures inbox == old(inbox)
    {
      SendRequestTracked(ExpandInlineCall(params), Inline(params), delivered);
    }

    /**
     * Blocking receive on the response channel: the oldest buffered response
     * if there is one, otherwise `arrival`, what turns up while waiting
     * (`None` when the channel is closed).
     */
    method Recv(arrival: Option<RpcResponse>) returns (r: Option<RpcResponse>)
      modifies this
      ensures old(inbox) != [] ==> r == Some(old(inbox)[0]) && inbox == old(inbox)[1..]
      ensures old(inbox) == [] ==> r == arrival && inbox == []
      ensures nextId == old(nextId) && requests == old(requests) && sent == old(sent)
    {
      if inbox != [] {
        r := Some(inbox[0]);
        inbox := inbox[1..];
      } else {
        r := arrival;
      }
    }

    /**
     * The bootstrap request, exactly as written: it rejects the exchange when
     * the id it obtained IS zero, although its messages say the id should be
     * zero.  Untracked: the correlation table is never touched.
     */
    method FetchDefinedMacrosAsWritten(delivered: bool, arrival: Option<RpcResponse>) returns (r: Result<DefinedMacros, string>)
      modifies this
      ensures r.Ok? <==> BootstrapAcceptedAsWritten(old(nextId), delivered, BootstrapResponse(old(inbox), arrival))
      ensures r.Ok? ==> r.value == BootstrapResponse(old(inbox), arrival).value.value.macros
      ensures requests == old(requests) && nextId == old(nextId) + 1
      ensures inbox == old(inbox) || (old(inbox) != [] && inbox == old(inbox)[1..])
    {
      var sentId := SendRequest(DefinedMacrosCall, delivered);
      if sentId.Err? {
        return Err(sentId.error);
      }
      var id := sentId.value;
      if id == 0 {
        return Err("fetching defined macros should be first sended request");
      }
      var response := Recv(arrival);
      if response.None? {
        return Err("failed to read response for defined macros request");
      }
      if response.value.id != id {
        return Err("fetching defined macros should be waited before any other request is send");
      }
      var manifest := ParseDefinedMacros(response.value.value);
      if manifest.None? {
        return Err("failed to deserialize response for defined macros request");
      }
      r := Ok(manifest.value);
    }

    /**
     * The bootstrap request as its messages describe it: it must be the first
     * request sent (id zero) and must be answered under the same id.
     */
    method FetchDefinedMacros(delivered: bool, arrival: Option<RpcResponse>) returns (r: Result<DefinedMacros, string>)
      modifies this
      ensures r.Ok? <==> BootstrapAccepted(old(nextId), delivered, BootstrapResponse(old(inbox), arrival))
      ensures r.Ok? ==> r.value == BootstrapResponse(old(inbox), arrival).value.value.macros
      ensures requests == old(requests) && nextId == old(nextId) + 1
      ensures inbox == old(inbox) || (old(inbox) != [] && inbox == old(inbox)[1..])
    {
      var sentId := SendRequest(DefinedMacrosCall, delivered);
      if sentId.Err? {
        return Err(sentId.error);
      }
      var id := sentId.value;
      if id != 0 {
        return Err("fetching defined macros should be first sended request");
      }
      var response := Recv(arrival);
      if response.None? {
        return Err("failed to read response for defined macros request");
      }
      if response.value.id != id {
        return Err("fetching defined macros should be waited before any other request is send");
      }
      var manifest := ParseDefinedMacros(response.value.value);
      if manifest.None? {
        return Err("failed to deserialize response for defined macros request");
      }
      r := Ok(manifest.value);
    }
  }

  /**
   * With an id generator that starts at zero, the bootstrap as written fails
   * even when the server answers it perfectly.
   */
  method BootstrapAsWrittenRejectsFirstId(macros: DefinedMacros) returns (r: Result<DefinedMacros, string>)
    ensures r.Err?
  {
    var mailbox := new StatusMailbox();
    var client := new ProcMacroClient(mailbox, 0);
    r := client.FetchDefinedMacrosAsWritten(true, Some(RpcResponse(0, DefinedMacrosPayload(macros))));
  }

  /** The corrected bootstrap accepts the same perfect exchange and returns the manifest. */
  method BootstrapAcceptsFirstId(macros: DefinedMacros) returns (r: Result<DefinedMacros, string>)
    ensures r == Ok(macros)
  {
    var mailbox := new StatusMailbox();
    var client := new ProcMacroClient(mailbox, 0);
    r := client.FetchDefinedMacros(true, Some(RpcResponse(0, DefinedMacrosPayload(macros))));
  }

  /**
   * The bootstrap as written accepts being sent after another request: the
   * expansion request takes id zero, the bootstrap id one, and an answer under
   * id one gets through, although the bootstrap should be the first request.
   */
  method BootstrapAfterOtherRequestAsWrittenSucceeds(params: AttributeParams, macros: DefinedMacros)
    returns (r: Result<DefinedMacros, string>, tracked: map<RequestId, RequestParams>)
    ensures r == Ok(macros)
    ensures tracked == map[0 := Attribute(params)]
  {
    var mailbox := new StatusMailbox();
    var client := new ProcMacroClient(mailbox, 0);
    client.RequestAttribute(params, true);
    r := client.FetchDefinedMacrosAsWritten(true, Some(RpcResponse(1, DefinedMacrosPayload(macros))));
    tracked := client.requests;
  }

  /** With the corrected guard, an expansion request sent before the bootstrap makes the bootstrap fail. */
  method BootstrapAfterOtherRequestFails(params: AttributeParams, macros: DefinedMacros)
    returns (r: Result<DefinedMacros, string>, tracked: map<RequestId, RequestParams>)
    ensures r.Err?
    ensures tracked == map[0 := Attribute(params)]
  {
    var mailbox := new StatusMailbox();
    var client := new ProcMacroClient(mailbox, 0);
    client.RequestAttribute(params, true);
    r := client.FetchDefinedMacros(true, Some(RpcResponse(1, DefinedMacrosPayload(macros))));
    tracked := client.requests;
  }
}
