/** The server's Server-Sent Events fan-out: the set of open `/api/events`
    connections, `broadcast`, which writes one `data:` frame to each of them,
    and the 30-second heartbeat comment. The JSON text of a payload is
    produced by `JSON.stringify` and is taken here as given. */
module EventStream {
  import opened Common
  import opened ChatTypes

  type ClientId = nat

  const HeartbeatIntervalMs: nat := 30000

  /** The frame `broadcast` writes for a payload whose JSON text is `json`. */
  function DataFrame(json: string): (f: string)
    ensures StartsWith(f, "data: ") && EndsWith(f, "\n\n")
    ensures |f| == |json| + 8
  {
    "data: " + json + "\n\n"
  }

  /** The heartbeat is an SSE comment line, which clients do not dispatch. */
  const HeartbeatFrame: string := ": heartbeat\n\n"

  /** How an EventSource reads one frame back: the text after `data: ` up to
      the blank line, when it holds no line break of its own. */
  function ParseDataFrame(f: string): (r: Option<string>)
    ensures r.Some? ==> '\n' !in r.value
  {
    if |f| >= 8 && f[..6] == "data: " && f[|f| - 2..] == "\n\n" && '\n' !in f[6..|f| - 2]
    then Some(f[6..|f| - 2])
    else None
  }

  /** `JSON.stringify` without indentation never emits a raw line break, and
      for such text the frame carries the payload back intact. */
  lemma DataFrameRoundTrip(json: string)
    requires '\n' !in json
    ensures ParseDataFrame(DataFrame(json)) == Some(json)
  {
    var f := DataFrame(json);
    assert f[..6] == "data: ";
    assert f[6..|f| - 2] == json;
    assert f[|f| - 2..] == "\n\n";
  }

  /** A heartbeat is never read as a data frame. */
  lemma HeartbeatIsNotData()
    ensures ParseDataFrame(HeartbeatFrame).None?
  {
    assert HeartbeatFrame[..6] != "data: " by {
      assert HeartbeatFrame[0] == ':';
    }
  }

  /** The event the `/api/events` handler writes to a newly connected client
      after probing the agent's health URL: `Some(ok)` when the probe got an
      HTTP answer, `None` when it failed or timed out. */
  function ProbeEvent(answer: Option<bool>): (e: Event)
    ensures e.AgentStatus?
    ensures e.connected <==> answer == Some(true)
    ensures e.error.Some? <==> answer.None?
    ensures answer.None? ==> e.error == Some("Agent unreachable")
  {
    match answer
    case Some(ok) => AgentStatus(ok, None)
    case None => AgentStatus(false, Some("Agent unreachable"))
  }

  /** The subscriber set and what has been written to every connection ever
      opened. A write to a connection that has closed is lost. */
  class Hub {
    var clients: set<ClientId>
    var streams: map<ClientId, seq<string>>
    var nextId: ClientId

    ghost predicate Valid()
      reads this
    {
      && clients <= streams.Keys
      && (forall c :: c in streams ==> c < nextId)
    }

    constructor ()
      ensures Valid() && clients == {} && streams == map[]
    {
      clients := {};
      streams := map[];
      nextId := 0;
    }

    /** A request to `/api/events` joins the subscriber set. */
    method Connect() returns (c: ClientId)
      requires Valid()
      modifies this
      ensures Valid()
      ensures c !in old(streams)
      ensures clients == old(clients) + {c}
      ensures streams == old(streams)[c := []]
    {
      c := nextId;
      nextId := nextId + 1;
      clients := clients + {c};
      streams := streams[c := []];
    }

    /** The request's `close` event removes it; closing twice is harmless. */
    method Close(c: ClientId)
      requires Valid()
      modifies this`clients
      ensures Valid()
      ensures clients == old(clients) - {c}
    {
      clients := clients - {c};
    }

    /** `res.write(chunk)` on one connection. */
    method Write(c: ClientId, chunk: string)
      requires Valid()
      modifies this`streams
      ensures Valid()
      ensures streams == if c in clients then old(streams)[c := old(streams)[c] + [chunk]] else old(streams)
    {
      if c in clients {
        streams := streams[c := streams[c] + [chunk]];
      }
    }

    /** `sseClients.forEach(client => client.write(chunk))`: every open
        connection gets the chunk once, the others get nothing. */
    method WriteAll(chunk: string)
      requires Valid()
      modifies this`streams
      ensures Valid()
      ensures streams.Keys == old(streams).Keys
      ensures forall c :: c in streams ==>
        streams[c] == if c in clients then old(streams)[c] + [chunk] else old(streams)[c]
    {
      var todo := clients;
      while todo != {}
        invariant todo <= clients
        invariant Valid()
        invariant streams.Keys == old(streams).Keys
        invariant forall c :: c in streams ==>
          streams[c] == if c in clients && c !in todo then old(streams)[c] + [chunk] else old(streams)[c]
        decreases |todo|
      {
        var c :| c in todo;
        streams := streams[c := streams[c] + [chunk]];
        todo := todo - {c};
      }
    }

    /** `broadcast(data)`, `json` being `JSON.stringify(data)`. */
    method Broadcast(json: string)
      requires Valid()
      modifies this`streams
      ensures Valid()
      ensures streams.Keys == old(streams).Keys
      ensures forall c :: c in streams ==>
        streams[c] == if c in clients then old(streams)[c] + [DataFrame(json)] else old(streams)[c]
    {
      WriteAll(DataFrame(json));
    }

    /** One tick of the 30-second heartbeat interval. */
    method Heartbeat()
      requires Valid()
      modifies this`streams
      ensures Valid()
      ensures streams.Keys == old(streams).Keys
      ensures forall c :: c in streams ==>
        streams[c] == if c in clients then old(streams)[c] + [HeartbeatFrame] else old(streams)[c]
    {
      WriteAll(HeartbeatFrame);
    }
  }
}
