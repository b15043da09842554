/**
 * The `when_invoked` block of the `node status` action: for every node name,
 * GET `/v3/nodes/<escaped name>` from PuppetDB, classify the response, log
 * and drop the nodes that fail, and return the surviving status hashes in
 * input order.
 *
 * The HTTP client, `CGI.escape` and `PSON.parse` are outside the model and
 * come in as function parameters; `Puppet.err` is a ghost log.
 */
module NodeStatus {
  import opened Wrappers
  import opened RubyText
  import opened RubyArray
  import opened Records

  /** A GET request: its path and its headers. */
  datatype Request = Request(path: string, headers: map<string, string>)

  /** An HTTP response as `Net::HTTPResponse` exposes it: status code, reason phrase and body. */
  datatype Response = Response(code: string, message: string, body: string)

  /** What `http.get` does: answers with a response, or raises an error with a message. */
  datatype Reply = Answered(response: Response) | Raised(error: string)

  /** What `PSON.parse` does with a body: decodes a hash, or raises an error with a message. */
  datatype Decoded = Parsed(record: Record) | Unparsable(error: string)

  /** How one node's iteration ends: with a status hash, or with a rescued error. */
  datatype NodeOutcome = Found(record: Record) | Failed(error: string)

  /** The value of the action: the status hashes, or the `ArgumentError` raised for no nodes. */
  datatype Invocation = Statuses(records: seq<Record>) | ArgumentError(message: string)

  /** The headers sent with every request. */
  const Headers: map<string, string> := map[
    "Accept" := "application/json",
    "Content-Type" := "application/x-www-form-urlencoded; charset=UTF-8"]

  const NoNodesMessage := "Please provide at least one node"

  const NodesPath := "/v3/nodes/"

  /** The request issued for `node`. */
  function RequestFor(escape: string -> string, node: string): (request: Request)
    ensures request.headers == Headers
    ensures |request.path| == |NodesPath| + |escape(node)|
    ensures request.path[..|NodesPath|] == NodesPath && request.path[|NodesPath|..] == escape(node)
  {
    Request(NodesPath + escape(node), Headers)
  }

  /** `Net::HTTPSuccess`: the response class of every status code in the 2xx family. */
  predicate IsSuccess(code: string)
    ensures IsSuccess(code) ==> !IsNotFound(code)
  {
    |code| > 0 && code[0] == '2'
  }

  /** `Net::HTTPNotFound`: the response class of status code 404. */
  predicate IsNotFound(code: string)
    ensures IsNotFound(code) ==> |code| == 3 && code[0] == '4'
  {
    code == "404"
  }

  /** The message of the error raised for any other status: code, reason phrase and the body without line breaks. */
  function ErrorText(response: Response): (text: string)
    ensures var head := "[" + response.code + " " + response.message + "] ";
            && |head| <= |text|
            && text[..|head|] == head
            && forall k :: |head| <= k < |text| ==> !IsLineBreak(text[k])
  {
    "[" + response.code + " " + response.message + "] " + StripLineBreaks(response.body)
  }

  /** The line handed to `Puppet.err` when `node` fails with `error`. */
  function LogLine(node: string, error: string): (line: string)
    ensures var lead := "Could not retrieve status for " + node + ": ";
            |line| == |lead| + |error| && line[..|lead|] == lead && line[|lead|..] == error
  {
    "Could not retrieve status for " + node + ": " + error
  }

  /** The fate of `node` given the reply to its request. */
  function Classify(node: string, reply: Reply, decode: string -> Decoded): (outcome: NodeOutcome)
    ensures outcome.Found? <==>
              reply.Answered?
              && (IsNotFound(reply.response.code)
                  || (IsSuccess(reply.response.code) && decode(reply.response.body).Parsed?))
    ensures reply.Answered? && IsNotFound(reply.response.code) ==> outcome == Found(map["name" := Str(node)])
    ensures reply.Answered? && IsSuccess(reply.response.code) && decode(reply.response.body).Parsed? ==>
              outcome == Found(decode(reply.response.body).record)
    ensures reply.Answered? && !IsSuccess(reply.response.code) && !IsNotFound(reply.response.code) ==>
              outcome == Failed(ErrorText(reply.response))
  {
    match reply
    case Raised(error) => Failed(error)
    case Answered(response) =>
      if IsSuccess(response.code) then
        match decode(response.body)
        case Parsed(record) => Found(record)
        case Unparsable(error) => Failed(error)
      else if IsNotFound(response.code) then
        Found(NotFoundRecord(node))
      else
        Failed(ErrorText(response))
  }

  /** The block's value for one node: the status hash, or `nil` after a rescued error. */
  function NodeResult(outcome: NodeOutcome): Option<Record>
  {
    if outcome.Found? then Some(outcome.record) else None
  }

  /** What one node's iteration logs: one line after a rescued error, nothing otherwise. */
  function NodeLogEntry(node: string, outcome: NodeOutcome): Option<string>
  {
    if outcome.Failed? then Some(LogLine(node, outcome.error)) else None
  }

  /** The fate of every node, each decided by the reply to its own request only. */
  function Outcomes(nodes: seq<string>, escape: string -> string, get: Request -> Reply,
                    decode: string -> Decoded): (outcomes: seq<NodeOutcome>)
    ensures |outcomes| == |nodes|
  {
    seq(|nodes|, i requires 0 <= i < |nodes| => Classify(nodes[i], get(RequestFor(escape, nodes[i])), decode))
  }

  /** The array `args.map { ... }` builds before `compact`. */
  function Results(outcomes: seq<NodeOutcome>): (results: seq<Option<Record>>)
    ensures |results| == |outcomes|
  {
    seq(|outcomes|, i requires 0 <= i < |outcomes| => NodeResult(outcomes[i]))
  }

  function LogEntries(nodes: seq<string>, outcomes: seq<NodeOutcome>): (entries: seq<Option<string>>)
    requires |nodes| == |outcomes|
    ensures |entries| == |nodes|
  {
    seq(|nodes|, i requires 0 <= i < |nodes| => NodeLogEntry(nodes[i], outcomes[i]))
  }

  /** The requests issued, one per node, in input order. */
  function Requests(nodes: seq<string>, escape: string -> string): (requests: seq<Request>)
    ensures |requests| == |nodes|
  {
    seq(|nodes|, i requires 0 <= i < |nodes| => RequestFor(escape, nodes[i]))
  }

  /** The status hashes the action returns for a non-empty node list. */
  function Fetched(nodes: seq<string>, escape: string -> string, get: Request -> Reply,
                   decode: string -> Decoded): seq<Record>
  {
    Compact(Results(Outcomes(nodes, escape, get, decode)))
  }

  /** The lines the action logs for a non-empty node list. */
  function Logged(nodes: seq<string>, escape: string -> string, get: Request -> Reply,
                  decode: string -> Decoded): seq<string>
  {
    Compact(LogEntries(nodes, Outcomes(nodes, escape, get, decode)))
  }

  /**
   * One iteration of the loop (its `begin ... rescue` block): issue the
   * request for `node` and classify the reply. Returns the block's value and
   * the lines logged while handling it.
   */
  method FetchNode(node: string, escape: string -> string, get: Request -> Reply,
                   decode: string -> Decoded)
    returns (status: Option<Record>, request: Request, ghost logged: seq<string>)
    ensures request == RequestFor(escape, node)
    ensures status == NodeResult(Classify(node, get(request), decode))
    ensures logged == (match NodeLogEntry(node, Classify(node, get(request), decode))
                       case Some(line) => [line]
                       case None => [])
  {
    request := RequestFor(escape, node);
    status, logged := None, [];
    match get(request)
    case Raised(error) =>
      logged := [LogLine(node, error)];
    case Answered(response) =>
      if IsSuccess(response.code) {
        match decode(response.body)
        case Parsed(record) =>
          status := Some(record);
        case Unparsable(error) =>
          logged := [LogLine(node, error)];
      } else if IsNotFound(response.code) {
        status := Some(NotFoundRecord(node));
      } else {
        logged := [LogLine(node, ErrorText(response))];
      }
  }

  /**
   * The action. No nodes: `ArgumentError` before any request. Otherwise one
   * request per node in input order; a failing node is logged and skipped
   * without stopping the loop; the result is the compacted array of status
   * hashes.
   */
  method Invoke(nodes: seq<string>, escape: string -> string, get: Request -> Reply,
                decode: string -> Decoded)
    returns (result: Invocation, ghost requests: seq<Request>, ghost log: seq<string>)
    ensures |nodes| == 0 ==> result == ArgumentError(NoNodesMessage) && requests == [] && log == []
    ensures |nodes| > 0 ==> result == Statuses(Fetched(nodes, escape, get, decode))
    ensures requests == Requests(nodes, escape)
    ensures log == Logged(nodes, escape, get, decode)
  {
    requests, log := [], [];
    if |nodes| == 0 {
      result := ArgumentError(NoNodesMessage);
      return;
    }
    ghost var outcomes := Outcomes(nodes, escape, get, decode);
    ghost var entries := LogEntries(nodes, outcomes);
    var mapped: seq<Option<Record>> := [];
    var i := 0;
    while i < |nodes|
      invariant 0 <= i <= |nodes|
      invariant mapped == Results(outcomes)[..i]
      invariant requests == Requests(nodes, escape)[..i]
      invariant log == Compact(entries[..i])
    {
      var status, request, logged := FetchNode(nodes[i], escape, get, decode);
      LogStep(entries, i);
      requests := requests + [request];
      log := log + logged;
      mapped := mapped + [status];
      i := i + 1;
    }
    assert Results(outcomes)[..i] == Results(outcomes);
    assert entries[..i] == entries;
    result := Statuses(Compact(mapped));
  }

  /** Extending the logged prefix by one node appends that node's entry, if any. */
  lemma LogStep(entries: seq<Option<string>>, i: nat)
    requires i < |entries|
    ensures Compact(entries[..i + 1]) == Compact(entries[..i]) + (if entries[i].Some? then [entries[i].value] else [])
  {
    assert entries[..i + 1] == entries[..i] + [entries[i]];
    CompactConcat(entries[..i], [entries[i]]);
    assert [entries[i]][1..] == [];
  }
}

/** What the action's results and log are known to satisfy. */
module NodeStatusProperties {
  import opened Wrappers
  import opened RubyText
  import opened RubyArray
  import opened Records
  import opened NodeStatus

  /**
   * The returned hashes are the found nodes' hashes in input order: they sit
   * at strictly increasing node positions, and every node whose request
   * succeeded or came back 404 is among them.
   */
  lemma FetchedIsOrderedSubsequence(nodes: seq<string>, escape: string -> string, get: Request -> Reply,
                                    decode: string -> Decoded)
    ensures var outcomes := Outcomes(nodes, escape, get, decode);
            var kept := KeptIndices(Results(outcomes));
            var fetched := Fetched(nodes, escape, get, decode);
            && |kept| == |fetched|
            && (forall j :: 0 <= j < |kept| ==> kept[j] < |nodes| && outcomes[kept[j]] == Found(fetched[j]))
            && (forall j, k :: 0 <= j < k < |kept| ==> kept[j] < kept[k])
            && (forall i :: 0 <= i < |nodes| && outcomes[i].Found? ==> i in kept)
  {
    var outcomes := Outcomes(nodes, escape, get, decode);
    var results := Results(outcomes);
    CompactIsOrderedSubsequence(results);
    forall i | 0 <= i < |nodes| && outcomes[i].Found? ensures results[i].Some? {
    }
  }

  /**
   * The log holds one line per failed node, in input order, each naming the
   * node and its error; every failed node is among them.
   */
  lemma LoggedIsOrderedSubsequence(nodes: seq<string>, escape: string -> string, get: Request -> Reply,
                                   decode: string -> Decoded)
    ensures var outcomes := Outcomes(nodes, escape, get, decode);
            var failed := KeptIndices(LogEntries(nodes, outcomes));
            var logged := Logged(nodes, escape, get, decode);
            && |failed| == |logged|
            && (forall j :: 0 <= j < |failed| ==>
                  failed[j] < |nodes| && outcomes[failed[j]].Failed?
                  && logged[j] == LogLine(nodes[failed[j]], outcomes[failed[j]].error))
            && (forall j, k :: 0 <= j < k < |failed| ==> failed[j] < failed[k])
            && (forall i :: 0 <= i < |nodes| && outcomes[i].Failed? ==> i in failed)
  {
    var outcomes := Outcomes(nodes, escape, get, decode);
    var entries := LogEntries(nodes, outcomes);
    CompactIsOrderedSubsequence(entries);
    forall i | 0 <= i < |nodes| && outcomes[i].Failed? ensures entries[i].Some? {
    }
  }

  /** A node is missing from the result exactly when a line was logged for it. */
  lemma {:induction false} DroppedExactlyWhenLogged(nodes: seq<string>, escape: string -> string,
                                                    get: Request -> Reply, decode: string -> Decoded, i: nat)
    requires i < |nodes|
    ensures var outcomes := Outcomes(nodes, escape, get, decode);
            i !in KeptIndices(Results(outcomes)) <==> i in KeptIndices(LogEntries(nodes, outcomes))
  {
    var outcomes := Outcomes(nodes, escape, get, decode);
    FetchedIsOrderedSubsequence(nodes, escape, get, decode);
    LoggedIsOrderedSubsequence(nodes, escape, get, decode);
    if outcomes[i].Found? {
      assert i in KeptIndices(Results(outcomes));
    } else {
      assert i in KeptIndices(LogEntries(nodes, outcomes));
    }
  }

  /** Every node is either returned or logged: the two counts add up to the number of nodes. */
  lemma FetchAccounting(nodes: seq<string>, escape: string -> string, get: Request -> Reply,
                        decode: string -> Decoded)
    ensures |Fetched(nodes, escape, get, decode)| + |Logged(nodes, escape, get, decode)| == |nodes|
    ensures |Fetched(nodes, escape, get, decode)| <= |nodes|
  {
    var outcomes := Outcomes(nodes, escape, get, decode);
    CompactComplement(Results(outcomes), LogEntries(nodes, outcomes));
  }

  /**
   * Nodes are handled independently: the action on a concatenation of two
   * node lists returns and logs what it would for each list in turn, so a
   * failing node never affects the nodes after it.
   */
  lemma NodesIndependent(a: seq<string>, b: seq<string>, escape: string -> string, get: Request -> Reply,
                         decode: string -> Decoded)
    ensures Fetched(a + b, escape, get, decode) == Fetched(a, escape, get, decode) + Fetched(b, escape, get, decode)
    ensures Logged(a + b, escape, get, decode) == Logged(a, escape, get, decode) + Logged(b, escape, get, decode)
  {
    var oa, ob := Outcomes(a, escape, get, decode), Outcomes(b, escape, get, decode);
    assert Outcomes(a + b, escape, get, decode) == oa + ob;
    assert Results(oa + ob) == Results(oa) + Results(ob);
    assert LogEntries(a + b, oa + ob) == LogEntries(a, oa) + LogEntries(b, ob);
    CompactConcat(Results(oa), Results(ob));
    CompactConcat(LogEntries(a, oa), LogEntries(b, ob));
  }

  /** The position in the result that node `i`'s hash takes, if it has one. */
  function ResultPosition(nodes: seq<string>, escape: string -> string, get: Request -> Reply,
                          decode: string -> Decoded, i: nat): nat
    requires i <= |nodes|
  {
    |Compact(Results(Outcomes(nodes, escape, get, decode))[..i])|
  }

  /** The position in the log that node `i`'s line takes, if it has one. */
  function LogPosition(nodes: seq<string>, escape: string -> string, get: Request -> Reply,
                       decode: string -> Decoded, i: nat): nat
    requires i <= |nodes|
  {
    var outcomes := Outcomes(nodes, escape, get, decode);
    |Compact(LogEntries(nodes, outcomes)[..i])|
  }

  /** Node `i` is in the result, with `record`, and logs nothing. */
  predicate Returned(nodes: seq<string>, escape: string -> string, get: Request -> Reply,
                     decode: string -> Decoded, i: nat, record: Record)
    requires i < |nodes|
  {
    var fetched := Fetched(nodes, escape, get, decode);
    && ResultPosition(nodes, escape, get, decode, i) < |fetched|
    && fetched[ResultPosition(nodes, escape, get, decode, i)] == record
    && LogPosition(nodes, escape, get, decode, i + 1) == LogPosition(nodes, escape, get, decode, i)
  }

  /** Node `i` is not in the result and logs `line`. */
  predicate Dropped(nodes: seq<string>, escape: string -> string, get: Request -> Reply,
                    decode: string -> Decoded, i: nat, line: string)
    requires i < |nodes|
  {
    var logged := Logged(nodes, escape, get, decode);
    && ResultPosition(nodes, escape, get, decode, i + 1) == ResultPosition(nodes, escape, get, decode, i)
    && LogPosition(nodes, escape, get, decode, i) < |logged|
    && logged[LogPosition(nodes, escape, get, decode, i)] == line
  }

  lemma {:induction false} FoundNodeReturned(nodes: seq<string>, escape: string -> string, get: Request -> Reply,
                                             decode: string -> Decoded, i: nat)
    requires i < |nodes| && Outcomes(nodes, escape, get, decode)[i].Found?
    ensures Returned(nodes, escape, get, decode, i, Outcomes(nodes, escape, get, decode)[i].record)
  {
    var outcomes := Outcomes(nodes, escape, get, decode);
    var entries := LogEntries(nodes, outcomes);
    CompactAt(Results(outcomes), i);
    CompactSkips(entries, i);
  }

  lemma {:induction false} FailedNodeDropped(nodes: seq<string>, escape: string -> string, get: Request -> Reply,
                                             decode: string -> Decoded, i: nat)
    requires i < |nodes| && Outcomes(nodes, escape, get, decode)[i].Failed?
    ensures Dropped(nodes, escape, get, decode, i, LogLine(nodes[i], Outcomes(nodes, escape, get, decode)[i].error))
  {
    var outcomes := Outcomes(nodes, escape, get, decode);
    var entries := LogEntries(nodes, outcomes);
    CompactSkips(Results(outcomes), i);
    CompactAt(entries, i);
  }

  /** A 2xx response whose body decodes returns the decoded hash unchanged and logs nothing. */
  lemma SuccessNode(nodes: seq<string>, escape: string -> string, get: Request -> Reply,
                    decode: string -> Decoded, i: nat, response: Response, record: Record)
    requires i < |nodes| && get(RequestFor(escape, nodes[i])) == Answered(response)
    requires IsSuccess(response.code) && decode(response.body) == Parsed(record)
    ensures Returned(nodes, escape, get, decode, i, record)
  {
    FoundNodeReturned(nodes, escape, get, decode, i);
  }

  /** A 404 response returns exactly `{'name' => node}` and logs nothing. */
  lemma NotFoundNode(nodes: seq<string>, escape: string -> string, get: Request -> Reply,
                     decode: string -> Decoded, i: nat, response: Response)
    requires i < |nodes| && get(RequestFor(escape, nodes[i])) == Answered(response)
    requires response.code == "404"
    ensures Returned(nodes, escape, get, decode, i, map["name" := Str(nodes[i])])
  {
    FoundNodeReturned(nodes, escape, get, decode, i);
  }

  /**
   * Any other status drops the node and logs the node name, the status code,
   * the reason phrase and the body with its line breaks removed.
   */
  lemma ErrorStatusNode(nodes: seq<string>, escape: string -> string, get: Request -> Reply,
                        decode: string -> Decoded, i: nat, response: Response)
    requires i < |nodes| && get(RequestFor(escape, nodes[i])) == Answered(response)
    requires !IsSuccess(response.code) && response.code != "404"
    ensures Dropped(nodes, escape, get, decode, i,
                    "Could not retrieve status for " + nodes[i] + ": [" + response.code + " " + response.message + "] "
                    + StripLineBreaks(response.body))
  {
    FailedNodeDropped(nodes, escape, get, decode, i);
    var n, c, m, b := nodes[i], response.code, response.message, StripLineBreaks(response.body);
    assert LogLine(n, ErrorText(response))
        == "Could not retrieve status for " + n + ": [" + c + " " + m + "] " + b;
  }

  /** A request that raises, or a 2xx body that does not decode, drops the node and logs the error. */
  lemma RaisedNode(nodes: seq<string>, escape: string -> string, get: Request -> Reply,
                   decode: string -> Decoded, i: nat, error: string)
    requires i < |nodes|
    requires || get(RequestFor(escape, nodes[i])) == Raised(error)
             || (var reply := get(RequestFor(escape, nodes[i]));
                 reply.Answered? && IsSuccess(reply.response.code) && decode(reply.response.body) == Unparsable(error))
    ensures Dropped(nodes, escape, get, decode, i, "Could not retrieve status for " + nodes[i] + ": " + error)
  {
    FailedNodeDropped(nodes, escape, get, decode, i);
  }

  /**
   * A logged error line stays on one line: once the body's line breaks are
   * removed, only the node name, code and reason phrase could still break it.
   */
  lemma ErrorLineIsOneLine(node: string, response: Response)
    requires forall k :: 0 <= k < |node| ==> !IsLineBreak(node[k])
    requires forall k :: 0 <= k < |response.code| ==> !IsLineBreak(response.code[k])
    requires forall k :: 0 <= k < |response.message| ==> !IsLineBreak(response.message[k])
    ensures forall k :: 0 <= k < |LogLine(node, ErrorText(response))| ==> !IsLineBreak(LogLine(node, ErrorText(response))[k])
  {
    var line := LogLine(node, ErrorText(response));
    var body := StripLineBreaks(response.body);
    var parts := ["Could not retrieve status for ", node, ": [", response.code, " ", response.message, "] ", body];
    assert line == parts[0] + parts[1] + parts[2] + parts[3] + parts[4] + parts[5] + parts[6] + parts[7];
  }

  /** An empty node list returns the `ArgumentError` and issues no request. */
  method NoNodesExample(escape: string -> string, get: Request -> Reply, decode: string -> Decoded)
  {
    var result, requests, log := Invoke([], escape, get, decode);
    assert result == ArgumentError("Please provide at least one node") && requests == [] && log == [];
  }

  lemma StripExample()
    ensures StripLineBreaks("boom" + "\r\n" + "boom") == "boom" + "boom"
  {
    StripLineBreaksConcat("boom" + "\r\n", "boom");
    StripLineBreaksConcat("boom", "\r\n");
    StripLineBreaksKeeps("boom");
    assert "\r\n"[1..] == "\n";
    assert StripLineBreaks("\r\n") == "";
  }

  /** A 500 whose body spans two lines: the node is dropped and the body is logged as one line. */
  lemma ServerErrorExample(escape: string -> string, get: Request -> Reply, decode: string -> Decoded)
    requires get(RequestFor(escape, "web2")) == Answered(Response("500", "Internal Server Error", "boom" + "\r\n" + "boom"))
    ensures Fetched(["web2"], escape, get, decode) == []
    ensures Logged(["web2"], escape, get, decode)
            == ["Could not retrieve status for " + "web2" + ": " + ("[" + "500" + " " + "Internal Server Error" + "] " + ("boom" + "boom"))]
  {
    var response := Response("500", "Internal Server Error", "boom" + "\r\n" + "boom");
    var outcomes := Outcomes(["web2"], escape, get, decode);
    StripExample();
    assert !IsSuccess(response.code) && !IsNotFound(response.code);
    assert outcomes[0] == Failed(ErrorText(response));
    assert Results(outcomes) == [None];
    assert LogEntries(["web2"], outcomes) == [Some(LogLine("web2", ErrorText(response)))];
  }

  /** A 404 for an unknown node: the placeholder hash is returned and nothing is logged. */
  lemma NotFoundExample(escape: string -> string, get: Request -> Reply, decode: string -> Decoded)
    requires get(RequestFor(escape, "missing-node")) == Answered(Response("404", "Not Found", ""))
    ensures Fetched(["missing-node"], escape, get, decode) == [map["name" := Str("missing-node")]]
    ensures Logged(["missing-node"], escape, get, decode) == []
  {
    var outcomes := Outcomes(["missing-node"], escape, get, decode);
    assert outcomes[0] == Found(NotFoundRecord("missing-node"));
    assert Results(outcomes) == [Some(NotFoundRecord("missing-node"))];
    assert LogEntries(["missing-node"], outcomes) == [None];
  }

  /** A 200 whose body decodes: the decoded hash is returned as it is and nothing is logged. */
  lemma SuccessExample(escape: string -> string, get: Request -> Reply, decode: string -> Decoded, body: string)
    requires get(RequestFor(escape, "web1")) == Answered(Response("200", "OK", body))
    requires decode(body) == Parsed(map["name" := Str("web1"), "deactivated" := Str("2020-01-01T00:00:00Z")])
    ensures Fetched(["web1"], escape, get, decode)
            == [map["name" := Str("web1"), "deactivated" := Str("2020-01-01T00:00:00Z")]]
    ensures Logged(["web1"], escape, get, decode) == []
  {
    var outcomes := Outcomes(["web1"], escape, get, decode);
    assert outcomes[0] == Found(map["name" := Str("web1"), "deactivated" := Str("2020-01-01T00:00:00Z")]);
    assert Results(outcomes) == [Some(outcomes[0].record)];
    assert LogEntries(["web1"], outcomes) == [None];
  }
}
