# PuppetDB `node status` action, modelled in Dafny

This project models the `node status` action of PuppetDB's Puppet face
(`puppet/lib/puppet/face/node/status.rb`). The action has two parts:

- **`when_invoked`**: for each node name given on the command line, the
  action issues `GET /v3/nodes/<CGI-escaped name>` against PuppetDB with
  fixed `Accept` and `Content-Type` headers. It then classifies the
  response:
  - 2xx: the decoded JSON hash is the result;
  - 404: the result is the placeholder `{'name' => node}`;
  - anything else: it raises
    `"[<code> <reason>] <body without CR/LF>"`.

  Any raised error is rescued. It is logged as
  `"Could not retrieve status for <node>: <error>"` and leaves `nil` for
  that node. The block's values are then `compact`ed. An empty node list
  raises `ArgumentError` before any request.
- **`when_rendering(:console)`**: each status hash becomes a block of
  lines, and the blocks are joined with `"\n\n"`. A hash whose only key is
  `name` renders as the name and `No information known`. Any other hash
  renders as four lines:
  - the name;
  - `Deactivated at X` or `Currently active`;
  - `Last catalog: X` or `No catalog received`;
  - `Last facts: X` or `No facts received`.

  Each of the last three lines is picked by Ruby truthiness.

Files:

- `node_status.dfy` holds two modules:
  - `NodeStatus`: the fetch loop as the method `Invoke`, with `FetchNode`
    as one iteration. It also holds the specification functions `Outcomes`,
    `Fetched` and `Logged`.
  - `NodeStatusProperties`: the lemmas about those functions.
- `console.dfy` (module `ConsoleRender`): the renderer, written as
  functions, with lemmas about its output.
- `records.dfy`: decoded JSON values, status hashes, Ruby truthiness and
  `to_s`.
- `ruby_text.dfy`: the Ruby string operations the source uses: `Array#join`,
  `gsub(/[\r\n]/, '')` and `Integer#to_s`. It also has `Pieces`, which reads
  a text as its newline-separated lines.
- `ruby_array.dfy`: `Array#compact`.
- `wrappers.dfy`: `Option`, standing for Ruby's `nil`.

Collaborators outside the model are passed in as function parameters:

- the HTTP client: `get: Request -> Reply`, which answers a request with a
  response or raises;
- `CGI.escape`: `escape: string -> string`;
- `PSON.parse`: `decode: string -> Decoded`, which gives a hash or raises.

`Puppet.err` is a ghost log returned by `Invoke`.

Net::HTTP picks the response class from the status code string. A code is
classed as `Net::HTTPSuccess` when it starts with `2`. It is classed as
`Net::HTTPNotFound` when it is exactly `404`. The model uses those same two
tests (`IsSuccess`, `IsNotFound`).

## Model

| member | source | states |
|---|---|---|
| NodeStatus.Invoke | puppet/lib/puppet/face/node/status.rb:12-39 | with no nodes: the result is `ArgumentError("Please provide at least one node")`, and no request is issued and nothing is logged; otherwise: one request per node, in input order, to `/v3/nodes/` + escaped name with the fixed headers; the result is `Fetched` and the log is `Logged` |
| NodeStatus.FetchNode | puppet/lib/puppet/face/node/status.rb:25-37 | one iteration issues the node's request; its value is the classified status hash, or `nil` after a rescued error; it logs exactly one line when, and only when, the value is `nil` |
| NodeStatus.RequestFor | puppet/lib/puppet/face/node/status.rb:26 | the request for a node carries the headers of lines 74-79 (`Accept: application/json`, the form-encoded `Content-Type`); its path is `/v3/nodes/` followed by exactly the escaped node name |
| NodeStatus.IsSuccess | puppet/lib/puppet/face/node/status.rb:27 | a code of the success class is never the not-found code, so the order of the two tests does not matter |
| NodeStatus.IsNotFound | puppet/lib/puppet/face/node/status.rb:29 | a not-found code (Net::HTTPNotFound, `404`) is a three-character code of the 4xx class |
| NodeStatus.Classify | puppet/lib/puppet/face/node/status.rb:26-35 | a node is found exactly when its request is answered with 404, or with a 2xx whose body decodes; a 404 gives exactly `{'name' => node}`; a decodable 2xx gives the decoded hash; any other answered status fails with `ErrorText` of the response |
| NodeStatus.ErrorText | puppet/lib/puppet/face/node/status.rb:32 | the error text starts with `[` + code + ` ` + reason phrase + `] `, and nothing after that prefix is a CR or LF |
| NodeStatus.LogLine | puppet/lib/puppet/face/node/status.rb:35 | the log line is `Could not retrieve status for ` + node + `: `, followed by exactly the error text |
| NodeStatusProperties.FetchedIsOrderedSubsequence | puppet/lib/puppet/face/node/status.rb:24-38 | the returned hashes are the found nodes' hashes, taken at strictly increasing node positions; every found node is among them |
| NodeStatusProperties.LoggedIsOrderedSubsequence | puppet/lib/puppet/face/node/status.rb:34-35 | the log has one line per failed node, in input order; each line is `LogLine(node, error)`; every failed node is logged |
| NodeStatusProperties.DroppedExactlyWhenLogged | puppet/lib/puppet/face/node/status.rb:24-38 | a node is absent from the result if and only if a line was logged for it |
| NodeStatusProperties.FetchAccounting | puppet/lib/puppet/face/node/status.rb:24-38 | the number of returned hashes plus the number of log lines equals the number of nodes; the result is never longer than the input |
| NodeStatusProperties.NodesIndependent | puppet/lib/puppet/face/node/status.rb:24-38 | running the action on `a + b` returns and logs what it would for `a`, followed by what it would for `b`; a failure never stops the later nodes |
| NodeStatusProperties.FoundNodeReturned | puppet/lib/puppet/face/node/status.rb:27-37 | a found node's hash sits in the result right after the hashes of the earlier nodes, and that node adds no log line |
| NodeStatusProperties.FailedNodeDropped | puppet/lib/puppet/face/node/status.rb:34-37 | a failed node adds nothing to the result; its log line sits right after the earlier nodes' lines |
| NodeStatusProperties.SuccessNode | puppet/lib/puppet/face/node/status.rb:27-28 | a 2xx response whose body decodes returns the decoded hash unchanged, with no log line |
| NodeStatusProperties.NotFoundNode | puppet/lib/puppet/face/node/status.rb:29-30 | a 404 response returns exactly `{'name' => node}`, with no log line |
| NodeStatusProperties.ErrorStatusNode | puppet/lib/puppet/face/node/status.rb:31-35 | any other status drops the node and logs `"Could not retrieve status for " + node + ": [" + code + " " + message + "] " + body`, with every CR and LF removed from the body |
| NodeStatusProperties.RaisedNode | puppet/lib/puppet/face/node/status.rb:26-35 | a request that raises, or a 2xx body that fails to decode, drops the node and logs `"Could not retrieve status for " + node + ": " + error` |
| NodeStatusProperties.ErrorLineIsOneLine | puppet/lib/puppet/face/node/status.rb:32-35 | if the node name, code and reason phrase have no line breaks, the error log line has none, whatever the body holds |
| NodeStatusProperties.ServerErrorExample | puppet/lib/puppet/face/node/status.rb:31-35 | a 500 with body `boom\r\nboom` for `web2`: nothing is returned, and one line ending in `boomboom` is logged |
| NodeStatusProperties.NotFoundExample | puppet/lib/puppet/face/node/status.rb:29-30 | a 404 for `missing-node` returns `[{'name' => 'missing-node'}]` and logs nothing |
| NodeStatusProperties.SuccessExample | puppet/lib/puppet/face/node/status.rb:27-28 | a 200 whose body decodes to a hash returns that hash unchanged and logs nothing |
| RubyText.Join | puppet/lib/puppet/face/node/status.rb:48-70 | `join` of no parts is the empty string; a non-empty join is at least as long as its first part |
| RubyText.JoinLength | puppet/lib/puppet/face/node/status.rb:48-70 | a join is as long as its parts together, plus one separator between each pair of neighbours |
| RubyText.JoinGroups | puppet/lib/puppet/face/node/status.rb:69-70 | joining each block's lines with `\n` and then the blocks with `\n\n` gives all the lines joined with `\n`, with one empty line between blocks |
| RubyText.Digits | puppet/lib/puppet/face/node/status.rb:52-64 | the decimal digits of a natural number, read back, give the number; 0 is written "0" and no other number starts with a zero |
| RubyText.Decimal | puppet/lib/puppet/face/node/status.rb:52-64 | `Integer#to_s`: the digits of the magnitude, read back, give the magnitude; a minus sign comes first exactly when the integer is negative; 0 is "0" and no digit string starts with a zero otherwise |
| Records.Get | puppet/lib/puppet/face/node/status.rb:43-63 | `status[key]`: a non-`nil` read only comes from a key that is present and holds that value |
| Records.Truthy | puppet/lib/puppet/face/node/status.rb:51-63 | every string (empty included), every integer (0 included), every other JSON value and `true` count as true; `nil` and `false` do not |
| Records.ToS | puppet/lib/puppet/face/node/status.rb:43-69 | the text `join` and interpolation give a value: `nil` gives the empty string, a string gives itself, an integer gives its decimal digits, read back to its value, after a minus sign when it is negative (`ToSText` states the rest) |
| Records.ToSText | puppet/lib/puppet/face/node/status.rb:43-69 | the rest of `to_s`: integers carry no leading zero, `true` and `false` become "true" and "false", any other JSON value gives its own text |
| Records.NotFoundRecord | puppet/lib/puppet/face/node/status.rb:30 | the hash built for an unknown node has the single key `name`, holding the node's name, which renders back as that name |
| RubyText.StripLineBreaks | puppet/lib/puppet/face/node/status.rb:32 | the stripped body contains no CR and no LF, and is never longer than the body; with `StripLineBreaksKeeps`, `StripLineBreaksConcat` and `StripLineBreaksDrops` it is the body with every CR and LF deleted and every other character kept in order |
| RubyText.StripLineBreaksDrops | puppet/lib/puppet/face/node/status.rb:32 | every CR and LF is deleted: removing one from the body leaves the stripped text unchanged, so nothing takes its place |
| RubyText.StripLineBreaksKeeps | puppet/lib/puppet/face/node/status.rb:32 | a body with no line breaks passes through unchanged, so stripping is idempotent |
| RubyText.StripLineBreaksConcat | puppet/lib/puppet/face/node/status.rb:32 | stripping acts character by character: it distributes over concatenation |
| RubyText.JoinConcat | puppet/lib/puppet/face/node/status.rb:70 | joining two non-empty lists puts exactly one separator between them |
| RubyText.PiecesOfJoin | puppet/lib/puppet/face/node/status.rb:48 | splitting `parts.join(c)` at `c` gives back `parts` when no part contains `c` |
| RubyArray.Compact | puppet/lib/puppet/face/node/status.rb:38 | `compact` never returns more elements than it was given |
| RubyArray.CompactIsOrderedSubsequence | puppet/lib/puppet/face/node/status.rb:38 | `compact` returns the present values at strictly increasing positions, and keeps every present value |
| RubyArray.CompactConcat | puppet/lib/puppet/face/node/status.rb:38 | compacting a concatenation gives the concatenation of the two compactions |
| RubyArray.CompactAt | puppet/lib/puppet/face/node/status.rb:38 | a present value at position `i` lands in the result right after the values kept before `i` |
| RubyArray.CompactSkips | puppet/lib/puppet/face/node/status.rb:38 | a `nil` at position `i` adds nothing to the result |
| RubyArray.CompactComplement | puppet/lib/puppet/face/node/status.rb:24-38 | when two arrays hold values at complementary positions, their compactions' lengths add up to the arrays' length |
| Records.FieldAbsent | puppet/lib/puppet/face/node/status.rb:51-67 | a field counts as absent exactly when its key is missing or holds `nil` or `false` |
| ConsoleRender.IsPlaceholder | puppet/lib/puppet/face/node/status.rb:46 | a hash whose only key is `name` has none of the deactivation, catalog or facts fields |
| ConsoleRender.FieldLine | puppet/lib/puppet/face/node/status.rb:51-67 | a field's line is the fixed `absent` phrase when the key is missing or holds `nil` or `false`; otherwise it is the `present` phrase followed by the value's text |
| ConsoleRender.StatusLines | puppet/lib/puppet/face/node/status.rb:43-69 | a status has two lines when it is a placeholder and four otherwise; the first line is the name; the second line is `No information known` exactly when the status is a placeholder |
| ConsoleRender.Block | puppet/lib/puppet/face/node/status.rb:43-69 | every block is non-empty |
| ConsoleRender.BlockStartsWithName | puppet/lib/puppet/face/node/status.rb:43-69 | every block opens with the name's text followed by a line feed |
| ConsoleRender.Render | puppet/lib/puppet/face/node/status.rb:41-71 | the output is empty exactly when the status list is empty |
| ConsoleRender.RenderEmpty | puppet/lib/puppet/face/node/status.rb:42-70 | an empty status list renders as the empty string |
| ConsoleRender.RenderSingle | puppet/lib/puppet/face/node/status.rb:42-70 | a single status renders as its own block and nothing else |
| ConsoleRender.RenderConcat | puppet/lib/puppet/face/node/status.rb:70 | rendering `a + b`, both non-empty, gives the rendering of `a`, `"\n\n"`, then the rendering of `b` |
| ConsoleRender.PlaceholderBlock | puppet/lib/puppet/face/node/status.rb:45-49 | a hash whose key set is exactly `{'name'}` renders as `name + "\nNo information known"` and nothing else |
| ConsoleRender.NotFoundRendering | puppet/lib/puppet/face/node/status.rb:45-49 | the hash made for a 404 on `node` renders as `node + "\nNo information known"` |
| ConsoleRender.FullBlockJoin | puppet/lib/puppet/face/node/status.rb:51-69 | any hash that is not a placeholder renders as the name, the deactivation line, the catalog line and the facts line, joined by `\n`; this holds whatever the fields contain |
| ConsoleRender.FullBlockLines | puppet/lib/puppet/face/node/status.rb:51-69 | when neither the name nor the three timestamp fields contain a line feed, a hash that is not a placeholder, read line by line, is exactly four lines: the name; `Deactivated at X` or `Currently active`; `Last catalog: X` or `No catalog received`; `Last facts: X` or `No facts received`; the second phrasing is picked when the key is missing or holds `nil` or `false` |
| ConsoleRender.RenderJoinsLines | puppet/lib/puppet/face/node/status.rb:42-70 | the whole output is the statuses' lines, in input order, with one empty line between statuses, joined by `"\n"` |
| ConsoleRender.RenderedLines | puppet/lib/puppet/face/node/status.rb:42-70 | when no status's name or timestamp fields contain a line feed, then, read line by line, the output is each status's lines in input order, with one empty line between statuses |
| ConsoleRender.UnknownNodeExample | puppet/lib/puppet/face/node/status.rb:45-49 | `[{'name' => 'web1'}]` renders as `web1\nNo information known` |
| ConsoleRender.KnownNodeExample | puppet/lib/puppet/face/node/status.rb:51-69 | `[{'name' => 'web2', 'catalog_timestamp' => 'T1'}]` renders as `web2`, `Currently active`, `Last catalog: T1`, `No facts received`, joined by newlines |

## Left out

- Server and port lookup (`Puppet::Util::Puppetdb.server` and `.port`) and
  `Puppet::Network::HttpPool.http_instance`: configuration and connection
  set-up, with no effect on the request paths or the classification.
- The HTTP GET itself: it is the oracle `get`. The oracle is a function of
  the request, so two identical node names get the same reply. A real
  server could answer them differently.
- `CGI.escape`: kept as the parameter `escape`. Its percent-encoding is not
  modelled.
- `PSON.parse`: kept as the parameter `decode`. It yields a hash or an error
  message. A body that decodes to a JSON array is not modelled.
- `Puppet.err`: only the text of each line is kept, as a ghost log. Log
  levels and output are not modelled.
- `rescue => e` catches only `StandardError`. An exception outside that
  class would abort the whole batch; the model treats every failure of
  `get` or `decode` as rescued.
- A response with a `nil` body: `gsub` or `PSON.parse` would raise
  `NoMethodError`, which is then rescued and logged. The model's bodies are
  always strings, so this case does not arise.
- `opts = args.pop`: the face framework's trailing options hash. The model
  receives only the node names.
- The face metadata (`summary`, `arguments`, `description`): help text with
  no behaviour.
- `Value.Other`: a JSON float, array or object, carried with the text Ruby's
  `to_s` gives for it. That conversion is not modelled. Neither is the
  flattening `Array#join` applies when the `name` field is itself an array.
- ConsoleRender.FullBlockLines: the line-by-line reading assumes the name and
  the three timestamp fields hold no line feed. A line feed inside a value
  would split that line in the printed text. `FullBlockJoin` states the
  four-part join for every non-placeholder hash, with no such assumption.
- ConsoleRender.RenderedLines: the same assumption as `FullBlockLines`.
  `RenderJoinsLines` states the output as a join of lines for every list,
  with no condition on field contents.
- Ruby hash key order: the placeholder test `status.keys == ['name']`
  involves a single key, so it is modelled as a key-set test.
