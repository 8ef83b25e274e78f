/** URI registration on the engine and forced session close. The engine's
    route table is not modelled: its result for a registration, and the
    client list it reports, are inputs. */
module Routes {
  import opened Types
  import opened ServerState

  /** The handlers a route can name: the two built-in ones and any handler
      of the application. */
  datatype Handler = RootHandler | FaviconHandler | AppHandler(id: nat)

  /** `httpd_method_t`; passed through to the engine unchanged. */
  datatype HttpMethod = HttpGet | HttpPost | HttpPut | HttpDelete | HttpOtherMethod(code: nat)

  /** The public API's notion of "fully running": RUNNING with an engine. */
  predicate FullyRunning(m: Module)
  {
    m.state == Running && m.server
  }

  /** The internal registration used while starting: allowed in STARTING
      as well as RUNNING. `engineRc` is the engine's answer. */
  function RegisterUriInternal(m: Module, uri: Option<string>, verb: HttpMethod, handler: Option<Handler>,
                               engineRc: Err): (rc: Err)
    ensures uri.None? || handler.None? ==> rc == InvalidArg
    ensures uri.Some? && handler.Some? && !(m.state in {Starting, Running} && m.server) ==> rc == InvalidState
    ensures uri.Some? && handler.Some? && m.state in {Starting, Running} && m.server ==> rc == engineRc
  {
    if uri.None? || handler.None? then InvalidArg
    else if (m.state != Starting && m.state != Running) || !m.server then InvalidState
    else engineRc
  }

  /** `register_uri`: a null argument is refused first, then anything but a
      fully running module; otherwise the engine's code is returned
      unchanged. */
  function RegisterUri(m: Module, uri: Option<string>, verb: HttpMethod, handler: Option<Handler>,
                       engineRc: Err): (rc: Err)
    ensures uri.None? || handler.None? ==> rc == InvalidArg
    ensures uri.Some? && handler.Some? && !FullyRunning(m) ==> rc == InvalidState
    ensures uri.Some? && handler.Some? && FullyRunning(m) ==> rc == engineRc
  {
    if uri.None? || handler.None? then InvalidArg
    else if !FullyRunning(m) then InvalidState
    else engineRc
  }

  /** `unregister_uri`: as `register_uri`, with no handler argument. */
  function UnregisterUri(m: Module, uri: Option<string>, verb: HttpMethod, engineRc: Err): (rc: Err)
    ensures uri.None? ==> rc == InvalidArg
    ensures uri.Some? && !FullyRunning(m) ==> rc == InvalidState
    ensures uri.Some? && FullyRunning(m) ==> rc == engineRc
  {
    if uri.None? then InvalidArg
    else if !FullyRunning(m) then InvalidState
    else engineRc
  }

  /** A public registration succeeds only on a fully running module, and
      then the internal one would have succeeded too; the two differ only
      while STARTING, where the public one refuses. */
  lemma RegisterUriStricterThanInternal(m: Module, uri: Option<string>, verb: HttpMethod,
                                        handler: Option<Handler>, engineRc: Err)
    ensures RegisterUri(m, uri, verb, handler, engineRc) == Ok ==>
              FullyRunning(m) && RegisterUriInternal(m, uri, verb, handler, engineRc) == Ok
    ensures RegisterUri(m, uri, verb, handler, engineRc) != RegisterUriInternal(m, uri, verb, handler, engineRc) ==>
              m.state == Starting && m.server && uri.Some? && handler.Some?
              && RegisterUri(m, uri, verb, handler, engineRc) == InvalidState
  {
  }

  /** Registration and unregistration accept the same modules. */
  lemma RegisterAndUnregisterAgree(m: Module, uri: string, verb: HttpMethod, handler: Handler, engineRc: Err)
    ensures RegisterUri(m, Some(uri), verb, Some(handler), engineRc) == UnregisterUri(m, Some(uri), verb, engineRc)
  {
  }

  /** The routes `start_server` registers, in order, all for GET. */
  const BuiltinRoutes: seq<(string, Handler)> := [
    ("/", RootHandler),
    ("/index.html", RootHandler),
    ("/index.htm", RootHandler),
    ("/favicon.ico", FaviconHandler)
  ]

  /** Registers `routes[i..]` in order, stopping at the first failure;
      `rcs` scripts the engine's answers. */
  function RegisterRoutes(m: Module, routes: seq<(string, Handler)>, rcs: seq<Err>, i: nat): (rc: Err)
    decreases |routes| - i
  {
    if i >= |routes| then Ok
    else
      var rc := RegisterUriInternal(m, Some(routes[i].0), HttpGet, Some(routes[i].1), RcAt(rcs, i));
      if rc != Ok then rc else RegisterRoutes(m, routes, rcs, i + 1)
  }

  /** While starting or running with an engine, registering the routes
      returns the engine's answer to the first registration it refuses, or
      success when it accepts them all. */
  lemma {:induction false} RegisterRoutesFirstFailure(m: Module, routes: seq<(string, Handler)>, rcs: seq<Err>, i: nat)
    requires m.state in {Starting, Running} && m.server && i <= |routes|
    requires forall j :: 0 <= j < i ==> RcAt(rcs, j) == Ok
    ensures var k := FirstFailure(rcs, |routes|);
            RegisterRoutes(m, routes, rcs, i) == if k < |routes| then RcAt(rcs, k) else Ok
    decreases |routes| - i
  {
    if i == |routes| {
      FirstFailureIs(rcs, |routes|, |routes|);
    } else if RcAt(rcs, i) != Ok {
      FirstFailureIs(rcs, |routes|, i);
    } else {
      RegisterRoutesFirstFailure(m, routes, rcs, i + 1);
    }
  }

  /** The live sockets in a client list, in order. */
  function LiveSockets(fds: seq<int>): (live: seq<int>)
    ensures |live| <= |fds|
    ensures forall i :: 0 <= i < |live| ==> live[i] >= 0 && live[i] in fds
    ensures forall i :: 0 <= i < |fds| && fds[i] >= 0 ==> fds[i] in live
  {
    if fds == [] then []
    else if fds[0] >= 0 then [fds[0]] + LiveSockets(fds[1..])
    else LiveSockets(fds[1..])
  }

  /** The client list as the engine fills it into `bound` slots: the first
      `bound` clients, or all of them when there are fewer. */
  function Listed(clients: seq<int>, bound: nat): (listed: seq<int>)
    ensures |listed| == if |clients| <= bound then |clients| else bound
    ensures listed == clients[..|listed|]
  {
    if |clients| <= bound then clients else clients[..bound]
  }

  /** `close_all_sessions`: the sockets asked to close. Nothing is closed
      without an engine, without a socket bound, or when the engine cannot
      list its clients; otherwise every live entry of the list (which the
      engine fills to at most the bound) is closed. */
  function CloseAllSessions(m: Module, listRc: Err, clients: seq<int>): (closed: seq<int>)
    ensures !m.server || m.maxSockets == 0 || listRc != Ok ==> closed == []
    ensures forall i :: 0 <= i < |closed| ==> closed[i] >= 0 && closed[i] in clients
    ensures forall i :: 0 <= i < |closed| ==> closed[i] in Listed(clients, m.maxSockets)
    ensures m.server && m.maxSockets > 0 && listRc == Ok ==>
              forall i :: 0 <= i < |clients| && i < m.maxSockets && clients[i] >= 0 ==> clients[i] in closed
  {
    if !m.server || m.maxSockets == 0 then []
    else if listRc != Ok then []
    else
      LiveSockets(Listed(clients, m.maxSockets))
  }
}
