/**
 * The request dispatcher handle_msg and the per-connection loop of
 * server/server.py. The socket becomes a sequence of incoming messages and a
 * sequence of sent responses; the HTTP call to the Vera hub becomes the reply
 * the hub gives, supplied with each message.
 */
module Server {
  import opened Wrappers
  import opened Decimal

  /** Query parameters of the hub's data_request URL. */
  type Params = map<string, string>

  /** The request object: id, action.type, action.attribute.power and close_connection (None where absent). */
  datatype Request = Request(id: int, actionType: string, power: Option<int>, closeConnection: Option<bool>)

  /** What json.loads makes of one read: JSON null, text it rejects, or a request object. */
  datatype Incoming = Null | Malformed | Req(request: Request)

  datatype StateVar = StateVar(variable: string, value: string)
  datatype Device = Device(id: int, states: seq<StateVar>)

  /** The hub's answer: the HTTP status code and, for a status query, its device list. */
  datatype Reply = Reply(statusCode: int, devices: seq<Device>)

  datatype DeviceData = DeviceData(status: string, name: string)
  datatype Response = Response(status: int, errStr: Option<string>, data: Option<DeviceData>)

  /** The exceptions handle_msg lets escape. */
  datatype Fault = ValueError | KeyError | NameError

  /** How a call of handle_msg ends: it returns whether to close, or it raises. */
  datatype Ending = Returned(close: bool) | Raised(fault: Fault)

  /** One call of handle_msg: the query sent to the hub, if any; the responses written; how it ended. */
  datatype Exchange = Exchange(query: Option<Params>, sent: seq<Response>, ending: Ending)

  const STATUS_OK := 0
  const STATUS_BAD_REQUEST := 1
  const STATUS_VERA_ERROR := 2
  const HTTP_OK := 200

  const BadFormatResponse := Response(STATUS_BAD_REQUEST, Some("bad message format"), None)
  const InvalidActionResponse := Response(STATUS_BAD_REQUEST, Some("invalid action"), None)
  const VeraErrorResponse := Response(STATUS_VERA_ERROR, Some("error contacting Vera"), None)

  const RUN_SERVICE := "urn:micasaverde-com:serviceId:HomeAutomationGateway1"
  const SWITCH_SERVICE := "urn:upnp-org:serviceId:SwitchPower1"

  /** The outcome of choosing the hub query for an action type. */
  datatype Mapping = Mapped(params: Params) | UnknownAction | MissingPower

  /** Lines 50-72: the hub query for a run, set or get request. */
  function MapAction(req: Request): (m: Mapping)
    ensures m.UnknownAction? <==> req.actionType != "run" && req.actionType != "set" && req.actionType != "get"
    ensures m.MissingPower? <==> req.actionType == "set" && req.power.None?
    ensures req.actionType == "run" ==>
      && m.Mapped? && "SceneNum" in m.params && "action" in m.params
      && ParseInt(m.params["SceneNum"]) == Some(req.id)
      && m.params["action"] == "RunScene" && "DeviceNum" !in m.params
    ensures req.actionType == "set" && m.Mapped? ==>
      && "DeviceNum" in m.params && "newTargetValue" in m.params && "action" in m.params
      && ParseInt(m.params["DeviceNum"]) == Some(req.id)
      && ParseInt(m.params["newTargetValue"]) == req.power
      && m.params["action"] == "SetTarget" && "SceneNum" !in m.params
    ensures req.actionType == "get" ==> m == Mapped(map["id" := "status"])
  {
    if req.actionType == "run" then
      ParseIntToString(req.id);
      Mapped(map["id" := "lu_action", "output_format" := "json", "SceneNum" := IntToString(req.id),
                 "serviceId" := RUN_SERVICE, "action" := "RunScene"])
    else if req.actionType == "set" then
      match req.power
      case None => MissingPower
      case Some(power) =>
        ParseIntToString(req.id);
        ParseIntToString(power);
        Mapped(map["id" := "lu_action", "output_format" := "json", "DeviceNum" := IntToString(req.id),
                   "serviceId" := SWITCH_SERVICE, "action" := "SetTarget",
                   "newTargetValue" := IntToString(power)])
    else if req.actionType == "get" then
      Mapped(map["id" := "status"])
    else
      UnknownAction
  }

  function LastOf(s: seq<string>): Option<string>
  {
    if s == [] then None else Some(s[|s| - 1])
  }

  /** The values of the states named `variable`, in list order. */
  function ValuesOf(states: seq<StateVar>, variable: string): seq<string>
  {
    if states == [] then []
    else
      var last := states[|states| - 1];
      ValuesOf(states[..|states| - 1], variable) + (if last.variable == variable then [last.value] else [])
  }

  /** The values of the states named `variable` of every device with this id, in list order. */
  function Matching(devices: seq<Device>, id: int, variable: string): seq<string>
  {
    if devices == [] then []
    else
      var last := devices[|devices| - 1];
      Matching(devices[..|devices| - 1], id, variable) + (if last.id == id then ValuesOf(last.states, variable) else [])
  }

  /** What the loop at lines 88-94 leaves in its variable: the last matching value, None for unbound. */
  function LastValue(devices: seq<Device>, id: int, variable: string): Option<string>
  {
    LastOf(Matching(devices, id, variable))
  }

  /** State j of device i is a `variable` state of a device with this id. */
  ghost predicate Hit(devices: seq<Device>, id: int, variable: string, i: int, j: int)
  {
    0 <= i < |devices| && devices[i].id == id && 0 <= j < |devices[i].states| && devices[i].states[j].variable == variable
  }

  /** A device has no value for `variable` exactly when none of its states is named so. */
  lemma {:induction false} ValuesOfNone(states: seq<StateVar>, variable: string)
    ensures ValuesOf(states, variable) == [] <==> forall j :: 0 <= j < |states| ==> states[j].variable != variable
    decreases |states|
  {
    if states != [] {
      var init := states[..|states| - 1];
      ValuesOfNone(init, variable);
      forall j | 0 <= j < |init| ensures states[j] == init[j] { }
    }
  }

  /** The index of a device's last state named `variable`; its value is the last value found. */
  lemma {:induction false} LastHitIndex(states: seq<StateVar>, variable: string) returns (j: int)
    requires ValuesOf(states, variable) != []
    ensures 0 <= j < |states| && states[j].variable == variable
    ensures states[j].value == LastOf(ValuesOf(states, variable)).value
    ensures forall j' :: j < j' < |states| ==> states[j'].variable != variable
    decreases |states|
  {
    var n := |states| - 1;
    var init := states[..n];
    if states[n].variable == variable {
      j := n;
    } else {
      assert ValuesOf(states, variable) == ValuesOf(init, variable);
      j := LastHitIndex(init, variable);
      assert states[j] == init[j];
      forall j' | j < j' < |states| ensures states[j'].variable != variable {
        if j' < n { assert states[j'] == init[j']; }
      }
    }
  }

  lemma ValuesOfLast(states: seq<StateVar>, variable: string)
    ensures ValuesOf(states, variable) == [] <==> forall j :: 0 <= j < |states| ==> states[j].variable != variable
    ensures LastOf(ValuesOf(states, variable)).Some? ==>
      exists j :: 0 <= j < |states| && states[j].variable == variable
        && states[j].value == LastOf(ValuesOf(states, variable)).value
        && forall j' :: j < j' < |states| ==> states[j'].variable != variable
  {
    ValuesOfNone(states, variable);
    if ValuesOf(states, variable) != [] {
      var j := LastHitIndex(states, variable);
    }
  }

  /** The hits among all but the last device are the hits before it. */
  lemma HitsOfInit(devices: seq<Device>, id: int, variable: string)
    requires devices != []
    ensures forall i, j :: Hit(devices[..|devices| - 1], id, variable, i, j) <==>
      i < |devices| - 1 && Hit(devices, id, variable, i, j)
  {
    var init := devices[..|devices| - 1];
    forall i, j ensures Hit(init, id, variable, i, j) <==> i < |init| && Hit(devices, id, variable, i, j) {
      if 0 <= i < |init| { assert devices[i] == init[i]; }
    }
  }

  /**
   * The last value found wins: LastValue is None exactly when no device with
   * this id has such a state, and otherwise it is the value of the last such
   * state, in device order and then state order.
   */
  lemma {:induction false} LastValueIsLastHit(devices: seq<Device>, id: int, variable: string)
    ensures LastValue(devices, id, variable).None? <==> forall i, j :: !Hit(devices, id, variable, i, j)
    ensures LastValue(devices, id, variable).Some? ==>
      exists i, j :: Hit(devices, id, variable, i, j)
        && devices[i].states[j].value == LastValue(devices, id, variable).value
        && forall i', j' :: Hit(devices, id, variable, i', j') ==> i' < i || (i' == i && j' <= j)
    decreases |devices|
  {
    if devices == [] {
      return;
    }
    var n := |devices| - 1;
    var init := devices[..n];
    var d := devices[n];
    LastValueIsLastHit(init, id, variable);
    ValuesOfLast(d.states, variable);
    HitsOfInit(devices, id, variable);
    var own := if d.id == id then ValuesOf(d.states, variable) else [];
    assert Matching(devices, id, variable) == Matching(init, id, variable) + own;
    if own != [] {
      assert LastValue(devices, id, variable) == LastOf(ValuesOf(d.states, variable));
      var j :| 0 <= j < |d.states| && d.states[j].variable == variable
        && d.states[j].value == LastOf(ValuesOf(d.states, variable)).value
        && forall j' :: j < j' < |d.states| ==> d.states[j'].variable != variable;
      assert Hit(devices, id, variable, n, j);
    } else {
      assert Matching(devices, id, variable) == Matching(init, id, variable);
      forall j | 0 <= j < |d.states| ensures !Hit(devices, id, variable, n, j) {
      }
      if LastValue(init, id, variable).Some? {
        var i, j :| Hit(init, id, variable, i, j)
          && init[i].states[j].value == LastValue(init, id, variable).value
          && forall i', j' :: Hit(init, id, variable, i', j') ==> i' < i || (i' == i && j' <= j);
        assert devices[i] == init[i];
        assert Hit(devices, id, variable, i, j);
      }
    }
  }

  /**
   * The nested loop of lines 88-94: scan every device with the requested id
   * and remember the last Status and ConfiguredName values seen.
   */
  method ExtractDeviceState(devices: seq<Device>, id: int) returns (status: Option<string>, name: Option<string>)
    ensures status == LastValue(devices, id, "Status")
    ensures name == LastValue(devices, id, "ConfiguredName")
  {
    status, name := None, None;
    var i := 0;
    while i < |devices|
      invariant 0 <= i <= |devices|
      invariant status == LastValue(devices[..i], id, "Status")
      invariant name == LastValue(devices[..i], id, "ConfiguredName")
    {
      var dev := devices[i];
      assert devices[..i + 1][..i] == devices[..i];
      if dev.id == id {
        var j := 0;
        while j < |dev.states|
          invariant 0 <= j <= |dev.states|
          invariant status == LastOf(Matching(devices[..i], id, "Status") + ValuesOf(dev.states[..j], "Status"))
          invariant name == LastOf(Matching(devices[..i], id, "ConfiguredName") + ValuesOf(dev.states[..j], "ConfiguredName"))
        {
          var state := dev.states[j];
          assert dev.states[..j + 1][..j] == dev.states[..j];
          if state.variable == "Status" {
            status := Some(state.value);
          }
          if state.variable == "ConfiguredName" {
            name := Some(state.value);
          }
          j := j + 1;
        }
        assert dev.states[..j] == dev.states;
      }
      i := i + 1;
    }
    assert devices[..i] == devices;
  }

  /** The reply to a successful request, and the close_connection flag read after sending it (line 102). */
  function Respond(req: Request, query: Params, data: Option<DeviceData>): Exchange
  {
    var resp := Response(STATUS_OK, None, data);
    Exchange(Some(query), [resp],
             if req.closeConnection.Some? then Returned(req.closeConnection.value) else Raised(KeyError))
  }

  /** handle_msg (lines 35-102) as a decision: what is queried, what is sent, how the call ends. */
  function Dispatch(msg: Incoming, reply: Reply): (ex: Exchange)
    ensures |ex.sent| <= 1
    ensures ex.query.Some? <==> msg.Req? && MapAction(msg.request).Mapped?
    ensures ex.query.Some? ==> ex.query.value == MapAction(msg.request).params
    ensures ex.sent != [] && ex.sent[0].status != STATUS_OK ==>
      ex.ending == Returned(true) && ex.sent[0].data.None? && ex.sent[0].errStr.Some?
    ensures msg.Null? ==> ex.sent == [BadFormatResponse] && ex.ending == Returned(true)
    ensures msg.Req? && MapAction(msg.request).UnknownAction? ==>
      ex.sent == [InvalidActionResponse] && ex.ending == Returned(true)
    ensures Valid(msg) && reply.statusCode != HTTP_OK ==>
      ex.sent == [VeraErrorResponse] && ex.ending == Returned(true)
    ensures msg.Malformed? ==> ex == Exchange(None, [], Raised(ValueError))
    ensures msg.Req? && MapAction(msg.request).MissingPower? ==> ex == Exchange(None, [], Raised(KeyError))
    ensures (Valid(msg) && reply.statusCode == HTTP_OK && msg.request.actionType == "get"
             && !DeviceFound(msg.request, reply)) ==> ex.sent == [] && ex.ending == Raised(NameError)
  {
    match msg
    case Malformed => Exchange(None, [], Raised(ValueError))
    case Null => Exchange(None, [BadFormatResponse], Returned(true))
    case Req(req) =>
      match MapAction(req)
      case UnknownAction => Exchange(None, [InvalidActionResponse], Returned(true))
      case MissingPower => Exchange(None, [], Raised(KeyError))
      case Mapped(query) =>
        if reply.statusCode != HTTP_OK then
          Exchange(Some(query), [VeraErrorResponse], Returned(true))
        else if req.actionType == "get" then
          var status := LastValue(reply.devices, req.id, "Status");
          var name := LastValue(reply.devices, req.id, "ConfiguredName");
          if status.None? || name.None? then Exchange(Some(query), [], Raised(NameError))
          else Respond(req, query, Some(DeviceData(status.value, name.value)))
        else
          Respond(req, query, None)
  }

  /** The request was understood: a known action with everything it needs. */
  predicate Valid(msg: Incoming)
  {
    msg.Req? && MapAction(msg.request).Mapped?
  }

  /** For a get, the device was found with both its state variables. */
  predicate DeviceFound(req: Request, reply: Reply)
  {
    LastValue(reply.devices, req.id, "Status").Some? && LastValue(reply.devices, req.id, "ConfiguredName").Some?
  }

  /**
   * Which response handle_msg sends: status 1 for JSON null and unknown
   * actions, status 2 when the hub does not answer 200, status 0 otherwise;
   * nothing when it raises before sending.
   */
  lemma DispatchClassifies(msg: Incoming, reply: Reply)
    ensures var ex := Dispatch(msg, reply);
      && (ex.sent != [] && ex.sent[0].status == STATUS_BAD_REQUEST <==>
            msg.Null? || (msg.Req? && MapAction(msg.request).UnknownAction?))
      && (ex.sent != [] && ex.sent[0].status == STATUS_VERA_ERROR <==> Valid(msg) && reply.statusCode != HTTP_OK)
      && (ex.sent != [] && ex.sent[0].status == STATUS_OK <==>
            Valid(msg) && reply.statusCode == HTTP_OK
            && (msg.request.actionType == "get" ==> DeviceFound(msg.request, reply)))
      && (ex.sent == [] <==>
            || msg.Malformed?
            || (msg.Req? && MapAction(msg.request).MissingPower?)
            || (Valid(msg) && reply.statusCode == HTTP_OK && msg.request.actionType == "get"
                && !DeviceFound(msg.request, reply)))
  {
  }

  /**
   * A successful request gets exactly one status-0 response with no error
   * text, carrying the device's status and name for a get and nothing
   * otherwise, and handle_msg returns the request's close_connection flag.
   */
  lemma DispatchSuccess(msg: Incoming, reply: Reply)
    requires Valid(msg) && reply.statusCode == HTTP_OK
    requires msg.request.actionType == "get" ==> DeviceFound(msg.request, reply)
    ensures var ex := Dispatch(msg, reply); var req := msg.request;
      && ex.sent == [Response(STATUS_OK, None,
                              if req.actionType == "get"
                              then Some(DeviceData(LastValue(reply.devices, req.id, "Status").value,
                                                   LastValue(reply.devices, req.id, "ConfiguredName").value))
                              else None)]
      && ex.ending == if req.closeConnection.Some? then Returned(req.closeConnection.value) else Raised(KeyError)
  {
  }

  /** handle_msg with its side effects: the hub is asked once, each response is sent as it is built. */
  method HandleMsg(msg: Incoming, reply: Reply) returns (ex: Exchange)
    ensures ex == Dispatch(msg, reply)
  {
    if msg.Malformed? {
      return Exchange(None, [], Raised(ValueError));
    }
    if msg.Null? {
      return Exchange(None, [BadFormatResponse], Returned(true));
    }
    var req := msg.request;
    var mapping := MapAction(req);
    if mapping.UnknownAction? {
      return Exchange(None, [InvalidActionResponse], Returned(true));
    }
    if mapping.MissingPower? {
      return Exchange(None, [], Raised(KeyError));
    }
    var query := mapping.params;
    if reply.statusCode != HTTP_OK {
      return Exchange(Some(query), [VeraErrorResponse], Returned(true));
    }
    var data: Option<DeviceData> := None;
    if req.actionType == "get" {
      var status, name := ExtractDeviceState(reply.devices, req.id);
      if status.None? || name.None? {
        return Exchange(Some(query), [], Raised(NameError));
      }
      data := Some(DeviceData(status.value, name.value));
    }
    var resp := Response(STATUS_OK, None, data);
    if req.closeConnection.None? {
      return Exchange(Some(query), [resp], Raised(KeyError));
    }
    return Exchange(Some(query), [resp], Returned(req.closeConnection.value));
  }

  /** One read of the connection paired with the reply the hub gives to it. */
  datatype Turn = Turn(msg: Incoming, reply: Reply)

  datatype SessionEnd = Closed | Crashed(fault: Fault)

  /** A connection's history: hub queries, responses sent, handle_msg calls made, and how it ended. */
  datatype SessionLog = SessionLog(queries: seq<Params>, sent: seq<Response>, calls: nat, end: SessionEnd)

  function Exchanged(t: Turn): Exchange
  {
    Dispatch(t.msg, t.reply)
  }

  function QueryList(q: Option<Params>): seq<Params>
  {
    if q.Some? then [q.value] else []
  }

  /** A log that starts with the given queries, responses and calls and then goes on as `log`. */
  function Prepend(queries: seq<Params>, sent: seq<Response>, calls: nat, log: SessionLog): SessionLog
  {
    SessionLog(queries + log.queries, sent + log.sent, calls + log.calls, log.end)
  }

  /**
   * Lines 151-158: call handle_msg once per read while it returns False. Once
   * the peer has closed, read() returns '' and json.loads raises.
   */
  function Session(turns: seq<Turn>): (log: SessionLog)
    ensures 1 <= log.calls <= |turns| + 1
    ensures |log.queries| <= log.calls && |log.sent| <= log.calls
  {
    if turns == [] then SessionLog([], [], 1, Crashed(ValueError))
    else
      var ex := Exchanged(turns[0]);
      match ex.ending
      case Returned(close) =>
        if close then SessionLog(QueryList(ex.query), ex.sent, 1, Closed)
        else Prepend(QueryList(ex.query), ex.sent, 1, Session(turns[1..]))
      case Raised(fault) => SessionLog(QueryList(ex.query), ex.sent, 1, Crashed(fault))
  }

  /** Every response of these turns, in order. */
  function SentAll(turns: seq<Turn>): seq<Response>
  {
    if turns == [] then [] else Exchanged(turns[0]).sent + SentAll(turns[1..])
  }

  /** Every hub query of these turns, in order. */
  function QueriesAll(turns: seq<Turn>): seq<Params>
  {
    if turns == [] then [] else QueryList(Exchanged(turns[0]).query) + QueriesAll(turns[1..])
  }

  /** The hub queries of the first m + 1 turns are those of the first turn, then those of the next m. */
  lemma QueriesAllFirst(turns: seq<Turn>, m: nat)
    requires m < |turns|
    ensures QueriesAll(turns[..m + 1]) == QueryList(Exchanged(turns[0]).query) + QueriesAll(turns[1..][..m])
  {
    assert turns[..m + 1][1..] == turns[1..][..m];
  }

  /** The responses of the first m + 1 turns are those of the first turn, then those of the next m. */
  lemma SentAllFirst(turns: seq<Turn>, m: nat)
    requires m < |turns|
    ensures SentAll(turns[..m + 1]) == Exchanged(turns[0]).sent + SentAll(turns[1..][..m])
  {
    assert turns[..m + 1][1..] == turns[1..][..m];
  }

  /** Every call of a session but its last returned False. */
  lemma {:induction false} SessionEarlierCalls(turns: seq<Turn>)
    ensures forall k :: 0 <= k < Session(turns).calls - 1 ==> Exchanged(turns[k]).ending == Returned(false)
    decreases |turns|
  {
    if turns != [] {
      var ex := Exchanged(turns[0]);
      if ex.ending == Returned(false) {
        SessionEarlierCalls(turns[1..]);
        var rest := Session(turns[1..]);
        assert Session(turns) == Prepend(QueryList(ex.query), ex.sent, 1, rest);
        forall k | 0 <= k < rest.calls ensures Exchanged(turns[k]).ending == Returned(false) {
          if k > 0 { assert turns[k] == turns[1..][k - 1]; }
        }
      }
    }
  }

  /** The last call of a session did not return False, and the session ends Closed exactly when it returned True. */
  lemma {:induction false} SessionLastCall(turns: seq<Turn>)
    ensures var log := Session(turns);
      && (log.calls <= |turns| ==> Exchanged(turns[log.calls - 1]).ending != Returned(false))
      && (log.end == Closed <==> log.calls <= |turns| && Exchanged(turns[log.calls - 1]).ending == Returned(true))
    decreases |turns|
  {
    if turns != [] {
      var ex := Exchanged(turns[0]);
      if ex.ending == Returned(false) {
        SessionLastCall(turns[1..]);
        var rest := Session(turns[1..]);
        assert Session(turns) == Prepend(QueryList(ex.query), ex.sent, 1, rest);
        if rest.calls <= |turns| - 1 {
          assert turns[rest.calls] == turns[1..][rest.calls - 1];
        }
      }
    }
  }

  /** Which calls a session makes: every call but the last returned False, and the last decides how it ends. */
  lemma SessionCalls(turns: seq<Turn>)
    ensures var log := Session(turns);
      && (forall k :: 0 <= k < log.calls - 1 ==> Exchanged(turns[k]).ending == Returned(false))
      && (log.calls <= |turns| ==> Exchanged(turns[log.calls - 1]).ending != Returned(false))
      && (log.end == Closed <==> log.calls <= |turns| && Exchanged(turns[log.calls - 1]).ending == Returned(true))
  {
    SessionEarlierCalls(turns);
    SessionLastCall(turns);
  }

  /** What a session sends: the responses of the calls it made, in order. */
  lemma {:induction false} SessionSent(turns: seq<Turn>)
    ensures var log := Session(turns);
      log.sent == SentAll(turns[..if log.calls <= |turns| then log.calls else |turns|])
    decreases |turns|
  {
    if turns != [] {
      var ex := Exchanged(turns[0]);
      if ex.ending == Returned(false) {
        SessionSent(turns[1..]);
        var rest := Session(turns[1..]);
        assert Session(turns) == Prepend(QueryList(ex.query), ex.sent, 1, rest);
        var m := if rest.calls <= |turns| - 1 then rest.calls else |turns| - 1;
        SentAllFirst(turns, m);
      } else {
        assert turns[..1][1..] == [];
      }
    }
  }

  /** What a session asks the hub: the queries of the calls it made, in order. */
  lemma {:induction false} SessionQueries(turns: seq<Turn>)
    ensures var log := Session(turns);
      log.queries == QueriesAll(turns[..if log.calls <= |turns| then log.calls else |turns|])
    decreases |turns|
  {
    if turns != [] {
      var ex := Exchanged(turns[0]);
      if ex.ending == Returned(false) {
        SessionQueries(turns[1..]);
        var rest := Session(turns[1..]);
        assert Session(turns) == Prepend(QueryList(ex.query), ex.sent, 1, rest);
        var m := if rest.calls <= |turns| - 1 then rest.calls else |turns| - 1;
        QueriesAllFirst(turns, m);
      } else {
        assert turns[..1][1..] == [];
      }
    }
  }

  /**
   * The session stops after the first call that does not return False: every
   * earlier call returned False, the responses are those of the calls made, in
   * order, and it ends Closed exactly when that last call returned True.
   */
  lemma SessionStopsAtFirstClose(turns: seq<Turn>)
    ensures var log := Session(turns);
      && 1 <= log.calls <= |turns| + 1
      && (forall k :: 0 <= k < log.calls - 1 ==> Exchanged(turns[k]).ending == Returned(false))
      && (log.calls <= |turns| ==> Exchanged(turns[log.calls - 1]).ending != Returned(false))
      && (log.end == Closed <==> log.calls <= |turns| && Exchanged(turns[log.calls - 1]).ending == Returned(true))
      && log.sent == SentAll(turns[..if log.calls <= |turns| then log.calls else |turns|])
      && |log.sent| <= log.calls
  {
    SessionCalls(turns);
    SessionSent(turns);
  }

  /**
   * Close on error: an error response is the last thing a session sends, and
   * the session then ends Closed.
   */
  lemma {:induction false} ErrorEndsSession(turns: seq<Turn>)
    ensures forall k :: 0 <= k < |Session(turns).sent| && Session(turns).sent[k].status != STATUS_OK ==>
      k == |Session(turns).sent| - 1 && Session(turns).end == Closed
    decreases |turns|
  {
    if turns != [] {
      var ex := Exchanged(turns[0]);
      if ex.ending == Returned(false) {
        ErrorEndsSession(turns[1..]);
        var rest := Session(turns[1..]);
        assert Session(turns) == Prepend(QueryList(ex.query), ex.sent, 1, rest);
        var all := Session(turns).sent;
        assert all == ex.sent + rest.sent;
        forall k | 0 <= k < |all| && all[k].status != STATUS_OK
          ensures k == |all| - 1 && Session(turns).end == Closed
        {
          var r := k - |ex.sent|;
          assert rest.sent[r] == all[k];
          assert 0 <= r < |rest.sent| && rest.sent[r].status != STATUS_OK;
          assert r == |rest.sent| - 1 && rest.end == Closed;
        }
      }
    }
  }

  lemma PrependPrepend(q1: seq<Params>, s1: seq<Response>, c1: nat,
                       q2: seq<Params>, s2: seq<Response>, c2: nat, log: SessionLog)
    ensures Prepend(q1, s1, c1, Prepend(q2, s2, c2, log)) == Prepend(q1 + q2, s1 + s2, c1 + c2, log)
  {
    assert q1 + (q2 + log.queries) == (q1 + q2) + log.queries;
    assert s1 + (s2 + log.sent) == (s1 + s2) + log.sent;
  }

  /** The accept-loop body for one connection (lines 151-161). */
  method Serve(turns: seq<Turn>) returns (log: SessionLog)
    ensures log == Session(turns)
  {
    var queries: seq<Params> := [];
    var sent: seq<Response> := [];
    var i := 0;
    var clientDone := false;
    var end := Closed;
    assert turns[0..] == turns;
    while !clientDone
      invariant 0 <= i <= |turns| + 1
      invariant !clientDone ==> i <= |turns| && Session(turns) == Prepend(queries, sent, i, Session(turns[i..]))
      invariant clientDone ==> Session(turns) == SessionLog(queries, sent, i, end)
      decreases |turns| + 1 - i, !clientDone
    {
      var msg, reply := Malformed, Reply(HTTP_OK, []);
      if i < |turns| {
        msg, reply := turns[i].msg, turns[i].reply;
      }
      var ex := HandleMsg(msg, reply);
      ghost var here := Session(turns[i..]);
      var q, s := QueryList(ex.query), ex.sent;
      if i < |turns| {
        assert turns[i..][0] == turns[i];
        assert turns[i..][1..] == turns[i + 1..];
        assert ex == Exchanged(turns[i..][0]);
      }
      PrependPrepend(queries, sent, i, q, s, 1, if i < |turns| then Session(turns[i + 1..]) else here);
      queries := queries + q;
      sent := sent + s;
      i := i + 1;
      match ex.ending
      case Raised(fault) =>
        clientDone, end := true, Crashed(fault);
        assert here == SessionLog(q, s, 1, end);
      case Returned(close) =>
        clientDone, end := close, Closed;
        if close {
          assert here == SessionLog(q, s, 1, end);
        } else {
          assert here == Prepend(q, s, 1, Session(turns[i..]));
        }
    }
    log := SessionLog(queries, sent, i, end);
  }
}
