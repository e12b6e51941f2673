/** The client's connection pool and its sessions: any number of requests run at once, and their
    handlers interleave in any order. Every handler and every critical section is one step, and
    what the network and the iteration order of the pool decide is a parameter of the step. */
module ConnectionPool {
  import opened Text
  import opened Findings
  import Framing
  import Exchange

  type ConnectionId = nat
  type SessionId = nat

  datatype Connection = Connection(inUse: bool, attemptReconnect: bool)

  /** What a session waits for. The content of a response is read by its length, chunk by chunk or
      up to the end of the stream. `Dropped` is a session whose handler found the runner stopped,
      `Abandoned` one whose handler was left by an exception. */
  datatype Phase =
    | Resolving
    | Connecting
    | Writing
    | ReadingHead
    | ReadingLength
    | ReadingChunks
    | ReadingToEnd
    | Finished
    | Dropped
    | Abandoned

  /** One write: the connection and the view of the request buffer that it sends. */
  datatype Transmission = Transmission(connection: ConnectionId, bytes: string)

  /** What the callback is told. */
  datatype Outcome = Succeeded | Failed

  /** `request` is what the caller asked for, `requestBuffer` the stream buffer that is written, and
      `response` all that has arrived in the stream buffer of the response. */
  datatype Session = Session(
    connection: ConnectionId,
    request: string,
    requestBuffer: string,
    response: string,
    phase: Phase,
    sent: seq<Transmission>,
    reconnects: nat,
    callbacks: seq<Outcome>)

  datatype State = State(
    connections: map<ConnectionId, Connection>,
    pool: set<ConnectionId>,
    sessions: map<SessionId, Session>,
    runnerStopped: bool)

  const INITIAL := State(map[], {}, map[], false)

  /** How an asynchronous operation completes. */
  datatype Code = Ok | NotFound | Aborted | Eof | OtherError

  // ---------------------------------------------------------------------------------------------
  // The two loops over the pool

  /** `order` lists the pool: the order of an iteration over the hash set. */
  predicate Enumerates(order: seq<ConnectionId>, pool: set<ConnectionId>) {
    && (set c | c in order) == pool
    && forall i, j :: 0 <= i < j < |order| ==> order[i] != order[j]
  }

  function FirstIdle(connections: map<ConnectionId, Connection>, order: seq<ConnectionId>): (id: Option<ConnectionId>)
    requires forall c :: c in order ==> c in connections
    ensures id.Some? ==> id.value in order && !connections[id.value].inUse
    ensures id.None? ==> forall c :: c in order ==> connections[c].inUse
  {
    if order == [] then None
    else if !connections[order[0]].inUse then Some(order[0])
    else FirstIdle(connections, order[1..])
  }

  /** What the loop of the request callback leaves of the pool: with an error not the connection
      itself, and of the idle ones only the first in the order of the iteration. */
  function Kept(connections: map<ConnectionId, Connection>, order: seq<ConnectionId>,
                failed: bool, connection: ConnectionId, unused: nat): (kept: seq<ConnectionId>)
    requires forall c :: c in order ==> c in connections
    ensures forall c :: c in kept ==> c in order
  {
    if order == [] then []
    else
      var c := order[0];
      if failed && connection == c then Kept(connections, order[1..], failed, connection, unused)
      else if connections[c].inUse then [c] + Kept(connections, order[1..], failed, connection, unused)
      else if unused + 1 > 1 then Kept(connections, order[1..], failed, connection, unused + 1)
      else [c] + Kept(connections, order[1..], failed, connection, unused + 1)
  }

  /** Connections in use stay, unless one failed; of the idle ones at most one stays, and one does
      if there is one. */
  lemma {:induction false} KeptFacts(connections: map<ConnectionId, Connection>, order: seq<ConnectionId>,
                                     failed: bool, connection: ConnectionId, unused: nat)
    requires forall c :: c in order ==> c in connections
    ensures var kept := Kept(connections, order, failed, connection, unused);
            && (forall c :: c in kept ==> !(failed && c == connection))
            && (forall c :: c in order && connections[c].inUse && !(failed && c == connection) ==> c in kept)
            && (unused > 0 ==> forall c :: c in kept ==> connections[c].inUse)
            && (forall c, d :: c in kept && d in kept && !connections[c].inUse && !connections[d].inUse ==> c == d)
            && (unused == 0 && (exists c :: c in order && !connections[c].inUse && !(failed && c == connection))
                ==> exists c :: c in kept && !connections[c].inUse)
  {
    if order != [] {
      var c := order[0];
      var skip := failed && connection == c;
      var u := if !skip && !connections[c].inUse then unused + 1 else unused;
      var kept := Kept(connections, order, failed, connection, unused);
      var rest := Kept(connections, order[1..], failed, connection, u);
      KeptFacts(connections, order[1..], failed, connection, u);
      assert forall d :: d in order <==> d == c || d in order[1..];
      assert forall d :: d in rest ==> d in kept;
      if unused == 0 && !skip && !connections[c].inUse {
        assert c in kept;
      }
    }
  }

  // ---------------------------------------------------------------------------------------------
  // Sessions

  /** The session goes on to `phase`. */
  function Moved(s: State, id: SessionId, phase: Phase): (r: State)
    requires id in s.sessions
    ensures r.sessions.Keys == s.sessions.Keys
  {
    s.(sessions := s.sessions[id := s.sessions[id].(phase := phase)])
  }

  /** `write`: a write of a view of the request buffer is started, which takes nothing from it. */
  function WriteStarted(session: Session): (r: Session) {
    session.(phase := Writing, sent := session.sent + [Transmission(session.connection, session.requestBuffer)])
  }

  /** `connect`: a connection that is open already is written to at once. */
  function Connected(session: Session, open: bool): (r: Session) {
    if open then WriteStarted(session) else session.(phase := Resolving)
  }

  function NewSession(c: ConnectionId, request: string): (session: Session) {
    Session(c, request, request, "", Resolving, [], 0, [])
  }

  /** `get_connection`, and the start of the session: an idle connection of the pool if there is
      one, otherwise a new one. */
  function Requested(s: State, id: SessionId, request: string, order: seq<ConnectionId>,
                     newId: ConnectionId, open: bool): (r: State)
    requires s.pool <= s.connections.Keys && Enumerates(order, s.pool)
  {
    var idle := FirstIdle(s.connections, order);
    var c := if idle.Some? then idle.value else newId;
    s.(connections := s.connections[c := Connection(true, true)],
       pool := s.pool + {c},
       sessions := s.sessions[id := Connected(NewSession(c, request), idle.Some? && open)])
  }

  function Ended(session: Session, failed: bool): (r: Session) {
    session.(phase := Finished, callbacks := session.callbacks + [if failed then Failed else Succeeded])
  }

  /** The callback of the session, with or without an error. */
  function CalledBack(s: State, id: SessionId, failed: bool, order: seq<ConnectionId>): (r: State)
    requires id in s.sessions && s.sessions[id].connection in s.connections
    requires s.pool <= s.connections.Keys && Enumerates(order, s.pool)
    ensures r.sessions.Keys == s.sessions.Keys
  {
    var session := s.sessions[id];
    var connections := s.connections[session.connection := s.connections[session.connection].(inUse := false)];
    s.(connections := connections,
       pool := (set c | c in Kept(connections, order, failed, session.connection, 0)),
       sessions := s.sessions[id := Ended(session, failed)])
  }

  /** The session is run once more on a new connection, which takes the place of the old one. */
  function Reconnected(s: State, id: SessionId, newId: ConnectionId): (r: State)
    requires id in s.sessions
    ensures r.sessions.Keys == s.sessions.Keys
  {
    var session := s.sessions[id];
    s.(connections := s.connections[newId := Connection(true, false)],
       pool := s.pool - {session.connection} + {newId},
       sessions := s.sessions[id := session.(connection := newId, phase := Resolving,
                                             reconnects := session.reconnects + 1)])
  }

  /** A connection on which a response arrives may be tried again later. */
  function HeadArrived(s: State, c: ConnectionId): (r: State)
    requires c in s.connections
    ensures r.sessions.Keys == s.sessions.Keys
  {
    s.(connections := s.connections[c := s.connections[c].(attemptReconnect := true)])
  }

  /** The handler of the response head. */
  function HeadRead(s: State, id: SessionId, code: Code, finding: Finding, order: seq<ConnectionId>,
                    newId: ConnectionId): (r: State)
    requires id in s.sessions && s.sessions[id].connection in s.connections
    requires s.pool <= s.connections.Keys && Enumerates(order, s.pool)
    ensures r.sessions.Keys == s.sessions.Keys
  {
    var c := s.sessions[id].connection;
    if (code == Ok || code == NotFound) && finding == Full then
      CalledBack(s, id, true, order)
    else if code == Ok then
      var t := HeadArrived(s, c);
      match finding
      case ByLength => Moved(t, id, ReadingLength)
      case ByChunks => Moved(t, id, ReadingChunks)
      case ToEnd => Moved(t, id, ReadingToEnd)
      case BadLength => Moved(t, id, Abandoned)
      case Complete => CalledBack(t, id, false, order)
      case Malformed => CalledBack(t, id, true, order)
    else if s.connections[c].attemptReconnect && code != Aborted && c in s.pool then
      Reconnected(s, id, newId)
    else
      CalledBack(s, id, true, order)
  }

  /** The handler of the operation that the session waits for. */
  function Handled(s: State, id: SessionId, code: Code, finding: Finding, order: seq<ConnectionId>,
                   newId: ConnectionId): (r: State)
    requires id in s.sessions && s.sessions[id].connection in s.connections
    requires s.pool <= s.connections.Keys && Enumerates(order, s.pool)
    ensures r.sessions.Keys == s.sessions.Keys
  {
    var session := s.sessions[id];
    if s.runnerStopped then Moved(s, id, Dropped)
    else
      match session.phase
      case Resolving => if code == Ok then Moved(s, id, Connecting) else CalledBack(s, id, true, order)
      case Connecting =>
        if code == Ok then s.(sessions := s.sessions[id := WriteStarted(session)])
        else CalledBack(s, id, true, order)
      case Writing => if code == Ok then Moved(s, id, ReadingHead) else CalledBack(s, id, true, order)
      case ReadingHead => HeadRead(s, id, code, finding, order, newId)
      case ReadingLength => CalledBack(s, id, code != Ok || finding == Full, order)
      case ReadingToEnd => CalledBack(s, id, !(code == Eof || (code == Ok && finding != Full)), order)
      case ReadingChunks =>
        if code != Ok || finding == Full || finding == Malformed then CalledBack(s, id, true, order)
        else if finding == Complete then CalledBack(s, id, false, order)
        else s
      case _ => s
  }

  // ---------------------------------------------------------------------------------------------
  // Runs

  datatype Step =
    | Request(id: SessionId, request: string, order: seq<ConnectionId>, newId: ConnectionId, open: bool)
    | Handle(id: SessionId, code: Code, finding: Finding, order: seq<ConnectionId>, newId: ConnectionId,
             arrived: string)
    | Stop
    | StopRunner

  /** A session that has not come to its end. */
  predicate Unfinished(s: State, id: SessionId) {
    id in s.sessions && s.sessions[id].phase != Finished
  }

  /** A session with an operation that has not completed. */
  predicate Pending(s: State, id: SessionId) {
    Unfinished(s, id) && s.sessions[id].phase != Dropped && s.sessions[id].phase != Abandoned
  }

  predicate IsReading(phase: Phase) {
    phase == ReadingHead || phase == ReadingLength || phase == ReadingChunks || phase == ReadingToEnd
  }

  /** The bytes that the operation has read, with or without an error, are in the stream buffer of the
      response, whichever connection they came from. */
  function Received(s: State, id: SessionId, arrived: string): (r: State)
    requires id in s.sessions
    ensures r.sessions.Keys == s.sessions.Keys
  {
    s.(sessions := s.sessions[id := s.sessions[id].(response := s.sessions[id].response + arrived)])
  }

  predicate Enabled(s: State, step: Step) {
    && s.pool <= s.connections.Keys
    && match step
       case Request(id, _, order, newId, _) =>
         id !in s.sessions && newId !in s.connections && Enumerates(order, s.pool)
       case Handle(id, code, finding, order, newId, arrived) =>
         Pending(s, id) && s.sessions[id].connection in s.connections
         && newId !in s.connections && Enumerates(order, s.pool)
         && (IsReading(s.sessions[id].phase) || arrived == "")
       case _ => true
  }

  function Apply(s: State, step: Step): (r: State)
    requires Enabled(s, step)
    ensures r.sessions.Keys == s.sessions.Keys + (if step.Request? then {step.id} else {})
  {
    match step
    case Request(id, request, order, newId, open) => Requested(s, id, request, order, newId, open)
    case Handle(id, code, finding, order, newId, arrived) =>
      Handled(Received(s, id, arrived), id, code, finding, order, newId)
    case Stop => s.(pool := {})
    case StopRunner => s.(runnerStopped := true)
  }

  /** A search for the head succeeds exactly if there is one in the buffer, and what is found is in
      the bytes, unless the buffer is full. The invariants hold of all runs, those with other
      findings included. */
  predicate Finds(bytes: string, code: Code, finding: Finding) {
    (code == Ok <==> HasHead(bytes)) && (code == Ok ==> finding == Full || finding == HeadFinding(bytes))
  }

  predicate Truthful(s: State, step: Step)
    requires Enabled(s, step)
  {
    step.Handle? && s.sessions[step.id].phase == ReadingHead ==>
      Finds(s.sessions[step.id].response + step.arrived, step.code, step.finding)
  }

  predicate AllTruthful(s: State, steps: seq<Step>)
    requires IsRun(s, steps)
    decreases |steps|
  {
    steps == [] || (Truthful(s, steps[0]) && AllTruthful(Apply(s, steps[0]), steps[1..]))
  }

  predicate IsRun(s: State, steps: seq<Step>)
    decreases |steps|
  {
    steps == [] || (Enabled(s, steps[0]) && IsRun(Apply(s, steps[0]), steps[1..]))
  }

  function After(s: State, steps: seq<Step>): (r: State)
    requires IsRun(s, steps)
    decreases |steps|
  {
    if steps == [] then s else After(Apply(s, steps[0]), steps[1..])
  }

  // ---------------------------------------------------------------------------------------------
  // The invariant

  /** What is kept about who uses which connection. */
  ghost predicate Exclusive(s: State) {
    && s.pool <= s.connections.Keys
    && (forall a :: Unfinished(s, a) ==>
          s.sessions[a].connection in s.connections && s.connections[s.sessions[a].connection].inUse)
    && (forall a, b :: Unfinished(s, a) && Unfinished(s, b) && a != b ==>
          s.sessions[a].connection != s.sessions[b].connection)
    && (forall c, d :: c in s.pool && d in s.pool && !s.connections[c].inUse && !s.connections[d].inUse ==> c == d)
    && (forall c :: c in s.pool && s.connections[c].inUse ==>
          exists a :: Unfinished(s, a) && s.sessions[a].connection == c)
  }

  /** How often the request of a session in this phase was sent, beyond the reconnects. */
  predicate SentAsOften(session: Session) {
    match session.phase
    case Resolving => |session.sent| == session.reconnects
    case Connecting => |session.sent| == session.reconnects
    case Finished => |session.sent| <= session.reconnects + 1
    case Dropped => |session.sent| <= session.reconnects + 1
    case Abandoned => |session.sent| <= session.reconnects + 1
    case _ => |session.sent| == session.reconnects + 1
  }

  predicate BeforeHead(phase: Phase) {
    phase == Resolving || phase == Connecting || phase == Writing || phase == ReadingHead
  }

  /** What is kept about one session: one callback, at the end; at most one reconnect, after which
      its connection says so until the head is read; and every write is the whole request, each on
      a connection of its own. */
  ghost predicate Orderly(s: State, session: Session) {
    && |session.callbacks| == (if session.phase == Finished then 1 else 0)
    && (session.phase == Dropped ==> s.runnerStopped)
    && session.reconnects <= 1
    && (BeforeHead(session.phase) && session.connection in s.connections ==>
          s.connections[session.connection].attemptReconnect == (session.reconnects == 0))
    && SentAsOften(session)
    && session.requestBuffer == session.request
    && (forall i :: 0 <= i < |session.sent| ==>
          session.sent[i].bytes == session.request && session.sent[i].connection in s.connections)
    && (session.phase == Resolving || session.phase == Connecting ==>
          forall i :: 0 <= i < |session.sent| ==> session.sent[i].connection != session.connection)
    && (forall i, j :: 0 <= i < j < |session.sent| ==> session.sent[i].connection != session.sent[j].connection)
  }

  ghost predicate AllOrderly(s: State) {
    forall a :: a in s.sessions ==> Orderly(s, s.sessions[a])
  }

  ghost predicate Safe(s: State) {
    Exclusive(s) && AllOrderly(s)
  }

  lemma ReceivedSafe(s: State, id: SessionId, arrived: string)
    requires Safe(s) && Unfinished(s, id)
    ensures Safe(Received(s, id, arrived))
  {
    var t := Received(s, id, arrived);
    SameConnectionExclusive(s, t, id);
    forall a | a in t.sessions ensures Orderly(t, t.sessions[a]) {
      assert Orderly(s, s.sessions[a]);
    }
  }

  /** A session changes, but neither ends nor changes its connection. */
  lemma SameConnectionExclusive(s: State, t: State, id: SessionId)
    requires Exclusive(s) && Unfinished(s, id) && id in t.sessions
    requires t == s.(sessions := s.sessions[id := t.sessions[id]])
    requires t.sessions[id].connection == s.sessions[id].connection && t.sessions[id].phase != Finished
    ensures Exclusive(t)
  {
    assert forall a :: Unfinished(t, a) <==> Unfinished(s, a);
  }

  lemma HeadArrivedExclusive(s: State, c: ConnectionId)
    requires Exclusive(s) && c in s.connections
    ensures Exclusive(HeadArrived(s, c))
  {
    assert forall a :: Unfinished(HeadArrived(s, c), a) <==> Unfinished(s, a);
  }

  lemma RequestedExclusive(s: State, id: SessionId, request: string, order: seq<ConnectionId>,
                           newId: ConnectionId, open: bool)
    requires Exclusive(s) && id !in s.sessions && newId !in s.connections && Enumerates(order, s.pool)
    ensures Exclusive(Requested(s, id, request, order, newId, open))
  {
    var t := Requested(s, id, request, order, newId, open);
    var c := t.sessions[id].connection;
    assert forall d :: d in order <==> d in s.pool;
    assert forall a :: Unfinished(t, a) <==> a == id || Unfinished(s, a);
    forall d | d in t.pool && t.connections[d].inUse
      ensures exists a :: Unfinished(t, a) && t.sessions[a].connection == d
    {
      if d == c {
        assert Unfinished(t, id);
      } else {
        var a :| Unfinished(s, a) && s.sessions[a].connection == d;
        assert Unfinished(t, a);
      }
    }
  }

  lemma CalledBackExclusive(s: State, id: SessionId, failed: bool, order: seq<ConnectionId>)
    requires Exclusive(s) && Unfinished(s, id) && Enumerates(order, s.pool)
    ensures Exclusive(CalledBack(s, id, failed, order))
  {
    var t := CalledBack(s, id, failed, order);
    var c := s.sessions[id].connection;
    assert forall d :: d in order <==> d in s.pool;
    KeptFacts(t.connections, order, failed, c, 0);
    assert forall a :: Unfinished(t, a) <==> a != id && Unfinished(s, a);
    forall d | d in t.pool && t.connections[d].inUse
      ensures exists a :: Unfinished(t, a) && t.sessions[a].connection == d
    {
      var a :| Unfinished(s, a) && s.sessions[a].connection == d;
      assert Unfinished(t, a);
    }
  }

  lemma ReconnectedExclusive(s: State, id: SessionId, newId: ConnectionId)
    requires Exclusive(s) && Unfinished(s, id) && newId !in s.connections
    ensures Exclusive(Reconnected(s, id, newId))
  {
    var t := Reconnected(s, id, newId);
    assert forall a :: Unfinished(t, a) <==> Unfinished(s, a);
    forall d | d in t.pool && t.connections[d].inUse
      ensures exists a :: Unfinished(t, a) && t.sessions[a].connection == d
    {
      if d == newId {
        assert Unfinished(t, id);
      } else {
        var a :| Unfinished(s, a) && s.sessions[a].connection == d;
        assert Unfinished(t, a);
      }
    }
  }

  lemma HeadReadExclusive(s: State, id: SessionId, code: Code, finding: Finding, order: seq<ConnectionId>,
                          newId: ConnectionId)
    requires Exclusive(s) && Pending(s, id) && newId !in s.connections && Enumerates(order, s.pool)
    ensures Exclusive(HeadRead(s, id, code, finding, order, newId))
  {
    var c := s.sessions[id].connection;
    if code == Ok && finding != Full {
      var t := HeadArrived(s, c);
      HeadArrivedExclusive(s, c);
      if finding == Complete || finding == Malformed {
        CalledBackExclusive(t, id, finding == Malformed, order);
      } else {
        SameConnectionExclusive(t, HeadRead(s, id, code, finding, order, newId), id);
      }
    } else if !((code == Ok || code == NotFound) && finding == Full)
              && s.connections[c].attemptReconnect && code != Aborted && c in s.pool {
      ReconnectedExclusive(s, id, newId);
    } else {
      CalledBackExclusive(s, id, true, order);
    }
  }

  lemma HandledExclusive(s: State, id: SessionId, code: Code, finding: Finding, order: seq<ConnectionId>,
                         newId: ConnectionId)
    requires Exclusive(s) && Pending(s, id) && newId !in s.connections && Enumerates(order, s.pool)
    ensures Exclusive(Handled(s, id, code, finding, order, newId))
  {
    var t := Handled(s, id, code, finding, order, newId);
    if !s.runnerStopped && s.sessions[id].phase == ReadingHead {
      HeadReadExclusive(s, id, code, finding, order, newId);
    } else {
      HandledSession(s, id, code, finding, order, newId);
      if t.sessions[id].phase == Finished {
        var failed :| t == CalledBack(s, id, failed, order);
        CalledBackExclusive(s, id, failed, order);
      } else {
        SameConnectionExclusive(s, t, id);
      }
    }
  }

  /** A step of one session leaves the others orderly. */
  lemma OthersOrderly(s: State, t: State, id: SessionId)
    requires Safe(s)
    requires s.connections.Keys <= t.connections.Keys && (s.runnerStopped ==> t.runnerStopped)
    requires forall a :: a in t.sessions && a != id ==> a in s.sessions && t.sessions[a] == s.sessions[a]
    requires forall a :: a != id && Unfinished(s, a) ==>
               t.connections[s.sessions[a].connection] == s.connections[s.sessions[a].connection]
    requires id in t.sessions ==> Orderly(t, t.sessions[id])
    ensures AllOrderly(t)
  {
    forall a | a in t.sessions && a != id ensures Orderly(t, t.sessions[a]) {
      assert Orderly(s, s.sessions[a]);
      assert !Unfinished(s, a) ==> s.sessions[a].phase == Finished;
    }
  }

  lemma RequestedOrderly(s: State, id: SessionId, request: string, order: seq<ConnectionId>,
                         newId: ConnectionId, open: bool)
    requires Safe(s) && id !in s.sessions && newId !in s.connections && Enumerates(order, s.pool)
    ensures AllOrderly(Requested(s, id, request, order, newId, open))
  {
    var t := Requested(s, id, request, order, newId, open);
    assert forall d :: d in order <==> d in s.pool;
    OthersOrderly(s, t, id);
  }

  lemma CalledBackOrderly(s: State, id: SessionId, failed: bool, order: seq<ConnectionId>)
    requires Safe(s) && Pending(s, id) && Enumerates(order, s.pool)
    ensures AllOrderly(CalledBack(s, id, failed, order))
  {
    var t := CalledBack(s, id, failed, order);
    assert Orderly(s, s.sessions[id]);
    OthersOrderly(s, t, id);
  }

  lemma ReconnectedOrderly(s: State, id: SessionId, newId: ConnectionId)
    requires Safe(s) && Pending(s, id) && newId !in s.connections
    requires s.sessions[id].phase == ReadingHead && s.connections[s.sessions[id].connection].attemptReconnect
    ensures AllOrderly(Reconnected(s, id, newId))
  {
    assert Orderly(s, s.sessions[id]);
    OthersOrderly(s, Reconnected(s, id, newId), id);
  }

  /** The session moves on from its phase, and nothing else happens. */
  lemma MovedOrderly(s: State, t: State, id: SessionId, session: Session)
    requires Safe(s) && Pending(s, id) && t == s.(sessions := s.sessions[id := session])
    requires Orderly(s, s.sessions[id]) ==> Orderly(t, session)
    ensures AllOrderly(t)
  {
    assert Orderly(s, s.sessions[id]);
    OthersOrderly(s, t, id);
  }

  /** What the handler of the head makes of its session. */
  lemma HeadReadSession(s: State, id: SessionId, code: Code, finding: Finding, order: seq<ConnectionId>,
                        newId: ConnectionId)
    requires Exclusive(s) && Pending(s, id) && Enumerates(order, s.pool) && newId !in s.connections
    ensures var session := s.sessions[id];
            var t := HeadRead(s, id, code, finding, order, newId);
            if code != Ok && !(code == NotFound && finding == Full) && code != Aborted
               && s.connections[session.connection].attemptReconnect && session.connection in s.pool
            then t == Reconnected(s, id, newId)
            else if code == Ok && finding != Full && finding != Complete && finding != Malformed
            then exists phase :: (phase == ReadingLength || phase == ReadingChunks || phase == ReadingToEnd
                                  || phase == Abandoned)
                                 && t == Moved(HeadArrived(s, session.connection), id, phase)
            else exists failed :: t == CalledBack(s, id, failed, order)
                                  || t == CalledBack(HeadArrived(s, session.connection), id, failed, order)
  {
    var t := HeadRead(s, id, code, finding, order, newId);
    var u := HeadArrived(s, s.sessions[id].connection);
    if code == Ok && finding != Full && finding != Complete && finding != Malformed {
      assert t == Moved(u, id, t.sessions[id].phase);
    } else if code == Ok && finding == Complete {
      assert t == CalledBack(u, id, false, order);
    } else if code == Ok && finding == Malformed {
      assert t == CalledBack(u, id, true, order);
    } else {
      assert t.sessions[id].phase == Finished ==> t == CalledBack(s, id, true, order);
    }
  }

  /** The two ways in which the handler of the head leaves it behind. */
  lemma HeadEndedOrderly(s: State, u: State, id: SessionId, failed: bool, order: seq<ConnectionId>)
    requires Safe(s) && Pending(s, id) && s.sessions[id].phase == ReadingHead && Enumerates(order, s.pool)
    requires u == s || u == HeadArrived(s, s.sessions[id].connection)
    ensures AllOrderly(CalledBack(u, id, failed, order))
  {
    assert Orderly(s, s.sessions[id]);
    OthersOrderly(s, CalledBack(u, id, failed, order), id);
  }

  lemma HeadPassedOrderly(s: State, id: SessionId, phase: Phase)
    requires Safe(s) && Pending(s, id) && s.sessions[id].phase == ReadingHead
    requires phase == ReadingLength || phase == ReadingChunks || phase == ReadingToEnd || phase == Abandoned
    ensures AllOrderly(Moved(HeadArrived(s, s.sessions[id].connection), id, phase))
  {
    assert Orderly(s, s.sessions[id]);
    OthersOrderly(s, Moved(HeadArrived(s, s.sessions[id].connection), id, phase), id);
  }

  lemma HeadReadOrderly(s: State, id: SessionId, code: Code, finding: Finding, order: seq<ConnectionId>,
                        newId: ConnectionId)
    requires Safe(s) && Pending(s, id) && s.sessions[id].phase == ReadingHead
    requires newId !in s.connections && Enumerates(order, s.pool)
    ensures AllOrderly(HeadRead(s, id, code, finding, order, newId))
  {
    var c := s.sessions[id].connection;
    var t := HeadRead(s, id, code, finding, order, newId);
    HeadReadSession(s, id, code, finding, order, newId);
    if t.sessions[id].connection != c {
      ReconnectedOrderly(s, id, newId);
    } else if t.sessions[id].phase == Finished {
      var failed :| t == CalledBack(s, id, failed, order) || t == CalledBack(HeadArrived(s, c), id, failed, order);
      HeadEndedOrderly(s, s, id, failed, order);
      HeadEndedOrderly(s, HeadArrived(s, c), id, failed, order);
    } else {
      HeadPassedOrderly(s, id, t.sessions[id].phase);
    }
  }

  lemma AdvancedOrderly(s: State, id: SessionId)
    requires Safe(s) && Pending(s, id) && (s.runnerStopped || s.sessions[id].phase != ReadingHead)
    ensures var session := s.sessions[id];
            var next := if s.runnerStopped then session.(phase := Dropped) else Advanced(session);
            Orderly(s.(sessions := s.sessions[id := next]), next)
  {
    assert Orderly(s, s.sessions[id]);
  }

  lemma OtherHandledOrderly(s: State, id: SessionId, code: Code, finding: Finding, order: seq<ConnectionId>,
                            newId: ConnectionId)
    requires Safe(s) && Pending(s, id) && newId !in s.connections && Enumerates(order, s.pool)
    requires s.runnerStopped || s.sessions[id].phase != ReadingHead
    ensures AllOrderly(Handled(s, id, code, finding, order, newId))
  {
    var t := Handled(s, id, code, finding, order, newId);
    HandledSession(s, id, code, finding, order, newId);
    if t.sessions[id].phase == Finished {
      var failed :| t == CalledBack(s, id, failed, order);
      CalledBackOrderly(s, id, failed, order);
    } else {
      AdvancedOrderly(s, id);
      MovedOrderly(s, t, id, t.sessions[id]);
    }
  }

  lemma HandledOrderly(s: State, id: SessionId, code: Code, finding: Finding, order: seq<ConnectionId>,
                       newId: ConnectionId)
    requires Safe(s) && Pending(s, id) && newId !in s.connections && Enumerates(order, s.pool)
    ensures AllOrderly(Handled(s, id, code, finding, order, newId))
  {
    if !s.runnerStopped && s.sessions[id].phase == ReadingHead {
      HandledIsHeadRead(s, id, code, finding, order, newId);
      HeadReadOrderly(s, id, code, finding, order, newId);
    } else {
      OtherHandledOrderly(s, id, code, finding, order, newId);
    }
  }

  lemma HandledIsHeadRead(s: State, id: SessionId, code: Code, finding: Finding, order: seq<ConnectionId>,
                          newId: ConnectionId)
    requires Exclusive(s) && Pending(s, id) && Enumerates(order, s.pool)
    requires !s.runnerStopped && s.sessions[id].phase == ReadingHead
    ensures Handled(s, id, code, finding, order, newId) == HeadRead(s, id, code, finding, order, newId)
  {
  }

  lemma StepIsSafe(s: State, step: Step)
    requires Safe(s) && Enabled(s, step)
    ensures Safe(Apply(s, step))
  {
    var t := Apply(s, step);
    match step
    case Request(id, request, order, newId, open) =>
      RequestedExclusive(s, id, request, order, newId, open);
      RequestedOrderly(s, id, request, order, newId, open);
    case Handle(id, code, finding, order, newId, arrived) =>
      var u := Received(s, id, arrived);
      ReceivedSafe(s, id, arrived);
      HandledExclusive(u, id, code, finding, order, newId);
      HandledOrderly(u, id, code, finding, order, newId);
    case _ =>
      assert forall a :: Unfinished(t, a) <==> Unfinished(s, a);
      forall a | a in t.sessions ensures Orderly(t, t.sessions[a]) {
        assert Orderly(s, s.sessions[a]);
      }
  }

  lemma {:induction false} RunIsSafe(s: State, steps: seq<Step>)
    requires Safe(s) && IsRun(s, steps)
    ensures Safe(After(s, steps))
    decreases |steps|
  {
    if steps != [] {
      StepIsSafe(s, steps[0]);
      RunIsSafe(Apply(s, steps[0]), steps[1..]);
    }
  }

  // ---------------------------------------------------------------------------------------------
  // What holds of all runs

  lemma ReachableIsSafe(steps: seq<Step>)
    requires IsRun(INITIAL, steps)
    ensures Safe(After(INITIAL, steps))
  {
    assert Exclusive(INITIAL);
    RunIsSafe(INITIAL, steps);
  }

  function UnfinishedSessions(s: State): (ids: set<SessionId>) {
    set id | id in s.sessions && s.sessions[id].phase != Finished
  }

  function IdleInPool(s: State): (ids: set<ConnectionId>)
    requires s.pool <= s.connections.Keys
  {
    set c | c in s.pool && !s.connections[c].inUse
  }

  /** The connections of some sessions are no more than the sessions. */
  lemma {:induction false} ConnectionsOf(s: State, ids: set<SessionId>, connections: set<ConnectionId>)
    requires ids <= s.sessions.Keys
    requires forall c :: c in connections ==> exists a :: a in ids && s.sessions[a].connection == c
    ensures |connections| <= |ids|
  {
    if ids != {} {
      var a :| a in ids;
      ConnectionsOf(s, ids - {a}, connections - {s.sessions[a].connection});
    } else {
      assert connections == {};
    }
  }

  lemma OneIdle(s: State)
    requires Exclusive(s)
    ensures |IdleInPool(s)| <= 1
  {
    var idle := IdleInPool(s);
    if idle != {} {
      var c :| c in idle;
      assert idle == {c};
    }
  }

  lemma OwnerOf(s: State, c: ConnectionId)
    requires Exclusive(s) && c in s.pool && s.connections[c].inUse
    ensures exists a :: a in UnfinishedSessions(s) && s.sessions[a].connection == c
  {
    var a :| Unfinished(s, a) && s.sessions[a].connection == c;
    assert a in UnfinishedSessions(s);
  }

  lemma PoolSize(s: State)
    requires Exclusive(s)
    ensures |IdleInPool(s)| <= 1
    ensures |s.pool| <= |UnfinishedSessions(s)| + 1
  {
    var idle := IdleInPool(s);
    OneIdle(s);
    forall c | c in s.pool - idle ensures exists a :: a in UnfinishedSessions(s) && s.sessions[a].connection == c {
      OwnerOf(s, c);
    }
    ConnectionsOf(s, UnfinishedSessions(s), s.pool - idle);
    assert s.pool == (s.pool - idle) + idle;
  }

  /** In every reachable state, whatever order the pool was iterated in: sessions that have not
      ended never share a connection, and their connections are marked in use; the pool holds no
      more than one idle connection, and no more than one connection beyond those of the sessions
      that have not ended. */
  lemma PoolInvariant(steps: seq<Step>)
    requires IsRun(INITIAL, steps)
    ensures var s := After(INITIAL, steps);
            && s.pool <= s.connections.Keys
            && (forall a :: Unfinished(s, a) ==>
                  s.sessions[a].connection in s.connections && s.connections[s.sessions[a].connection].inUse)
            && (forall a, b :: Unfinished(s, a) && Unfinished(s, b) && a != b ==>
                  s.sessions[a].connection != s.sessions[b].connection)
            && |IdleInPool(s)| <= 1
            && |s.pool| <= |UnfinishedSessions(s)| + 1
  {
    ReachableIsSafe(steps);
    PoolSize(After(INITIAL, steps));
  }

  /** How many more handlers of the session can run, apart from those that go on to the next chunk. */
  function Rank(session: Session): (r: nat) {
    var again := if session.reconnects == 0 then 4 else 0;
    match session.phase
    case Resolving => 5 + again
    case Connecting => 4 + again
    case Writing => 3 + again
    case ReadingHead => 2 + again
    case ReadingLength => 1
    case ReadingChunks => 1
    case ReadingToEnd => 1
    case _ => 0
  }

  function RankOf(s: State, id: SessionId): (r: nat) {
    if id in s.sessions then Rank(s.sessions[id]) else 9
  }

  predicate NextChunk(s: State, step: Step)
    requires step.Handle? && Enabled(s, step)
  {
    && s.sessions[step.id].phase == ReadingChunks && !s.runnerStopped
    && step.code == Ok && step.finding != Full && step.finding != Complete && step.finding != Malformed
  }

  /** The handlers of the session that run, apart from those that go on to the next chunk. */
  function HandlersRun(s: State, steps: seq<Step>, id: SessionId): (n: nat)
    requires IsRun(s, steps)
    decreases |steps|
  {
    if steps == [] then 0
    else
      var here := if steps[0].Handle? && steps[0].id == id && !NextChunk(s, steps[0]) then 1 else 0;
      here + HandlersRun(Apply(s, steps[0]), steps[1..], id)
  }

  lemma HeadReadRank(s: State, id: SessionId, code: Code, finding: Finding, order: seq<ConnectionId>,
                     newId: ConnectionId)
    requires Safe(s) && Pending(s, id) && s.sessions[id].phase == ReadingHead
    requires newId !in s.connections && Enumerates(order, s.pool)
    ensures Rank(HeadRead(s, id, code, finding, order, newId).sessions[id]) < Rank(s.sessions[id])
  {
    assert Orderly(s, s.sessions[id]);
    HeadReadSession(s, id, code, finding, order, newId);
  }

  /** A session whose operation has succeeded and which goes on. */
  function Advanced(session: Session): (next: Session) {
    match session.phase
    case Resolving => session.(phase := Connecting)
    case Connecting => WriteStarted(session)
    case Writing => session.(phase := ReadingHead)
    case _ => session
  }

  /** What a handler makes of its session when it does not read the head. */
  lemma HandledSession(s: State, id: SessionId, code: Code, finding: Finding, order: seq<ConnectionId>,
                       newId: ConnectionId)
    requires Exclusive(s) && Pending(s, id) && Enumerates(order, s.pool)
    requires s.runnerStopped || s.sessions[id].phase != ReadingHead
    ensures var t := Handled(s, id, code, finding, order, newId);
            if t.sessions[id].phase == Finished
            then exists failed :: t == CalledBack(s, id, failed, order)
            else t == s.(sessions := s.sessions[id := t.sessions[id]])
                 && t.sessions[id]
                    == if s.runnerStopped then s.sessions[id].(phase := Dropped) else Advanced(s.sessions[id])
  {
    var t := Handled(s, id, code, finding, order, newId);
    if t.sessions[id].phase == Finished {
      assert t == CalledBack(s, id, true, order) || t == CalledBack(s, id, false, order);
    }
  }

  lemma AdvancedRank(session: Session)
    requires session.phase != Finished && session.phase != Dropped && session.phase != Abandoned
    ensures Rank(session) > 0
    ensures session.phase != ReadingHead ==> Rank(Advanced(session)) <= Rank(session)
    ensures BeforeHead(session.phase) && session.phase != ReadingHead ==> Rank(Advanced(session)) < Rank(session)
  {
  }

  /** Only going on to the next chunk leaves a session behind its head where it is. */
  lemma StaysForChunk(s: State, id: SessionId, code: Code, finding: Finding, order: seq<ConnectionId>,
                      newId: ConnectionId)
    requires Exclusive(s) && Pending(s, id) && Enumerates(order, s.pool) && !s.runnerStopped
    requires !BeforeHead(s.sessions[id].phase)
    requires Handled(s, id, code, finding, order, newId).sessions[id].phase != Finished
    ensures s.sessions[id].phase == ReadingChunks && code == Ok
    ensures finding != Full && finding != Complete && finding != Malformed
  {
  }

  lemma OtherHandledRank(s: State, id: SessionId, code: Code, finding: Finding, order: seq<ConnectionId>,
                         newId: ConnectionId)
    requires Exclusive(s) && Pending(s, id) && Enumerates(order, s.pool)
    requires s.runnerStopped || s.sessions[id].phase != ReadingHead
    ensures var before, after := s.sessions[id], Handled(s, id, code, finding, order, newId).sessions[id];
            var goesOn := before.phase == ReadingChunks && !s.runnerStopped && code == Ok
                          && finding != Full && finding != Complete && finding != Malformed;
            Rank(after) + (if goesOn then 0 else 1) <= Rank(before)
  {
    var before, after := s.sessions[id], Handled(s, id, code, finding, order, newId).sessions[id];
    HandledSession(s, id, code, finding, order, newId);
    AdvancedRank(before);
    if !s.runnerStopped && !BeforeHead(before.phase) && after.phase != Finished {
      StaysForChunk(s, id, code, finding, order, newId);
    }
  }

  lemma HandledRank(s: State, id: SessionId, step: Step)
    requires Safe(s) && step.Handle? && step.id == id && Enabled(s, step)
    ensures Rank(Apply(s, step).sessions[id]) + (if NextChunk(s, step) then 0 else 1) <= Rank(s.sessions[id])
  {
    var u := Received(s, id, step.arrived);
    ReceivedSafe(s, id, step.arrived);
    assert Rank(u.sessions[id]) == Rank(s.sessions[id]);
    if !s.runnerStopped && s.sessions[id].phase == ReadingHead {
      HeadReadRank(u, id, step.code, step.finding, step.order, step.newId);
    } else {
      OtherHandledRank(u, id, step.code, step.finding, step.order, step.newId);
    }
  }

  /** A step of another session, or none, does not change the session. */
  lemma OthersStay(s: State, step: Step, id: SessionId)
    requires Safe(s) && Enabled(s, step) && id in s.sessions && !(step.Handle? && step.id == id)
    ensures id in Apply(s, step).sessions && Apply(s, step).sessions[id] == s.sessions[id]
  {
    if step.Handle? {
      StepGoes(s, step);
    }
  }

  lemma StepRank(s: State, step: Step, id: SessionId)
    requires Safe(s) && Enabled(s, step)
    ensures RankOf(Apply(s, step), id)
            + (if step.Handle? && step.id == id && !NextChunk(s, step) then 1 else 0) <= RankOf(s, id)
  {
    if step.Handle? && step.id == id {
      HandledRank(s, id, step);
    } else if id in s.sessions {
      OthersStay(s, step, id);
    } else if step.Handle? {
      StepGoes(s, step);
    } else {
      NewRank(s, step, id);
    }
  }

  lemma NewRank(s: State, step: Step, id: SessionId)
    requires Enabled(s, step) && !step.Handle? && id !in s.sessions
    ensures RankOf(Apply(s, step), id) <= 9
  {
  }

  lemma {:induction false} RunRank(s: State, steps: seq<Step>, id: SessionId)
    requires Safe(s) && IsRun(s, steps)
    ensures HandlersRun(s, steps, id) + RankOf(After(s, steps), id) <= RankOf(s, id)
    decreases |steps|
  {
    if steps != [] {
      StepIsSafe(s, steps[0]);
      StepRank(s, steps[0], id);
      RunRank(Apply(s, steps[0]), steps[1..], id);
    }
  }

  /** A session in any run calls back at most once, and exactly once if none of its operations is
      pending, the runner is not stopped and no exception has left a handler of it. It reconnects
      at most once. Besides going on to the next chunk it runs at most nine handlers, so it cannot
      stay pending if they all complete. And it sends nothing but its whole request: once, or twice
      on two connections if it reconnects. */
  lemma SessionInvariant(steps: seq<Step>, id: SessionId)
    requires IsRun(INITIAL, steps) && id in After(INITIAL, steps).sessions
    ensures var s := After(INITIAL, steps);
            var session := s.sessions[id];
            && |session.callbacks| <= 1
            && (!Pending(s, id) && !s.runnerStopped && session.phase != Abandoned ==> |session.callbacks| == 1)
            && (|session.callbacks| == 1 <==> session.phase == Finished)
            && session.reconnects <= 1
            && HandlersRun(INITIAL, steps, id) <= 9
            && (HandlersRun(INITIAL, steps, id) == 9 ==> !Pending(s, id))
            && |session.sent| <= session.reconnects + 1
            && (forall i :: 0 <= i < |session.sent| ==> session.sent[i].bytes == session.request)
            && (|session.sent| == 2 ==> session.sent[0].connection != session.sent[1].connection)
  {
    ReachableIsSafe(steps);
    RunRank(INITIAL, steps, id);
    assert Exclusive(INITIAL);
    assert Orderly(After(INITIAL, steps), After(INITIAL, steps).sessions[id]);
  }

  /** A session that has to wait can be handled, however its operation completes. */
  lemma PendingCanBeHandled(s: State, id: SessionId, code: Code, finding: Finding, order: seq<ConnectionId>,
                            newId: ConnectionId, arrived: string)
    requires Safe(s) && Pending(s, id) && newId !in s.connections && Enumerates(order, s.pool)
    requires IsReading(s.sessions[id].phase) || arrived == ""
    ensures Enabled(s, Handle(id, code, finding, order, newId, arrived))
    ensures !s.runnerStopped && code != Ok && s.sessions[id].phase != ReadingHead ==>
              |Apply(s, Handle(id, code, finding, order, newId, arrived)).sessions[id].callbacks| == 1
  {
    assert Orderly(s, s.sessions[id]);
  }

  /** What the callback makes of the pool. */
  lemma CalledBackPool(s: State, id: SessionId, failed: bool, order: seq<ConnectionId>)
    requires Exclusive(s) && Pending(s, id) && Enumerates(order, s.pool)
    ensures var t := CalledBack(s, id, failed, order);
            var c := s.sessions[id].connection;
            && t.pool <= s.pool && t.connections.Keys == s.connections.Keys
            && (failed ==> c !in t.pool)
            && (!failed && c in s.pool ==> IdleInPool(t) != {})
  {
    var t := CalledBack(s, id, failed, order);
    var c := s.sessions[id].connection;
    assert forall d :: d in order <==> d in s.pool;
    KeptFacts(t.connections, order, failed, c, 0);
    if !failed && c in s.pool {
      var d :| d in Kept(t.connections, order, false, c, 0) && !t.connections[d].inUse;
      assert d in IdleInPool(t);
    }
  }

  /** What a handler makes of the pool and of its session: it calls back, or it goes on with its
      connection, or it goes on with a new one. */
  ghost predicate Goes(s: State, t: State, id: SessionId, newId: ConnectionId)
    requires s.pool <= s.connections.Keys && id in s.sessions
  {
    var c := s.sessions[id].connection;
    && id in t.sessions && t.sessions == s.sessions[id := t.sessions[id]]
    && t.pool <= t.connections.Keys
    && (t.sessions[id].phase == Finished ==>
          && t.sessions[id].connection == c
          && t.sessions[id].reconnects == s.sessions[id].reconnects
          && t.pool <= s.pool && t.connections.Keys == s.connections.Keys
          && (t.sessions[id].callbacks == [Failed] ==> c !in t.pool)
          && (t.sessions[id].callbacks == [Succeeded] && c in s.pool ==> IdleInPool(t) != {}))
    && (t.sessions[id].phase != Finished && t.sessions[id].connection == c ==>
          && t.sessions[id].callbacks == []
          && t.sessions[id].reconnects == s.sessions[id].reconnects
          && t.pool == s.pool && t.connections.Keys == s.connections.Keys)
    && (t.sessions[id].connection != c ==>
          c in s.pool && t == Reconnected(s, id, newId) && t.sessions[id].callbacks == [])
  }

  lemma CalledBackGoes(s: State, u: State, id: SessionId, failed: bool, order: seq<ConnectionId>, newId: ConnectionId)
    requires Safe(s) && Pending(s, id) && Enumerates(order, s.pool)
    requires u == s || u == HeadArrived(s, s.sessions[id].connection)
    ensures Goes(s, CalledBack(u, id, failed, order), id, newId)
  {
    var t := CalledBack(u, id, failed, order);
    assert Orderly(s, s.sessions[id]);
    assert t.sessions[id].callbacks == [if failed then Failed else Succeeded];
    assert t.sessions[id].callbacks[0] == (if failed then Failed else Succeeded);
    HeadArrivedExclusive(s, s.sessions[id].connection);
    CalledBackPool(u, id, failed, order);
  }

  lemma HeadReadGoes(s: State, id: SessionId, code: Code, finding: Finding, order: seq<ConnectionId>,
                     newId: ConnectionId)
    requires Safe(s) && Pending(s, id) && newId !in s.connections && Enumerates(order, s.pool)
    ensures Goes(s, HeadRead(s, id, code, finding, order, newId), id, newId)
  {
    assert Orderly(s, s.sessions[id]);
    var t := HeadRead(s, id, code, finding, order, newId);
    var u := HeadArrived(s, s.sessions[id].connection);
    HeadReadSession(s, id, code, finding, order, newId);
    if t.sessions[id].phase == Finished {
      var failed :| t == CalledBack(s, id, failed, order) || t == CalledBack(u, id, failed, order);
      CalledBackGoes(s, s, id, failed, order, newId);
      CalledBackGoes(s, u, id, failed, order, newId);
    }
  }

  lemma HandledGoes(s: State, id: SessionId, code: Code, finding: Finding, order: seq<ConnectionId>,
                    newId: ConnectionId)
    requires Safe(s) && Pending(s, id) && newId !in s.connections && Enumerates(order, s.pool)
    ensures Goes(s, Handled(s, id, code, finding, order, newId), id, newId)
  {
    var t := Handled(s, id, code, finding, order, newId);
    if !s.runnerStopped && s.sessions[id].phase == ReadingHead {
      HeadReadGoes(s, id, code, finding, order, newId);
    } else {
      HandledSession(s, id, code, finding, order, newId);
      assert Orderly(s, s.sessions[id]);
      if t.sessions[id].phase == Finished {
        var failed :| t == CalledBack(s, id, failed, order);
        CalledBackGoes(s, s, id, failed, order, newId);
      }
    }
  }

  /** What a handler tells the callback, and where it leaves a session that it does not call back:
      phase by phase, by how the operation completed and what was found. */
  lemma CallbacksAre(s: State, step: Step)
    requires Safe(s) && step.Handle? && Enabled(s, step) && !s.runnerStopped
    ensures var before, after := s.sessions[step.id], Apply(s, step).sessions[step.id];
            var retries := before.reconnects == 0 && before.connection in s.pool && step.code != Aborted;
            && (after.callbacks == [Failed]
                <==> match before.phase
                     case Resolving => step.code != Ok
                     case Connecting => step.code != Ok
                     case Writing => step.code != Ok
                     case ReadingHead =>
                       if step.code == Ok then step.finding == Full || step.finding == Malformed
                       else (step.code == NotFound && step.finding == Full) || !retries
                     case ReadingLength => step.code != Ok || step.finding == Full
                     case ReadingToEnd =>
                       (step.code != Ok && step.code != Eof) || (step.code == Ok && step.finding == Full)
                     case ReadingChunks => step.code != Ok || step.finding == Full || step.finding == Malformed
                     case _ => false)
            && (after.callbacks == [Succeeded]
                <==> match before.phase
                     case ReadingHead => step.code == Ok && step.finding == Complete
                     case ReadingLength => step.code == Ok && step.finding != Full
                     case ReadingToEnd => step.code == Eof || (step.code == Ok && step.finding != Full)
                     case ReadingChunks => step.code == Ok && step.finding == Complete
                     case _ => false)
            && (after.callbacks == [] || after.callbacks == [Failed] || after.callbacks == [Succeeded])
            && (after.callbacks == [] ==>
                  after.phase == match before.phase
                                 case Resolving => Connecting
                                 case Connecting => Writing
                                 case Writing => ReadingHead
                                 case ReadingHead =>
                                   if step.code != Ok then Resolving
                                   else if step.finding == ByLength then ReadingLength
                                   else if step.finding == ByChunks then ReadingChunks
                                   else if step.finding == ToEnd then ReadingToEnd
                                   else Abandoned
                                 case _ => ReadingChunks)
  {
    var u := Received(s, step.id, step.arrived);
    assert Orderly(s, s.sessions[step.id]);
    if s.sessions[step.id].phase == ReadingHead {
      HeadCallbacks(u, step.id, step.code, step.finding, step.order, step.newId);
    } else {
      OtherCallbacks(u, step.id, step.code, step.finding, step.order, step.newId);
    }
  }

  lemma HeadCallbacks(s: State, id: SessionId, code: Code, finding: Finding, order: seq<ConnectionId>,
                      newId: ConnectionId)
    requires Pending(s, id) && s.sessions[id].connection in s.connections && s.sessions[id].callbacks == []
    requires s.pool <= s.connections.Keys && Enumerates(order, s.pool)
    requires s.sessions[id].phase == ReadingHead && !s.runnerStopped
    ensures var before, after := s.sessions[id], Handled(s, id, code, finding, order, newId).sessions[id];
            var c := before.connection;
            var retries := s.connections[c].attemptReconnect && c in s.pool && code != Aborted;
            && after.callbacks == (if code == Ok then
                                     if finding == Full || finding == Malformed then [Failed]
                                     else if finding == Complete then [Succeeded] else []
                                   else if (code == NotFound && finding == Full) || !retries then [Failed] else [])
            && (after.callbacks == [] ==>
                  after.phase == if code != Ok then Resolving
                                 else if finding == ByLength then ReadingLength
                                 else if finding == ByChunks then ReadingChunks
                                 else if finding == ToEnd then ReadingToEnd
                                 else Abandoned)
  {
  }

  lemma OtherCallbacks(s: State, id: SessionId, code: Code, finding: Finding, order: seq<ConnectionId>,
                       newId: ConnectionId)
    requires Pending(s, id) && s.sessions[id].connection in s.connections && s.sessions[id].callbacks == []
    requires s.pool <= s.connections.Keys && Enumerates(order, s.pool)
    requires s.sessions[id].phase != ReadingHead && !s.runnerStopped
    ensures var before, after := s.sessions[id], Handled(s, id, code, finding, order, newId).sessions[id];
            && after.callbacks == (match before.phase
                                   case ReadingLength => if code == Ok && finding != Full then [Succeeded] else [Failed]
                                   case ReadingToEnd =>
                                     if code == Eof || (code == Ok && finding != Full) then [Succeeded] else [Failed]
                                   case ReadingChunks =>
                                     if code != Ok || finding == Full || finding == Malformed then [Failed]
                                     else if finding == Complete then [Succeeded] else []
                                   case _ => if code == Ok then [] else [Failed])
            && (after.callbacks == [] ==>
                  after.phase == match before.phase
                                 case Resolving => Connecting
                                 case Connecting => Writing
                                 case Writing => ReadingHead
                                 case _ => ReadingChunks)
  {
  }

  /** What a handler does to the connections and the pool: a session that reconnects leaves its old
      connection in use and out of the pool, where the new one takes its place and is not tried again;
      a callback sets its own free, and takes it out of the pool if it failed; a head that arrives lets
      a connection be tried again; and nothing else changes but for idle connections leaving the pool. */
  lemma ConnectionsAre(s: State, step: Step)
    requires Safe(s) && step.Handle? && Enabled(s, step) && !s.runnerStopped
    ensures var t, before := Apply(s, step), s.sessions[step.id];
            var c, after := before.connection, t.sessions[step.id];
            var head := before.phase == ReadingHead && step.code == Ok && step.finding != Full;
            if after.reconnects > before.reconnects then
              && t.connections == s.connections[step.newId := Connection(true, false)]
              && t.pool == s.pool - {c} + {step.newId} && after.connection == step.newId
            else
              && t.connections
                 == s.connections[c := Connection(after.callbacks == [], head || s.connections[c].attemptReconnect)]
              && after.connection == c && (after.callbacks == [] ==> t.pool == s.pool)
              && (after.callbacks == [Failed] ==> c !in t.pool) && t.pool <= s.pool
              && forall d :: d in s.pool && s.connections[d].inUse && d != c ==> d in t.pool
  {
    var u, c := Received(s, step.id, step.arrived), s.sessions[step.id].connection;
    assert Orderly(s, s.sessions[step.id]);
    assert s.connections[c].inUse;
    HandledConnections(u, step.id, step.code, step.finding, step.order, step.newId);
  }

  /** The callback frees its connection and keeps those in use, but not a failed one. */
  lemma CallbackConnections(s: State, id: SessionId, failed: bool, order: seq<ConnectionId>)
    requires id in s.sessions && s.sessions[id].connection in s.connections
    requires s.pool <= s.connections.Keys && Enumerates(order, s.pool)
    ensures var t, c := CalledBack(s, id, failed, order), s.sessions[id].connection;
            && t.connections == s.connections[c := Connection(false, s.connections[c].attemptReconnect)]
            && t.sessions[id].connection == c && t.sessions[id].reconnects == s.sessions[id].reconnects
            && t.sessions[id].callbacks == s.sessions[id].callbacks + [if failed then Failed else Succeeded]
            && (t.sessions[id].callbacks == [Failed] ==> c !in t.pool) && t.pool <= s.pool
            && forall d :: d in s.pool && s.connections[d].inUse && d != c ==> d in t.pool
  {
    var c := s.sessions[id].connection;
    var freed := s.connections[c := s.connections[c].(inUse := false)];
    assert forall d :: d in order <==> d in s.pool;
    KeptFacts(freed, order, failed, c, 0);
    var told := s.sessions[id].callbacks + [if failed then Failed else Succeeded];
    assert told[|told| - 1] == if failed then Failed else Succeeded;
  }

  /** What `ConnectionsAre` says, of the state before and the state after. */
  ghost predicate ConnectionsGo(s: State, t: State, id: SessionId, head: bool, newId: ConnectionId)
    requires id in s.sessions && id in t.sessions && s.sessions[id].connection in s.connections
    requires s.pool <= s.connections.Keys
  {
    var c, before, after := s.sessions[id].connection, s.sessions[id], t.sessions[id];
    if after.reconnects > before.reconnects then
      && t.connections == s.connections[newId := Connection(true, false)]
      && t.pool == s.pool - {c} + {newId} && after.connection == newId
    else
      && t.connections
         == s.connections[c := Connection(after.callbacks == [], head || s.connections[c].attemptReconnect)]
      && after.connection == c && (after.callbacks == [] ==> t.pool == s.pool)
      && (after.callbacks == [Failed] ==> c !in t.pool) && t.pool <= s.pool
      && forall d :: d in s.pool && s.connections[d].inUse && d != c ==> d in t.pool
  }

  lemma HandledConnections(s: State, id: SessionId, code: Code, finding: Finding, order: seq<ConnectionId>,
                           newId: ConnectionId)
    requires Pending(s, id) && s.sessions[id].connection in s.connections && s.sessions[id].callbacks == []
    requires s.connections[s.sessions[id].connection].inUse
    requires s.pool <= s.connections.Keys && Enumerates(order, s.pool) && !s.runnerStopped
    ensures ConnectionsGo(s, Handled(s, id, code, finding, order, newId), id,
                          s.sessions[id].phase == ReadingHead && code == Ok && finding != Full, newId)
  {
    var c := s.sessions[id].connection;
    assert s.connections[c := Connection(true, s.connections[c].attemptReconnect)] == s.connections;
    if s.sessions[id].phase == ReadingHead {
      HeadConnections(s, id, code, finding, order, newId);
    } else {
      var failed := OtherHandled(s, id, code, finding, order, newId);
      CallbackConnections(s, id, failed, order);
    }
  }

  /** Every other handler calls back, or leaves connections and pool as they are. */
  lemma OtherHandled(s: State, id: SessionId, code: Code, finding: Finding, order: seq<ConnectionId>,
                     newId: ConnectionId) returns (failed: bool)
    requires Pending(s, id) && s.sessions[id].connection in s.connections && s.sessions[id].callbacks == []
    requires s.pool <= s.connections.Keys && Enumerates(order, s.pool)
    requires s.sessions[id].phase != ReadingHead && !s.runnerStopped
    ensures var t := Handled(s, id, code, finding, order, newId);
            || t == CalledBack(s, id, failed, order)
            || (t.connections == s.connections && t.pool == s.pool && t.sessions[id].callbacks == []
                && t.sessions[id].connection == s.sessions[id].connection
                && t.sessions[id].reconnects == s.sessions[id].reconnects)
  {
    failed := match s.sessions[id].phase
              case ReadingLength => code != Ok || finding == Full
              case ReadingToEnd => !(code == Eof || (code == Ok && finding != Full))
              case ReadingChunks => !(code == Ok && finding == Complete)
              case _ => true;
  }

  lemma HeadConnections(s: State, id: SessionId, code: Code, finding: Finding, order: seq<ConnectionId>,
                        newId: ConnectionId)
    requires id in s.sessions && s.sessions[id].connection in s.connections && s.sessions[id].callbacks == []
    requires s.connections[s.sessions[id].connection].inUse
    requires s.pool <= s.connections.Keys && Enumerates(order, s.pool)
    ensures ConnectionsGo(s, HeadRead(s, id, code, finding, order, newId), id, code == Ok && finding != Full, newId)
  {
    var c := s.sessions[id].connection;
    assert s.connections[c := Connection(true, s.connections[c].attemptReconnect)] == s.connections;
    if code == Ok && finding != Full {
      var t := HeadArrived(s, c);
      assert t.connections == s.connections[c := Connection(true, true)];
      assert t.connections[c := Connection(false, true)] == s.connections[c := Connection(false, true)];
      CallbackConnections(t, id, finding == Malformed, order);
    } else {
      CallbackConnections(s, id, true, order);
    }
  }

  /** What a request begins with: an idle connection of the pool or else the new one, written to at once
      only if it is an old one that is open, and nothing else changed. */
  lemma RequestIs(s: State, step: Step)
    requires Exclusive(s) && step.Request? && Enabled(s, step)
    ensures var t := Apply(s, step);
            var session := t.sessions[step.id];
            var c := session.connection;
            var reused := exists d :: d in s.pool && !s.connections[d].inUse;
            && (reused ==> c in s.pool && !s.connections[c].inUse) && (!reused ==> c == step.newId)
            && t == s.(connections := s.connections[c := Connection(true, true)], pool := s.pool + {c},
                       sessions := s.sessions[step.id := session])
            && session.request == step.request == session.requestBuffer && session.response == ""
            && session.reconnects == 0 && session.callbacks == []
            && session.phase == (if reused && step.open then Writing else Resolving)
            && session.sent == (if reused && step.open then [Transmission(c, step.request)] else [])
  {
    assert forall d :: d in step.order <==> d in s.pool;
  }

  /** A handler that finds the runner stopped drops its session, and does nothing else. */
  lemma StoppedDrops(s: State, step: Step)
    requires step.Handle? && Enabled(s, step) && s.runnerStopped
    ensures var t := Apply(s, step);
            && t.sessions[step.id]
               == s.sessions[step.id].(phase := Dropped, response := s.sessions[step.id].response + step.arrived)
            && t == s.(sessions := s.sessions[step.id := t.sessions[step.id]])
  {
  }

  lemma StepGoes(s: State, step: Step)
    requires Safe(s) && step.Handle? && Enabled(s, step)
    ensures var u := Received(s, step.id, step.arrived);
            Safe(u) && Pending(u, step.id) && Goes(u, Apply(s, step), step.id, step.newId)
  {
    ReceivedSafe(s, step.id, step.arrived);
    HandledGoes(Received(s, step.id, step.arrived), step.id, step.code, step.finding, step.order, step.newId);
  }

  /** A session is abandoned exactly where the handler of its head throws, which is decided by the
      bytes of the stream, however it goes on; then it never calls back, and its connection stays
      in use. */
  lemma AbandonsExactly(s: State, step: Step, coming: string)
    requires Safe(s) && step.Handle? && Enabled(s, step) && Truthful(s, step)
    ensures var session := s.sessions[step.id];
            Apply(s, step).sessions[step.id].phase == Abandoned
            <==> && !s.runnerStopped && session.phase == ReadingHead && step.code == Ok && step.finding != Full
                 && Framing.Failed(Framing.Thrown)
                    in Framing.Allowed(Exchange.ResponseOf(session.response + step.arrived + coming))
  {
    var session := s.sessions[step.id];
    AbandonsOnBadLength(s, step);
    if session.phase == ReadingHead && step.code == Ok {
      FindingMeans(session.response + step.arrived, coming);
    }
  }

  lemma AbandonsOnBadLength(s: State, step: Step)
    requires Safe(s) && step.Handle? && Enabled(s, step)
    ensures Apply(s, step).sessions[step.id].phase == Abandoned
            <==> !s.runnerStopped && s.sessions[step.id].phase == ReadingHead
                 && step.code == Ok && step.finding == BadLength
  {
    var u := Received(s, step.id, step.arrived);
    if !s.runnerStopped && s.sessions[step.id].phase == ReadingHead {
      HeadReadAbandons(u, step.id, step.code, step.finding, step.order, step.newId);
    } else {
      OthersNeverAbandon(u, step.id, step.code, step.finding, step.order, step.newId);
    }
  }

  lemma HeadReadAbandons(s: State, id: SessionId, code: Code, finding: Finding, order: seq<ConnectionId>,
                         newId: ConnectionId)
    requires id in s.sessions && s.sessions[id].connection in s.connections && s.sessions[id].phase == ReadingHead
    requires s.pool <= s.connections.Keys && Enumerates(order, s.pool)
    ensures HeadRead(s, id, code, finding, order, newId).sessions[id].phase == Abandoned
            <==> code == Ok && finding == BadLength
  {
  }

  lemma OthersNeverAbandon(s: State, id: SessionId, code: Code, finding: Finding, order: seq<ConnectionId>,
                           newId: ConnectionId)
    requires Pending(s, id) && s.sessions[id].connection in s.connections
    requires s.pool <= s.connections.Keys && Enumerates(order, s.pool)
    requires s.runnerStopped || s.sessions[id].phase != ReadingHead
    ensures Handled(s, id, code, finding, order, newId).sessions[id].phase != Abandoned
  {
  }

  lemma {:induction false} AbandonedForever(s: State, steps: seq<Step>, id: SessionId)
    requires Safe(s) && IsRun(s, steps) && id in s.sessions && s.sessions[id].phase == Abandoned
    ensures var t := After(s, steps);
            && id in t.sessions && t.sessions[id] == s.sessions[id] && t.sessions[id].callbacks == []
            && t.sessions[id].connection in t.connections && t.connections[t.sessions[id].connection].inUse
    decreases |steps|
  {
    assert Orderly(s, s.sessions[id]) && Unfinished(s, id);
    if steps != [] {
      StepIsSafe(s, steps[0]);
      OthersStay(s, steps[0], id);
      AbandonedForever(Apply(s, steps[0]), steps[1..], id);
    }
  }

  /** A handler reconnects its session exactly if the head could not be read, for another reason
      than a full buffer or a cancelled operation, the session has not reconnected before, and
      `stop` has not emptied the pool since. */
  lemma ReconnectsExactly(s: State, step: Step)
    requires Safe(s) && step.Handle? && Enabled(s, step)
    ensures var session := s.sessions[step.id];
            Apply(s, step).sessions[step.id].reconnects > session.reconnects
            <==> && !s.runnerStopped && session.phase == ReadingHead && session.reconnects == 0
                 && session.connection in s.pool
                 && step.code != Ok && step.code != Aborted && !(step.code == NotFound && step.finding == Full)
  {
    var u := Received(s, step.id, step.arrived);
    assert Orderly(s, s.sessions[step.id]);
    ReceivedSafe(s, step.id, step.arrived);
    if !s.runnerStopped && s.sessions[step.id].phase == ReadingHead {
      HeadReadSession(u, step.id, step.code, step.finding, step.order, step.newId);
    } else {
      HandledSession(u, step.id, step.code, step.finding, step.order, step.newId);
    }
  }

  /** What arrives stays: nothing clears the stream buffer of the response, a reconnect included, so
      the bytes of a connection that broke stay in front of those of the next (see `Reconnect`). */
  lemma {:induction false} ResponseGrows(s: State, steps: seq<Step>, id: SessionId)
    requires Safe(s) && IsRun(s, steps) && id in s.sessions
    ensures id in After(s, steps).sessions && s.sessions[id].response <= After(s, steps).sessions[id].response
    decreases |steps|
  {
    if steps != [] {
      StepIsSafe(s, steps[0]);
      ResponseIs(s, steps[0], id);
      ResponseGrows(Apply(s, steps[0]), steps[1..], id);
    }
  }

  /** Only what arrives for the session is added. */
  lemma ResponseIs(s: State, step: Step, id: SessionId)
    requires Safe(s) && Enabled(s, step) && id in s.sessions
    ensures id in Apply(s, step).sessions
    ensures Apply(s, step).sessions[id].response
            == s.sessions[id].response + (if step.Handle? && step.id == id then step.arrived else "")
  {
    if step.Handle? {
      StepGoes(s, step);
      HandledResponse(Received(s, step.id, step.arrived), step.id, step.code, step.finding, step.order, step.newId);
    }
  }

  lemma HandledResponse(s: State, id: SessionId, code: Code, finding: Finding, order: seq<ConnectionId>,
                        newId: ConnectionId)
    requires Exclusive(s) && Pending(s, id) && Enumerates(order, s.pool) && newId !in s.connections
    ensures Handled(s, id, code, finding, order, newId).sessions[id].response == s.sessions[id].response
  {
  }

  /** A connection that has left the pool is never given to a session again. */
  lemma StepKeepsOut(s: State, step: Step, c: ConnectionId)
    requires Safe(s) && Enabled(s, step) && c in s.connections && c !in s.pool
    ensures var t := Apply(s, step);
            && c in t.connections && c !in t.pool
            && forall a :: a in t.sessions && t.sessions[a].connection == c ==>
                 a in s.sessions && s.sessions[a].connection == c
  {
    if step.Handle? {
      StepGoes(s, step);
    }
  }

  lemma {:induction false} RunKeepsOut(s: State, steps: seq<Step>, c: ConnectionId)
    requires Safe(s) && IsRun(s, steps) && c in s.connections && c !in s.pool
    ensures var t := After(s, steps);
            && c in t.connections && c !in t.pool
            && forall a :: a in t.sessions && t.sessions[a].connection == c ==>
                 a in s.sessions && s.sessions[a].connection == c
    decreases |steps|
  {
    if steps != [] {
      StepIsSafe(s, steps[0]);
      StepKeepsOut(s, steps[0], c);
      RunKeepsOut(Apply(s, steps[0]), steps[1..], c);
    }
  }

  /** A session that ends with an error takes its connection out of the pool: in every
      continuation no session is on it that was not on it before. */
  lemma FailedConnectionIsNotReused(before: seq<Step>, step: Step, rest: seq<Step>, id: SessionId)
    requires IsRun(INITIAL, before) && Enabled(After(INITIAL, before), step)
    requires Pending(After(INITIAL, before), id)
    requires IsRun(Apply(After(INITIAL, before), step), rest)
    requires id in Apply(After(INITIAL, before), step).sessions
             && Apply(After(INITIAL, before), step).sessions[id].callbacks == [Failed]
    ensures var s := After(INITIAL, before);
            var t := After(Apply(s, step), rest);
            var c := s.sessions[id].connection;
            c !in t.pool && forall a :: a in t.sessions && t.sessions[a].connection == c ==> a in s.sessions
  {
    var s := After(INITIAL, before);
    ReachableIsSafe(before);
    StepIsSafe(s, step);
    FailureLeavesPool(s, step, id);
    RunKeepsOut(Apply(s, step), rest, s.sessions[id].connection);
  }

  /** A session is called back by its own handlers only. */
  lemma CallsBack(s: State, step: Step, id: SessionId)
    requires Safe(s) && Enabled(s, step) && Pending(s, id) && Apply(s, step).sessions[id].callbacks != []
    ensures step.Handle? && step.id == id
  {
    assert Orderly(s, s.sessions[id]);
    if !(step.Handle? && step.id == id) {
      OthersStay(s, step, id);
    }
  }

  lemma FailureLeavesPool(s: State, step: Step, id: SessionId)
    requires Safe(s) && Enabled(s, step) && Pending(s, id)
    requires id in Apply(s, step).sessions && Apply(s, step).sessions[id].callbacks == [Failed]
    ensures s.sessions[id].connection in Apply(s, step).connections
    ensures s.sessions[id].connection !in Apply(s, step).pool
    ensures Apply(s, step).sessions.Keys == s.sessions.Keys
  {
    CallsBack(s, step, id);
    StepGoes(s, step);
  }

  /** A request takes an idle connection if the pool holds one, and makes none. */
  lemma IdleIsReused(s: State, step: Step)
    requires Exclusive(s) && step.Request? && Enabled(s, step) && IdleInPool(s) != {}
    ensures Apply(s, step).sessions[step.id].connection in IdleInPool(s)
    ensures Apply(s, step).connections.Keys == s.connections.Keys && Apply(s, step).pool == s.pool
  {
    assert forall d :: d in step.order <==> d in s.pool;
    var d :| d in IdleInPool(s);
    assert d in step.order;
  }

  /** A session that ends well on a connection of the pool leaves an idle connection there, so that
      the next request makes no new one. */
  lemma SuccessKeepsAConnection(s: State, step: Step, id: SessionId, next: Step)
    requires Safe(s) && Enabled(s, step) && Pending(s, id) && s.sessions[id].connection in s.pool
    requires id in Apply(s, step).sessions && Apply(s, step).sessions[id].callbacks == [Succeeded]
    requires next.Request? && Enabled(Apply(s, step), next)
    ensures var t := Apply(s, step);
            |IdleInPool(t)| == 1 && Apply(t, next).sessions[next.id].connection in IdleInPool(t)
            && Apply(t, next).connections.Keys == t.connections.Keys && Apply(t, next).pool == t.pool
  {
    var t := Apply(s, step);
    SuccessLeavesIdle(s, step, id);
    StepIsSafe(s, step);
    PoolSize(t);
    IdleIsReused(t, next);
  }

  lemma SuccessLeavesIdle(s: State, step: Step, id: SessionId)
    requires Safe(s) && Enabled(s, step) && Pending(s, id) && s.sessions[id].connection in s.pool
    requires id in Apply(s, step).sessions && Apply(s, step).sessions[id].callbacks == [Succeeded]
    ensures Apply(s, step).pool <= Apply(s, step).connections.Keys && IdleInPool(Apply(s, step)) != {}
  {
    CallsBack(s, step, id);
    StepGoes(s, step);
  }

  /** After `stop` no session reconnects, and until the next request the pool stays empty. */
  lemma AfterStop(s: State, steps: seq<Step>)
    requires Safe(s) && IsRun(Apply(s, Stop), steps)
    requires forall i :: 0 <= i < |steps| ==> !steps[i].Request?
    ensures var t := After(Apply(s, Stop), steps);
            && t.pool == {} && t.connections.Keys == s.connections.Keys && t.sessions.Keys == s.sessions.Keys
            && forall a :: a in s.sessions ==>
                 && t.sessions[a].reconnects == s.sessions[a].reconnects
                 && t.sessions[a].connection == s.sessions[a].connection
  {
    StepIsSafe(s, Stop);
    StopEndsReconnects(Apply(s, Stop), steps);
  }

  /** The same from any state with an empty pool. */
  lemma {:induction false} StopEndsReconnects(s: State, steps: seq<Step>)
    requires Safe(s) && s.pool == {} && IsRun(s, steps)
    requires forall i :: 0 <= i < |steps| ==> !steps[i].Request?
    ensures var t := After(s, steps);
            && t.pool == {} && t.connections.Keys == s.connections.Keys && t.sessions.Keys == s.sessions.Keys
            && forall a :: a in s.sessions ==>
                 && t.sessions[a].reconnects == s.sessions[a].reconnects
                 && t.sessions[a].connection == s.sessions[a].connection
    decreases |steps|
  {
    if steps != [] {
      StepIsSafe(s, steps[0]);
      EmptyPoolStep(s, steps[0]);
      StopEndsReconnects(Apply(s, steps[0]), steps[1..]);
    }
  }

  lemma EmptyPoolStep(s: State, step: Step)
    requires Safe(s) && s.pool == {} && Enabled(s, step) && !step.Request?
    ensures var t := Apply(s, step);
            && t.pool == {} && t.connections.Keys == s.connections.Keys && t.sessions.Keys == s.sessions.Keys
            && forall a :: a in s.sessions ==>
                 && t.sessions[a].reconnects == s.sessions[a].reconnects
                 && t.sessions[a].connection == s.sessions[a].connection
  {
    if step.Handle? {
      StepGoes(s, step);
    }
  }

  /** The first step of a longer run. */
  lemma RunOne(s: State, step: Step, steps: seq<Step>, id: SessionId)
    requires Enabled(s, step) && IsRun(Apply(s, step), steps)
    ensures IsRun(s, [step] + steps) && After(s, [step] + steps) == After(Apply(s, step), steps)
    ensures HandlersRun(s, [step] + steps, id)
            == (if step.Handle? && step.id == id && !NextChunk(s, step) then 1 else 0)
               + HandlersRun(Apply(s, step), steps, id)
    ensures AllTruthful(s, [step] + steps) <==> Truthful(s, step) && AllTruthful(Apply(s, step), steps)
  {
    assert ([step] + steps)[1..] == steps;
  }

  /** One session alone, on the connection `c` of the pool, before its head is read. */
  function Alone(connections: map<ConnectionId, Connection>, c: ConnectionId, session: Session): (s: State) {
    State(connections, {c}, map[0 := session], false)
  }

  /** The session once its request has been written. */
  function AtHead(session: Session): (next: Session) {
    WriteStarted(session).(phase := ReadingHead)
  }

  lemma ReceivedNothing(s: State, id: SessionId)
    requires id in s.sessions
    ensures Received(s, id, "") == s
  {
    assert s.sessions[id].response + "" == s.sessions[id].response;
  }

  /** From the resolver to the head, three handlers and one write. */
  lemma ToHead(connections: map<ConnectionId, Connection>, c: ConnectionId, newId: ConnectionId, session: Session,
               rest: seq<Step>)
    requires c in connections && newId !in connections
    requires session.connection == c && session.phase == Resolving
    requires IsRun(Alone(connections, c, AtHead(session)), rest)
    ensures var step := Handle(0, Ok, Complete, [c], newId, "");
            var s := Alone(connections, c, session);
            var next := AtHead(session);
            && IsRun(s, [step] + ([step] + ([step] + rest)))
            && After(s, [step] + ([step] + ([step] + rest))) == After(Alone(connections, c, next), rest)
            && HandlersRun(s, [step] + ([step] + ([step] + rest)), 0)
               == 3 + HandlersRun(Alone(connections, c, next), rest, 0)
            && (AllTruthful(Alone(connections, c, next), rest) ==> AllTruthful(s, [step] + ([step] + ([step] + rest))))
  {
    var step := Handle(0, Ok, Complete, [c], newId, "");
    var s := Alone(connections, c, session);
    assert Enumerates([c], {c});
    ReceivedNothing(s, 0);
    var s1 := Apply(s, step);
    ReceivedNothing(s1, 0);
    var s2 := Apply(s1, step);
    ReceivedNothing(s2, 0);
    var s3 := Apply(s2, step);
    var next := AtHead(session);
    assert s3 == Alone(connections, c, next);
    RunOne(s2, step, rest, 0);
    RunOne(s1, step, [step] + rest, 0);
    RunOne(s, step, [step] + ([step] + rest), 0);
  }

  lemma HeadEnabled(connections: map<ConnectionId, Connection>, session: Session, bytes: string)
    requires 1 in connections && 2 !in connections && Finds(bytes, Ok, ByChunks)
    requires session.connection == 1 && session.phase == ReadingHead && session.response == ""
    ensures var s, head := Alone(connections, 1, session), Handle(0, Ok, ByChunks, [1], 2, bytes);
            Enabled(s, head) && Truthful(s, head)
  {
    assert Enumerates([1], {1});
    assert "" + bytes == bytes;
  }

  lemma HeadHandled(connections: map<ConnectionId, Connection>, session: Session, bytes: string)
    requires 1 in connections && 2 !in connections
    requires session.connection == 1 && session.phase == ReadingHead && session.response == ""
    ensures Enumerates([1], {1})
    ensures Handled(Received(Alone(connections, 1, session), 0, bytes), 0, Ok, ByChunks, [1], 2)
            == Alone(connections[1 := connections[1].(attemptReconnect := true)], 1,
                     session.(phase := ReadingChunks, response := bytes))
  {
    assert Enumerates([1], {1});
    assert "" + bytes == bytes;
    assert Received(Alone(connections, 1, session), 0, bytes) == Alone(connections, 1, session.(response := bytes));
  }

  lemma ChunkStep(connections: map<ConnectionId, Connection>, session: Session)
    requires 1 in connections && 2 !in connections
    requires session.connection == 1 && session.phase == ReadingChunks && session.callbacks == []
    ensures var s, chunk := Alone(connections, 1, session), Handle(0, Ok, Complete, [1], 2, "");
            && Enabled(s, chunk) && 0 in Apply(s, chunk).sessions
            && Apply(s, chunk).sessions[0].callbacks == [Succeeded] && Apply(s, chunk).sessions[0].sent == session.sent
  {
    assert Enumerates([1], {1});
  }

  lemma LastHandlers(connections: map<ConnectionId, Connection>, session: Session) returns (steps: seq<Step>)
    requires 1 in connections && 2 !in connections
    requires session.connection == 1 && session.phase == ReadingHead && session.callbacks == []
    requires session.response == ""
    ensures var s := Alone(connections, 1, session);
            && IsRun(s, steps) && HandlersRun(s, steps, 0) == 2 && AllTruthful(s, steps)
            && 0 in After(s, steps).sessions && After(s, steps).sessions[0].callbacks == [Succeeded]
            && After(s, steps).sessions[0].sent == session.sent
  {
    var bytes := SomeChunkedHead();
    var head, chunk := Handle(0, Ok, ByChunks, [1], 2, bytes), Handle(0, Ok, Complete, [1], 2, "");
    var s := Alone(connections, 1, session);
    var tried := connections[1 := connections[1].(attemptReconnect := true)];
    var reading := session.(phase := ReadingChunks, response := bytes);
    HeadEnabled(connections, session, bytes);
    HeadHandled(connections, session, bytes);
    ChunkStep(tried, reading);
    var s1 := Alone(tried, 1, reading);
    RunOne(s1, chunk, [], 0);
    RunOne(s, head, [chunk] + [], 0);
    steps := [head] + ([chunk] + []);
  }

  lemma RetryStep(asked: Session)
    requires asked.connection == 0 && asked.phase == ReadingHead && asked.response == ""
    ensures var s := Alone(map[0 := Connection(true, true)], 0, asked);
            var again := asked.(connection := 1, phase := Resolving, reconnects := asked.reconnects + 1);
            var retry := Handle(0, Eof, Complete, [0], 1, "");
            Enabled(s, retry) && Truthful(s, retry)
            && Apply(s, retry) == Alone(map[0 := Connection(true, true)][1 := Connection(true, false)], 1, again)
  {
    assert Enumerates([0], {0});
    assert "" + "" == "";
    ReceivedNothing(Alone(map[0 := Connection(true, true)], 0, asked), 0);
  }

  /** A session that cannot read its head on the first try, and is run again. */
  lemma SecondTry(request: string) returns (steps: seq<Step>)
    ensures var asked := Session(0, request, request, "", ReadingHead, [Transmission(0, request)], 0, []);
            var s := Alone(map[0 := Connection(true, true)], 0, asked);
            && IsRun(s, steps) && HandlersRun(s, steps, 0) == 6 && AllTruthful(s, steps)
            && 0 in After(s, steps).sessions && After(s, steps).sessions[0].callbacks == [Succeeded]
            && After(s, steps).sessions[0].sent == [Transmission(0, request), Transmission(1, request)]
  {
    var m0 := map[0 := Connection(true, true)];
    var m1 := m0[1 := Connection(true, false)];
    var asked := Session(0, request, request, "", ReadingHead, [Transmission(0, request)], 0, []);
    var second := asked.(connection := 1, phase := Resolving, reconnects := 1);
    var again := second.(phase := ReadingHead, sent := [Transmission(0, request)] + [Transmission(1, request)]);
    var last := LastHandlers(m1, again);
    ToHead(m1, 1, 2, second, last);
    var ok := Handle(0, Ok, Complete, [1], 2, "");
    var retry := Handle(0, Eof, Complete, [0], 1, "");
    RetryStep(asked);
    RunOne(Alone(m0, 0, asked), retry, [ok] + ([ok] + ([ok] + last)), 0);
    steps := [retry] + ([ok] + ([ok] + ([ok] + last)));
  }

  lemma FirstStep(request: string)
    ensures var start := Request(0, request, [], 0, false);
            Enabled(INITIAL, start) && Truthful(INITIAL, start)
            && Apply(INITIAL, start) == Alone(map[0 := Connection(true, true)], 0, NewSession(0, request))
  {
    assert Enumerates([], {});
  }

  /** The bounds on a session are reached: there is a run in which one runs nine handlers and sends
      its request twice. */
  lemma NineHandlers(request: string) returns (steps: seq<Step>)
    ensures IsRun(INITIAL, steps) && HandlersRun(INITIAL, steps, 0) == 9 && AllTruthful(INITIAL, steps)
    ensures var s := After(INITIAL, steps);
            && 0 in s.sessions && s.sessions[0].callbacks == [Succeeded]
            && s.sessions[0].sent == [Transmission(0, request), Transmission(1, request)]
  {
    var m0 := map[0 := Connection(true, true)];
    var first := NewSession(0, request);
    var rest := SecondTry(request);
    assert first.sent + [Transmission(0, request)] == [Transmission(0, request)];
    ToHead(m0, 0, 1, first, rest);
    var ok, start := Handle(0, Ok, Complete, [0], 1, ""), Request(0, request, [], 0, false);
    FirstStep(request);
    RunOne(INITIAL, start, [ok] + ([ok] + ([ok] + rest)), 0);
    steps := [start] + ([ok] + ([ok] + ([ok] + rest)));
  }

  // ---------------------------------------------------------------------------------------------
  // The client

  /** What the loop of the callback ends with when it has kept `behind` and is to go through the
      rest of the order. */
  function Pruned(connections: map<ConnectionId, Connection>, order: seq<ConnectionId>, behind: seq<ConnectionId>,
                  from: nat, failed: bool, connection: ConnectionId, unused: nat): (kept: seq<ConnectionId>)
    requires from <= |order| && forall c :: c in order ==> c in connections
  {
    behind + Kept(connections, order[from..], failed, connection, unused)
  }

  /** One step of that loop. */
  lemma PrunedStep(connections: map<ConnectionId, Connection>, order: seq<ConnectionId>, behind: seq<ConnectionId>,
                   from: nat, failed: bool, connection: ConnectionId, unused: nat)
    requires from < |order| && forall c :: c in order ==> c in connections
    ensures var c := order[from];
            var gone := failed && connection == c;
            var u := if !gone && !connections[c].inUse then unused + 1 else unused;
            Pruned(connections, order, behind, from, failed, connection, unused)
            == Pruned(connections, order, if gone || (!connections[c].inUse && u > 1) then behind else behind + [c],
                      from + 1, failed, connection, u)
  {
    assert order[from..][1..] == order[from + 1..];
  }

  lemma PrunedEnds(connections: map<ConnectionId, Connection>, order: seq<ConnectionId>, behind: seq<ConnectionId>,
                   failed: bool, connection: ConnectionId, unused: nat)
    requires forall c :: c in order ==> c in connections
    ensures Pruned(connections, order, [], 0, failed, connection, 0) == Kept(connections, order, failed, connection, 0)
    ensures Pruned(connections, order, behind, |order|, failed, connection, unused) == behind
  {
    assert order[0..] == order && order[|order|..] == [];
  }

  /** `erase` on a position of the iteration. */
  function Erase(order: seq<ConnectionId>, at: nat): (left: seq<ConnectionId>)
    requires at < |order|
    ensures |left| == |order| - 1 && left[..at] == order[..at] && left[at..] == order[at + 1..]
  {
    order[..at] + order[at + 1..]
  }

  /** The loop of the callback, which erases while it iterates: `it` is a position in the elements
      that are left. */
  method Prune(connections: map<ConnectionId, Connection>, order: seq<ConnectionId>, failed: bool,
               connection: ConnectionId) returns (left: seq<ConnectionId>)
    requires forall c :: c in order ==> c in connections
    ensures left == Kept(connections, order, failed, connection, 0)
  {
    left := order;
    var unusedConnections := 0;
    var it := 0;
    ghost var from := 0;
    PrunedEnds(connections, order, [], failed, connection, 0);
    assert left[..0] == [] && left[0..] == order[0..];
    while it != |left|
      invariant 0 <= it <= |left| && 0 <= from <= |order| && left[it..] == order[from..]
      invariant Pruned(connections, order, left[..it], from, failed, connection, unusedConnections)
                == Kept(connections, order, failed, connection, 0)
      decreases |left| - it
    {
      ghost var behind := left[..it];
      assert |left| - it == |order| - from && left[it] == order[from];
      assert left[it + 1..] == left[it..][1..] == order[from + 1..];
      assert left[..it + 1] == behind + [order[from]];
      PrunedStep(connections, order, behind, from, failed, connection, unusedConnections);
      if failed && connection == left[it] {
        left := Erase(left, it);
      } else if connections[left[it]].inUse {
        it := it + 1;
      } else {
        unusedConnections := unusedConnections + 1;
        if unusedConnections > 1 {
          left := Erase(left, it);
        } else {
          it := it + 1;
        }
      }
      from := from + 1;
    }
    assert left[..it] == left && from == |order|;
    PrunedEnds(connections, order, left, failed, connection, unusedConnections);
  }

  /** The client: its pool, the flags of the connections, which its sessions share, and its
      sessions. `State` is its value. */
  class Client {
    var connections: map<ConnectionId, Connection>
    var pool: set<ConnectionId>
    var sessions: map<SessionId, Session>
    var runnerStopped: bool

    ghost function Value(): (s: State)
      reads this
    {
      State(connections, pool, sessions, runnerStopped)
    }

    constructor ()
      ensures Value() == INITIAL
    {
      connections, pool, sessions, runnerStopped := map[], {}, map[], false;
    }

    /** `get_connection`, called by `request` for the new session. */
    method GetConnection(order: seq<ConnectionId>, newId: ConnectionId) returns (connection: ConnectionId, reused: bool)
      requires pool <= connections.Keys && Enumerates(order, pool) && newId !in connections
      modifies this`connections, this`pool
      ensures var idle := FirstIdle(old(connections), order);
              reused == idle.Some? && connection == if idle.Some? then idle.value else newId
      ensures connections == old(connections)[connection := Connection(true, true)]
      ensures pool == old(pool) + {connection}
    {
      reused, connection := false, newId;
      var it := 0;
      assert order[0..] == order;
      while it < |order| && !reused
        invariant 0 <= it <= |order|
        invariant if reused then FirstIdle(connections, order) == Some(connection) && connection in pool
                  else connection == newId && FirstIdle(connections, order[it..]) == FirstIdle(connections, order)
      {
        assert order[it..][1..] == order[it + 1..];
        if !connections[order[it]].inUse {
          reused, connection := true, order[it];
        }
        it := it + 1;
      }
      if !reused {
        pool := pool + {connection};
      }
      connections := connections[connection := Connection(true, true)];
    }

    /** `request`, up to its first asynchronous operation. */
    method Start(id: SessionId, request: string, order: seq<ConnectionId>, newId: ConnectionId, open: bool)
      requires Enabled(Value(), Request(id, request, order, newId, open))
      modifies this
      ensures Value() == Apply(old(Value()), Request(id, request, order, newId, open))
    {
      var connection, reused := GetConnection(order, newId);
      var session := NewSession(connection, request);
      Connect(id, session, reused && open);
    }

    /** `connect`. */
    method Connect(id: SessionId, session: Session, open: bool)
      modifies this`sessions
      ensures sessions == old(sessions)[id := Connected(session, open)]
    {
      if open {
        Write(id, session);
      } else {
        sessions := sessions[id := session.(phase := Resolving)];
      }
    }

    /** `write`, which starts to send a view of the request buffer and takes nothing from it. */
    method Write(id: SessionId, session: Session)
      modifies this`sessions
      ensures sessions == old(sessions)[id := WriteStarted(session)]
    {
      var data := session.requestBuffer;
      var sent := session.sent + [Transmission(session.connection, data)];
      sessions := sessions[id := session.(phase := Writing, sent := sent)];
    }

    /** The callback of a session: its loop erases from the pool while it iterates. */
    method Callback(id: SessionId, failed: bool, order: seq<ConnectionId>)
      requires id in sessions && sessions[id].connection in connections
      requires pool <= connections.Keys && Enumerates(order, pool)
      modifies this
      ensures Value() == CalledBack(old(Value()), id, failed, order)
    {
      var connection := sessions[id].connection;
      connections := connections[connection := connections[connection].(inUse := false)];
      assert forall c :: c in order <==> c in pool;
      var left := Prune(connections, order, failed, connection);
      pool := set c | c in left;
      var outcome := if failed then Failed else Succeeded;
      var session := sessions[id];
      sessions := sessions[id := session.(phase := Finished, callbacks := session.callbacks + [outcome])];
    }

    /** The handler of the response head, with the reconnect. */
    method HandleHead(id: SessionId, code: Code, finding: Finding, order: seq<ConnectionId>, newId: ConnectionId)
      requires Enabled(Value(), Stop) && Pending(Value(), id) && sessions[id].connection in connections
      requires newId !in connections && Enumerates(order, pool)
      modifies this
      ensures Value() == HeadRead(old(Value()), id, code, finding, order, newId)
    {
      var session := sessions[id];
      var connection := session.connection;
      if (code == Ok || code == NotFound) && finding == Full {
        Callback(id, true, order);
        return;
      }
      if code == Ok {
        connections := connections[connection := connections[connection].(attemptReconnect := true)];
        match finding {
          case Malformed => Callback(id, true, order);
          case Complete => Callback(id, false, order);
          case ByLength => sessions := sessions[id := session.(phase := ReadingLength)];
          case ByChunks => sessions := sessions[id := session.(phase := ReadingChunks)];
          case ToEnd => sessions := sessions[id := session.(phase := ReadingToEnd)];
          case BadLength => sessions := sessions[id := session.(phase := Abandoned)];
        }
      } else if connections[connection].attemptReconnect && code != Aborted {
        if connection in pool {
          pool := pool - {connection};
          connections := connections[newId := Connection(true, false)];
          pool := pool + {newId};
          Connect(id, session.(connection := newId, reconnects := session.reconnects + 1), false);
        } else {
          Callback(id, true, order);
        }
      } else {
        Callback(id, true, order);
      }
    }

    /** The handler of whatever the session waits for. */
    method HandleNext(id: SessionId, code: Code, finding: Finding, order: seq<ConnectionId>, newId: ConnectionId,
                      arrived: string)
      requires Enabled(Value(), Handle(id, code, finding, order, newId, arrived))
      modifies this
      ensures Value() == Apply(old(Value()), Handle(id, code, finding, order, newId, arrived))
    {
      var session := sessions[id].(response := sessions[id].response + arrived);
      sessions := sessions[id := session];
      if runnerStopped {
        sessions := sessions[id := session.(phase := Dropped)];
        return;
      }
      match session.phase {
        case ReadingHead => HandleHead(id, code, finding, order, newId);
        case Resolving =>
          if code == Ok {
            sessions := sessions[id := session.(phase := Connecting)];
          } else {
            Callback(id, true, order);
          }
        case Connecting =>
          if code == Ok {
            Write(id, session);
          } else {
            Callback(id, true, order);
          }
        case Writing =>
          if code == Ok {
            sessions := sessions[id := session.(phase := ReadingHead)];
          } else {
            Callback(id, true, order);
          }
        case ReadingLength => Callback(id, code != Ok || finding == Full, order);
        case ReadingToEnd => Callback(id, !(code == Eof || (code == Ok && finding != Full)), order);
        case ReadingChunks =>
          if code != Ok || finding == Full || finding == Malformed {
            Callback(id, true, order);
          } else if finding == Complete {
            Callback(id, false, order);
          }
      }
    }

    /** `stop`: every connection is erased. */
    method StopAll(order: seq<ConnectionId>)
      requires Enabled(Value(), Stop) && Enumerates(order, pool)
      modifies this`pool
      ensures Value() == Apply(old(Value()), Stop)
    {
      var left := order;
      assert forall c :: c in pool <==> c in order;
      while left != []
        invariant forall c :: c in pool <==> c in left
        invariant forall i, j :: 0 <= i < j < |left| ==> left[i] != left[j]
        decreases |left|
      {
        assert forall c :: c in left <==> c == left[0] || c in left[1..];
        pool := pool - {left[0]};
        left := left[1..];
      }
    }
  }
}
