/**
 The controller, its sessions and connections, and the agents, as one state machine.

 The controller runs a single event loop on one thread (src/controller/main.cpp:22), so each handler is one step.
 Agents are free: any connection may carry any message at any time, and sockets close and time passes whenever they
 like.  Sessions and connections are numbered in order of creation and never forgotten; a session object is alive
 while `registry`, the only owner of sessions, refers to it.
 */
module System {
  import opened Constants
  import opened Options
  import opened Policies
  import opened Sessions
  import opened Sums
  import AgentCore

  /** The initial value of the agent's duplicate memory. */
  const SENTINEL: nat := 0xFFFF_FFFF

  /**
   `sent` is every command frame ever handed to this connection; frames are snapshots taken when sent.  `closeAsked`
   and `drainAsked` record that disconnect or flushAndDisconnect was called; the socket closes at some later event.
   */
  datatype Conn = Conn(context: Option<nat>, open: bool, sent: seq<Cmd<nat>>, closeAsked: bool, drainAsked: bool)

  function NewConn(): Conn {
    Conn(None, true, [], false, false)
  }

  function Offset<K(==)>(readings: map<K, nat>, k: K, length: nat): (r: nat)
    ensures r <= length
  {
    if k !in readings then 0 else if readings[k] <= length then readings[k] else length
  }

  /**
   What the clock says during one tick, which takes `length` milliseconds.  The source reads it anew for every
   session: in the health check, in the timeout check, and for each command issued (numbered within the tick) once
   more in isHealthy and in trackCommand.  Readings are offsets from the start; a missing one is 0.
   */
  datatype Clock = Clock(
    length: nat, health: map<nat, nat>, check: map<nat, nat>, again: map<(nat, nat), nat>, track: map<(nat, nat), nat>)
  {
    function Health(i: nat): (r: nat)
      ensures r <= length
    {
      Offset(health, i, length)
    }

    function Check(i: nat): (r: nat)
      ensures r <= length
    {
      Offset(check, i, length)
    }

    function Again(i: nat, j: nat): (r: nat)
      ensures r <= length
    {
      Offset(again, (i, j), length)
    }

    function Track(i: nat, j: nat): (r: nat)
      ensures r <= length
    {
      Offset(track, (i, j), length)
    }
  }

  const STOPPED: Clock := Clock(0, map[], map[], map[], map[])

  /**
   One agent process.  It reads only its current connection; `base` is how many frames it had received when that
   connection was made.  `start`, `received`, `applied` and `readOn` are history since the controller was started: the
   memory it had then, all command frames, those not refused, and the connection each received frame came on.
   */
  datatype AgentProc = AgentProc(
    core: AgentCore.Core<nat>, start: AgentCore.Core<nat>, conn: Option<nat>, base: nat, received: seq<Cmd<nat>>,
    applied: seq<Cmd<nat>>, readOn: seq<nat>)

  /**
   `issued` lists the modes of all commands issued; its length is the CMD_SET_MODE counter.  `registry` is
   sessions_, by agent id.  `samples` and `failures` are the metrics; `tracked` counts calls of trackCommand.
   `clock` holds the readings for the tick in progress, or the last one.
   */
  datatype State = State(
    now: int, lastTick: int, clock: Clock,
    policies: seq<Policy>, issued: seq<nat>, overload: bool, shuttingDown: bool,
    sessions: seq<Session>, registry: map<nat, nat>, conns: seq<Conn>, agents: seq<AgentProc>,
    loads: map<nat, real>, samples: nat, failures: nat, tracked: nat)

  /** A message from an agent.  `None` stands for a payload too short to decode. */
  datatype Inbound =
    | Hello(agentId: Option<nat>)
    | Heartbeat
    | Report(load: Option<real>)
    | AckOf(cmdId: Option<nat>)
    | NackOf(cmdId: Option<nat>)
    | OtherType

  datatype Event =
    | Elapse(ms: nat)
    | Connect(agent: nat)
    | Receive(conn: nat, msg: Inbound)
    | ConnectionError(conn: nat)
    | SocketClosed(conn: nat)
    | Tick(reload: Option<seq<Policy>>, load: real, clock: Clock)
    | Deliver(agent: nat)
    | Shutdown

  /** The memory of a new agent process. */
  const FRESH: AgentCore.Core<nat> := AgentCore.Core(SENTINEL, 0, 0)

  function AgentWith(memory: AgentCore.Core<nat>): AgentProc {
    AgentProc(memory, memory, None, 0, [], [], [])
  }

  /** A controller started while there are agents with the given memories, not connected yet. */
  function Started(policies: seq<Policy>, memories: seq<AgentCore.Core<nat>>): State {
    State(0, 0, STOPPED, policies, [], false, false, [], map[], [],
          seq(|memories|, i requires 0 <= i < |memories| => AgentWith(memories[i])), map[], 0, 0, 0)
  }

  /** The agents there are, and the policies loaded at start-up. */
  datatype Setup = Setup(agentCount: nat, policies: seq<Policy>)

  /** All agents are new. */
  function Initial(setup: Setup): State {
    Started(setup.policies, seq(setup.agentCount, _ => FRESH))
  }

  // ---------------------------------------------------------------- steps

  /** Locking the weak reference in a connection's context: it succeeds while the session is owned by the registry. */
  function Lock(s: State, c: nat): Option<nat>
    requires c < |s.conns|
  {
    var ctx := s.conns[c].context;
    if ctx.Some? && ctx.value < |s.sessions| && ctx.value in s.registry.Values then ctx else None
  }

  predicate HealthyAt(s: State, sid: nat, t: int) {
    && sid < |s.sessions| && s.sessions[sid].conn < |s.conns|
    && s.conns[s.sessions[sid].conn].open
    && HeartbeatOk(s.sessions[sid].lastHeartbeat, t)
  }

  /** The verdict of the health check in the tick. */
  predicate Healthy(s: State, sid: nat) {
    HealthyAt(s, sid, s.now + s.clock.Health(sid))
  }

  function CheckTime(s: State, sid: nat): int {
    s.now + s.clock.Check(sid)
  }

  /** The verdict when the tick's `j`-th command is about to be issued to the session. */
  predicate HealthyAgain(s: State, sid: nat, j: nat) {
    HealthyAt(s, sid, s.now + s.clock.Again(sid, j))
  }

  function TrackTime(s: State, sid: nat, j: nat): int {
    s.now + s.clock.Track(sid, j)
  }

  /** Dropping the registry's reference to a session destroys it. */
  function Destroy(sessions: seq<Session>, registry: map<nat, nat>, agentId: nat): seq<Session> {
    if agentId in registry && registry[agentId] < |sessions|
    then sessions[registry[agentId] := Abandon(sessions[registry[agentId]])]
    else sessions
  }

  /** HELLO on a connection without a live session. */
  function Register(s: State, c: nat, agentId: nat): State
    requires c < |s.conns|
  {
    var sid := |s.sessions|;
    s.(sessions := Destroy(s.sessions, s.registry, agentId) + [NewSession(agentId, c, s.now)],
       registry := s.registry[agentId := sid],
       conns := s.conns[c := s.conns[c].(context := Some(sid))])
  }

  /** The connection's error handler.  Agent id 0 is not evicted here. */
  function OnError(s: State, c: nat): State
    requires c < |s.conns|
  {
    var sid := Lock(s, c);
    if sid.None? || s.sessions[sid.value].agentId == 0 then s
    else
      var agentId := s.sessions[sid.value].agentId;
      s.(sessions := Destroy(s.sessions, s.registry, agentId), registry := s.registry - {agentId})
  }

  function OnAck(s: State, sid: nat, cmdId: nat): State
    requires sid < |s.sessions|
  {
    s.(sessions := s.sessions[sid := HandleAck(s.sessions[sid], cmdId, s.now)],
       samples := s.samples + if cmdId in s.sessions[sid].pending then 1 else 0)
  }

  /** onMessage.  A payload that cannot be decoded raises an exception, which reaches the error handler. */
  function OnMessage(s: State, c: nat, msg: Inbound): State
    requires c < |s.conns|
  {
    match Lock(s, c)
    case None =>
      (match msg
       case Hello(Some(agentId)) => Register(s, c, agentId)
       case Hello(None) => OnError(s, c)
       case _ => s.(conns := s.conns[c := s.conns[c].(closeAsked := true)]))
    case Some(sid) =>
      (match msg
       case Hello(_) => s
       case Heartbeat => s.(sessions := s.sessions[sid := Beat(s.sessions[sid], s.now)])
       case Report(Some(load)) => s.(loads := s.loads[s.sessions[sid].agentId := load])
       case AckOf(Some(id)) => OnAck(s, sid, id)
       case NackOf(Some(id)) => OnAck(s, sid, id)
       case OtherType => s
       case _ => OnError(s, c))
  }

  /** The commands issued for the given modes; the counter wraps at 32 bits. */
  function Commands(first: nat, modes: seq<nat>): (r: seq<Cmd<nat>>)
    ensures |r| == |modes|
  {
    seq(|modes|, i requires 0 <= i < |modes| => Cmd((first + i) % U32_RANGE, modes[i]))
  }

  /** The commands of a tick that session `i` is given: those for which it is still healthy. */
  function Given(s: State, i: nat, cmds: seq<Cmd<nat>>): seq<Cmd<nat>> {
    if cmds == [] then []
    else
      var j := |cmds| - 1;
      Given(s, i, cmds[..j]) + if HealthyAgain(s, i, j) then [cmds[j]] else []
  }

  /** The session `ss` of index `i` after it was given its commands. */
  function IssueGiven(s: State, i: nat, ss: Session, cmds: seq<Cmd<nat>>): Session {
    if cmds == [] then ss
    else
      var j := |cmds| - 1;
      var before := IssueGiven(s, i, ss, cmds[..j]);
      if HealthyAgain(s, i, j) then Issue(before, cmds[j], TrackTime(s, i, j)) else before
  }

  /** What a tick does to one session: drop, or check timeouts and then track the commands given to it. */
  function TickSession(s: State, i: nat, cmds: seq<Cmd<nat>>): Session
    requires i < |s.sessions|
  {
    if i !in s.registry.Values then s.sessions[i]
    else if !Healthy(s, i) then Abandon(s.sessions[i])
    else IssueGiven(s, i, CheckTimeouts(s.sessions[i], CheckTime(s, i)), cmds)
  }

  /** The frames a tick puts on one connection: due resends, then the commands given. */
  function TickFrames(s: State, c: nat, cmds: seq<Cmd<nat>>): seq<Cmd<nat>>
    requires c < |s.conns|
  {
    var sid := Lock(s, c);
    if sid.Some? && Healthy(s, sid.value)
    then ResentFrames(s.sessions[sid.value], CheckTime(s, sid.value)) + Given(s, sid.value, cmds)
    else []
  }

  /** The tick asks for the connection to be closed: its session is dropped, or one of its commands has failed. */
  predicate TickCloses(s: State, c: nat)
    requires c < |s.conns|
  {
    var sid := Lock(s, c);
    sid.Some? && (!Healthy(s, sid.value) || FailKeys(s.sessions[sid.value], CheckTime(s, sid.value)) != {})
  }

  function TickConn(s: State, c: nat, cmds: seq<Cmd<nat>>): Conn
    requires c < |s.conns|
  {
    s.conns[c].(sent := s.conns[c].sent + TickFrames(s, c, cmds),
                closeAsked := s.conns[c].closeAsked || TickCloses(s, c))
  }

  function TickFailures(s: State, i: nat): nat
    requires i < |s.sessions|
  {
    if i in s.registry.Values && Healthy(s, i) then |FailKeys(s.sessions[i], CheckTime(s, i))| else 0
  }

  function TickTracked(s: State, i: nat, cmds: seq<Cmd<nat>>): nat {
    if i in s.registry.Values && Healthy(s, i) then |Given(s, i, cmds)| else 0
  }

  function TickFailureCounts(s: State): (r: seq<nat>)
    ensures |r| == |s.sessions| && forall i :: 0 <= i < |r| ==> r[i] == TickFailures(s, i)
  {
    seq(|s.sessions|, i requires 0 <= i < |s.sessions| => TickFailures(s, i))
  }

  function TickTrackedCounts(s: State, cmds: seq<Cmd<nat>>): (r: seq<nat>)
    ensures |r| == |s.sessions| && forall i :: 0 <= i < |r| ==> r[i] == TickTracked(s, i, cmds)
  {
    seq(|s.sessions|, i requires 0 <= i < |s.sessions| => TickTracked(s, i, cmds))
  }

  /** The two loops of a tick whose policy loop has the given outcome. */
  function TickLoops(s: State, out: Outcome): State {
    var cmds := Commands(|s.issued|, out.modes);
    s.(issued := s.issued + out.modes, overload := out.overload,
       sessions := seq(|s.sessions|, i requires 0 <= i < |s.sessions| => TickSession(s, i, cmds)),
       registry := map a | a in s.registry && Healthy(s, s.registry[a]) :: s.registry[a],
       conns := seq(|s.conns|, c requires 0 <= c < |s.conns| => TickConn(s, c, cmds)),
       failures := s.failures + Sum(TickFailureCounts(s)),
       tracked := s.tracked + Sum(TickTrackedCounts(s, cmds)))
  }

  /** A tick, from its start to its end. */
  function TickWith(s: State, out: Outcome): State {
    TickLoops(s, out).(lastTick := s.now, now := s.now + s.clock.length)
  }

  /** The health-check tick, once the policies are reloaded and the clock readings are known. */
  function OnTick(s: State, load: real): State {
    TickWith(s, RunPolicies(s.policies, load, s.overload))
  }

  /** The start of a tick. */
  function Begin(s: State, reload: Option<seq<Policy>>, clock: Clock): State {
    s.(policies := if reload.Some? then reload.value else s.policies, clock := clock)
  }

  function FlushSession(s: State, i: nat): Session
    requires i < |s.sessions|
  {
    if i in s.registry.Values then Flush(s.sessions[i]) else s.sessions[i]
  }

  function FlushConn(s: State, c: nat): Conn
    requires c < |s.conns|
  {
    var sid := Lock(s, c);
    if sid.None? then s.conns[c]
    else s.conns[c].(sent := s.conns[c].sent + FlushedFrames(s.sessions[sid.value]), drainAsked := true)
  }

  function OnShutdown(s: State): State {
    if s.shuttingDown then s
    else s.(shuttingDown := true,
            sessions := seq(|s.sessions|, i requires 0 <= i < |s.sessions| => FlushSession(s, i)),
            conns := seq(|s.conns|, c requires 0 <= c < |s.conns| => FlushConn(s, c)))
  }

  /** The agent connects, or reconnects: from now on it reads the new connection. */
  function OnConnect(s: State, p: nat): State
    requires p < |s.agents|
  {
    s.(conns := s.conns + [NewConn()],
       agents := s.agents[p := s.agents[p].(conn := Some(|s.conns|), base := |s.agents[p].received|)])
  }

  /** Whether the agent has an unread frame on its current connection. */
  predicate Unread(s: State, p: nat) {
    && p < |s.agents| && s.agents[p].conn.Some? && s.agents[p].conn.value < |s.conns|
    && s.agents[p].base <= |s.agents[p].received|
    && |s.agents[p].received| - s.agents[p].base < |s.conns[s.agents[p].conn.value].sent|
  }

  /** The agent reads its next frame. */
  function OnDeliver(s: State, p: nat): State
    requires Unread(s, p)
  {
    var a := s.agents[p];
    var f := s.conns[a.conn.value].sent[|a.received| - a.base];
    var r := AgentCore.Handle(a.core, f);
    s.(agents := s.agents[p := a.(core := r.core, received := a.received + [f],
                                  applied := if r.reply.Ack? then a.applied + [f] else a.applied,
                                  readOn := a.readOn + [a.conn.value])])
  }

  function Step(s: State, e: Event): State {
    match e
    case Elapse(ms) => s.(now := s.now + ms)
    case Connect(p) => if p < |s.agents| then OnConnect(s, p) else s
    case Receive(c, msg) => if c < |s.conns| then OnMessage(s, c, msg) else s
    case ConnectionError(c) => if c < |s.conns| then OnError(s, c) else s
    case SocketClosed(c) => if c < |s.conns| then s.(conns := s.conns[c := s.conns[c].(open := false)]) else s
    case Tick(reload, load, clock) => OnTick(Begin(s, reload, clock), load)
    case Deliver(p) => if Unread(s, p) then OnDeliver(s, p) else s
    case Shutdown => OnShutdown(s)
  }

  function Run(s: State, es: seq<Event>): State
    decreases |es|
  {
    if es == [] then s else Run(Step(s, es[0]), es[1..])
  }

  /** At most 2^32 - 1 commands were issued, so every id is below the sentinel and none is used twice. */
  ghost predicate Bounded(s: State) {
    |s.issued| <= SENTINEL
  }
}
