/** fasitd: the session registry, the lifecycle of a connection and the dispatch of
    commands, interleaved in any way. */
module Fasitd {
  import opened Basics

  datatype SessionKey = SessionKey(tenant: string, environment: string)

  type ConnId = nat
  type CommandId = nat

  /** A session is its connection; `id` is what pointer equality compares. */
  datatype Session = Session(id: ConnId, key: SessionKey)

  // ----- The registry -----

  function Added(sessions: map<SessionKey, Session>, s: Session): map<SessionKey, Session> {
    if s.key in sessions then sessions else sessions[s.key := s]
  }

  function Removed(sessions: map<SessionKey, Session>, s: Session): map<SessionKey, Session> {
    if s.key in sessions && sessions[s.key] == s then sessions - {s.key} else sessions
  }

  class Registry {
    var sessions: map<SessionKey, Session>

    constructor ()
      ensures sessions == map[]
    {
      sessions := map[];
    }

    method Add(s: Session) returns (ok: bool)
      modifies this
      ensures sessions == Added(old(sessions), s)
      ensures ok <==> s.key !in old(sessions)
    {
      if s.key in sessions {
        return false;
      }
      sessions := sessions[s.key := s];
      return true;
    }

    method Remove(s: Session)
      modifies this
      ensures sessions == Removed(old(sessions), s)
    {
      if s.key in sessions && sessions[s.key] == s {
        sessions := sessions - {s.key};
      }
    }

    method Get(key: SessionKey) returns (s: Option<Session>)
      ensures s == if key in sessions then Some(sessions[key]) else None
    {
      if key in sessions {
        s := Some(sessions[key]);
      } else {
        s := None;
      }
    }
  }

  // ----- Connections and commands -----

  const SEND_BUFFER := 64

  /** Closing: done is closed, the deferred remove has not run yet. */
  datatype Phase = Connecting | Active | Rejected | Closing | Ended

  /** `pumping`: the send goroutine runs. `accepted`: everything ever put on the channel;
      `failed`: taken off it by the goroutine, which then stopped on a stream error. */
  datatype Conn = Conn(session: Session, phase: Phase, pumping: bool, queue: seq<CommandId>,
                       accepted: seq<CommandId>, delivered: seq<CommandId>, failed: seq<CommandId>)

  datatype Outcome = SentTo(conn: ConnId) | NoSession | SessionClosed | TimedOut

  datatype Dispatch = Created | Holding(conn: ConnId) | Finished(outcome: Outcome)

  datatype Command = Command(key: SessionKey, dispatch: Dispatch)

  /** `rows` are the status rows the dispatcher appends. */
  datatype World = World(sessions: map<SessionKey, Session>, conns: map<ConnId, Conn>,
                         commands: map<CommandId, Command>,
                         rows: seq<(CommandId, Outcome)>)

  datatype Step =
    | Register(c: ConnId, key: SessionKey)  // the first message names a known environment
    | Add(c: ConnId)                        // registry.add: Active or Rejected
    | Pump(c: ConnId, ok: bool)             // the send goroutine takes a command and sends it
    | StopPump(c: ConnId)                   // it sees done closed, or the context cancelled
    | CloseDone(c: ConnId)                  // Connect returns: close(sess.done)
    | Remove(c: ConnId)                     // then registry.remove
    | Create(i: CommandId, key: SessionKey) // the command row is written
    | Lookup(i: CommandId, recorded: bool)  // registry.get; without a session: undeliverable
    | Enqueue(i: CommandId, recorded: bool) // the channel took the command: sent
    | SeeClosed(i: CommandId, recorded: bool)
    | TimeOut(i: CommandId, recorded: bool)

  predicate Registered(c: Conn) {
    c.phase == Active || c.phase == Closing
  }

  predicate Enabled(w: World, step: Step) {
    match step
    case Register(c, _) => c !in w.conns
    case Add(c) => c in w.conns && w.conns[c].phase == Connecting
    case Pump(c, _) => c in w.conns && w.conns[c].pumping && w.conns[c].queue != []
    case StopPump(c) => c in w.conns && w.conns[c].pumping
    case CloseDone(c) => c in w.conns && w.conns[c].phase == Active
    case Remove(c) => c in w.conns && w.conns[c].phase == Closing
    case Create(i, _) => i !in w.commands
    case Lookup(i, _) => i in w.commands && w.commands[i].dispatch == Created
    case Enqueue(i, _) => Held(w, i) && |w.conns[w.commands[i].dispatch.conn].queue| < SEND_BUFFER
    case SeeClosed(i, _) => Held(w, i) && w.conns[w.commands[i].dispatch.conn].phase in {Closing, Ended}
    case TimeOut(i, _) => Held(w, i)
  }

  predicate Held(w: World, i: CommandId) {
    i in w.commands && w.commands[i].dispatch.Holding? && w.commands[i].dispatch.conn in w.conns
  }

  function Finish(w: World, i: CommandId, outcome: Outcome, recorded: bool): World
    requires i in w.commands
  {
    w.(commands := w.commands[i := w.commands[i].(dispatch := Finished(outcome))],
       rows := if recorded then w.rows + [(i, outcome)] else w.rows)
  }

  function Apply(w: World, step: Step): World
    requires Enabled(w, step)
  {
    match step
    case Register(c, key) => w.(conns := w.conns[c := Conn(Session(c, key), Connecting, false, [], [], [], [])])
    case Add(c) =>
      var conn := w.conns[c];
      if conn.session.key in w.sessions then w.(conns := w.conns[c := conn.(phase := Rejected)])
      else w.(sessions := Added(w.sessions, conn.session),
              conns := w.conns[c := conn.(phase := Active, pumping := true)])
    case Pump(c, ok) =>
      var conn := w.conns[c];
      var taken := conn.(queue := conn.queue[1..]);
      w.(conns := w.conns[c := if ok then taken.(delivered := conn.delivered + [conn.queue[0]])
                               else taken.(failed := conn.failed + [conn.queue[0]], pumping := false)])
    case StopPump(c) => w.(conns := w.conns[c := w.conns[c].(pumping := false)])
    case CloseDone(c) => w.(conns := w.conns[c := w.conns[c].(phase := Closing)])
    case Remove(c) =>
      w.(sessions := Removed(w.sessions, w.conns[c].session), conns := w.conns[c := w.conns[c].(phase := Ended)])
    case Create(i, key) => w.(commands := w.commands[i := Command(key, Created)])
    case Lookup(i, recorded) =>
      var key := w.commands[i].key;
      if key in w.sessions then w.(commands := w.commands[i := w.commands[i].(dispatch := Holding(w.sessions[key].id))])
      else Finish(w, i, NoSession, recorded)
    case Enqueue(i, recorded) =>
      var c := w.commands[i].dispatch.conn;
      var conn := w.conns[c];
      Finish(w.(conns := w.conns[c := conn.(queue := conn.queue + [i], accepted := conn.accepted + [i])]), i, SentTo(c),
             recorded)
    case SeeClosed(i, recorded) => Finish(w, i, SessionClosed, recorded)
    case TimeOut(i, recorded) => Finish(w, i, TimedOut, recorded)
  }

  const START := World(map[], map[], map[], [])

  // ----- Invariants -----

  /** The registry holds exactly the sessions between add and remove. */
  ghost predicate RegistryExact(w: World) {
    && (forall k :: k in w.sessions ==> w.sessions[k].key == k && IsRegistered(w, w.sessions[k]))
    && (forall c :: c in w.conns ==> w.conns[c].session.id == c)
    && (forall c :: c in w.conns && Registered(w.conns[c]) ==> InRegistry(w, w.conns[c].session))
  }

  predicate IsRegistered(w: World, s: Session) {
    s.id in w.conns && w.conns[s.id].session == s && Registered(w.conns[s.id])
  }

  predicate InRegistry(w: World, s: Session) {
    s.key in w.sessions && w.sessions[s.key] == s
  }

  /** A channel is a queue: delivered, then at most one lost to a stream error, then waiting. */
  predicate ChannelOk(c: Conn) {
    && c.accepted == c.delivered + c.failed + c.queue
    && |c.queue| <= SEND_BUFFER
    && |c.failed| <= 1 && (c.failed != [] ==> !c.pumping)
    && NoDuplicates(c.accepted)
    && (!WasActive(c) ==> c.accepted == [] && !c.pumping)
  }

  predicate WasActive(c: Conn) {
    c.phase == Active || c.phase == Closing || c.phase == Ended
  }

  ghost predicate ChannelsOk(w: World) {
    forall c :: c in w.conns ==> ChannelOk(w.conns[c])
  }

  /** A command is on a channel exactly if its outcome is sent to it; and then the
      channel is of its environment and its connection was not rejected. */
  ghost predicate SentExact(w: World) {
    && (forall c, i :: OnChannel(w, c, i) <==> HasOutcome(w, i, SentTo(c)))
    && (forall c, i :: OnChannel(w, c, i) || Holds(w, c, i) ==> MayReceive(w, c, i))
  }

  predicate OnChannel(w: World, c: ConnId, i: CommandId) {
    c in w.conns && i in w.conns[c].accepted
  }

  predicate HasOutcome(w: World, i: CommandId, outcome: Outcome) {
    i in w.commands && w.commands[i].dispatch == Finished(outcome)
  }

  predicate Holds(w: World, c: ConnId, i: CommandId) {
    i in w.commands && w.commands[i].dispatch == Holding(c)
  }

  predicate MayReceive(w: World, c: ConnId, i: CommandId) {
    c in w.conns && i in w.commands && w.commands[i].key == w.conns[c].session.key && WasActive(w.conns[c])
  }

  /** At most one status row per command, and it is the command's outcome. */
  ghost predicate RowsExact(w: World) {
    && (forall j :: 0 <= j < |w.rows| ==> HasOutcome(w, w.rows[j].0, w.rows[j].1))
    && (forall j, k :: 0 <= j < k < |w.rows| ==> w.rows[j].0 != w.rows[k].0)
  }

  ghost predicate Inv(w: World) {
    RegistryExact(w) && ChannelsOk(w) && SentExact(w) && RowsExact(w)
  }

  lemma {:induction false} SameRegistrations(w: World, v: World)
    requires RegistryExact(w) && v.sessions == w.sessions && v.conns.Keys == w.conns.Keys
    requires forall c :: c in w.conns ==> SameRegistration(w.conns[c], v.conns[c])
    ensures RegistryExact(v)
  {
    forall k | k in v.sessions ensures v.sessions[k].key == k && IsRegistered(v, v.sessions[k]) {
      assert IsRegistered(w, w.sessions[k]) && SameRegistration(w.conns[w.sessions[k].id], v.conns[w.sessions[k].id]);
    }
    forall c | c in v.conns
      ensures v.conns[c].session.id == c && (Registered(v.conns[c]) ==> InRegistry(v, v.conns[c].session)) {
      assert SameRegistration(w.conns[c], v.conns[c]);
      assert InRegistry(w, w.conns[c].session) || !Registered(w.conns[c]);
    }
  }

  predicate SameRegistration(a: Conn, b: Conn) {
    a.session == b.session && (Registered(a) <==> Registered(b))
  }

  lemma {:induction false} AddKeepsRegistry(w: World, c: ConnId)
    requires RegistryExact(w) && Enabled(w, Add(c)) && w.conns[c].session.key !in w.sessions
    ensures RegistryExact(Apply(w, Add(c)))
  {
    var v := Apply(w, Add(c));
    forall k | k in v.sessions ensures v.sessions[k].key == k && IsRegistered(v, v.sessions[k]) {
      assert k in w.sessions ==> IsRegistered(w, w.sessions[k]);
    }
    forall d | d in v.conns && Registered(v.conns[d]) ensures InRegistry(v, v.conns[d].session) {
      assert d == c || InRegistry(w, w.conns[d].session);
    }
  }

  lemma {:induction false} RemoveKeepsRegistry(w: World, c: ConnId)
    requires RegistryExact(w) && Enabled(w, Remove(c))
    ensures RegistryExact(Apply(w, Remove(c)))
  {
    var v := Apply(w, Remove(c));
    assert InRegistry(w, w.conns[c].session);
    forall k | k in v.sessions ensures v.sessions[k].key == k && IsRegistered(v, v.sessions[k]) {
      assert IsRegistered(w, w.sessions[k]) && w.sessions[k].key == k;
    }
    forall d | d in v.conns && Registered(v.conns[d]) ensures InRegistry(v, v.conns[d].session) {
      assert InRegistry(w, w.conns[d].session);
    }
  }

  lemma {:induction false} RegisterKeepsRegistry(w: World, c: ConnId, key: SessionKey)
    requires RegistryExact(w) && Enabled(w, Register(c, key))
    ensures RegistryExact(Apply(w, Register(c, key)))
  {
    var v := Apply(w, Register(c, key));
    forall k | k in v.sessions ensures v.sessions[k].key == k && IsRegistered(v, v.sessions[k]) {
      assert IsRegistered(w, w.sessions[k]);
    }
    forall d | d in v.conns && Registered(v.conns[d]) ensures InRegistry(v, v.conns[d].session) {
      assert InRegistry(w, w.conns[d].session);
    }
  }

  lemma {:induction false} KeepsRegistry(w: World, step: Step)
    requires RegistryExact(w) && Enabled(w, step)
    ensures RegistryExact(Apply(w, step))
  {
    if step.Register? {
      RegisterKeepsRegistry(w, step.c, step.key);
    } else if step.Add? && w.conns[step.c].session.key !in w.sessions {
      AddKeepsRegistry(w, step.c);
    } else if step.Remove? {
      RemoveKeepsRegistry(w, step.c);
    } else {
      SameRegistrations(w, Apply(w, step));
    }
  }

  lemma {:induction false} AppendFresh(xs: seq<CommandId>, x: CommandId)
    requires NoDuplicates(xs) && x !in xs
    ensures NoDuplicates(xs + [x])
  {}

  lemma {:induction false} PumpKeeps(c: Conn)
    requires ChannelOk(c) && c.pumping && c.queue != []
    ensures ChannelOk(c.(queue := c.queue[1..], delivered := c.delivered + [c.queue[0]]))
    ensures ChannelOk(c.(queue := c.queue[1..], failed := c.failed + [c.queue[0]], pumping := false))
  {
    assert c.failed == [] && c.queue == [c.queue[0]] + c.queue[1..];
    assert c.delivered + c.failed + c.queue == c.delivered + c.queue;
    assert c.delivered + c.queue == (c.delivered + [c.queue[0]]) + c.failed + c.queue[1..];
    assert c.delivered + c.queue == c.delivered + (c.failed + [c.queue[0]]) + c.queue[1..];
  }

  lemma {:induction false} EnqueueKeeps(c: Conn, i: CommandId)
    requires ChannelOk(c) && WasActive(c) && |c.queue| < SEND_BUFFER && i !in c.accepted
    ensures ChannelOk(c.(queue := c.queue + [i], accepted := c.accepted + [i]))
  {
    AppendFresh(c.accepted, i);
    assert c.delivered + c.failed + (c.queue + [i]) == (c.delivered + c.failed + c.queue) + [i];
  }

  lemma {:induction false} KeepsChannels(w: World, step: Step)
    requires Inv(w) && Enabled(w, step)
    ensures ChannelsOk(Apply(w, step))
  {
    if step.Pump? {
      PumpKeeps(w.conns[step.c]);
    } else if step.Enqueue? {
      var c := w.commands[step.i].dispatch.conn;
      assert OnChannel(w, c, step.i) <==> HasOutcome(w, step.i, SentTo(c));
      assert Holds(w, c, step.i) && MayReceive(w, c, step.i);
      EnqueueKeeps(w.conns[c], step.i);
    }
  }

  predicate SameChannel(a: Conn, b: Conn) {
    a.session == b.session && a.accepted == b.accepted && (WasActive(a) ==> WasActive(b))
  }

  /** Steps of connections do not change what is on a channel. */
  lemma {:induction false} ConnectionsKeepSent(w: World, v: World)
    requires SentExact(w) && v.commands == w.commands
    requires forall c :: c in w.conns ==> c in v.conns && SameChannel(w.conns[c], v.conns[c])
    requires forall c :: c in v.conns && c !in w.conns ==> v.conns[c].accepted == []
    ensures SentExact(v)
  {
    forall c, i ensures OnChannel(v, c, i) <==> HasOutcome(v, i, SentTo(c)) {
      assert OnChannel(w, c, i) <==> HasOutcome(w, i, SentTo(c));
    }
    forall c, i | OnChannel(v, c, i) || Holds(v, c, i) ensures MayReceive(v, c, i) {
      assert OnChannel(w, c, i) || Holds(w, c, i);
      assert MayReceive(w, c, i) && SameChannel(w.conns[c], v.conns[c]);
    }
  }

  /** Nor does a step of a command, unless it enqueues. */
  lemma {:induction false} CommandKeepsSent(w: World, v: World, i: CommandId)
    requires SentExact(w) && v.conns == w.conns && i in v.commands && v.commands == w.commands[i := v.commands[i]]
    requires i in w.commands ==>
             !(w.commands[i].dispatch.Finished? && w.commands[i].dispatch.outcome.SentTo?) &&
               v.commands[i].key == w.commands[i].key
    requires !(v.commands[i].dispatch.Finished? && v.commands[i].dispatch.outcome.SentTo?)
    requires v.commands[i].dispatch.Holding? ==> MayReceive(v, v.commands[i].dispatch.conn, i)
    ensures SentExact(v)
  {
    forall c, j ensures OnChannel(v, c, j) <==> HasOutcome(v, j, SentTo(c)) {
      assert OnChannel(w, c, j) <==> HasOutcome(w, j, SentTo(c));
    }
    forall c, j | OnChannel(v, c, j) || Holds(v, c, j) ensures MayReceive(v, c, j) {
      if OnChannel(w, c, j) || Holds(w, c, j) {
        assert MayReceive(w, c, j);
      }
    }
  }

  lemma {:induction false} EnqueueKeepsSent(w: World, i: CommandId, recorded: bool)
    requires SentExact(w) && Enabled(w, Enqueue(i, recorded))
    ensures SentExact(Apply(w, Enqueue(i, recorded)))
  {
    var v := Apply(w, Enqueue(i, recorded));
    assert Holds(w, w.commands[i].dispatch.conn, i);
    forall c, j ensures OnChannel(v, c, j) <==> HasOutcome(v, j, SentTo(c)) {
      assert OnChannel(w, c, j) <==> HasOutcome(w, j, SentTo(c));
    }
    forall c, j | OnChannel(v, c, j) || Holds(v, c, j) ensures MayReceive(v, c, j) {
      assert OnChannel(w, c, j) || Holds(w, c, j);
      assert MayReceive(w, c, j);
    }
  }

  lemma {:induction false} LookupKeepsSent(w: World, i: CommandId, recorded: bool)
    requires RegistryExact(w) && SentExact(w) && Enabled(w, Lookup(i, recorded))
    ensures SentExact(Apply(w, Lookup(i, recorded)))
  {
    var key := w.commands[i].key;
    assert key in w.sessions ==> IsRegistered(w, w.sessions[key]);
    CommandKeepsSent(w, Apply(w, Lookup(i, recorded)), i);
  }

  lemma {:induction false} ConnectionStepKeepsSent(w: World, step: Step)
    requires SentExact(w) && Enabled(w, step)
    requires step.Register? || step.Add? || step.Pump? || step.StopPump? || step.CloseDone? || step.Remove?
    ensures SentExact(Apply(w, step))
  {
    ConnectionsKeepSent(w, Apply(w, step));
  }

  lemma {:induction false} KeepsSent(w: World, step: Step)
    requires Inv(w) && Enabled(w, step)
    ensures SentExact(Apply(w, step))
  {
    if step.Enqueue? {
      EnqueueKeepsSent(w, step.i, step.recorded);
    } else if step.Lookup? {
      LookupKeepsSent(w, step.i, step.recorded);
    } else if step.Create? || step.SeeClosed? || step.TimeOut? {
      CommandKeepsSent(w, Apply(w, step), step.i);
    } else {
      ConnectionStepKeepsSent(w, step);
    }
  }

  lemma {:induction false} KeepsRows(w: World, step: Step)
    requires RowsExact(w) && Enabled(w, step)
    ensures RowsExact(Apply(w, step))
  {
    var v := Apply(w, step);
    forall j | 0 <= j < |v.rows| ensures HasOutcome(v, v.rows[j].0, v.rows[j].1) {
      if j < |w.rows| {
        assert HasOutcome(w, w.rows[j].0, w.rows[j].1);
      }
    }
    forall j, k | 0 <= j < k < |v.rows| ensures v.rows[j].0 != v.rows[k].0 {
      assert HasOutcome(w, w.rows[j].0, w.rows[j].1);
    }
  }

  // ----- Main results -----

  ghost predicate IsRun(worlds: seq<World>, steps: seq<Step>) {
    && |worlds| == |steps| + 1 && worlds[0] == START
    && forall n {:trigger steps[n]} :: 0 <= n < |steps| ==> Taken(worlds[n], steps[n], worlds[n + 1])
  }

  predicate Taken(w: World, step: Step, v: World) {
    Enabled(w, step) && v == Apply(w, step)
  }

  lemma {:induction false} InvInEveryRun(worlds: seq<World>, steps: seq<Step>, n: nat)
    requires IsRun(worlds, steps) && n <= |steps|
    ensures Inv(worlds[n])
  {
    if n > 0 {
      InvInEveryRun(worlds, steps, n - 1);
      assert Taken(worlds[n - 1], steps[n - 1], worlds[n]);
      KeepsRegistry(worlds[n - 1], steps[n - 1]);
      KeepsChannels(worlds[n - 1], steps[n - 1]);
      KeepsSent(worlds[n - 1], steps[n - 1]);
      KeepsRows(worlds[n - 1], steps[n - 1]);
    }
  }

  /** Between add and remove, a key has one connection. */
  lemma {:induction false} OneSessionPerKey(worlds: seq<World>, steps: seq<Step>, n: nat, c: ConnId, d: ConnId)
    requires IsRun(worlds, steps) && n <= |steps| && c in worlds[n].conns && d in worlds[n].conns
    requires Registered(worlds[n].conns[c]) && Registered(worlds[n].conns[d]) &&
             worlds[n].conns[c].session.key == worlds[n].conns[d].session.key
    ensures c == d
  {
    InvInEveryRun(worlds, steps, n);
    assert InRegistry(worlds[n], worlds[n].conns[c].session) && InRegistry(worlds[n], worlds[n].conns[d].session);
  }

  ghost predicate Occupied(w: World, key: SessionKey) {
    exists d :: Occupies(w, key, d)
  }

  predicate Occupies(w: World, key: SessionKey, d: ConnId) {
    d in w.conns && Registered(w.conns[d]) && w.conns[d].session.key == key
  }

  /** A connection is rejected exactly if another one of its key is registered; a
      rejection changes nothing else, and a removal takes only its own session out. */
  lemma {:induction false} RejectedNeverEvicts(worlds: seq<World>, steps: seq<Step>, n: nat)
    requires IsRun(worlds, steps) && n < |steps|
    ensures var w, v, step := worlds[n], worlds[n + 1], steps[n];
            && (step.Add? ==> step.c in w.conns && step.c in v.conns
                              && (v.conns[step.c].phase == Rejected <==> Occupied(w, w.conns[step.c].session.key))
                              && (v.conns[step.c].phase == Rejected ==> v.sessions == w.sessions))
            && (step.Remove? ==> step.c in w.conns && v.sessions == w.sessions - {w.conns[step.c].session.key})
            && (forall d :: d in w.conns && Registered(w.conns[d]) && !(step == Remove(d)) ==>
                InRegistry(v, w.conns[d].session))
  {
    var w, v, step := worlds[n], worlds[n + 1], steps[n];
    assert Taken(w, step, v);
    InvInEveryRun(worlds, steps, n);
    InvInEveryRun(worlds, steps, n + 1);
    if step.Add? {
      var key := w.conns[step.c].session.key;
      if key in w.sessions {
        assert IsRegistered(w, w.sessions[key]);
        assert Occupies(w, key, w.sessions[key].id);
      }
      forall d | Occupies(w, key, d) ensures key in w.sessions {
        assert InRegistry(w, w.conns[d].session);
      }
    }
    if step.Remove? {
      assert InRegistry(w, w.conns[step.c].session);
    }
    forall d | d in w.conns && Registered(w.conns[d]) && !(step == Remove(d))
      ensures InRegistry(v, w.conns[d].session) {
      assert InRegistry(w, w.conns[d].session);
      assert d in v.conns && v.conns[d].session == w.conns[d].session && Registered(v.conns[d]);
    }
  }

  /** A key is in the registry exactly while a connection of it is between add and
      remove: nothing is left behind. */
  lemma {:induction false} NothingLeftBehind(worlds: seq<World>, steps: seq<Step>, n: nat, key: SessionKey)
    requires IsRun(worlds, steps) && n <= |steps|
    ensures key in worlds[n].sessions <==> Occupied(worlds[n], key)
  {
    InvInEveryRun(worlds, steps, n);
    var w := worlds[n];
    if key in w.sessions {
      assert IsRegistered(w, w.sessions[key]);
      assert Occupies(w, key, w.sessions[key].id);
    }
    if d :| Occupies(w, key, d) {
      assert InRegistry(w, w.conns[d].session);
    }
  }

  /** What the registry gives out for a key is the connection of that key between add and
      remove, and there is one to give out whenever there is such a connection. */
  lemma {:induction false} GetFindsConnection(worlds: seq<World>, steps: seq<Step>, n: nat, key: SessionKey, d: ConnId)
    requires IsRun(worlds, steps) && n <= |steps|
    ensures (key in worlds[n].sessions && worlds[n].sessions[key].id == d) <==> Occupies(worlds[n], key, d)
  {
    InvInEveryRun(worlds, steps, n);
    var w := worlds[n];
    if Occupies(w, key, d) {
      assert InRegistry(w, w.conns[d].session);
    } else if key in w.sessions {
      assert IsRegistered(w, w.sessions[key]);
    }
  }

  predicate Done(w: World, i: CommandId) {
    i in w.commands && w.commands[i].dispatch.Finished?
  }

  /** The step gives the command its outcome. */
  predicate Ends(w: World, step: Step, i: CommandId) {
    match step
    case Lookup(j, _) => i == j && i in w.commands && w.commands[i].key !in w.sessions
    case Enqueue(j, _) => i == j
    case SeeClosed(j, _) => i == j
    case TimeOut(j, _) => i == j
    case _ => false
  }

  ghost function TimesEnded(worlds: seq<World>, steps: seq<Step>, i: CommandId, n: nat): nat
    requires n <= |steps| <= |worlds|
  {
    if n == 0 then 0 else TimesEnded(worlds, steps, i, n - 1) + if Ends(worlds[n - 1], steps[n - 1], i) then 1 else 0
  }

  /** A step of the dispatcher for the command. */
  predicate Dispatches(step: Step, i: CommandId) {
    match step
    case Lookup(j, _) => i == j
    case Enqueue(j, _) => i == j
    case SeeClosed(j, _) => i == j
    case TimeOut(j, _) => i == j
    case _ => false
  }

  ghost predicate CanGoOn(w: World, i: CommandId) {
    exists step :: Dispatches(step, i) && Enabled(w, step)
  }

  ghost function TimesDispatched(worlds: seq<World>, steps: seq<Step>, i: CommandId, n: nat): nat
    requires n <= |steps| <= |worlds|
  {
    if n == 0 then 0 else TimesDispatched(worlds, steps, i, n - 1) + if Dispatches(steps[n - 1], i) then 1 else 0
  }

  function Stage(w: World, i: CommandId): nat {
    if i !in w.commands || w.commands[i].dispatch.Created? then 0
    else if w.commands[i].dispatch.Holding? then 1 else 2
  }

  /** A command gets at most one outcome, once. */
  lemma {:induction false} OneOutcome(worlds: seq<World>, steps: seq<Step>, i: CommandId, n: nat)
    requires IsRun(worlds, steps) && n <= |steps|
    ensures TimesEnded(worlds, steps, i, n) == if Done(worlds[n], i) then 1 else 0
  {
    if n > 0 {
      OneOutcome(worlds, steps, i, n - 1);
      assert Taken(worlds[n - 1], steps[n - 1], worlds[n]);
    }
  }

  lemma {:induction false} GoesOnUnlessDone(w: World, i: CommandId)
    requires Inv(w) && i in w.commands
    ensures CanGoOn(w, i) <==> !Done(w, i)
  {
    match w.commands[i].dispatch {
      case Created => assert Dispatches(Lookup(i, true), i) && Enabled(w, Lookup(i, true));
      case Holding(c) =>
        assert Holds(w, c, i) && MayReceive(w, c, i);
        assert Dispatches(TimeOut(i, true), i) && Enabled(w, TimeOut(i, true));
      case Finished(_) =>
    }
  }

  /** A command gets exactly one outcome: it has its one outcome when its dispatch has
      nothing left to do, has none before, and its dispatch takes at most two steps. */
  lemma {:induction false} ExactlyOneOutcome(worlds: seq<World>, steps: seq<Step>, i: CommandId, n: nat)
    requires IsRun(worlds, steps) && n <= |steps| && i in worlds[n].commands
    ensures TimesEnded(worlds, steps, i, n) == if CanGoOn(worlds[n], i) then 0 else 1
    ensures TimesDispatched(worlds, steps, i, n) <= 2
  {
    InvInEveryRun(worlds, steps, n);
    GoesOnUnlessDone(worlds[n], i);
    OneOutcome(worlds, steps, i, n);
    DispatchedByStage(worlds, steps, i, n);
  }

  lemma {:induction false} DispatchedByStage(worlds: seq<World>, steps: seq<Step>, i: CommandId, n: nat)
    requires IsRun(worlds, steps) && n <= |steps|
    ensures TimesDispatched(worlds, steps, i, n) <= Stage(worlds[n], i)
  {
    if n > 0 {
      DispatchedByStage(worlds, steps, i, n - 1);
      assert Taken(worlds[n - 1], steps[n - 1], worlds[n]);
      StageGrows(worlds[n - 1], steps[n - 1], i);
    }
  }

  lemma {:induction false} StageGrows(w: World, step: Step, i: CommandId)
    requires Enabled(w, step)
    ensures Stage(w, i) + (if Dispatches(step, i) then 1 else 0) <= Stage(Apply(w, step), i)
  {}

  /** Why a command got its outcome: there was no connection of its environment to look up;
      or the connection it held took it, or was closing, or neither until the time was up. */
  ghost predicate HasCause(w: World, step: Step, v: World, i: CommandId, outcome: Outcome) {
    i in w.commands && match outcome
      case NoSession => step.Lookup? && w.commands[i].key !in w.sessions
      case SentTo(c) =>
        step.Enqueue? && Holds(w, c, i) && c in w.conns && |w.conns[c].queue| < 64 &&
        c in v.conns && v.conns[c].accepted == w.conns[c].accepted + [i]
      case SessionClosed =>
        step.SeeClosed? && exists c :: Holds(w, c, i) && c in w.conns && w.conns[c].phase in {Closing, Ended}
      case TimedOut => step.TimeOut? && exists c :: Holds(w, c, i)
  }

  lemma {:induction false} OutcomeHasCause(worlds: seq<World>, steps: seq<Step>, n: nat, i: CommandId, outcome: Outcome)
    requires IsRun(worlds, steps) && n < |steps|
    requires HasOutcome(worlds[n + 1], i, outcome) && !HasOutcome(worlds[n], i, outcome)
    ensures HasCause(worlds[n], steps[n], worlds[n + 1], i, outcome)
    ensures outcome.NoSession? ==> !Occupied(worlds[n], worlds[n].commands[i].key)
  {
    var w, step, v := worlds[n], steps[n], worlds[n + 1];
    assert Taken(w, step, v);
    if step.SeeClosed? || step.TimeOut? {
      assert Holds(w, w.commands[i].dispatch.conn, i);
    }
    if i in w.commands {
      NothingLeftBehind(worlds, steps, n, w.commands[i].key);
    }
  }

  // ----- The status rows -----

  predicate Recorded(step: Step) {
    match step
    case Lookup(_, recorded) => recorded
    case Enqueue(_, recorded) => recorded
    case SeeClosed(_, recorded) => recorded
    case TimeOut(_, recorded) => recorded
    case _ => false
  }

  ghost function TimesRecorded(worlds: seq<World>, steps: seq<Step>, i: CommandId, n: nat): nat
    requires n <= |steps| <= |worlds|
  {
    if n == 0 then 0
    else TimesRecorded(worlds, steps, i, n - 1) +
         if Ends(worlds[n - 1], steps[n - 1], i) && Recorded(steps[n - 1]) then 1 else 0
  }

  /** The outcomes that the status rows give the command. */
  function RowsOf(rows: seq<(CommandId, Outcome)>, i: CommandId): seq<Outcome> {
    if rows == [] then []
    else
      var last := rows[|rows| - 1];
      RowsOf(rows[..|rows| - 1], i) + if last.0 == i then [last.1] else []
  }

  lemma {:induction false} RowsOfStep(w: World, step: Step, i: CommandId)
    requires Enabled(w, step)
    ensures |RowsOf(Apply(w, step).rows, i)| ==
            |RowsOf(w.rows, i)| + if Ends(w, step, i) && Recorded(step) then 1 else 0
  {
    var v := Apply(w, step);
    if |v.rows| > |w.rows| {
      assert v.rows[..|v.rows| - 1] == w.rows;
    }
  }

  lemma {:induction false} RowsAreRows(rows: seq<(CommandId, Outcome)>, i: CommandId, outcome: Outcome)
    ensures outcome in RowsOf(rows, i) <==> (i, outcome) in rows
  {
    if rows != [] {
      var k := |rows| - 1;
      RowsAreRows(rows[..k], i, outcome);
      assert rows == rows[..k] + [rows[k]];
    }
  }

  lemma {:induction false} CountsRecorded(worlds: seq<World>, steps: seq<Step>, i: CommandId, n: nat)
    requires IsRun(worlds, steps) && n <= |steps|
    ensures |RowsOf(worlds[n].rows, i)| == TimesRecorded(worlds, steps, i, n)
  {
    if n > 0 {
      CountsRecorded(worlds, steps, i, n - 1);
      RowsNext(worlds, steps, i, n - 1);
    }
  }

  lemma {:induction false} RowsNext(worlds: seq<World>, steps: seq<Step>, i: CommandId, n: nat)
    requires IsRun(worlds, steps) && n < |steps|
    ensures |RowsOf(worlds[n + 1].rows, i)| ==
            |RowsOf(worlds[n].rows, i)| + if Ends(worlds[n], steps[n], i) && Recorded(steps[n]) then 1 else 0
  {
    assert Taken(worlds[n], steps[n], worlds[n + 1]);
    RowsOfStep(worlds[n], steps[n], i);
  }

  lemma {:induction false} RecordedWhenEnded(worlds: seq<World>, steps: seq<Step>, i: CommandId, n: nat)
    requires n <= |steps| <= |worlds|
    ensures TimesRecorded(worlds, steps, i, n) <= TimesEnded(worlds, steps, i, n)
  {
    if n > 0 {
      RecordedWhenEnded(worlds, steps, i, n - 1);
    }
  }

  /** The status rows of a command are its outcome once, if the step that gave it its
      outcome could record it, and otherwise none. */
  lemma {:induction false} StatusRowsExact(worlds: seq<World>, steps: seq<Step>, i: CommandId, n: nat)
    requires IsRun(worlds, steps) && n <= |steps|
    ensures RowsOf(worlds[n].rows, i) ==
            if TimesRecorded(worlds, steps, i, n) == 0 then [] else [OutcomeIn(worlds[n], i)]
    ensures TimesRecorded(worlds, steps, i, n) > 0 ==> Done(worlds[n], i)
  {
    var w := worlds[n];
    OneOutcome(worlds, steps, i, n);
    CountsRecorded(worlds, steps, i, n);
    RecordedWhenEnded(worlds, steps, i, n);
    InvInEveryRun(worlds, steps, n);
    if TimesRecorded(worlds, steps, i, n) > 0 {
      var outcome := RowsOf(w.rows, i)[0];
      RowsAreRows(w.rows, i, outcome);
      var j :| 0 <= j < |w.rows| && w.rows[j] == (i, outcome);
      assert HasOutcome(w, w.rows[j].0, w.rows[j].1);
      assert RowsOf(w.rows, i) == [outcome];
    }
  }

  function OutcomeIn(w: World, i: CommandId): Outcome {
    if i in w.commands && w.commands[i].dispatch.Finished? then w.commands[i].dispatch.outcome else TimedOut
  }

  /** What was decided stays decided, and channels only grow at the end. */
  ghost predicate Grown(w: World, v: World) {
    && (forall i, outcome :: HasOutcome(w, i, outcome) ==> HasOutcome(v, i, outcome))
    && (forall c :: c in w.conns ==> c in v.conns && ConnGrown(w.conns[c], v.conns[c]))
  }

  predicate ConnGrown(a: Conn, b: Conn) {
    a.accepted <= b.accepted && a.delivered <= b.delivered
  }

  lemma {:induction false} StepGrows(w: World, step: Step)
    requires Enabled(w, step)
    ensures Grown(w, Apply(w, step))
  {
    var v := Apply(w, step);
    forall c | c in w.conns ensures c in v.conns && ConnGrown(w.conns[c], v.conns[c]) {}
  }

  lemma {:induction false} GrownTransitive(u: World, v: World, w: World)
    requires Grown(u, v) && Grown(v, w)
    ensures Grown(u, w)
  {
    forall c | c in u.conns ensures c in w.conns && ConnGrown(u.conns[c], w.conns[c]) {
      assert ConnGrown(u.conns[c], v.conns[c]) && ConnGrown(v.conns[c], w.conns[c]);
    }
  }

  lemma {:induction false} OutcomesAreFinal(worlds: seq<World>, steps: seq<Step>, m: nat, n: nat)
    requires IsRun(worlds, steps) && m <= n <= |steps|
    ensures Grown(worlds[m], worlds[n])
  {
    if m < n {
      OutcomesAreFinal(worlds, steps, m, n - 1);
      assert Taken(worlds[n - 1], steps[n - 1], worlds[n]);
      StepGrows(worlds[n - 1], steps[n - 1]);
      GrownTransitive(worlds[m], worlds[n - 1], worlds[n]);
    }
  }

  function Occurrences(xs: seq<CommandId>, i: CommandId): nat {
    multiset(xs)[i]
  }

  /** Sent means enqueued once, on that channel only, of the command's environment and
      never on a rejected connection; undeliverable means on no channel, then or later. */
  lemma {:induction false} SentMeansEnqueuedOnce(worlds: seq<World>, steps: seq<Step>, i: CommandId, outcome: Outcome,
                                                 m: nat, n: nat)
    requires IsRun(worlds, steps) && m <= n <= |steps| && HasOutcome(worlds[m], i, outcome)
    ensures forall c :: c in worlds[n].conns ==>
            Occurrences(worlds[n].conns[c].accepted, i) == if outcome == SentTo(c) then 1 else 0
    ensures outcome.SentTo? ==> MayReceive(worlds[n], outcome.conn, i)
  {
    InvInEveryRun(worlds, steps, n);
    OutcomesAreFinal(worlds, steps, m, n);
    var w := worlds[n];
    forall c | c in w.conns ensures Occurrences(w.conns[c].accepted, i) == if outcome == SentTo(c) then 1 else 0 {
      assert OnChannel(w, c, i) <==> HasOutcome(w, i, SentTo(c));
      assert HasOutcome(w, i, outcome);
      assert ChannelOk(w.conns[c]);
      NoDuplicatesCounts(w.conns[c].accepted);
      assert i in w.conns[c].accepted <==> i in multiset(w.conns[c].accepted);
    }
    if outcome.SentTo? {
      assert HasOutcome(w, i, SentTo(outcome.conn));
      assert OnChannel(w, outcome.conn, i);
    }
  }

  /** Delivery is first in, first out: a stream has got a prefix of what was enqueued;
      the rest is at most one command lost to a stream error and what still waits. */
  lemma {:induction false} FirstInFirstOut(worlds: seq<World>, steps: seq<Step>, n: nat, c: ConnId)
    requires IsRun(worlds, steps) && n <= |steps| && c in worlds[n].conns
    ensures var conn := worlds[n].conns[c];
            && conn.delivered <= conn.accepted
            && |conn.accepted| <= |conn.delivered| + 1 + 64
            && (conn.pumping ==> conn.accepted == conn.delivered + conn.queue)
  {
    InvInEveryRun(worlds, steps, n);
    assert ChannelOk(worlds[n].conns[c]);
    var conn := worlds[n].conns[c];
    assert conn.accepted == conn.delivered + (conn.failed + conn.queue);
  }
}
