/**
 Who has seen what: a finished agent is marked as seen exactly when its pane is on screen for
 somebody. Clients come, go, lose and gain focus; windows and panes change; reports arrive.
 */
module Visibility {
  import opened Common
  import opened Agent
  import opened Lifecycle
  import opened Model

  type ClientId = nat
  type SessionId = nat

  datatype OuterFocus = Unknown | Focused | Lost

  predicate MayObserve(f: OuterFocus) { f != Lost }

  datatype Client = Client(session: SessionId, outerFocus: OuterFocus)

  /** The state of the control loop that decides what is seen. */
  datatype World = World(
    clients: map<ClientId, Client>,
    sessions: map<SessionId, Session>,
    paneSession: map<PaneId, SessionId>,
    live: set<PaneId>,
    entries: map<PaneId, Entry>,
    detected: map<PaneId, Status>)

  predicate HasObserver(clients: map<ClientId, Client>, sid: SessionId)
  {
    exists id :: id in clients && clients[id].session == sid && MayObserve(clients[id].outerFocus)
  }

  /** The pane is on screen for some client that may be looking. */
  predicate InView(w: World, sid: SessionId, p: PaneId)
  {
    sid in w.sessions && p in RenderedPanes(w.sessions[sid]) && HasObserver(w.clients, sid)
  }

  /** What a pane shows: its reported status, else the detected one. */
  function Shown(w: World, p: PaneId): Option<Status>
  {
    var hook := Visible(Lookup(w.entries, p));
    if hook.Some? then hook else Lookup(w.detected, p)
  }

  predicate ShowsDone(w: World, p: PaneId)
  {
    Shown(w, p).Some? && Shown(w, p).value.Display() == Done
  }

  /** The contract: nothing anybody can see is waiting to be seen. */
  ghost predicate NothingDoneInView(w: World)
  {
    forall sid, p :: InView(w, sid, p) ==> !ShowsDone(w, p)
  }

  /** Panes belong to one session, only panes that belong to one have a lifecycle, and detection never reports Done. */
  ghost predicate Consistent(w: World)
  {
    && (forall sid, p ::
      sid in w.sessions && HasPane(w.sessions[sid], p) && p in w.paneSession ==> w.paneSession[p] == sid)
    && w.live <= w.paneSession.Keys
    && w.entries.Keys <= w.paneSession.Keys
    && (forall p :: p in w.detected ==> w.detected[p].Display() != Done)
    && (forall p :: p in w.entries && w.entries[p].status.Some? ==> w.entries[p].status.value.Valid())
  }

  // ---------------------------------------------------------------- transitions

  function SeenAll(entries: map<PaneId, Entry>, panes: seq<PaneId>): map<PaneId, Entry>
  {
    map p | p in entries :: if p in panes then Seen(Some(entries[p])).value else entries[p]
  }

  /** A session's rendered panes when somebody may be looking, else none. */
  function ObservablePanes(w: World, sid: SessionId): seq<PaneId>
  {
    if HasObserver(w.clients, sid) && sid in w.sessions then RenderedPanes(w.sessions[sid]) else []
  }

  datatype Transition =
    | ClientObserved(client: ClientId)
    | ClientBlurred(client: ClientId)
    | SessionExposed(session: SessionId)
    | AgentReported(pane: PaneId)

  function Refocused(w: World, id: ClientId, focus: OuterFocus): World
  {
    if id in w.clients then w.(clients := w.clients[id := w.clients[id].(outerFocus := focus)]) else w
  }

  function Exposed(w: World, sid: SessionId): World
  {
    w.(entries := SeenAll(w.entries, ObservablePanes(w, sid)))
  }

  /** The coordinator: every way something may come into view ends here. */
  function Coordinated(w: World, t: Transition): World
  {
    match t
    case ClientObserved(id) =>
      if id !in w.clients then w else Exposed(Refocused(w, id, Focused), w.clients[id].session)
    case ClientBlurred(id) => Refocused(w, id, Lost)
    case SessionExposed(sid) => Exposed(w, sid)
    case AgentReported(pane) =>
      if pane in w.paneSession && InView(w, w.paneSession[pane], pane) then w.(entries := SeenAll(w.entries, [pane]))
        else w
  }

  /** How closing panes ended. */
  datatype Cascade = Remaining(session: Session) | SessionClosed | NotFound

  /** A topology or focus change of one session, and everything else the control loop handles. */
  datatype Op =
    | Connect(client: ClientId, session: SessionId)
    | Gone(client: ClientId)
    | FocusReport(client: ClientId, focused: bool)
    | Input(client: ClientId)
    | Switch(client: ClientId, session: SessionId)
    | Mutate(session: SessionId, outcome: Option<Session>)
    | Spawned(pane: PaneId, session: SessionId)
    | NewWindow(session: SessionId, window: WindowId, pane: PaneId)
    | NewSession(session: SessionId, window: WindowId, pane: PaneId)
    | ExitKept(pane: PaneId)
    | Close(session: SessionId, panes: set<PaneId>, result: Cascade)
    | KillSession(session: SessionId)
    | ReportOrClear(pane: PaneId, event: Lifecycle.Event)
    | Detect(pane: PaneId, agent: Option<string>)

  function WithoutClientsOf(clients: map<ClientId, Client>, sid: SessionId): map<ClientId, Client>
  {
    map id | id in clients && clients[id].session != sid :: clients[id]
  }

  /**
   What a step may do: numbers of new panes, windows and sessions are new, a mutation of one session
   only shows panes of that session or new ones, and closing panes brings none in.
   */
  ghost predicate Allowed(w: World, op: Op)
  {
    match op
    case Connect(id, sid) => id !in w.clients && sid in w.sessions
    case Mutate(sid, outcome) =>
      outcome.Some? ==>
        && sid in w.sessions
        && forall p :: HasPane(outcome.value, p) ==> HasPane(w.sessions[sid], p) || p !in w.paneSession
    case Spawned(pane, sid) =>
      && (pane in w.paneSession ==> w.paneSession[pane] == sid)
      && (forall other :: other in w.sessions && other != sid ==> !HasPane(w.sessions[other], pane))
    case NewWindow(sid, wid, pane) => sid in w.sessions && wid !in w.sessions[sid].windows && pane !in w.paneSession
    case NewSession(sid, wid, pane) => sid !in w.sessions && pane !in w.paneSession
    case ExitKept(pane) => true
    case Close(sid, panes, result) =>
      && sid in w.sessions
      && (forall p :: p in panes && p in w.paneSession ==> w.paneSession[p] == sid)
      && (result.Remaining? ==> forall p :: HasPane(result.session, p) ==> HasPane(w.sessions[sid], p))
    case _ => true
  }

  function Closed(w: World, panes: set<PaneId>): World
  {
    w.(paneSession := w.paneSession - panes, live := w.live - panes, entries := w.entries - panes,
      detected := w.detected - panes)
  }

  /** A report or clear reaches a live pane; a report also needs the pane to belong to a session. */
  function AfterDelivery(w: World, pane: PaneId, event: Lifecycle.Event): World
  {
    if pane in w.live && (event.Report? ==> pane in w.paneSession) then
      w.(entries := w.entries[pane := Deliver(Lookup(w.entries, pane), event).value])
    else w
  }

  function Step(w: World, op: Op): World
  {
    match op
    case Connect(id, sid) =>
      Coordinated(w.(clients := w.clients[id := Client(sid, OuterFocus.Unknown)]), SessionExposed(sid))
    case Gone(id) => w.(clients := w.clients - {id})
    case FocusReport(id, focused) => Coordinated(w, if focused then ClientObserved(id) else ClientBlurred(id))
    case Input(id) => Coordinated(w, ClientObserved(id))
    case Switch(id, sid) =>
      if id !in w.clients then w
      else if w.clients[id].session == sid then Coordinated(w, SessionExposed(sid))
      else if sid !in w.sessions then w
      else Coordinated(w.(clients := w.clients[id := w.clients[id].(session := sid)]), SessionExposed(sid))
    case Mutate(sid, outcome) =>
      if outcome.None? then w
      else Coordinated(w.(sessions := w.sessions[sid := outcome.value]), SessionExposed(sid))
    case Spawned(pane, sid) => w.(paneSession := w.paneSession[pane := sid], live := w.live + {pane})
    case NewWindow(sid, wid, pane) =>
      if sid !in w.sessions then w else
      w.(sessions := w.sessions[sid := Session(w.sessions[sid].windows[wid := LonePane(pane)], wid)])
    case NewSession(sid, wid, pane) => w.(sessions := w.sessions[sid := Session(map[wid := LonePane(pane)], wid)])
    case ExitKept(pane) => w.(entries := w.entries - {pane}, live := w.live - {pane})
    case Close(sid, panes, result) =>
      var closed := Closed(w, panes);
      (match result
       case Remaining(session) => Coordinated(closed.(sessions := w.sessions[sid := session]), SessionExposed(sid))
       case SessionClosed => closed.(sessions := w.sessions - {sid}, clients := WithoutClientsOf(w.clients, sid))
       case NotFound => closed)
    case KillSession(sid) =>
      if sid !in w.sessions then w.(clients := WithoutClientsOf(w.clients, sid)) else
      var panes := set p | p in w.paneSession && HasPane(w.sessions[sid], p);
      w.(sessions := w.sessions - {sid}, clients := WithoutClientsOf(w.clients, sid),
         paneSession := w.paneSession - panes, live := w.live - panes, entries := w.entries - panes)
    case ReportOrClear(pane, event) =>
      if event.Report? then Coordinated(AfterDelivery(w, pane, event), AgentReported(pane))
        else AfterDelivery(w, pane, event)
    case Detect(pane, agent) =>
      if pane !in w.paneSession then w else
      (match agent
       case Some(name) =>
         if pane in w.detected && w.detected[pane].agent == name then w
         else w.(detected := w.detected[pane := Fresh(name, Idle)])
       case None =>
         if pane !in w.detected then w else
         var quiet := if pane in w.entries then w.entries[pane := w.entries[pane].(status := None)] else w.entries;
         w.(detected := w.detected - {pane}, entries := quiet))
  }

  /** A run of allowed steps. */
  ghost predicate Runs(w: World, ops: seq<Op>)
    decreases |ops|
  {
    ops != [] ==> Allowed(w, ops[0]) && Runs(Step(w, ops[0]), ops[1..])
  }

  function Run(w: World, ops: seq<Op>): World
    decreases |ops|
  {
    if ops == [] then w else Run(Step(w, ops[0]), ops[1..])
  }

  // ---------------------------------------------------------------- nothing seen is left waiting

  lemma SeenAllShows(w: World, panes: seq<PaneId>, p: PaneId)
    requires Consistent(w)
    ensures var t := w.(entries := SeenAll(w.entries, panes));
      && Consistent(t)
      && (p in panes ==> !ShowsDone(t, p))
      && (p !in panes ==> Shown(t, p) == Shown(w, p))
      && (ShowsDone(t, p) ==> ShowsDone(w, p))
  {
  }

  /** Exposing a session keeps the contract, and establishes it for that session. */
  lemma ExposingShows(w: World, sid: SessionId, p: PaneId)
    requires Consistent(w)
    ensures Consistent(Exposed(w, sid))
    ensures InView(w, sid, p) ==> !ShowsDone(Exposed(w, sid), p)
    ensures ShowsDone(Exposed(w, sid), p) ==> ShowsDone(w, p)
    ensures Shown(Exposed(w, sid), p) == Shown(w, p) || InView(w, sid, p)
    ensures forall other, q :: InView(Exposed(w, sid), other, q) <==> InView(w, other, q)
  {
    SeenAllShows(w, ObservablePanes(w, sid), p);
  }

  /** A change that shows nothing new outside one session keeps the contract once that session is exposed. */
  lemma ExposureRestores(before: World, w: World, sid: SessionId)
    requires NothingDoneInView(before) && Consistent(w)
    requires forall other, p :: other != sid && InView(w, other, p) ==> InView(before, other, p)
    requires forall p :: ShowsDone(w, p) ==> ShowsDone(before, p)
    ensures NothingDoneInView(Exposed(w, sid)) && Consistent(Exposed(w, sid))
  {
    ExposingShows(w, sid, 0);
    forall other, p | InView(Exposed(w, sid), other, p) ensures !ShowsDone(Exposed(w, sid), p) {
      ExposingShows(w, sid, p);
    }
  }

  lemma DeliveredStatusIsValid(cur: Option<Entry>, e: Lifecycle.Event)
    requires cur.Some? && cur.value.status.Some? ==> cur.value.status.value.Valid()
    ensures Deliver(cur, e).Some?
    ensures Visible(Deliver(cur, e)).Some? ==> Visible(Deliver(cur, e)).value.Valid()
    ensures e.Clear? ==> Visible(Deliver(cur, e)) in [None, Visible(cur)]
  {
  }

  ghost predicate Good(w: World) { Consistent(w) && NothingDoneInView(w) }

  lemma ConnectKeeps(w: World, id: ClientId, sid: SessionId)
    requires Good(w) && Allowed(w, Connect(id, sid))
    ensures Good(Step(w, Connect(id, sid)))
  {
    var t := w.(clients := w.clients[id := Client(sid, OuterFocus.Unknown)]);
    forall other, p | other != sid && InView(t, other, p) ensures InView(w, other, p) {
      var c :| c in t.clients && t.clients[c].session == other && MayObserve(t.clients[c].outerFocus);
      assert c in w.clients && w.clients[c] == t.clients[c];
    }
    ExposureRestores(w, t, sid);
  }

  lemma RefocusKeeps(w: World, id: ClientId, focus: OuterFocus)
    requires Good(w) && id in w.clients && focus in [Focused, Lost]
    ensures Good(Coordinated(w, if focus == Focused then ClientObserved(id) else ClientBlurred(id)))
  {
    var sid := w.clients[id].session;
    var t := Refocused(w, id, focus);
    forall other, p | (other != sid || focus == Lost) && InView(t, other, p) ensures InView(w, other, p) {
      var c :| c in t.clients && t.clients[c].session == other && MayObserve(t.clients[c].outerFocus);
      assert c in w.clients && w.clients[c] == t.clients[c];
    }
    if focus == Focused {
      ExposureRestores(w, t, sid);
    }
  }

  lemma SwitchKeeps(w: World, id: ClientId, sid: SessionId)
    requires Good(w)
    ensures Good(Step(w, Switch(id, sid)))
  {
    if id in w.clients && w.clients[id].session == sid {
      ExposureRestores(w, w, sid);
    } else if id in w.clients && sid in w.sessions {
      var t := w.(clients := w.clients[id := w.clients[id].(session := sid)]);
      forall other, p | other != sid && InView(t, other, p) ensures InView(w, other, p) {
        var c :| c in t.clients && t.clients[c].session == other && MayObserve(t.clients[c].outerFocus);
        assert c in w.clients && w.clients[c] == t.clients[c];
      }
      ExposureRestores(w, t, sid);
    }
  }

  lemma SessionChangeKeepsOthers(w: World, t: World, sid: SessionId, session: Session)
    requires t.sessions == w.sessions[sid := session] && t.clients == w.clients
    ensures forall other, p :: other != sid && InView(t, other, p) ==> InView(w, other, p)
  {
  }

  lemma MutateKeeps(w: World, sid: SessionId, session: Session)
    requires Good(w) && Allowed(w, Mutate(sid, Some(session)))
    ensures Good(Step(w, Mutate(sid, Some(session))))
  {
    var t := w.(sessions := w.sessions[sid := session]);
    SessionChangeKeepsOthers(w, t, sid, session);
    ExposureRestores(w, t, sid);
  }

  lemma RenderedIsOwned(s: Session, p: PaneId)
    requires p in RenderedPanes(s)
    ensures HasPane(s, p)
  {
  }

  lemma NewPaneIsConsistent(w: World, op: Op)
    requires Consistent(w) && (op.NewWindow? || op.NewSession?) && Allowed(w, op)
    ensures Consistent(Step(w, op))
  {
    hide WindowHas;
    var t := Step(w, op);
    var s := t.sessions[op.session];
    forall p | HasPane(s, p) && p in w.paneSession ensures w.paneSession[p] == op.session {
      var wid :| wid in s.windows && WindowHas(s.windows[wid], p);
      if wid == op.window { LonePaneHas(op.pane, p); }
      assert HasPane(w.sessions[op.session], p);
    }
  }

  lemma LonePaneHas(pane: PaneId, p: PaneId)
    ensures WindowHas(LonePane(pane), p) <==> p == pane
  {
    assert LonePane(pane).panes[0] == pane;
  }

  lemma NewPaneIsRendered(w: World, op: Op)
    requires (op.NewWindow? && op.session in w.sessions) || op.NewSession?
    ensures var t := Step(w, op); op.session in t.sessions && RenderedPanes(t.sessions[op.session]) == [op.pane]
  {
  }

  /** A new window or session shows one pane that no report can have reached yet. */
  lemma NewPaneKeeps(w: World, op: Op)
    requires Good(w) && (op.NewWindow? || op.NewSession?) && Allowed(w, op)
    ensures Good(Step(w, op))
  {
    hide HasPane, RenderedPanes, HasObserver;
    var t := Step(w, op);
    NewPaneIsConsistent(w, op);
    NewPaneIsRendered(w, op);
    SessionChangeKeepsOthers(w, t, op.session, t.sessions[op.session]);
    SameShown(w, t);
    NewPaneIsNotDone(w, op.pane);
    forall sid, p | InView(t, sid, p) ensures !ShowsDone(t, p) {
      if sid != op.session { assert InView(w, sid, p); }
    }
  }

  lemma NewPaneIsNotDone(w: World, pane: PaneId)
    requires Consistent(w) && pane !in w.paneSession
    ensures !ShowsDone(w, pane)
  {
    assert Visible(Lookup(w.entries, pane)).None?;
  }

  lemma SpawnedKeeps(w: World, pane: PaneId, sid: SessionId)
    requires Good(w) && Allowed(w, Spawned(pane, sid))
    ensures Good(Step(w, Spawned(pane, sid)))
  {
    var t := Step(w, Spawned(pane, sid));
    assert forall other, p :: InView(t, other, p) == InView(w, other, p);
    assert forall p :: Shown(t, p) == Shown(w, p);
  }

  /** Losing a lifecycle, its status or a detected agent never makes a pane display Done. */
  lemma LosingShowsLess(w: World, t: World, p: PaneId)
    requires Consistent(w)
    requires p in t.detected ==> t.detected[p].Display() != Done
    requires p in t.entries && t.entries[p].status.Some? ==> p in w.entries && t.entries[p] == w.entries[p]
    ensures ShowsDone(t, p) ==> ShowsDone(w, p)
  {
  }

  lemma ClosedShowsLess(w: World, panes: set<PaneId>)
    requires Consistent(w)
    ensures Consistent(Closed(w, panes))
    ensures forall p :: ShowsDone(Closed(w, panes), p) ==> ShowsDone(w, p)
  {
    forall p ensures ShowsDone(Closed(w, panes), p) ==> ShowsDone(w, p) {
      LosingShowsLess(w, Closed(w, panes), p);
    }
  }

  /** Showing no more panes, and no more of them Done, keeps the contract. */
  lemma LessIsGood(w: World, t: World)
    requires Good(w) && Consistent(t)
    requires forall sid, p :: InView(t, sid, p) ==> InView(w, sid, p)
    requires forall p :: ShowsDone(t, p) ==> ShowsDone(w, p)
    ensures Good(t)
  {
  }

  lemma SameView(w: World, t: World)
    requires t.sessions == w.sessions && t.clients == w.clients
    ensures forall sid, p :: InView(t, sid, p) <==> InView(w, sid, p)
  {
  }

  lemma GoneClientsShowLess(w: World, t: World, sid: SessionId)
    requires t.sessions == w.sessions - {sid} && t.clients == WithoutClientsOf(w.clients, sid)
    ensures forall other, p :: InView(t, other, p) ==> InView(w, other, p)
  {
    forall other, p | InView(t, other, p) ensures InView(w, other, p) {
      var c :| c in t.clients && t.clients[c].session == other && MayObserve(t.clients[c].outerFocus);
      assert c in w.clients && w.clients[c] == t.clients[c];
    }
  }

  lemma CloseKeeps(w: World, sid: SessionId, panes: set<PaneId>, result: Cascade)
    requires Good(w) && Allowed(w, Close(sid, panes, result))
    ensures Good(Step(w, Close(sid, panes, result)))
  {
    var closed := Closed(w, panes);
    ClosedShowsLess(w, panes);
    match result
    case Remaining(session) => RemainingKeeps(w, closed, sid, session);
    case SessionClosed =>
      var t := closed.(sessions := w.sessions - {sid}, clients := WithoutClientsOf(w.clients, sid));
      GoneClientsShowLess(w, t, sid);
      SameShown(closed, t);
      LessIsGood(w, t);
    case NotFound =>
      SameView(w, closed);
      LessIsGood(w, closed);
  }

  lemma SameShown(w: World, t: World)
    requires t.entries == w.entries && t.detected == w.detected
    ensures forall p :: Shown(t, p) == Shown(w, p)
  {
  }

  lemma RemainingKeeps(w: World, closed: World, sid: SessionId, session: Session)
    requires Good(w) && Consistent(closed) && sid in w.sessions
    requires closed.sessions == w.sessions && closed.clients == w.clients
      && closed.paneSession.Keys <= w.paneSession.Keys
    requires forall p :: ShowsDone(closed, p) ==> ShowsDone(w, p)
    requires forall p :: HasPane(session, p) ==> HasPane(w.sessions[sid], p)
    ensures Good(Coordinated(closed.(sessions := w.sessions[sid := session]), SessionExposed(sid)))
  {
    var t := closed.(sessions := w.sessions[sid := session]);
    SameShown(closed, t);
    SessionChangeKeepsOthers(w, t, sid, session);
    ExposureRestores(w, t, sid);
  }

  lemma KillKeeps(w: World, sid: SessionId)
    requires Good(w)
    ensures Good(Step(w, KillSession(sid)))
  {
    hide Step, Consistent, InView, ShowsDone, NothingDoneInView, WithoutClientsOf;
    var t := Step(w, KillSession(sid));
    KilledPart(w, sid);
    KillIsConsistent(w, sid);
    GoneClientsShowLess(w, t, sid);
    forall p ensures ShowsDone(t, p) ==> ShowsDone(w, p) { LosingShowsLess(w, t, p); }
    LessIsGood(w, t);
  }

  lemma KilledPart(w: World, sid: SessionId)
    requires Consistent(w)
    ensures var t := Step(w, KillSession(sid));
      && t.sessions == w.sessions - {sid} && t.clients == WithoutClientsOf(w.clients, sid)
      && (forall p :: p in t.detected ==> t.detected[p].Display() != Done)
      && (forall p :: p in t.entries ==> p in w.entries && t.entries[p] == w.entries[p])
  {
    hide WithoutClientsOf, HasPane;
    if sid !in w.sessions { assert w.sessions == w.sessions - {sid}; }
  }

  lemma KillIsConsistent(w: World, sid: SessionId)
    requires Consistent(w)
    ensures Consistent(Step(w, KillSession(sid)))
  {
    hide WithoutClientsOf, HasPane;
  }

  lemma GoneKeeps(w: World, id: ClientId)
    requires Good(w)
    ensures Good(Step(w, Gone(id)))
  {
    var t := Step(w, Gone(id));
    forall other, p | InView(t, other, p) ensures InView(w, other, p) {
      var c :| c in t.clients && t.clients[c].session == other && MayObserve(t.clients[c].outerFocus);
      assert c in w.clients && w.clients[c] == t.clients[c];
    }
  }

  lemma QuietKeeps(w: World, op: Op)
    requires Good(w) && (op.ExitKept? || op.Detect?)
    ensures Good(Step(w, op))
  {
    hide Consistent, InView, ShowsDone, NothingDoneInView;
    var t := Step(w, op);
    QuietIsConsistent(w, op);
    SameView(w, t);
    forall p ensures ShowsDone(t, p) ==> ShowsDone(w, p) { QuietShowsLess(w, op, p); }
    LessIsGood(w, t);
  }

  lemma QuietShowsLess(w: World, op: Op, p: PaneId)
    requires Consistent(w) && (op.ExitKept? || op.Detect?)
    ensures ShowsDone(Step(w, op), p) ==> ShowsDone(w, p)
  {
    LosingShowsLess(w, Step(w, op), p);
  }

  lemma QuietIsConsistent(w: World, op: Op)
    requires Consistent(w) && (op.ExitKept? || op.Detect?)
    ensures Consistent(Step(w, op))
  {
  }

  /** A report may complete a pane that is on screen; it belongs to the one session that shows it. */
  lemma ReportKeeps(w: World, pane: PaneId, event: Lifecycle.Event)
    requires Good(w)
    ensures Good(Step(w, ReportOrClear(pane, event)))
  {
    hide Consistent, InView, ShowsDone, Shown, Deliver, NothingDoneInView, Coordinated;
    var t := AfterDelivery(w, pane, event);
    DeliveryIsConsistent(w, pane, event);
    DeliveryShows(w, pane, event);
    if event.Report? {
      ReportedInView(w, t, pane);
      assert Step(w, ReportOrClear(pane, event)) == Coordinated(t, AgentReported(pane));
    } else {
      SameView(w, t);
      LessIsGood(w, t);
    }
  }

  lemma DeliveryIsConsistent(w: World, pane: PaneId, event: Lifecycle.Event)
    requires Consistent(w)
    ensures Consistent(AfterDelivery(w, pane, event))
  {
    hide Deliver, HasPane;
    if pane in w.live {
      DeliveredStatusIsValid(Lookup(w.entries, pane), event);
    }
  }

  lemma DeliveryShows(w: World, pane: PaneId, event: Lifecycle.Event)
    requires Consistent(w)
    ensures var t := AfterDelivery(w, pane, event);
      && (forall p :: p != pane ==> Shown(t, p) == Shown(w, p))
      && (event.Clear? ==> forall p :: ShowsDone(t, p) ==> ShowsDone(w, p))
  {
    hide Deliver, HasPane;
    if pane in w.live {
      DeliveredStatusIsValid(Lookup(w.entries, pane), event);
    }
  }

  lemma ReportedInView(w: World, t: World, pane: PaneId)
    requires Good(w) && Consistent(t) && t == w.(entries := t.entries)
    requires forall p :: p != pane ==> Shown(t, p) == Shown(w, p)
    requires t != w ==> pane in w.paneSession
    ensures Good(Coordinated(t, AgentReported(pane)))
  {
    var r := Coordinated(t, AgentReported(pane));
    assert forall other, p :: InView(r, other, p) == InView(w, other, p);
    SeenAllShows(t, [pane], pane);
    forall other, p | InView(r, other, p) ensures !ShowsDone(r, p) {
      SeenAllShows(t, [pane], p);
      if p == pane && t != w {
        RenderedIsOwned(w.sessions[other], p);
        assert InView(t, t.paneSession[pane], pane);
      }
    }
  }

  /** Every step keeps the contract. */
  lemma StepKeeps(w: World, op: Op)
    requires Good(w) && Allowed(w, op)
    ensures Good(Step(w, op))
  {
    match op
    case Connect(id, sid) => ConnectKeeps(w, id, sid);
    case Gone(id) => GoneKeeps(w, id);
    case FocusReport(id, focused) => if id in w.clients { RefocusKeeps(w, id, if focused then Focused else Lost); }
    case Input(id) => if id in w.clients { RefocusKeeps(w, id, Focused); }
    case Switch(id, sid) => SwitchKeeps(w, id, sid);
    case Mutate(sid, outcome) => if outcome.Some? { MutateKeeps(w, sid, outcome.value); }
    case Spawned(pane, sid) => SpawnedKeeps(w, pane, sid);
    case Close(sid, panes, result) => CloseKeeps(w, sid, panes, result);
    case KillSession(sid) => KillKeeps(w, sid);
    case ReportOrClear(pane, event) => ReportKeeps(w, pane, event);
    case ExitKept(_) => QuietKeeps(w, op);
    case Detect(_, _) => QuietKeeps(w, op);
    case _ => NewPaneKeeps(w, op);
  }

  lemma AllowedStepKeeps(w: World, op: Op)
    ensures Good(w) && Allowed(w, op) ==> Good(Step(w, op))
  {
    hide Good, Allowed, Step;
    if Good(w) && Allowed(w, op) { StepKeeps(w, op); }
  }

  /** The contract over whole runs: after every step, nothing in view displays Done. */
  lemma {:induction false} NothingDoneStaysInView(w: World, ops: seq<Op>)
    requires Good(w) && Runs(w, ops)
    ensures Good(Run(w, ops))
    decreases |ops|
  {
    if ops != [] {
      StepKeeps(w, ops[0]);
      NothingDoneStaysInView(Step(w, ops[0]), ops[1..]);
    }
  }

  /** The client that acts, and what its acting says of its focus and session. */
  ghost predicate Acts(w: World, op: Op, id: ClientId)
  {
    match op
    case Connect(c, sid) => c == id
    case Input(c) => c == id && c in w.clients
    case FocusReport(c, focused) => c == id && c in w.clients && focused
    case Switch(c, sid) => c == id && c in w.clients && sid in w.sessions && MayObserve(w.clients[c].outerFocus)
    case _ => false
  }

  /** Whoever attaches, types, gains focus or switches may look at once, and has then seen what is on screen there. */
  lemma ActorsHaveSeen(w: World, op: Op, id: ClientId, p: PaneId)
    requires Good(w) && Allowed(w, op) && Acts(w, op, id)
    ensures var t := Step(w, op);
      && id in t.clients && MayObserve(t.clients[id].outerFocus)
      && (op.Connect? || op.Switch? ==> t.clients[id].session == op.session)
      && (op.Input? || op.FocusReport? ==> t.clients[id] == Client(w.clients[id].session, Focused))
      && (t.clients[id].session in t.sessions && p in RenderedPanes(t.sessions[t.clients[id].session])
        ==> !ShowsDone(t, p))
  {
    StepKeeps(w, op);
    var t := Step(w, op);
    var sid := t.clients[id].session;
    if sid in t.sessions && p in RenderedPanes(t.sessions[sid]) {
      assert InView(t, sid, p);
    }
  }

  /** What a step does to a lifecycle, acknowledgement aside. */
  function Unacknowledged(w: World, op: Op, p: PaneId): Option<Entry>
  {
    match op
    case ReportOrClear(pane, event) =>
      if p == pane && pane in w.live then Deliver(Lookup(w.entries, p), event) else Lookup(w.entries, p)
    case ExitKept(pane) => if p == pane then None else Lookup(w.entries, p)
    case Close(_, panes, _) => if p in panes then None else Lookup(w.entries, p)
    case KillSession(sid) =>
      if sid in w.sessions && HasPane(w.sessions[sid], p) then None else Lookup(w.entries, p)
    case Detect(pane, None) =>
      if p == pane && p in w.entries && p in w.detected then Some(w.entries[p].(status := None))
        else Lookup(w.entries, p)
    case _ => Lookup(w.entries, p)
  }

  lemma ExposureSees(w: World, sid: SessionId, p: PaneId)
    ensures var t := Exposed(w, sid);
      Lookup(t.entries, p) == Lookup(w.entries, p)
        || (InView(t, sid, p) && Lookup(t.entries, p) == Seen(Lookup(w.entries, p)))
  {
  }

  ghost predicate SeenOnlyInView(w: World, op: Op, p: PaneId)
  {
    var t := Step(w, op);
    || Lookup(t.entries, p) == Unacknowledged(w, op, p)
    || (Lookup(t.entries, p) == Seen(Unacknowledged(w, op, p)) && exists sid :: InView(t, sid, p))
  }

  lemma ClientStepsSee(w: World, op: Op, p: PaneId)
    requires op.Connect? || op.FocusReport? || op.Input? || op.Switch?
    requires Consistent(w) && Allowed(w, op)
    ensures SeenOnlyInView(w, op, p)
  {
    match op
    case Connect(id, sid) => ExposureSees(w.(clients := w.clients[id := Client(sid, OuterFocus.Unknown)]), sid, p);
    case FocusReport(id, focused) =>
      if id in w.clients && focused { ExposureSees(Refocused(w, id, Focused), w.clients[id].session, p); }
    case Input(id) => if id in w.clients { ExposureSees(Refocused(w, id, Focused), w.clients[id].session, p); }
    case Switch(id, sid) =>
      if id in w.clients {
        var moved := w.(clients := w.clients[id := w.clients[id].(session := sid)]);
        ExposureSees(if w.clients[id].session == sid then w else moved, sid, p);
      }
  }

  lemma TopologyStepsSee(w: World, op: Op, p: PaneId)
    requires op.Mutate? || op.Close?
    requires Consistent(w) && Allowed(w, op)
    ensures SeenOnlyInView(w, op, p)
  {
    match op
    case Mutate(sid, outcome) =>
      if outcome.Some? { ExposureSees(w.(sessions := w.sessions[sid := outcome.value]), sid, p); }
    case Close(sid, panes, result) =>
      if result.Remaining? { ExposureSees(Closed(w, panes).(sessions := w.sessions[sid := result.session]), sid, p); }
  }

  lemma ReportedSees(w: World, pane: PaneId, p: PaneId)
    ensures var t := Coordinated(w, AgentReported(pane));
      || Lookup(t.entries, p) == Lookup(w.entries, p)
      || (Lookup(t.entries, p) == Seen(Lookup(w.entries, p)) && p == pane && p in t.paneSession
        && InView(t, t.paneSession[p], p))
  {
  }

  lemma ReportStepsSee(w: World, op: Op, p: PaneId)
    requires op.ReportOrClear?
    requires Consistent(w)
    ensures SeenOnlyInView(w, op, p)
  {
    var ReportOrClear(pane, event) := op;
    var delivered := AfterDelivery(w, pane, event);
    assert Lookup(delivered.entries, p) == Unacknowledged(w, op, p);
    if event.Report? {
      ReportedSees(delivered, pane, p);
      assert Step(w, op) == Coordinated(delivered, AgentReported(pane));
    } else {
      assert Step(w, op) == delivered;
    }
  }

  lemma QuietStepsSee(w: World, op: Op, p: PaneId)
    requires !(op.Connect? || op.FocusReport? || op.Input? || op.Switch? || op.Mutate? || op.Close?
      || op.ReportOrClear?)
    requires Consistent(w)
    ensures Lookup(Step(w, op).entries, p) == Unacknowledged(w, op, p)
  {
  }

  /** Seen, and only then marked as seen: a step acknowledges a pane only if it ends up in view. */
  lemma AcknowledgedOnlyInView(w: World, op: Op, p: PaneId)
    requires Consistent(w) && Allowed(w, op)
    ensures SeenOnlyInView(w, op, p)
  {
    if op.Connect? || op.FocusReport? || op.Input? || op.Switch? {
      ClientStepsSee(w, op, p);
    } else if op.Mutate? || op.Close? {
      TopologyStepsSee(w, op, p);
    } else if op.ReportOrClear? {
      ReportStepsSee(w, op, p);
    } else {
      QuietStepsSee(w, op, p);
    }
  }

  /**
   Spelled out: for a step to acknowledge a pane, somebody whose terminal has not lost focus must be
   left in a session whose active window renders it.
   */
  lemma AcknowledgedForAWatcher(w: World, op: Op, p: PaneId)
    requires Consistent(w) && Allowed(w, op) && Lookup(Step(w, op).entries, p) != Unacknowledged(w, op, p)
    ensures Lookup(Step(w, op).entries, p) == Seen(Unacknowledged(w, op, p))
    ensures exists id ::
      && id in Step(w, op).clients && Step(w, op).clients[id].outerFocus != Lost
      && Step(w, op).clients[id].session in Step(w, op).sessions
      && p in RenderedPanes(Step(w, op).sessions[Step(w, op).clients[id].session])
  {
    hide Step, Allowed, Unacknowledged, Consistent;
    AcknowledgedOnlyInView(w, op, p);
    var t := Step(w, op);
    var sid :| InView(t, sid, p);
    var id :| id in t.clients && t.clients[id].session == sid && MayObserve(t.clients[id].outerFocus);
  }

  // ---------------------------------------------------------------- who may be looking

  /** What a step says about a client's terminal. */
  function Word(op: Op, id: ClientId): Option<OuterFocus>
  {
    match op
    case Connect(c, _) => if c == id then Some(OuterFocus.Unknown) else None
    case Input(c) => if c == id then Some(Focused) else None
    case FocusReport(c, focused) => if c == id then Some(if focused then Focused else Lost) else None
    case _ => None
  }

  function LastWord(ops: seq<Op>, id: ClientId): Option<OuterFocus>
  {
    if ops == [] then None else
    var later := LastWord(ops[1..], id);
    if later.Some? then later else Word(ops[0], id)
  }

  /** The step ends the session, and with it the stay of its clients. */
  predicate EndsSession(op: Op, sid: SessionId)
  {
    op == KillSession(sid) || (op.Close? && op.session == sid && op.result.SessionClosed?)
  }

  /** It stays until it goes or its session ends. */
  ghost predicate ComesAndGoes(w: World, op: Op, t: World, id: ClientId)
  {
    id in t.clients <==>
      || (op.Connect? && op.client == id)
      || (id in w.clients && op != Gone(id) && !EndsSession(op, w.clients[id].session))
  }

  /** It changes session by a switch to an existing one only, and its focus is what it last said. */
  ghost predicate MovesByItself(w: World, op: Op, t: World, id: ClientId)
    requires id in t.clients
  {
    if op.Connect? && op.client == id then t.clients[id] == Client(op.session, OuterFocus.Unknown)
    else
      && id in w.clients
      && t.clients[id].session
        == (if op.Switch? && op.client == id && op.session in w.sessions then op.session else w.clients[id].session)
      && t.clients[id].outerFocus == (if Word(op, id).Some? then Word(op, id).value else w.clients[id].outerFocus)
  }

  /** One step, seen from one client. */
  lemma ClientsComeAndGo(w: World, op: Op, id: ClientId)
    requires Allowed(w, op)
    ensures ComesAndGoes(w, op, Step(w, op), id)
    ensures id in Step(w, op).clients ==> MovesByItself(w, op, Step(w, op), id)
  {
    hide ComesAndGoes, MovesByItself, Step, Allowed;
    if op.Connect? || op.Gone? || op.FocusReport? || op.Input? || op.Switch? {
      ClientStepsMove(w, op, id);
    } else {
      OtherStepsMove(w, op, id);
    }
  }

  lemma ClientStepsMove(w: World, op: Op, id: ClientId)
    requires Allowed(w, op) && (op.Connect? || op.Gone? || op.FocusReport? || op.Input? || op.Switch?)
    ensures ComesAndGoes(w, op, Step(w, op), id)
    ensures id in Step(w, op).clients ==> MovesByItself(w, op, Step(w, op), id)
  {
    hide HasPane, SeenAll, ObservablePanes;
  }

  lemma OtherStepsMove(w: World, op: Op, id: ClientId)
    requires Allowed(w, op) && !(op.Connect? || op.Gone? || op.FocusReport? || op.Input? || op.Switch?)
    ensures ComesAndGoes(w, op, Step(w, op), id)
    ensures id in Step(w, op).clients ==> MovesByItself(w, op, Step(w, op), id)
  {
    hide HasPane, SeenAll, ObservablePanes, InView, AfterDelivery, Allowed;
    var t := Step(w, op);
    DeliveryKeepsClients(w, op);
    assert t.clients ==
      if op.KillSession? || (op.Close? && op.result.SessionClosed?) then WithoutClientsOf(w.clients, op.session)
      else w.clients;
  }

  lemma DeliveryKeepsClients(w: World, op: Op)
    ensures op.ReportOrClear? ==> AfterDelivery(w, op.pane, op.event).clients == w.clients
  {
  }

  /**
   Over runs: a client may be looking if and only if the last of its connects, inputs and focus
   reports was no loss of focus, or, without any, it might be at the start.
   */
  lemma {:induction false} LastWordDecides(w: World, ops: seq<Op>, id: ClientId)
    requires Runs(w, ops) && id in Run(w, ops).clients
    ensures var (said, focus) := (LastWord(ops, id), Run(w, ops).clients[id].outerFocus);
      && (said.None? ==> id in w.clients && focus == w.clients[id].outerFocus)
      && (said.Some? ==> focus == said.value)
      && (MayObserve(focus) <==> if said.Some? then said != Some(Lost) else w.clients[id].outerFocus != Lost)
    decreases |ops|
  {
    hide Step, Allowed;
    if ops != [] {
      ClientsComeAndGo(w, ops[0], id);
      LastWordDecides(Step(w, ops[0]), ops[1..], id);
    }
  }

  /** A focus loss is believed at once: whoever reports it may not be looking, and everybody else is as before. */
  lemma LossHidesTheClient(w: World, id: ClientId, sid: SessionId)
    requires id in w.clients
    ensures var t := Step(w, FocusReport(id, false));
      && !MayObserve(t.clients[id].outerFocus) && t == w.(clients := t.clients)
      && (HasObserver(t.clients, sid) <==>
            exists other :: other in w.clients && other != id && w.clients[other].session == sid
              && MayObserve(w.clients[other].outerFocus))
  {
    var t := Step(w, FocusReport(id, false));
    forall other | other in w.clients && other != id ensures t.clients[other] == w.clients[other] {
    }
  }

  /** The step touches neither the pane's lifecycle nor whether somebody is looking at its session. */
  ghost predicate Leaves(w: World, op: Op, pane: PaneId)
    requires pane in w.paneSession
  {
    var sid := w.paneSession[pane];
    match op
    case Connect(_, to) => to != sid
    case FocusReport(id, focused) => focused && id in w.clients ==> w.clients[id].session != sid
    case Input(id) => id in w.clients ==> w.clients[id].session != sid
    case Switch(id, to) => to == sid && id in w.clients ==> !MayObserve(w.clients[id].outerFocus)
    case ReportOrClear(p, _) => p != pane
    case Detect(p, agent) => p != pane || agent.Some?
    case ExitKept(p) => p != pane
    case Close(_, panes, _) => pane !in panes
    case KillSession(killed) => killed != sid
    case _ => true
  }

  ghost predicate LeftAlone(w: World, ops: seq<Op>, pane: PaneId)
    decreases |ops|
  {
    ops != [] ==> pane in w.paneSession && Leaves(w, ops[0], pane) && LeftAlone(Step(w, ops[0]), ops[1..], pane)
  }

  /** A session nobody looks at gains no observer by such a step. */
  lemma StaysUnobserved(w: World, op: Op, pane: PaneId)
    requires Allowed(w, op) && pane in w.paneSession && Leaves(w, op, pane)
    requires !HasObserver(w.clients, w.paneSession[pane])
    ensures !HasObserver(Step(w, op).clients, w.paneSession[pane])
  {
    hide Step;
    var (t, sid) := (Step(w, op), w.paneSession[pane]);
    forall id | id in t.clients && t.clients[id].session == sid ensures !MayObserve(t.clients[id].outerFocus) {
      ClientsComeAndGo(w, op, id);
    }
  }

  /** It stays in its session. */
  lemma StaysInSession(w: World, op: Op, pane: PaneId)
    requires Consistent(w) && Allowed(w, op) && pane in w.paneSession && Leaves(w, op, pane)
    ensures pane in Step(w, op).paneSession && Step(w, op).paneSession[pane] == w.paneSession[pane]
  {
    hide Step, HasPane;
    PanesComeAndGo(w, op, pane);
  }

  /** And what it displays stays, since nobody sees it. */
  lemma StaysDisplayed(w: World, op: Op, pane: PaneId)
    requires Good(w) && Allowed(w, op) && pane in w.paneSession && Leaves(w, op, pane)
    requires !HasObserver(w.clients, w.paneSession[pane]) && ShowsDone(w, pane)
    ensures ShowsDone(Step(w, op), pane)
  {
    hide Step, Allowed, Deliver;
    var t := Step(w, op);
    StepKeeps(w, op);
    StaysUnobserved(w, op, pane);
    StaysInSession(w, op, pane);
    AcknowledgedOnlyInView(w, op, pane);
    forall sid ensures !InView(t, sid, pane) {
      if sid in t.sessions && pane in RenderedPanes(t.sessions[sid]) { RenderedIsOwned(t.sessions[sid], pane); }
    }
    assert Lookup(t.entries, pane) == Lookup(w.entries, pane);
  }

  /**
   Unseen work waits: a pane that displays Done while nobody looks at its session displays it, through
   every run of steps by others, until somebody there acts or the pane's own agent is heard of again.
   */
  lemma {:induction false} DoneWaitsToBeSeen(w: World, ops: seq<Op>, pane: PaneId)
    requires Good(w) && Runs(w, ops) && LeftAlone(w, ops, pane)
    requires pane in w.paneSession && !HasObserver(w.clients, w.paneSession[pane]) && ShowsDone(w, pane)
    ensures ShowsDone(Run(w, ops), pane) && !HasObserver(Run(w, ops).clients, w.paneSession[pane])
    decreases |ops|
  {
    hide Step, Allowed, Good, ShowsDone, HasObserver, Leaves;
    if ops != [] {
      var t := Step(w, ops[0]);
      StepKeeps(w, ops[0]);
      GoodIsConsistent(w);
      StaysUnobserved(w, ops[0], pane);
      StaysInSession(w, ops[0], pane);
      StaysDisplayed(w, ops[0], pane);
      DoneWaitsToBeSeen(t, ops[1..], pane);
    }
  }

  lemma GoodIsConsistent(w: World)
    requires Good(w)
    ensures Consistent(w)
  {
  }

  /** A completion reported while nobody looks at the session is displayed as Done. */
  lemma UnseenCompletionShows(w: World, pane: PaneId, event: Lifecycle.Event)
    requires Consistent(w) && pane in w.live && event.Report?
    requires !HasObserver(w.clients, w.paneSession[pane])
    requires Displayed(Deliver(Lookup(w.entries, pane), event)) == Some(Done)
    ensures ShowsDone(Step(w, ReportOrClear(pane, event)), pane)
  {
    hide Deliver, HasPane;
    var t := AfterDelivery(w, pane, event);
    assert Lookup(t.entries, pane) == Some(Deliver(Lookup(w.entries, pane), event).value);
    assert !InView(t, w.paneSession[pane], pane);
    assert Step(w, ReportOrClear(pane, event)) == t;
  }

  /**
   The two together, from the report on: as long as every client of the session has lost focus and
   none of them acts, the completed turn is displayed as Done.
   */
  lemma CompletionWaitsForItsClients(w: World, pane: PaneId, event: Lifecycle.Event, ops: seq<Op>)
    requires Good(w) && pane in w.live && event.Report?
    requires forall id :: id in w.clients && w.clients[id].session == w.paneSession[pane] ==>
      w.clients[id].outerFocus == Lost
    requires Displayed(Deliver(Lookup(w.entries, pane), event)) == Some(Done)
    requires var t := Step(w, ReportOrClear(pane, event)); Runs(t, ops) && LeftAlone(t, ops, pane)
    ensures ShowsDone(Run(Step(w, ReportOrClear(pane, event)), ops), pane)
  {
    UnseenCompletionShows(w, pane, event);
    var t := Step(w, ReportOrClear(pane, event));
    assert t.clients == w.clients && t.paneSession == w.paneSession;
    StepKeeps(w, ReportOrClear(pane, event));
    DoneWaitsToBeSeen(t, ops, pane);
  }

  // ---------------------------------------------------------------- panes and sessions

  /** The coordinator changes what clients are known to see and what has been seen, nothing else. */
  lemma CoordinationKeeps()
    ensures forall w, t ::
      var after := Coordinated(w, t); after == w.(clients := after.clients, entries := after.entries)
  {
    hide SeenAll, ObservablePanes, InView;
  }

  /** The step ends the pane's process, or takes the pane away. */
  ghost predicate EndsPane(w: World, op: Op, p: PaneId)
  {
    || op == ExitKept(p)
    || (op.Close? && p in op.panes)
    || (op.KillSession? && op.session in w.sessions && HasPane(w.sessions[op.session], p))
  }

  /** It takes reports from when its process starts until that ends. */
  ghost predicate LivesItsTime(w: World, op: Op, t: World, p: PaneId)
  {
    p in t.live <==> (op.Spawned? && op.pane == p) || (p in w.live && !EndsPane(w, op, p))
  }

  /** It belongs to the session it was started in until it is taken away, which a kept dead pane is not. */
  ghost predicate BelongsItsTime(w: World, op: Op, t: World, p: PaneId)
  {
    && (p in t.paneSession <==>
          (op.Spawned? && op.pane == p) || (p in w.paneSession && (op == ExitKept(p) || !EndsPane(w, op, p))))
    && (p in t.paneSession ==>
          t.paneSession[p] == if op.Spawned? && op.pane == p then op.session else w.paneSession[p])
  }

  /** One step, seen from one pane. */
  lemma PanesComeAndGo(w: World, op: Op, p: PaneId)
    requires Consistent(w) && Allowed(w, op)
    ensures LivesItsTime(w, op, Step(w, op), p) && BelongsItsTime(w, op, Step(w, op), p)
  {
    hide Step, LivesItsTime, BelongsItsTime, Allowed, Consistent;
    if op.Spawned? || op.ExitKept? || op.Close? || op.KillSession? {
      PaneStepsMove(w, op, p);
    } else {
      OtherStepsKeepPanes(w, op);
      NothingEnds(w, op, Step(w, op), p);
    }
  }

  lemma PaneStepsMove(w: World, op: Op, p: PaneId)
    requires Consistent(w) && Allowed(w, op) && (op.Spawned? || op.ExitKept? || op.Close? || op.KillSession?)
    ensures LivesItsTime(w, op, Step(w, op), p) && BelongsItsTime(w, op, Step(w, op), p)
  {
    hide HasPane, Coordinated, WithoutClientsOf;
    CoordinationKeeps();
  }

  lemma OtherStepsKeepPanes(w: World, op: Op)
    requires !(op.Spawned? || op.ExitKept? || op.Close? || op.KillSession?)
    ensures Step(w, op).live == w.live && Step(w, op).paneSession == w.paneSession
  {
    hide Coordinated, Deliver;
    CoordinationKeeps();
  }

  lemma NothingEnds(w: World, op: Op, t: World, p: PaneId)
    requires !(op.Spawned? || op.ExitKept? || op.Close? || op.KillSession?)
    requires t.live == w.live && t.paneSession == w.paneSession
    ensures LivesItsTime(w, op, t, p) && BelongsItsTime(w, op, t, p)
  {
  }

  /** A session that gets a window shows the new pane, and keeps its other windows as they were. */
  ghost predicate Opens(before: Option<Session>, after: Session, wid: WindowId, pane: PaneId)
  {
    && RenderedPanes(after) == [pane] && after.activeWindow == wid
    && after.windows.Keys == (if before.Some? then before.value.windows.Keys else {}) + {wid}
    && (before.Some? ==>
          forall v :: v in before.value.windows && v != wid ==> after.windows[v] == before.value.windows[v])
  }

  /** What becomes of a session that is there before and after. */
  ghost predicate ChangesBy(op: Op, before: Session, after: Session, sid: SessionId)
  {
    match op
    case NewWindow(s, wid, pane) => if s == sid then Opens(Some(before), after, wid, pane) else after == before
    case Mutate(s, outcome) => after == if s == sid && outcome.Some? then outcome.value else before
    case Close(s, _, Remaining(session)) => after == if s == sid then session else before
    case _ => after == before
  }

  /** It is there from when it is opened until it ends, and changes by its own steps only. */
  ghost predicate OpensAndEnds(w: World, op: Op, t: World, sid: SessionId)
  {
    && (sid in t.sessions <==> (op.NewSession? && op.session == sid) || (sid in w.sessions && !EndsSession(op, sid)))
    && (sid in t.sessions ==>
          if op.NewSession? && op.session == sid then Opens(None, t.sessions[sid], op.window, op.pane)
          else sid in w.sessions && ChangesBy(op, w.sessions[sid], t.sessions[sid], sid))
  }

  /** One step, seen from one session. */
  lemma SessionsComeAndGo(w: World, op: Op, sid: SessionId)
    requires Allowed(w, op)
    ensures OpensAndEnds(w, op, Step(w, op), sid)
  {
    hide Allowed, Step, OpensAndEnds;
    if op.NewWindow? || op.NewSession? {
      OpeningStepsChange(w, op, sid);
    } else if op.Mutate? || op.Close? || op.KillSession? {
      TopologyStepsChange(w, op, sid);
    } else {
      OtherStepsKeepSessions(w, op);
      KeptSessionsChange(w, op, Step(w, op), sid);
    }
  }

  lemma OpeningStepsChange(w: World, op: Op, sid: SessionId)
    requires Allowed(w, op) && (op.NewWindow? || op.NewSession?)
    ensures OpensAndEnds(w, op, Step(w, op), sid)
  {
  }

  lemma TopologyStepsChange(w: World, op: Op, sid: SessionId)
    requires Allowed(w, op) && (op.Mutate? || op.Close? || op.KillSession?)
    ensures OpensAndEnds(w, op, Step(w, op), sid)
  {
    hide HasPane, Coordinated, WithoutClientsOf;
    CoordinationKeeps();
  }

  lemma OtherStepsKeepSessions(w: World, op: Op)
    requires !(op.NewWindow? || op.NewSession? || op.Mutate? || op.Close? || op.KillSession?)
    ensures Step(w, op).sessions == w.sessions
  {
    hide Coordinated, Deliver, HasPane, WithoutClientsOf;
    CoordinationKeeps();
  }

  lemma KeptSessionsChange(w: World, op: Op, t: World, sid: SessionId)
    requires !(op.NewWindow? || op.NewSession? || op.Mutate? || op.Close? || op.KillSession?)
    requires t.sessions == w.sessions
    ensures OpensAndEnds(w, op, t, sid)
  {
  }

  /** Detection shows the agent it finds as idle, and drops what the pane showed of one that is gone. */
  lemma DetectionShows(w: World, pane: PaneId, agent: Option<string>)
    requires Consistent(w) && pane in w.paneSession
    ensures var t := Step(w, Detect(pane, agent));
      && (agent.None? && pane in w.detected ==> Shown(t, pane) == None)
      && (agent.None? && pane !in w.detected ==> Shown(t, pane) == Shown(w, pane))
      && (agent.Some? && Visible(Lookup(w.entries, pane)).Some? ==> Shown(t, pane) == Shown(w, pane))
      && (agent.Some? && Visible(Lookup(w.entries, pane)).None? ==>
            Shown(t, pane).Some? && Shown(t, pane).value.agent == agent.value)
      && (agent.Some? && Visible(Lookup(w.entries, pane)).None? && Lookup(w.detected, pane).None? ==>
            Shown(t, pane).value.Display() == Idle)
      && (forall p :: p != pane ==> Shown(t, p) == Shown(w, p))
  {
    hide HasPane;
  }

  // ---------------------------------------------------------------- changes that bypass the coordinator

  /** A pane hidden by a zoom, finished, in a session somebody may be looking at. */
  ghost predicate HidesDone(w: World, sid: SessionId)
  {
    && sid in w.sessions && HasObserver(w.clients, sid)
    && var s := w.sessions[sid];
       s.activeWindow in s.windows
       && var win := s.windows[s.activeWindow];
          && win.zoomed.Some? && win.activePane in win.panes
          && exists p :: p in win.panes && p != win.zoomed.value && ShowsDone(w, p)
  }

  lemma SplitShowsAll(s: Session, pane: PaneId, p: PaneId)
    requires s.activeWindow in s.windows && s.windows[s.activeWindow].activePane in s.windows[s.activeWindow].panes
    requires !HasPane(s, pane)
    ensures p in RenderedPanes(Edited(s, Split(pane)).value) <==> p == pane || p in s.windows[s.activeWindow].panes
  {
    var win := s.windows[s.activeWindow];
    var at := Position(win.panes, win.activePane);
    assert WindowHas(win, win.activePane);
    assert win.panes == win.panes[..at + 1] + win.panes[at + 1..];
  }

  /**
   A split whose shell cannot be started reports failure after the tree has changed, so nothing is
   exposed. The contract survives exactly when the split did not uncover a finished pane.
   */
  lemma FailedSplitBreaksContract(w: World, sid: SessionId, pane: PaneId)
    requires Good(w) && sid in w.sessions && pane !in w.paneSession && !HasPane(w.sessions[sid], pane)
    requires w.sessions[sid].activeWindow in w.sessions[sid].windows
    ensures var t := w.(sessions := w.sessions[sid := Edited(w.sessions[sid], Split(pane)).value]);
            NothingDoneInView(t) <==> !HidesDone(w, sid)
  {
    var s := w.sessions[sid];
    var win := s.windows[s.activeWindow];
    var t := w.(sessions := w.sessions[sid := Edited(s, Split(pane)).value]);
    assert forall p :: Shown(t, p) == Shown(w, p);
    assert !ShowsDone(w, pane) by { assert Visible(Lookup(w.entries, pane)).None?; }
    SessionChangeKeepsOthers(w, t, sid, Edited(s, Split(pane)).value);
    if win.activePane in win.panes {
      forall p ensures p in RenderedPanes(t.sessions[sid]) <==> p == pane || p in win.panes {
        SplitShowsAll(s, pane, p);
      }
      if HidesDone(w, sid) {
        var p :| p in win.panes && p != win.zoomed.value && ShowsDone(w, p);
        assert InView(t, sid, p);
      } else {
        forall other, p | InView(t, other, p) ensures !ShowsDone(t, p) {
          if other == sid && p != pane && win.zoomed != Some(p) {
            assert win.zoomed.None? ==> InView(w, sid, p);
          } else if other == sid && p != pane {
            assert InView(w, sid, p);
          }
        }
      }
    } else {
      assert RenderedPanes(t.sessions[sid]) == RenderedPanes(s);
      assert forall other, p :: InView(t, other, p) <==> InView(w, other, p);
    }
  }

  /** The model's own edits are allowed mutations: rejected ones change nothing, others show no foreign pane. */
  lemma EditsAreAllowed(w: World, sid: SessionId, e: Edit)
    requires sid in w.sessions && WellFormed(w.sessions[sid]) && IsNew(w.sessions[sid], e)
    requires e.Split? ==> e.pane !in w.paneSession
    ensures Allowed(w, Mutate(sid, Edited(w.sessions[sid], e)))
  {
    var outcome := Edited(w.sessions[sid], e);
    if outcome.Some? {
      forall p | HasPane(outcome.value, p) ensures HasPane(w.sessions[sid], p) || p !in w.paneSession {
        EditsShowOwnPanes(w.sessions[sid], e, p);
      }
    }
  }

  // ---------------------------------------------------------------- runs of the model's own edits

  function EditOp(w: World, sid: SessionId, e: Edit): Op
  {
    Mutate(sid, if sid in w.sessions then Edited(w.sessions[sid], e) else None)
  }

  /** Edits of sessions, one after another, as steps of the control loop. */
  function EditRun(w: World, edits: seq<(SessionId, Edit)>): seq<Op>
    decreases |edits|
  {
    if edits == [] then [] else
    var op := EditOp(w, edits[0].0, edits[0].1);
    [op] + EditRun(Step(w, op), edits[1..])
  }

  /** New panes and windows are new when they are made. */
  ghost predicate EditsNew(w: World, edits: seq<(SessionId, Edit)>)
    decreases |edits|
  {
    edits != [] ==>
      var (sid, e) := edits[0];
      && (sid in w.sessions ==> IsNew(w.sessions[sid], e) && (e.Split? ==> e.pane !in w.paneSession))
      && EditsNew(Step(w, EditOp(w, sid, e)), edits[1..])
  }

  ghost predicate AllWellFormed(w: World) { forall sid :: sid in w.sessions ==> WellFormed(w.sessions[sid]) }

  /** Every run of edits is a run of allowed steps, so nothing in view is left waiting. */
  lemma {:induction false} EditRunsAreAllowed(w: World, edits: seq<(SessionId, Edit)>)
    requires AllWellFormed(w) && EditsNew(w, edits)
    ensures Runs(w, EditRun(w, edits)) && AllWellFormed(Run(w, EditRun(w, edits)))
    ensures Good(w) ==> Good(Run(w, EditRun(w, edits)))
    decreases |edits|
  {
    if edits != [] {
      var (sid, e) := edits[0];
      var op := EditOp(w, sid, e);
      EditStep(w, sid, e);
      EditRunsAreAllowed(Step(w, op), edits[1..]);
      assert EditRun(w, edits)[1..] == EditRun(Step(w, op), edits[1..]);
    }
  }

  lemma EditStep(w: World, sid: SessionId, e: Edit)
    requires AllWellFormed(w)
    requires sid in w.sessions ==> IsNew(w.sessions[sid], e) && (e.Split? ==> e.pane !in w.paneSession)
    ensures Allowed(w, EditOp(w, sid, e)) && AllWellFormed(Step(w, EditOp(w, sid, e)))
    ensures Good(w) ==> Good(Step(w, EditOp(w, sid, e)))
  {
    hide Edited, Step, Good, Allowed, WellFormed;
    if sid in w.sessions {
      EditsAreAllowed(w, sid, e);
      if Edited(w.sessions[sid], e).Some? { EditsKeepWellFormed(w.sessions[sid], e); }
    } else {
      RejectedIsAllowed(w, sid);
    }
    MutatedSessions(w, sid, EditOp(w, sid, e).outcome);
    if Good(w) { StepKeeps(w, EditOp(w, sid, e)); }
  }

  lemma RejectedIsAllowed(w: World, sid: SessionId)
    ensures Allowed(w, Mutate(sid, None))
  {
  }

  lemma MutatedSessions(w: World, sid: SessionId, outcome: Option<Session>)
    ensures Step(w, Mutate(sid, outcome)).sessions ==
            if outcome.None? then w.sessions else w.sessions[sid := outcome.value]
  {
  }

  // ---------------------------------------------------------------- a run to a hidden finished pane

  const EMPTY: World := World(map[], map[], map[], {}, map[], map[])

  const FINISHES: Lifecycle.Event := Lifecycle.Event.Report(Identity("agent", None), true, Done, 1)

  function OneWindow(win: Window): map<SessionId, Session> { map[0 := Session(map[0 := win], 0)] }

  /** One client and one window: two panes, zoomed on the first, while the agent in the second finishes. */
  function Stage(i: nat): World
  {
    var one: map<PaneId, SessionId> := map[1 := 0];
    var two: map<PaneId, SessionId> := map[1 := 0, 2 := 0];
    var client: map<ClientId, Client> := map[0 := Client(0, OuterFocus.Unknown)];
    if i == 0 then EMPTY
    else if i == 1 then World(map[], OneWindow(LonePane(1)), map[], {}, map[], map[])
    else if i == 2 then World(map[], OneWindow(LonePane(1)), one, {1}, map[], map[])
    else if i == 3 then World(client, OneWindow(LonePane(1)), one, {1}, map[], map[])
    else if i == 4 then World(client, OneWindow(Window([1, 2], 2, None)), one, {1}, map[], map[])
    else if i == 5 then World(client, OneWindow(Window([1, 2], 2, None)), two, {1, 2}, map[], map[])
    else if i == 6 then World(client, OneWindow(Window([1, 2], 1, None)), two, {1, 2}, map[], map[])
    else if i == 7 then World(client, OneWindow(Window([1, 2], 1, Some(1))), two, {1, 2}, map[], map[])
    else World(client, OneWindow(Window([1, 2], 1, Some(1))), two, {1, 2}, map[2 := Opened(FINISHES)], map[])
  }

  function Move(i: nat): Op
  {
    if i == 0 then NewSession(0, 0, 1)
    else if i == 1 then Spawned(1, 0)
    else if i == 2 then Connect(0, 0)
    else if i == 3 then EditOp(Stage(3), 0, Split(2))
    else if i == 4 then Spawned(2, 0)
    else if i == 5 then EditOp(Stage(5), 0, FocusPane(1))
    else if i == 6 then EditOp(Stage(6), 0, Zoom)
    else ReportOrClear(2, FINISHES)
  }

  lemma NothingToSee(w: World, sid: SessionId)
    requires w.entries == map[]
    ensures Exposed(w, sid) == w
  {
    assert SeenAll(map[], ObservablePanes(w, sid)) == map[];
  }

  lemma FirstMoves(i: nat)
    requires i < 3
    ensures Allowed(Stage(i), Move(i)) && Step(Stage(i), Move(i)) == Stage(i + 1)
  {
    if i == 2 {
      var t := Stage(2).(clients := map[0 := Client(0, OuterFocus.Unknown)]);
      assert map[][0 := Client(0, OuterFocus.Unknown)] == map[0 := Client(0, OuterFocus.Unknown)];
      NothingToSee(t, 0);
    }
  }

  lemma EditMove(i: nat, e: Edit)
    requires i in [3, 5, 6] && e == (if i == 3 then Split(2) else if i == 5 then FocusPane(1) else Zoom)
    ensures Allowed(Stage(i), Move(i)) && Step(Stage(i), Move(i)) == Stage(i + 1)
  {
    hide Edited, Stage, Step, Exposed;
    StageMutates(i);
    EditLeads(i, e);
    EditShowsKnownPanes(i);
    var t := Stage(i + 1).sessions[0];
    assert Move(i) == EditOp(Stage(i), 0, e) == Mutate(0, Some(t));
    MutatesUnseen(Stage(i), 0, t);
  }

  /** Two neighbouring stages of an edit differ in the one session only. */
  lemma StageMutates(i: nat)
    requires i in [3, 5, 6]
    ensures var (w, t) := (Stage(i), Stage(i + 1));
      && 0 in w.sessions && 0 in t.sessions && w.entries == map[]
      && t == w.(sessions := w.sessions[0 := t.sessions[0]])
  {
    assert Stage(i).sessions[0 := Stage(i + 1).sessions[0]] == Stage(i + 1).sessions;
  }

  lemma MutatesUnseen(w: World, sid: SessionId, session: Session)
    requires w.entries == map[]
    ensures Step(w, Mutate(sid, Some(session))) == w.(sessions := w.sessions[sid := session])
  {
    hide Exposed;
    NothingToSee(w.(sessions := w.sessions[sid := session]), sid);
  }

  lemma EditShowsKnownPanes(i: nat)
    requires i in [3, 5, 6]
    ensures forall p :: HasPane(Stage(i + 1).sessions[0], p) ==>
              HasPane(Stage(i).sessions[0], p) || p !in Stage(i).paneSession
  {
    var (s, t) := (Stage(i).sessions[0], Stage(i + 1).sessions[0]);
    forall p | HasPane(t, p) ensures HasPane(s, p) || p !in Stage(i).paneSession {
      var wid :| wid in t.windows && WindowHas(t.windows[wid], p);
      assert wid == 0 && p in [1, 2];
      assert s.windows[0].panes[0] == 1 && WindowHas(s.windows[0], 1);
      if i > 3 { assert s.windows[0].panes[1] == 2 && WindowHas(s.windows[0], 2); }
    }
  }

  lemma EditLeads(i: nat, e: Edit)
    requires i in [3, 5, 6] && e == (if i == 3 then Split(2) else if i == 5 then FocusPane(1) else Zoom)
    ensures Edited(Stage(i).sessions[0], e) == Some(Stage(i + 1).sessions[0])
  {
    hide Edited, Stage;
    if i == 3 {
      StageSplits();
    } else if i == 5 {
      StageFocuses();
    } else {
      StageZooms();
    }
  }

  lemma StageSplits()
    ensures Edited(Stage(3).sessions[0], Split(2)) == Some(Stage(4).sessions[0])
  {
    hide SplitWindow;
    SplitLast(LonePane(1), 2);
    assert [1] + [2] == [1, 2];
    assert Edited(Stage(3).sessions[0], Split(2)).value.windows == Stage(4).sessions[0].windows;
  }

  lemma StageFocuses()
    ensures Edited(Stage(5).sessions[0], FocusPane(1)) == Some(Stage(6).sessions[0])
  {
    assert Stage(5).sessions[0].windows[0].panes[0] == 1;
    assert Edited(Stage(5).sessions[0], FocusPane(1)).value.windows == Stage(6).sessions[0].windows;
  }

  lemma StageZooms()
    ensures Edited(Stage(6).sessions[0], Zoom) == Some(Stage(7).sessions[0])
  {
    assert Edited(Stage(6).sessions[0], Zoom).value.windows == Stage(7).sessions[0].windows;
  }

  lemma SecondSpawns()
    ensures Allowed(Stage(4), Move(4)) && Step(Stage(4), Move(4)) == Stage(5)
  {
    assert Stage(4).paneSession[2 := 0] == Stage(5).paneSession;
    assert {1} + {2} == {1, 2};
  }

  lemma SecondFinishes()
    ensures Allowed(Stage(7), Move(7)) && Step(Stage(7), Move(7)) == Stage(8)
  {
    var t := Stage(8);
    assert map[][2 := Opened(FINISHES)] == map[2 := Opened(FINISHES)];
    assert RenderedPanes(t.sessions[0]) == [1];
    assert !InView(t, 0, 2);
  }

  lemma {:induction false} StagesRun(i: nat, moves: seq<Op>)
    requires i + |moves| == 8 && forall k :: 0 <= k < |moves| ==> moves[k] == Move(i + k)
    ensures Runs(Stage(i), moves) && Run(Stage(i), moves) == Stage(8)
    decreases |moves|
  {
    if moves != [] {
      if i < 3 {
        FirstMoves(i);
      } else if i == 4 {
        SecondSpawns();
      } else if i == 7 {
        SecondFinishes();
      } else {
        EditMove(i, if i == 3 then Split(2) else if i == 5 then FocusPane(1) else Zoom);
      }
      StagesRun(i + 1, moves[1..]);
    }
  }

  /**
   The failing input: from the empty world an allowed run leads to a zoom that hides a finished
   pane, and a split that then fails leaves that pane on screen, still displaying Done.
   */
  lemma FailedSplitUncoversDone()
    ensures var moves := seq(8, i requires 0 <= i < 8 => Move(i));
            Runs(EMPTY, moves) && Run(EMPTY, moves) == Stage(8) && Good(Stage(8)) && HidesDone(Stage(8), 0)
    ensures var w := Stage(8);
            !NothingDoneInView(w.(sessions := w.sessions[0 := Edited(w.sessions[0], Split(3)).value]))
  {
    hide Stage, Move, Good, Edited, HidesDone, NothingDoneInView;
    var moves := seq(8, i requires 0 <= i < 8 => Move(i));
    EmptyIsGood();
    StagesRun(0, moves);
    NothingDoneStaysInView(EMPTY, moves);
    LastStageHidesDone();
    FailedSplitBreaksContract(Stage(8), 0, 3);
  }

  lemma EmptyIsGood()
    ensures Stage(0) == EMPTY && Good(EMPTY)
  {
  }

  lemma LastStageHidesDone()
    ensures var w := Stage(8);
      && HidesDone(w, 0) && 0 in w.sessions && w.sessions[0].activeWindow in w.sessions[0].windows
      && 3 !in w.paneSession && !HasPane(w.sessions[0], 3)
  {
    var w := Stage(8);
    var win := w.sessions[0].windows[0];
    assert win.panes[0] == 1 && win.panes[1] == 2;
    assert w.clients[0].session == 0;
    assert ShowsDone(w, 2);
  }
}
