/** The control loop, updating its state in place: the coordinator and the handlers around it. */
module EventLoop {
  import opened Common
  import opened Agent
  import opened Lifecycle
  import opened Model
  import opened Visibility

  class Loop {
    const daemon: Registry
    var clients: map<ClientId, Client>
    var sessions: map<SessionId, Session>
    var paneSession: map<PaneId, SessionId>
    var detected: map<PaneId, Status>

    ghost function View(): World
      reads this, daemon
    {
      World(clients, sessions, paneSession, daemon.live, daemon.entries, detected)
    }

    constructor ()
      ensures fresh(daemon)
      ensures View() == World(map[], map[], map[], {}, map[], map[]) && Good(View())
    {
      daemon := new Registry();
      clients, sessions, paneSession, detected := map[], map[], map[], map[];
    }

    method SessionHasObservingClient(sid: SessionId) returns (b: bool)
      ensures b == HasObserver(clients, sid)
    {
      var left := clients.Keys;
      while left != {}
        invariant left <= clients.Keys
        invariant forall id ::
          id in clients && id !in left ==> !(clients[id].session == sid && MayObserve(clients[id].outerFocus))
        decreases |left|
      {
        var id :| id in left;
        if clients[id].session == sid && MayObserve(clients[id].outerFocus) {
          return true;
        }
        left := left - {id};
      }
      return false;
    }

    method ObservablePanesOf(sid: SessionId) returns (panes: seq<PaneId>)
      ensures panes == ObservablePanes(View(), sid)
    {
      var observed := SessionHasObservingClient(sid);
      panes := if observed && sid in sessions then RenderedPanes(sessions[sid]) else [];
    }

    /** Acknowledge every one of the panes; true exactly when some status changed. */
    method AcknowledgeAll(panes: seq<PaneId>) returns (changed: bool)
      modifies daemon`entries
      ensures daemon.entries == SeenAll(old(daemon.entries), panes)
      ensures changed <==> daemon.entries != old(daemon.entries)
    {
      changed := false;
      ghost var before := daemon.entries;
      SeenNone(before);
      for i := 0 to |panes|
        invariant daemon.entries == SeenAll(before, panes[..i])
        invariant changed <==> daemon.entries != before
      {
        ghost var now := daemon.entries;
        var one := daemon.Acknowledge(panes[i]);
        OneMoreSeen(before, panes, i, now, daemon.entries);
        changed := changed || one;
      }
      assert panes[..|panes|] == panes;
    }

    /** The coordinator: whose focus changed, which panes that exposes, and what becomes of them. */
    method CoordinateVisibility(t: Transition) returns (changed: bool)
      modifies this`clients, daemon`entries
      ensures View() == Coordinated(old(View()), t)
      ensures changed <==> daemon.entries != old(daemon.entries)
    {
      var panes: seq<PaneId> := [];
      match t {
        case ClientObserved(id) =>
          if id !in clients {
            return false;
          }
          clients := clients[id := clients[id].(outerFocus := Focused)];
          panes := ObservablePanesOf(clients[id].session);
        case ClientBlurred(id) =>
          if id in clients {
            clients := clients[id := clients[id].(outerFocus := Lost)];
          }
          return false;
        case SessionExposed(sid) =>
          panes := ObservablePanesOf(sid);
        case AgentReported(pane) =>
          if pane in paneSession {
            var observable := ObservablePanesOf(paneSession[pane]);
            panes := if pane in observable then [pane] else [];
          }
          SeenNone(daemon.entries);
      }
      changed := AcknowledgeAll(panes);
    }

    /** A client attaches to an existing session. */
    method Attach(id: ClientId, sid: SessionId)
      requires Allowed(View(), Connect(id, sid))
      modifies this`clients, daemon`entries
      ensures View() == Step(old(View()), Connect(id, sid))
      ensures Good(old(View())) ==> Good(View())
    {
      hide Good, Allowed;
      AllowedStepKeeps(View(), Connect(id, sid));
      clients := clients[id := Client(sid, OuterFocus.Unknown)];
      var _ := CoordinateVisibility(SessionExposed(sid));
    }

    /** The one way an attached client moves between sessions. */
    method SwitchClientSession(id: ClientId, sid: SessionId)
      modifies this`clients, daemon`entries
      ensures View() == Step(old(View()), Switch(id, sid))
      ensures Good(old(View())) && Allowed(old(View()), Switch(id, sid)) ==> Good(View())
    {
      hide Good, Allowed;
      AllowedStepKeeps(View(), Switch(id, sid));
      if id !in clients {
        return;
      }
      if clients[id].session == sid {
        var _ := CoordinateVisibility(SessionExposed(sid));
        return;
      }
      if sid !in sessions {
        return;
      }
      clients := clients[id := clients[id].(session := sid)];
      var _ := CoordinateVisibility(SessionExposed(sid));
    }

    /** A focus or topology change of one session: none when it was rejected. */
    method CoordinateTopology(sid: SessionId, outcome: Option<Session>) returns (accepted: bool)
      modifies this`clients, this`sessions, daemon`entries
      ensures View() == Step(old(View()), Mutate(sid, outcome))
      ensures Good(old(View())) && Allowed(old(View()), Mutate(sid, outcome)) ==> Good(View())
      ensures accepted == outcome.Some?
    {
      hide Good, Allowed;
      AllowedStepKeeps(View(), Mutate(sid, outcome));
      if outcome.None? {
        return false;
      }
      sessions := sessions[sid := outcome.value];
      var _ := CoordinateVisibility(SessionExposed(sid));
      return true;
    }

    /** Focus exactly the pane of an agent row, or change nothing. */
    method FocusAgent(sid: SessionId, wid: WindowId, pane: PaneId) returns (accepted: bool)
      modifies this`clients, this`sessions, daemon`entries
      ensures accepted
        == (sid in old(sessions) && wid in old(sessions)[sid].windows && pane in old(sessions)[sid].windows[wid].panes)
      ensures !accepted ==> View() == old(View())
      ensures accepted
        ==> View() == Step(old(View()), Mutate(sid, Edited(old(sessions)[sid], FocusAgentPane(wid, pane))))
      ensures Good(old(View())) && (sid in old(sessions) ==> WellFormed(old(sessions)[sid])) ==> Good(View())
    {
      hide Good, Allowed, WellFormed;
      if sid !in sessions {
        return false;
      }
      if WellFormed(sessions[sid]) { EditsAreAllowed(View(), sid, FocusAgentPane(wid, pane)); }
      accepted := CoordinateTopology(sid, Edited(sessions[sid], FocusAgentPane(wid, pane)));
    }

    /** A hook reports; a completion on screen has been seen at once. True exactly when something shown changed. */
    method ReportAgentState(pane: PaneId, event: Lifecycle.Event) returns (changed: bool)
      requires event.Report?
      modifies this`clients, daemon`entries
      ensures View() == Step(old(View()), ReportOrClear(pane, event))
      ensures Good(old(View())) && Allowed(old(View()), ReportOrClear(pane, event)) ==> Good(View())
      ensures var delivered := AfterDelivery(old(View()), pane, event);
        changed <==>
          || Visible(Lookup(delivered.entries, pane)) != Visible(Lookup(old(View()).entries, pane))
          || View().entries != delivered.entries
    {
      hide Good, Allowed;
      AllowedStepKeeps(View(), ReportOrClear(pane, event));
      ghost var before := View();
      changed := false;
      if pane in paneSession {
        changed := daemon.Handle(pane, event);
      }
      Delivered(before, daemon.entries, pane, event);
      var seen := CoordinateVisibility(AgentReported(pane));
      changed := changed || seen;
    }

    /** A hook clears its own status; what is on screen only loses by it. True exactly when a status went. */
    method ClearAgentState(pane: PaneId, event: Lifecycle.Event) returns (changed: bool)
      requires event.Clear?
      modifies daemon`entries
      ensures View() == Step(old(View()), ReportOrClear(pane, event))
      ensures Good(old(View())) && Allowed(old(View()), ReportOrClear(pane, event)) ==> Good(View())
      ensures changed <==> Visible(Lookup(View().entries, pane)) != Visible(Lookup(old(View()).entries, pane))
    {
      hide Good, Allowed;
      AllowedStepKeeps(View(), ReportOrClear(pane, event));
      ghost var before := daemon.entries;
      changed := daemon.Handle(pane, event);
      if pane in daemon.live {
        SameLookups(daemon.entries, before[pane := Deliver(Lookup(before, pane), event).value]);
      }
    }

    /** A client leaves; its session's panes keep running. */
    method ClientGone(id: ClientId)
      modifies this`clients
      ensures View() == Step(old(View()), Gone(id))
      ensures Good(old(View())) && Allowed(old(View()), Gone(id)) ==> Good(View())
    {
      hide Good, Allowed;
      AllowedStepKeeps(View(), Gone(id));
      clients := clients - {id};
    }

    /** The terminal reports its focus. */
    method FocusChanged(id: ClientId, focused: bool)
      modifies this`clients, daemon`entries
      ensures View() == Step(old(View()), FocusReport(id, focused))
      ensures Good(old(View())) && Allowed(old(View()), FocusReport(id, focused)) ==> Good(View())
    {
      hide Good, Allowed;
      AllowedStepKeeps(View(), FocusReport(id, focused));
      var transition := if focused then ClientObserved(id) else ClientBlurred(id);
      var _ := CoordinateVisibility(transition);
    }

    /** Physical input proves that somebody is there. */
    method InputArrived(id: ClientId) returns (seen: bool)
      modifies this`clients, daemon`entries
      ensures View() == Step(old(View()), Input(id))
      ensures Good(old(View())) && Allowed(old(View()), Input(id)) ==> Good(View())
      ensures seen <==> View().entries != old(View()).entries
    {
      hide Good, Allowed;
      AllowedStepKeeps(View(), Input(id));
      seen := CoordinateVisibility(ClientObserved(id));
    }

    /** A pane's process has started; its reports reach it from now on. */
    method PaneSpawned(pane: PaneId, sid: SessionId)
      modifies this`paneSession, daemon`live
      ensures View() == Step(old(View()), Spawned(pane, sid))
      ensures Good(old(View())) && Allowed(old(View()), Spawned(pane, sid)) ==> Good(View())
    {
      hide Good, Allowed;
      AllowedStepKeeps(View(), Spawned(pane, sid));
      daemon.Spawn(pane);
      paneSession := paneSession[pane := sid];
    }

    /** A new window with one new pane becomes the active one. */
    method OpenWindow(sid: SessionId, wid: WindowId, pane: PaneId)
      modifies this`sessions
      ensures View() == Step(old(View()), NewWindow(sid, wid, pane))
      ensures Good(old(View())) && Allowed(old(View()), NewWindow(sid, wid, pane)) ==> Good(View())
    {
      hide Good, Allowed;
      AllowedStepKeeps(View(), NewWindow(sid, wid, pane));
      if sid in sessions {
        sessions := sessions[sid := Session(sessions[sid].windows[wid := LonePane(pane)], wid)];
      }
    }

    /** A new session with one window and one pane. */
    method OpenSession(sid: SessionId, wid: WindowId, pane: PaneId)
      modifies this`sessions
      ensures View() == Step(old(View()), NewSession(sid, wid, pane))
      ensures Good(old(View())) && Allowed(old(View()), NewSession(sid, wid, pane)) ==> Good(View())
    {
      hide Good, Allowed;
      AllowedStepKeeps(View(), NewSession(sid, wid, pane));
      sessions := sessions[sid := Session(map[wid := LonePane(pane)], wid)];
    }

    /** A pane's process ended, but its last screen is kept. */
    method KeepDeadPane(pane: PaneId)
      modifies daemon
      ensures View() == Step(old(View()), ExitKept(pane))
      ensures Good(old(View())) && Allowed(old(View()), ExitKept(pane)) ==> Good(View())
    {
      hide Good, Allowed;
      AllowedStepKeeps(View(), ExitKept(pane));
      daemon.End({pane});
    }

    /** Panes of a session close; what that uncovers is exposed, and a session that ended loses its clients. */
    method ClosePanes(sid: SessionId, panes: set<PaneId>, result: Cascade)
      modifies this, daemon
      ensures View() == Step(old(View()), Close(sid, panes, result))
      ensures Good(old(View())) && Allowed(old(View()), Close(sid, panes, result)) ==> Good(View())
    {
      hide Good, Allowed;
      AllowedStepKeeps(View(), Close(sid, panes, result));
      daemon.End(panes);
      paneSession, detected := paneSession - panes, detected - panes;
      match result {
        case Remaining(session) =>
          sessions := sessions[sid := session];
          var _ := CoordinateVisibility(SessionExposed(sid));
        case SessionClosed =>
          sessions := sessions - {sid};
          DisconnectClientsOf(sid);
        case NotFound =>
      }
    }

    /** A session is killed with all its panes and clients. */
    method KillWholeSession(sid: SessionId)
      modifies this, daemon
      ensures View() == Step(old(View()), KillSession(sid))
      ensures Good(old(View())) && Allowed(old(View()), KillSession(sid)) ==> Good(View())
    {
      hide Good, Allowed;
      AllowedStepKeeps(View(), KillSession(sid));
      if sid in sessions {
        var s := sessions[sid];
        var panes := set p | p in paneSession && HasPane(s, p);
        daemon.End(panes);
        paneSession, sessions := paneSession - panes, sessions - {sid};
      }
      DisconnectClientsOf(sid);
    }

    /** Client after client, those of the session go. */
    method DisconnectClientsOf(sid: SessionId)
      modifies this`clients
      ensures clients == WithoutClientsOf(old(clients), sid)
    {
      ghost var before := clients;
      var left := clients.Keys;
      while left != {}
        invariant left <= clients.Keys <= before.Keys
        invariant forall id :: id in clients ==> clients[id] == before[id]
        invariant forall id :: id in before && id !in left ==> (id in clients <==> before[id].session != sid)
        decreases |left|
      {
        var id :| id in left;
        if clients[id].session == sid {
          clients := clients - {id};
        }
        left := left - {id};
      }
    }

    /** One pane's process tree was looked at; true when what is shown for it may have changed. */
    method RefreshDetected(pane: PaneId, agent: Option<string>) returns (changed: bool)
      modifies this`detected, daemon`entries
      ensures View() == Step(old(View()), Detect(pane, agent))
      ensures Good(old(View())) && Allowed(old(View()), Detect(pane, agent)) ==> Good(View())
      ensures Shown(View(), pane) != Shown(old(View()), pane) ==> changed
    {
      hide Good, Allowed;
      AllowedStepKeeps(View(), Detect(pane, agent));
      changed := false;
      if pane !in paneSession {
        return;
      }
      match agent {
        case Some(name) =>
          if pane !in detected || detected[pane].agent != name {
            detected := detected[pane := Fresh(name, Idle)];
            changed := Visible(Lookup(daemon.entries, pane)).None?;
          }
        case None =>
          if pane in detected {
            detected := detected - {pane};
            daemon.DropStatus(pane);
            changed := true;
          }
      }
    }
  }

  /** Acknowledging one more pane, once those before it are acknowledged. */
  lemma OneMoreSeen(
    before: map<PaneId, Entry>, panes: seq<PaneId>, i: nat, now: map<PaneId, Entry>, next: map<PaneId, Entry>)
    requires i < |panes| && now == SeenAll(before, panes[..i])
    requires forall p :: Lookup(next, p) == if p == panes[i] then Seen(Lookup(now, p)) else Lookup(now, p)
    ensures next == SeenAll(before, panes[..i + 1])
    ensures next != before <==> now != before || Visible(Lookup(next, panes[i])) != Visible(Lookup(now, panes[i]))
  {
    forall p ensures Lookup(next, p) == Lookup(SeenAll(before, panes[..i + 1]), p) {
      SeenTwice(before, panes, i, p);
    }
    SameLookups(next, SeenAll(before, panes[..i + 1]));
    if now != before {
      SameLookupsUnless(now, before);
      var p :| Lookup(now, p) != Lookup(before, p);
      SeenTwice(before, panes, i, p);
      assert Lookup(next, p) != Lookup(before, p);
    } else if next != before {
      SameLookupsUnless(next, before);
    }
  }

  lemma SeenNone(before: map<PaneId, Entry>)
    ensures SeenAll(before, []) == before
  {
  }

  lemma SeenTwice(before: map<PaneId, Entry>, panes: seq<PaneId>, i: nat, p: PaneId)
    requires i < |panes|
    ensures var now := Lookup(SeenAll(before, panes[..i]), p);
            Lookup(SeenAll(before, panes[..i + 1]), p) == if p == panes[i] then Seen(now) else now
    ensures Lookup(SeenAll(before, panes[..i]), p) in [Lookup(before, p), Seen(Lookup(before, p))]
    ensures Seen(Seen(Lookup(before, p))) == Seen(Lookup(before, p))
  {
    assert panes[..i + 1] == panes[..i] + [panes[i]];
  }

  lemma SameLookups(m: map<PaneId, Entry>, n: map<PaneId, Entry>)
    requires forall p :: Lookup(m, p) == Lookup(n, p)
    ensures m == n
  {
    assert forall p :: p in m <==> p in n by {
      forall p ensures p in m <==> p in n { assert Lookup(m, p) == Lookup(n, p); }
    }
    assert forall p :: p in m ==> m[p] == n[p] by {
      forall p | p in m ensures m[p] == n[p] { assert Lookup(m, p) == Lookup(n, p); }
    }
  }

  lemma SameLookupsUnless(m: map<PaneId, Entry>, n: map<PaneId, Entry>)
    requires m != n
    ensures exists p :: Lookup(m, p) != Lookup(n, p)
  {
    if forall p :: Lookup(m, p) == Lookup(n, p) { SameLookups(m, n); }
  }

  /** What the registry holds after an event is what the step delivers. */
  lemma Delivered(w: World, entries: map<PaneId, Entry>, pane: PaneId, event: Lifecycle.Event)
    requires pane in w.paneSession && pane in w.live
      ==> Lookup(entries, pane) == Deliver(Lookup(w.entries, pane), event)
    requires pane !in w.paneSession || pane !in w.live ==> entries == w.entries
    requires forall p :: p != pane ==> Lookup(entries, p) == Lookup(w.entries, p)
    ensures pane in w.paneSession && pane in w.live
      ==> entries == w.entries[pane := Deliver(Lookup(w.entries, pane), event).value]
  {
    if pane in w.paneSession && pane in w.live {
      SameLookups(entries, w.entries[pane := Deliver(Lookup(w.entries, pane), event).value]);
    }
  }
}
