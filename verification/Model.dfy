/**
 Sessions own windows, windows own panes. A window keeps its panes in layout order, the pane with
 the focus, and, when zoomed, the one pane that hides the others.
 */
module Model {
  import opened Common

  type WindowId = nat

  datatype Window = Window(panes: seq<PaneId>, activePane: PaneId, zoomed: Option<PaneId>)

  datatype Session = Session(windows: map<WindowId, Window>, activeWindow: WindowId)

  function WindowPanes(w: Window): seq<PaneId> { if w.zoomed.Some? then [w.zoomed.value] else w.panes }

  /** The panes rendered in a session's active window. */
  function RenderedPanes(s: Session): seq<PaneId>
  {
    if s.activeWindow in s.windows then WindowPanes(s.windows[s.activeWindow]) else []
  }

  predicate WindowHas(w: Window, p: PaneId) { p in w.panes || w.zoomed == Some(p) }

  /** A pane of the session, in any window. */
  predicate HasPane(s: Session, p: PaneId)
  {
    exists wid :: wid in s.windows && WindowHas(s.windows[wid], p)
  }

  function LonePane(pane: PaneId): Window { Window([pane], pane, None) }

  // ---------------------------------------------------------------- edits

  function SetActivePane(w: Window, p: PaneId): Window
  {
    if p != w.activePane then w.(activePane := p, zoomed := None) else w
  }

  function ToggleZoom(w: Window): Window
  {
    if w.zoomed.Some? then w.(zoomed := None)
    else if |w.panes| > 1 then w.(zoomed := Some(w.activePane))
    else w
  }

  function Position(s: seq<PaneId>, p: PaneId): (i: nat)
    requires p in s
    ensures i < |s| && s[i] == p
  {
    if s[0] == p then 0 else 1 + Position(s[1..], p)
  }

  /** The new pane follows the active one, becomes active, and ends any zoom. */
  function SplitWindow(w: Window, pane: PaneId): Window
  {
    if w.activePane !in w.panes then w else
    var at := Position(w.panes, w.activePane);
    SetActivePane(w.(panes := w.panes[..at + 1] + [pane] + w.panes[at + 1..]), pane)
  }

  /** Take a pane out of a window that has others; the layout collapses and unzooms. */
  function RemovePane(w: Window, p: PaneId): Window
    requires p in w.panes && |w.panes| > 1
  {
    var at := Position(w.panes, p);
    var rest := w.panes[..at] + w.panes[at + 1..];
    Window(rest, if w.activePane == p then rest[0] else w.activePane, None)
  }

  /** Put `to` in the place of `from`; the focus follows, the zoom does not. */
  function ReplacePane(w: Window, from: PaneId, to: PaneId): Window
    requires from in w.panes
  {
    Window(w.panes[Position(w.panes, from) := to], if w.activePane == from then to else w.activePane, w.zoomed)
  }

  datatype Edit =
    | FocusWindow(window: WindowId)
    | FocusPane(pane: PaneId)
    | FocusAgentPane(window: WindowId, pane: PaneId)
    | Zoom
    | Split(pane: PaneId)
    | Break(window: WindowId)
    | SwapAcross(first: WindowId, a: PaneId, second: WindowId, b: PaneId)

  /** The session after an edit, or none when it is rejected. */
  function Edited(s: Session, e: Edit): Option<Session>
  {
    match e
    case FocusWindow(wid) => if wid in s.windows then Some(s.(activeWindow := wid)) else None
    case FocusPane(p) => FocusIn(s, s.activeWindow, p)
    case FocusAgentPane(wid, p) => FocusIn(s, wid, p)
    case Zoom =>
      if s.activeWindow !in s.windows then None else
      Some(s.(windows := s.windows[s.activeWindow := ToggleZoom(s.windows[s.activeWindow])]))
    case Split(p) =>
      if s.activeWindow !in s.windows then None else
      Some(s.(windows := s.windows[s.activeWindow := SplitWindow(s.windows[s.activeWindow], p)]))
    case Break(wid) =>
      if s.activeWindow !in s.windows || wid in s.windows then None else
      var win := s.windows[s.activeWindow];
      if win.activePane !in win.panes || |win.panes| == 1 then None else
      Some(Session(s.windows[s.activeWindow := RemovePane(win, win.activePane)][wid := LonePane(win.activePane)], wid))
    case SwapAcross(first, a, second, b) =>
      if first == second || first !in s.windows || second !in s.windows then None
      else if a !in s.windows[first].panes || b !in s.windows[second].panes then None
      else
        var (v, w) := (ReplacePane(s.windows[first], a, b), ReplacePane(s.windows[second], b, a));
        Some(s.(windows := s.windows[first := v][second := w]))
  }

  /** Focus a window and a pane in it, both or neither. */
  function FocusIn(s: Session, wid: WindowId, p: PaneId): Option<Session>
  {
    if wid in s.windows && p in s.windows[wid].panes then
      Some(Session(s.windows[wid := SetActivePane(s.windows[wid], p)], wid))
    else None
  }

  // ---------------------------------------------------------------- what edits keep

  predicate NoDuplicates(s: seq<PaneId>) { forall i, j :: 0 <= i < j < |s| ==> s[i] != s[j] }

  /** The focus is on a pane of the window, and no pane is there twice. The zoom may be on any pane. */
  predicate WindowOk(w: Window) { w.activePane in w.panes && NoDuplicates(w.panes) }

  /** There is an active window, windows are in order, and no pane is in two of them. */
  ghost predicate WellFormed(s: Session)
  {
    && s.activeWindow in s.windows
    && (forall wid :: wid in s.windows ==> WindowOk(s.windows[wid]))
    && (forall v, w, p ::
      v in s.windows && w in s.windows && p in s.windows[v].panes && p in s.windows[w].panes ==> v == w)
  }

  /** A zoom shows the focused pane of its own window. */
  predicate ZoomOk(w: Window) { w.zoomed.Some? ==> w.zoomed.value == w.activePane }

  predicate ZoomsFocus(s: Session) { forall wid :: wid in s.windows ==> ZoomOk(s.windows[wid]) }

  lemma RemoveOne(s: seq<PaneId>, at: nat, q: PaneId)
    requires at < |s| && NoDuplicates(s)
    ensures var t := s[..at] + s[at + 1..];
            (q in t <==> q in s && q != s[at]) && NoDuplicates(t)
  {
    var t := s[..at] + s[at + 1..];
    assert forall i :: 0 <= i < |t| ==> t[i] == s[if i < at then i else i + 1];
    if q in s && q != s[at] {
      var i := Position(s, q);
      assert t[if i < at then i else i - 1] == q;
    }
  }

  lemma RemovedPanes(w: Window, p: PaneId, q: PaneId)
    requires p in w.panes && |w.panes| > 1 && NoDuplicates(w.panes)
    ensures q in RemovePane(w, p).panes <==> q in w.panes && q != p
    ensures WindowOk(w) ==> WindowOk(RemovePane(w, p))
  {
    var at := Position(w.panes, p);
    RemoveOne(w.panes, at, q);
    RemoveOne(w.panes, at, w.activePane);
  }

  lemma InsertOne(s: seq<PaneId>, at: nat, p: PaneId, q: PaneId)
    requires at <= |s|
    ensures var t := s[..at] + [p] + s[at..];
            (q in t <==> q == p || q in s) && (NoDuplicates(s) && p !in s ==> NoDuplicates(t))
  {
    assert q in s <==> q in s[..at] || q in s[at..] by { assert s == s[..at] + s[at..]; }
    if NoDuplicates(s) && p !in s { InsertKeepsDistinct(s, at, p); }
  }

  lemma InsertKeepsDistinct(s: seq<PaneId>, at: nat, p: PaneId)
    requires at <= |s| && NoDuplicates(s) && p !in s
    ensures NoDuplicates(s[..at] + [p] + s[at..])
  {
    var t := s[..at] + [p] + s[at..];
    assert t[at] == p;
    forall i | 0 <= i < |t| && i != at ensures t[i] == s[if i < at then i else i - 1] {
    }
  }

  lemma SplitPanes(w: Window, p: PaneId, q: PaneId)
    requires WindowOk(w) && p !in w.panes
    ensures q in SplitWindow(w, p).panes <==> q == p || q in w.panes
    ensures WindowOk(SplitWindow(w, p))
  {
    var at := Position(w.panes, w.activePane) + 1;
    InsertOne(w.panes, at, p, q);
    InsertOne(w.panes, at, p, p);
  }

  lemma ReplacedPanes(w: Window, from: PaneId, to: PaneId, q: PaneId)
    requires WindowOk(w) && from in w.panes && to !in w.panes
    ensures q in ReplacePane(w, from, to).panes <==> q == to || (q in w.panes && q != from)
    ensures WindowOk(ReplacePane(w, from, to))
    ensures ZoomOk(w) ==> (ZoomOk(ReplacePane(w, from, to)) <==> w.zoomed != Some(from))
  {
    var at := Position(w.panes, from);
    var panes := ReplacePane(w, from, to).panes;
    assert panes[at] == to;
    if q in w.panes && q != from {
      assert panes[Position(w.panes, q)] == q;
    }
    if w.activePane != from {
      assert panes[Position(w.panes, w.activePane)] == w.activePane;
    }
  }

  /** Changing one window without adding panes to it. */
  lemma OneWindowShows(s: Session, wid: WindowId, w: Window, active: WindowId, p: PaneId)
    requires wid in s.windows && (WindowHas(w, p) ==> WindowHas(s.windows[wid], p))
    requires HasPane(Session(s.windows[wid := w], active), p)
    ensures HasPane(s, p)
  {
    var v :| v in s.windows[wid := w] && WindowHas(s.windows[wid := w][v], p);
    assert WindowHas(s.windows[v], p);
  }

  lemma BreakShows(s: Session, wid: WindowId, p: PaneId)
    requires WellFormed(s) && Edited(s, Break(wid)).Some? && HasPane(Edited(s, Break(wid)).value, p)
    ensures HasPane(s, p)
  {
    var win := s.windows[s.activeWindow];
    RemovedPanes(win, win.activePane, p);
    assert WindowHas(win, win.activePane);
    var t := Edited(s, Break(wid)).value;
    var v :| v in t.windows && WindowHas(t.windows[v], p);
    if v != wid { assert WindowHas(s.windows[v], p); }
  }

  lemma SwapShows(s: Session, e: Edit, p: PaneId)
    requires WellFormed(s) && e.SwapAcross? && Edited(s, e).Some? && HasPane(Edited(s, e).value, p)
    ensures HasPane(s, p)
  {
    var (v, w) := (s.windows[e.first], s.windows[e.second]);
    ReplacedPanes(v, e.a, e.b, p);
    ReplacedPanes(w, e.b, e.a, p);
    assert WindowHas(v, e.a) && WindowHas(w, e.b);
    var t := Edited(s, e).value;
    var u :| u in t.windows && WindowHas(t.windows[u], p);
    if u == e.first || u == e.second {
      assert WindowHas(v, p) || WindowHas(w, p);
    } else {
      assert WindowHas(s.windows[u], p);
    }
  }

  /** An edit shows no pane the session did not have, apart from one it creates. */
  lemma EditsShowOwnPanes(s: Session, e: Edit, p: PaneId)
    requires WellFormed(s) && IsNew(s, e) && Edited(s, e).Some? && HasPane(Edited(s, e).value, p)
    ensures HasPane(s, p) || e == Split(p)
  {
    var active := s.windows[s.activeWindow];
    match e
    case FocusWindow(wid) =>
      assert s.windows[wid := s.windows[wid]] == s.windows;
      OneWindowShows(s, wid, s.windows[wid], wid, p);
    case FocusPane(q) => OneWindowShows(s, s.activeWindow, SetActivePane(active, q), s.activeWindow, p);
    case FocusAgentPane(wid, q) => OneWindowShows(s, wid, SetActivePane(s.windows[wid], q), wid, p);
    case Zoom => OneWindowShows(s, s.activeWindow, ToggleZoom(active), s.activeWindow, p);
    case Split(q) =>
      assert !WindowHas(active, q);
      SplitPanes(active, q, p);
      if p != q { OneWindowShows(s, s.activeWindow, SplitWindow(active, q), s.activeWindow, p); }
    case Break(wid) => BreakShows(s, wid, p);
    case SwapAcross(_, _, _, _) => SwapShows(s, e, p);
  }

  /** New panes and windows are new. */
  ghost predicate IsNew(s: Session, e: Edit)
  {
    match e
    case Split(p) => !HasPane(s, p)
    case Break(wid) => wid !in s.windows
    case _ => true
  }

  /** Some swapped pane is the one its window is zoomed on. */
  predicate SwapsZoomed(s: Session, e: Edit)
  {
    match e
    case SwapAcross(first, a, second, b) =>
      && first in s.windows && second in s.windows
      && (s.windows[first].zoomed == Some(a) || s.windows[second].zoomed == Some(b))
    case _ => false
  }

  lemma SamePanesKeep(s: Session, wid: WindowId, w: Window, active: WindowId)
    requires WellFormed(s) && wid in s.windows && active in s.windows
    requires w.panes == s.windows[wid].panes && WindowOk(w)
    ensures WellFormed(Session(s.windows[wid := w], active))
  {
  }

  lemma BreakKeeps(s: Session, wid: WindowId)
    requires WellFormed(s) && Edited(s, Break(wid)).Some?
    ensures WellFormed(Edited(s, Break(wid)).value)
  {
    var win := s.windows[s.activeWindow];
    forall q ensures q in RemovePane(win, win.activePane).panes <==> q in win.panes && q != win.activePane {
      RemovedPanes(win, win.activePane, q);
    }
    RemovedPanes(win, win.activePane, win.activePane);
  }

  lemma SplitKeeps(s: Session, p: PaneId)
    requires WellFormed(s) && !HasPane(s, p)
    ensures WellFormed(Edited(s, Split(p)).value)
  {
    var win := s.windows[s.activeWindow];
    assert forall wid :: wid in s.windows ==> !WindowHas(s.windows[wid], p);
    forall q ensures q in SplitWindow(win, p).panes <==> q == p || q in win.panes {
      SplitPanes(win, p, q);
    }
    SplitPanes(win, p, p);
  }

  /** Where a swap puts a pane: the two change places, the others stay. */
  lemma SwapPlaces(s: Session, e: Edit, u: WindowId, p: PaneId)
    requires WellFormed(s) && e.SwapAcross? && Edited(s, e).Some? && u in s.windows
    ensures var t := Edited(s, e).value;
      && t.windows.Keys == s.windows.Keys && t.activeWindow == s.activeWindow && WindowOk(t.windows[u])
      && (p in t.windows[u].panes ==>
            if p == e.a then u == e.second else if p == e.b then u == e.first else p in s.windows[u].panes)
  {
    hide ReplacePane, NoDuplicates;
    var (v, w) := (s.windows[e.first], s.windows[e.second]);
    assert e.a !in w.panes && e.b !in v.panes;
    if u == e.first { ReplacedPanes(v, e.a, e.b, p); }
    if u == e.second { ReplacedPanes(w, e.b, e.a, p); }
  }

  lemma SwapKeeps(s: Session, e: Edit)
    requires WellFormed(s) && e.SwapAcross? && Edited(s, e).Some?
    ensures WellFormed(Edited(s, e).value)
  {
    hide Edited, WindowOk;
    SwapPlaces(s, e, s.activeWindow, e.a);
    var t := Edited(s, e).value;
    forall u | u in t.windows ensures WindowOk(t.windows[u]) { SwapPlaces(s, e, u, e.a); }
    forall u, p | u in t.windows && p in t.windows[u].panes
      ensures if p == e.a then u == e.second else if p == e.b then u == e.first else p in s.windows[u].panes
    {
      SwapPlaces(s, e, u, p);
    }
  }

  /** Every edit keeps windows in order and apart, wherever their zooms are. */
  lemma EditsKeepWellFormed(s: Session, e: Edit)
    requires WellFormed(s) && IsNew(s, e) && Edited(s, e).Some?
    ensures WellFormed(Edited(s, e).value)
  {
    var active := s.windows[s.activeWindow];
    match e
    case FocusWindow(wid) =>
      assert s.windows[wid := s.windows[wid]] == s.windows;
      SamePanesKeep(s, wid, s.windows[wid], wid);
    case FocusPane(q) => SamePanesKeep(s, s.activeWindow, SetActivePane(active, q), s.activeWindow);
    case FocusAgentPane(wid, q) => SamePanesKeep(s, wid, SetActivePane(s.windows[wid], q), wid);
    case Zoom => SamePanesKeep(s, s.activeWindow, ToggleZoom(active), s.activeWindow);
    case Split(p) => SplitKeeps(s, p);
    case Break(wid) => BreakKeeps(s, wid);
    case SwapAcross(_, _, _, _) => SwapKeeps(s, e);
  }

  lemma SwapZooms(s: Session, e: Edit)
    requires WellFormed(s) && ZoomsFocus(s) && e.SwapAcross? && Edited(s, e).Some?
    ensures ZoomsFocus(Edited(s, e).value) <==> !SwapsZoomed(s, e)
  {
    var SwapAcross(first, a, second, b) := e;
    var (v, w) := (s.windows[first], s.windows[second]);
    var t := Edited(s, e).value;
    ReplacedPanes(v, a, b, a);
    ReplacedPanes(w, b, a, b);
    assert t.windows[first] == ReplacePane(v, a, b) && t.windows[second] == ReplacePane(w, b, a);
  }

  /**
   A zoom always shows the focused pane of its own window: every edit keeps it so, except that
   swapping panes between windows breaks it exactly when it takes a zoomed pane away.
   */
  lemma ZoomStaysOnFocus(s: Session, e: Edit)
    requires WellFormed(s) && ZoomsFocus(s) && Edited(s, e).Some?
    ensures ZoomsFocus(Edited(s, e).value) <==> !SwapsZoomed(s, e)
  {
    if e.SwapAcross? {
      SwapZooms(s, e);
    }
  }

  /**
   Focusing an agent's pane is all or nothing, and puts it on screen, unless it already had the
   focus of a window zoomed on another pane, as swapping a zoomed pane away leaves it.
   */
  lemma FocusedAgentIsRendered(s: Session, wid: WindowId, p: PaneId)
    ensures Edited(s, FocusAgentPane(wid, p)).Some? <==> wid in s.windows && p in s.windows[wid].panes
    ensures Edited(s, FocusAgentPane(wid, p)).Some? ==>
      var w := s.windows[wid];
      p in RenderedPanes(Edited(s, FocusAgentPane(wid, p)).value) <==> w.activePane != p || w.zoomed in [None, Some(p)]
  {
  }

  /** Swapping a zoomed pane with one of another window leaves a window showing a pane it no longer has. */
  lemma SwappedZoomShowsForeignPane(s: Session, e: Edit)
    requires WellFormed(s) && ZoomsFocus(s)
    requires e.SwapAcross? && Edited(s, e).Some? && s.windows[e.first].zoomed == Some(e.a)
    ensures var w := Edited(s, e).value.windows[e.first];
      WindowPanes(w) == [e.a] && e.a !in w.panes && w.activePane == e.b
  {
    ReplacedPanes(s.windows[e.first], e.a, e.b, e.a);
  }

  // ---------------------------------------------------------------- order and focus

  /** A split puts the new pane right behind the one that had the focus, leaves the others in order, and focuses it. */
  lemma SplitGoesBehindTheFocus(s: Session, p: PaneId)
    requires WellFormed(s)
    ensures var (w, t) := (s.windows[s.activeWindow], Edited(s, Split(p)).value);
      var v := t.windows[s.activeWindow];
      && t.activeWindow == s.activeWindow && v.activePane == p && (p != w.activePane ==> v.zoomed == None)
      && |v.panes| == |w.panes| + 1
      && (forall i :: 0 <= i < |w.panes| && w.panes[i] == w.activePane ==>
            && v.panes[i + 1] == p
            && (forall j :: 0 <= j <= i ==> v.panes[j] == w.panes[j])
            && (forall j :: i < j < |w.panes| ==> v.panes[j + 1] == w.panes[j]))
  {
    var w := s.windows[s.activeWindow];
    assert WindowOk(w);
    var at := Position(w.panes, w.activePane);
  }

  /**
   Breaking out takes the focused pane alone to the new window, which becomes active; the others stay
   in order, and the first of them has the focus. A window's only pane stays.
   */
  lemma BreakTakesTheFocused(s: Session, wid: WindowId)
    requires WellFormed(s) && wid !in s.windows
    ensures var w := s.windows[s.activeWindow];
      && (Edited(s, Break(wid)).Some? <==> |w.panes| > 1)
      && (|w.panes| > 1 ==>
            var t := Edited(s, Break(wid)).value;
            var v := t.windows[s.activeWindow];
            && t.activeWindow == wid && t.windows[wid] == Window([w.activePane], w.activePane, None)
            && v.zoomed == None && v.panes != [] && v.activePane == v.panes[0] && |v.panes| == |w.panes| - 1
            && (forall i :: 0 <= i < |w.panes| && w.panes[i] == w.activePane ==>
                  && (forall j :: 0 <= j < i ==> v.panes[j] == w.panes[j])
                  && (forall j :: i < j < |w.panes| ==> v.panes[j - 1] == w.panes[j])))
  {
    var w := s.windows[s.activeWindow];
    assert WindowOk(w);
    var at := Position(w.panes, w.activePane);
  }

  /** A swap exchanges the two panes place for place; the focus stays on the place, and windows are not switched. */
  lemma SwapExchangesPlaces(s: Session, e: Edit, u: WindowId, i: nat)
    requires WellFormed(s) && e.SwapAcross? && Edited(s, e).Some? && u in s.windows && i < |s.windows[u].panes|
    ensures var (w, t) := (s.windows[u], Edited(s, e).value);
      && t.activeWindow == s.activeWindow && |t.windows[u].panes| == |w.panes|
      && t.windows[u].panes[i] == Exchanged(e, w.panes[i])
      && t.windows[u].activePane == Exchanged(e, w.activePane) && t.windows[u].zoomed == w.zoomed
  {
    var (v, w) := (s.windows[e.first], s.windows[e.second]);
    assert WindowOk(v) && WindowOk(w);
    assert e.a !in w.panes && e.b !in v.panes;
    assert WindowOk(s.windows[u]) && s.windows[u].activePane in s.windows[u].panes;
    if u != e.first && u != e.second {
      assert e.a !in s.windows[u].panes && e.b !in s.windows[u].panes;
    }
  }

  function Exchanged(e: Edit, p: PaneId): PaneId
    requires e.SwapAcross?
  {
    if p == e.a then e.b else if p == e.b then e.a else p
  }

  /** Focusing moves the focus and nothing else, except that it ends the zoom of a window it moves in. */
  lemma FocusMovesOnlyItself(s: Session, e: Edit, u: WindowId)
    requires (e.FocusWindow? || e.FocusPane? || e.FocusAgentPane?) && Edited(s, e).Some? && u in s.windows
    ensures var t := Edited(s, e).value;
      && t.windows.Keys == s.windows.Keys && t.windows[u].panes == s.windows[u].panes
      && t.activeWindow == (if e.FocusPane? then s.activeWindow else e.window)
      && (e.FocusWindow? || u != t.activeWindow ==> t.windows[u] == s.windows[u])
      && (!e.FocusWindow? && u == t.activeWindow ==>
            && t.windows[u].activePane == e.pane
            && t.windows[u].zoomed == if e.pane == s.windows[u].activePane then s.windows[u].zoomed else None)
  {
  }

  /** A window with one pane does not zoom, and a zoomed one unzooms whatever it shows. */
  lemma ZoomNeedsCompany(s: Session)
    requires WellFormed(s)
    ensures var (w, t) := (s.windows[s.activeWindow], Edited(s, Zoom).value);
      t.windows[s.activeWindow].zoomed == if w.zoomed.None? && |w.panes| > 1 then Some(w.activePane) else None
  {
  }

  // ---------------------------------------------------------------- panes are conserved

  predicate Holds(s: Session, p: PaneId) { exists wid :: wid in s.windows && p in s.windows[wid].panes }

  /** Replacing one window by another with other panes: what the session then holds. */
  lemma OneWindowHolds(s: Session, wid: WindowId, w: Window, active: WindowId, p: PaneId)
    requires wid in s.windows
    ensures Holds(Session(s.windows[wid := w], active), p) <==>
            p in w.panes || exists v :: v in s.windows && v != wid && p in s.windows[v].panes
  {
    var t := Session(s.windows[wid := w], active);
    assert t.windows[wid] == w;
    if Holds(t, p) && p !in w.panes {
      var v :| v in t.windows && p in t.windows[v].panes;
      assert v in s.windows && v != wid && p in s.windows[v].panes;
    }
    if v :| v in s.windows && v != wid && p in s.windows[v].panes {
      assert t.windows[v] == s.windows[v];
    }
  }

  lemma SamePanesHold(s: Session, wid: WindowId, w: Window, active: WindowId, p: PaneId)
    requires wid in s.windows && w.panes == s.windows[wid].panes
    ensures Holds(Session(s.windows[wid := w], active), p) <==> Holds(s, p)
  {
    OneWindowHolds(s, wid, w, active, p);
  }

  lemma BreakHolds(s: Session, wid: WindowId, p: PaneId)
    requires WellFormed(s) && Edited(s, Break(wid)).Some?
    ensures Holds(Edited(s, Break(wid)).value, p) <==> Holds(s, p)
  {
    var win := s.windows[s.activeWindow];
    var t := Edited(s, Break(wid)).value;
    RemovedPanes(win, win.activePane, p);
    assert t.windows[wid] == LonePane(win.activePane) && t.windows[s.activeWindow] == RemovePane(win, win.activePane);
    if Holds(s, p) {
      var v :| v in s.windows && p in s.windows[v].panes;
      assert p in t.windows[if v != s.activeWindow then v else if p == win.activePane then wid else v].panes;
    }
    if Holds(t, p) {
      var v :| v in t.windows && p in t.windows[v].panes;
      assert p in s.windows[if v == wid then s.activeWindow else v].panes;
    }
  }

  lemma SwapHolds(s: Session, e: Edit, p: PaneId)
    requires WellFormed(s) && e.SwapAcross? && Edited(s, e).Some?
    ensures Holds(Edited(s, e).value, p) <==> Holds(s, p)
  {
    hide ReplacePane, NoDuplicates;
    var SwapAcross(first, a, second, b) := e;
    var t := Edited(s, e).value;
    ReplacedPanes(s.windows[first], a, b, p);
    ReplacedPanes(s.windows[second], b, a, p);
    assert t.windows[first] == ReplacePane(s.windows[first], a, b)
      && t.windows[second] == ReplacePane(s.windows[second], b, a);
    if Holds(s, p) {
      var v :| v in s.windows && p in s.windows[v].panes;
      assert p in t.windows[if p == a then second else if p == b then first else v].panes;
    }
    if Holds(t, p) {
      var v :| v in t.windows && p in t.windows[v].panes;
      assert p in s.windows[if p == a then first else if p == b then second else v].panes;
    }
  }

  /** No edit loses a pane, and none but a split adds one. */
  lemma PanesAreConserved(s: Session, e: Edit, p: PaneId)
    requires WellFormed(s) && IsNew(s, e) && Edited(s, e).Some?
    ensures Holds(Edited(s, e).value, p) <==> Holds(s, p) || e == Split(p)
  {
    var active := s.windows[s.activeWindow];
    match e
    case FocusWindow(wid) =>
      assert s.windows[wid := s.windows[wid]] == s.windows;
      SamePanesHold(s, wid, s.windows[wid], wid, p);
    case FocusPane(q) => SamePanesHold(s, s.activeWindow, SetActivePane(active, q), s.activeWindow, p);
    case FocusAgentPane(wid, q) => SamePanesHold(s, wid, SetActivePane(s.windows[wid], q), wid, p);
    case Zoom => SamePanesHold(s, s.activeWindow, ToggleZoom(active), s.activeWindow, p);
    case Split(q) =>
      assert !WindowHas(active, q);
      SplitPanes(active, q, p);
      OneWindowHolds(s, s.activeWindow, SplitWindow(active, q), s.activeWindow, p);
      OneWindowHolds(s, s.activeWindow, active, s.activeWindow, p);
      assert s.windows[s.activeWindow := active] == s.windows;
    case Break(wid) => BreakHolds(s, wid, p);
    case SwapAcross(_, _, _, _) => SwapHolds(s, e, p);
  }

  /** Zooming shows the focused pane alone, and zooming again shows all panes as before. */
  lemma ZoomTwiceRestores(s: Session)
    requires WellFormed(s) && s.windows[s.activeWindow].zoomed.None? && |s.windows[s.activeWindow].panes| > 1
    ensures var once := Edited(s, Zoom).value;
            RenderedPanes(once) == [s.windows[s.activeWindow].activePane] && Edited(once, Zoom) == Some(s)
  {
    var win := s.windows[s.activeWindow];
    assert ToggleZoom(ToggleZoom(win)) == win;
    assert s.windows[s.activeWindow := ToggleZoom(win)][s.activeWindow := win] == s.windows;
  }

  // ---------------------------------------------------------------- a session that gets there

  function EditedAll(s: Session, edits: seq<Edit>): Option<Session>
    decreases |edits|
  {
    if edits == [] then Some(s)
    else match Edited(s, edits[0]) case Some(t) => EditedAll(t, edits[1..]) case None => None
  }

  /** Two panes in a first window, two in a second, zoomed: the session before the swap. */
  function ZoomedBesideAnother(): Session
  {
    Session(map[0 := LonePane(1), 1 := Window([2, 3], 3, Some(3))], 1)
  }

  const OPENING: seq<Edit> := [Split(2), Break(1), Split(3), Zoom]
  const TAKE_AWAY: Edit := SwapAcross(1, 3, 0, 1)

  lemma SplitLast(w: Window, pane: PaneId)
    requires WindowOk(w) && pane !in w.panes && w.panes[|w.panes| - 1] == w.activePane
    ensures SplitWindow(w, pane) == Window(w.panes + [pane], pane, None)
  {
    var at := Position(w.panes, w.activePane);
    assert at == |w.panes| - 1;
    assert w.panes[..at + 1] + [pane] + w.panes[at + 1..] == w.panes + [pane];
  }

  /** The sessions on the way there. */
  function Opening(i: nat): Session
  {
    if i == 0 then Session(map[0 := LonePane(1)], 0)
    else if i == 1 then Session(map[0 := Window([1, 2], 2, None)], 0)
    else if i == 2 then Session(map[0 := LonePane(1), 1 := LonePane(2)], 1)
    else Session(map[0 := LonePane(1), 1 := Window([2, 3], 3, None)], 1)
  }

  lemma OpeningSplits()
    ensures Edited(Opening(0), Split(2)) == Some(Opening(1)) && Edited(Opening(2), Split(3)) == Some(Opening(3))
  {
    hide SplitWindow;
    SplitLast(LonePane(1), 2);
    SplitLast(LonePane(2), 3);
    assert [1] + [2] == [1, 2] && [2] + [3] == [2, 3];
    assert Edited(Opening(0), Split(2)).value.windows == Opening(1).windows;
    assert Edited(Opening(2), Split(3)).value.windows == Opening(3).windows;
  }

  lemma OpeningBreaks()
    ensures Edited(Opening(1), Break(1)) == Some(Opening(2))
  {
    var s := Opening(1);
    assert RemovePane(s.windows[0], 2) == LonePane(1) by { assert Position([1, 2], 2) == 1; }
    assert Edited(s, Break(1)).value.windows == Opening(2).windows;
  }

  lemma OpeningZooms()
    ensures Edited(Opening(3), Zoom) == Some(ZoomedBesideAnother())
  {
    assert Edited(Opening(3), Zoom).value.windows == ZoomedBesideAnother().windows;
  }

  lemma OpeningLeads()
    ensures EditedAll(Session(map[0 := LonePane(1)], 0), OPENING) == Some(ZoomedBesideAnother())
  {
    hide Edited, EditedAll;
    OpeningSplits();
    OpeningBreaks();
    OpeningZooms();
    FourEdits(Opening(0), OPENING, Opening(1), Opening(2), Opening(3));
  }

  lemma FourEdits(s: Session, edits: seq<Edit>, s1: Session, s2: Session, s3: Session)
    requires |edits| == 4 && Edited(s, edits[0]) == Some(s1)
    requires Edited(s1, edits[1]) == Some(s2) && Edited(s2, edits[2]) == Some(s3) && Edited(s3, edits[3]).Some?
    ensures EditedAll(s, edits) == Edited(s3, edits[3])
  {
    hide Edited;
    var rest := edits[1..][1..][1..];
    assert rest[0] == edits[3] && rest[1..] == [];
    assert EditedAll(s3, rest) == Edited(s3, edits[3]);
    assert EditedAll(s2, edits[1..][1..]) == EditedAll(s3, rest);
  }

  lemma BesideAnotherIsWellFormed()
    ensures WellFormed(ZoomedBesideAnother()) && ZoomsFocus(ZoomedBesideAnother())
  {
    assert WindowOk(LonePane(1)) by { assert [1][0] == 1; }
    assert WindowOk(Window([2, 3], 3, Some(3))) by { assert [2, 3][1] == 3; }
  }

  /** What the swap leaves behind. */
  function ZoomTakenAway(): Session
  {
    Session(map[0 := LonePane(3), 1 := Window([2, 1], 1, Some(3))], 1)
  }

  lemma TakeAwayLeads()
    ensures Edited(ZoomedBesideAnother(), TAKE_AWAY) == Some(ZoomTakenAway())
  {
    var s := ZoomedBesideAnother();
    assert s.windows[1].panes[1] == 3 && s.windows[0].panes[0] == 1;
    assert ReplacePane(s.windows[1], 3, 1) == Window([2, 1], 1, Some(3)) by { assert Position([2, 3], 3) == 1; }
    assert ReplacePane(s.windows[0], 1, 3) == LonePane(3);
    assert Edited(s, TAKE_AWAY).value.windows == ZoomTakenAway().windows;
  }

  /**
   From one pane, four edits and a swap lead to a window zoomed on a pane that is elsewhere, where
   focusing the agent in the focused pane is accepted and leaves it off screen.
   */
  lemma SwapTakesZoomAway()
    ensures var s := EditedAll(Session(map[0 := LonePane(1)], 0), OPENING);
      && s.Some? && WellFormed(s.value) && ZoomsFocus(s.value) && SwapsZoomed(s.value, TAKE_AWAY)
      && Edited(s.value, TAKE_AWAY) == Some(ZoomTakenAway())
    ensures !ZoomsFocus(ZoomTakenAway())
    ensures var t := Edited(ZoomTakenAway(), FocusAgentPane(1, 1)); t.Some? && 1 !in RenderedPanes(t.value)
  {
    hide Edited, EditedAll;
    OpeningLeads();
    TakeAwayLeads();
    BesideAnotherIsWellFormed();
    var t := ZoomTakenAway();
    assert t.windows[1].panes[1] == 1 && !ZoomOk(t.windows[1]);
    FocusedAgentIsRendered(t, 1, 1);
  }
}
