/**
 The sessions/agents sidebar: one projection is both painted and hit-tested, and the scroll
 offsets that produced it are clamped against the lists it shows.
 */
module Sidebar {
  import opened Common

  type ClientId = nat
  type SessionId = nat
  type WindowId = nat

  datatype SectionKind = Sessions | Agents

  datatype Scroll = Scroll(sessions: nat, agents: nat) {
    function With(kind: SectionKind, offset: nat): Scroll
    {
      if kind.Sessions? then this.(sessions := offset) else this.(agents := offset)
    }
  }

  datatype SessionEntry = SessionEntry(sid: SessionId, name: string)
  datatype AgentEntry = AgentEntry(sid: SessionId, wid: WindowId, pid: PaneId)

  /** Geometry, content and clamped offset of one section. Its first row is the header. */
  datatype Section<T> = Section(startRow: nat, height: nat, offset: nat, items: seq<T>) {
    function Capacity(): nat { SatSub(height, 1) }

    function MaxOffset(): nat { SatSub(|items|, Capacity()) }

    ghost predicate Valid() { offset <= MaxOffset() }

    predicate Covers(row: nat) { startRow <= row < startRow + height }

    function ScrolledOffset(up: bool, step: nat): nat
    {
      if up then SatSub(offset, step) else Min(offset + step, MaxOffset())
    }

    function OffsetRevealing(index: nat): Option<nat>
    {
      if Capacity() == 0 || index >= |items| then None else
      var next := if index < offset then index
                  else if index >= offset + Capacity() then SatSub(index + 1, Capacity())
                  else offset;
      Some(Min(next, MaxOffset()))
    }

    /** The item at `index` is on screen when the section is scrolled to `at`. */
    predicate Shows(at: nat, index: nat) { at <= index < at + Capacity() }

    /** The body rows, top to bottom, with what each shows. */
    function VisibleItems(): seq<(nat, T)>
    {
      var from := Min(offset, |items|);
      var shown := items[from..Min(from + Capacity(), |items|)];
      seq(|shown|, i requires 0 <= i < |shown| => (startRow + 1 + i, shown[i]))
    }

    function ItemAt(row: nat): Option<T>
    {
      if !Covers(row) || row == startRow then None else
      var visible := SatSub(row, startRow + 1);
      if visible >= Capacity() || offset + visible >= |items| then None else Some(items[offset + visible])
    }
  }

  function NewSection<T>(startRow: nat, height: nat, requested: nat, items: seq<T>): Section<T>
  {
    Section(startRow, height, Min(requested, SatSub(|items|, SatSub(height, 1))), items)
  }

  /** Scrolling stays in bounds, moves at most `step`, and moves the right way. */
  lemma ScrollingStaysInBounds<T>(s: Section<T>, up: bool, step: nat)
    requires s.Valid()
    ensures var next := s.ScrolledOffset(up, step);
            && next <= s.MaxOffset()
            && AbsDiff(next, s.offset) <= step
            && (if up then next <= s.offset else next >= s.offset)
            && (AbsDiff(next, s.offset) < step ==> next == if up then 0 else s.MaxOffset())
  {
  }

  /**
   Revealing an item: no offset exists exactly when nothing can show it; otherwise the offset is
   in bounds, shows the item, and no other offset that shows it is a smaller move.
   */
  lemma RevealingMovesLeast<T>(s: Section<T>, index: nat)
    requires s.Valid()
    ensures s.OffsetRevealing(index).None? <==> index >= |s.items| || forall o: nat :: !s.Shows(o, index)
    ensures s.OffsetRevealing(index).Some? ==>
              var next := s.OffsetRevealing(index).value;
              && next <= s.MaxOffset()
              && s.Shows(next, index)
              && forall o: nat :: s.Shows(o, index) ==> AbsDiff(next, s.offset) <= AbsDiff(o, s.offset)
  {
    if s.Capacity() > 0 {
      assert s.Shows(index, index);
    }
  }

  datatype Row = Header(kind: SectionKind) | SessionRow(session: SessionEntry) | AgentRow(agent: AgentEntry)

  /** The whole sidebar for one client, one content height and one pair of requested offsets. */
  datatype Projection = Projection(sessions: Section<SessionEntry>, agents: Section<AgentEntry>) {
    function SectionAt(row: nat): Option<SectionKind>
    {
      if sessions.Covers(row) then Some(Sessions) else if agents.Covers(row) then Some(Agents) else None
    }

    function CurrentOffset(kind: SectionKind): nat { if kind.Sessions? then sessions.offset else agents.offset }

    function ScrolledOffset(kind: SectionKind, up: bool, step: nat): nat
    {
      if kind.Sessions? then sessions.ScrolledOffset(up, step) else agents.ScrolledOffset(up, step)
    }

    /** What is painted: each row with its screen position, top to bottom. */
    function Rows(): seq<(nat, Row)>
    {
      (if sessions.height > 0 then
         [(sessions.startRow, Header(Sessions))] + MapRows(sessions.VisibleItems(), e => SessionRow(e))
       else []) +
      (if agents.height > 0 then
         [(agents.startRow, Header(Agents))] + MapRows(agents.VisibleItems(), e => AgentRow(e))
       else [])
    }

    /** What a hit at a screen row finds. */
    function RowAt(row: nat): Option<Row>
    {
      match SectionAt(row)
      case None => None
      case Some(Sessions) =>
        if row == sessions.startRow then Some(Header(Sessions)) else
        var item := sessions.ItemAt(row);
        if item.Some? then Some(SessionRow(item.value)) else None
      case Some(Agents) =>
        if row == agents.startRow then Some(Header(Agents)) else
        var item := agents.ItemAt(row);
        if item.Some? then Some(AgentRow(item.value)) else None
    }

    function NormalizedScroll(): Scroll { Scroll(sessions.offset, agents.offset) }
  }

  function MapRows<T>(items: seq<(nat, T)>, f: T -> Row): seq<(nat, Row)>
  {
    seq(|items|, i requires 0 <= i < |items| => (items[i].0, f(items[i].1)))
  }

  /** Sessions get the upper half, and the odd row. */
  function Project(contentHeight: nat, scroll: Scroll, sessions: seq<SessionEntry>, agents: seq<AgentEntry>): Projection
  {
    var agentsStart := (contentHeight + 1) / 2;
    Projection(NewSection(0, agentsStart, scroll.sessions, sessions),
               NewSection(agentsStart, SatSub(contentHeight, agentsStart), scroll.agents, agents))
  }

  lemma VisibleAt<T>(s: Section<T>)
    requires s.Valid()
    ensures s.offset <= |s.items| && |s.VisibleItems()| == Min(s.Capacity(), |s.items| - s.offset)
    ensures forall i :: 0 <= i < |s.VisibleItems()| ==>
      s.VisibleItems()[i] == (s.startRow + 1 + i, s.items[s.offset + i])
  {
  }

  /** One section's body: the painted rows are exactly the rows a hit finds, each with its item. */
  lemma SectionRowsAgree<T>(s: Section<T>, y: nat, item: T)
    requires s.Valid()
    ensures (y, item) in s.VisibleItems() <==> s.ItemAt(y) == Some(item)
    ensures (y, item) in s.VisibleItems() ==> s.Covers(y) && y != s.startRow
  {
    VisibleAt(s);
    var rows := s.VisibleItems();
    if (y, item) in rows {
      var i :| 0 <= i < |rows| && rows[i] == (y, item);
      assert s.items[s.offset + i] == item;
    }
    if s.ItemAt(y) == Some(item) {
      var i := y - s.startRow - 1;
      assert 0 <= i < |rows| && rows[i] == (s.startRow + 1 + i, s.items[s.offset + i]);
    }
  }

  lemma MapRowsMembers<T>(items: seq<(nat, T)>, f: T -> Row, y: nat, row: Row)
    ensures (y, row) in MapRows(items, f) <==> exists t :: (y, t) in items && f(t) == row
  {
    var rows := MapRows(items, f);
    if (y, row) in rows {
      var i :| 0 <= i < |rows| && rows[i] == (y, row);
      assert items[i] == (y, items[i].1) && f(items[i].1) == row;
    }
    if t :| (y, t) in items && f(t) == row {
      var i :| 0 <= i < |items| && items[i] == (y, t);
      assert rows[i] == (y, row);
    }
  }

  /** Painting and hit-testing agree, for every height, every list and every requested offset. */
  lemma RowsAgree(
    contentHeight: nat, scroll: Scroll, sessions: seq<SessionEntry>, agents: seq<AgentEntry>, y: nat, row: Row)
    ensures var p := Project(contentHeight, scroll, sessions, agents);
            && (p.RowAt(y) == Some(row) <==> (y, row) in p.Rows())
            && (p.RowAt(y).Some? ==> y < contentHeight)
            && p.sessions.Valid() && p.agents.Valid()
  {
    var p := Project(contentHeight, scroll, sessions, agents);
    var upper := MapRows(p.sessions.VisibleItems(), e => SessionRow(e));
    var lower := MapRows(p.agents.VisibleItems(), e => AgentRow(e));
    MapRowsMembers(p.sessions.VisibleItems(), e => SessionRow(e), y, row);
    MapRowsMembers(p.agents.VisibleItems(), e => AgentRow(e), y, row);
    assert (y, row) in p.Rows() <==>
      || (p.sessions.height > 0 && ((y, row) == (p.sessions.startRow, Header(Sessions)) || (y, row) in upper))
      || (p.agents.height > 0 && ((y, row) == (p.agents.startRow, Header(Agents)) || (y, row) in lower));
    if row.SessionRow? {
      SectionRowsAgree(p.sessions, y, row.session);
    }
    if row.AgentRow? {
      SectionRowsAgree(p.agents, y, row.agent);
    }
  }

  /** The first item shown of `n`, with room for so many: as asked for, but never past the last full view. */
  function FirstShown(requested: nat, n: nat, room: nat): nat { if n <= room then 0 else Min(requested, n - room) }

  /**
   What each row shows: the sessions header on top, the agents header half way down, the odd row
   going to the sessions; under each header its items in order, from the first shown on.
   */
  lemma WhatEachRowShows(
    contentHeight: nat, scroll: Scroll, sessions: seq<SessionEntry>, agents: seq<AgentEntry>, y: nat)
    ensures var row := Project(contentHeight, scroll, sessions, agents).RowAt(y);
      var half := contentHeight - contentHeight / 2;
      if y >= contentHeight then row == None
      else if y == 0 then row == Some(Header(Sessions))
      else if y == half then row == Some(Header(Agents))
      else if y < half then
        var i := FirstShown(scroll.sessions, |sessions|, half - 1) + y - 1;
        row == if i < |sessions| then Some(SessionRow(sessions[i])) else None
      else
        var i := FirstShown(scroll.agents, |agents|, contentHeight - half - 1) + y - half - 1;
        row == if i < |agents| then Some(AgentRow(agents[i])) else None
  {
  }

  /** Normalising the requested offsets changes neither the projection nor, again, the offsets. */
  lemma NormalisingIsIdempotent(
    contentHeight: nat, scroll: Scroll, sessions: seq<SessionEntry>, agents: seq<AgentEntry>)
    ensures var p := Project(contentHeight, scroll, sessions, agents);
            Project(contentHeight, p.NormalizedScroll(), sessions, agents) == p
  {
  }

  // ---------------------------------------------------------------- the captured frame

  datatype Pick = PickSession(session: SessionId) | PickAgent(session: SessionId, window: WindowId, pane: PaneId)

  function PickOf(row: Option<Row>): Option<Pick>
  {
    match row
    case Some(SessionRow(e)) => Some(PickSession(e.sid))
    case Some(AgentRow(e)) => Some(PickAgent(e.sid, e.wid, e.pid))
    case _ => None
  }

  datatype Click = Toggle(collapsed: bool) | NewSession | Picked(pick: Pick) | Chrome

  const NEW_SESSION_BUTTON_SPAN: nat := 3

  datatype Frame = Frame(
    width: nat, contentHeight: nat, collapsed: bool, picks: seq<Option<Pick>>, sections: seq<Option<SectionKind>>) {
    predicate Covers(col: nat, row: nat) { col < width && row < contentHeight }

    function ClickAt(col: nat, row: nat): Option<Click>
    {
      if !Covers(col, row) then None
      else if collapsed || width == 1 then Some(Toggle(false))
      else
        var textWidth := SatSub(width, 1);
        if row == 0 && textWidth >= 1 && col == textWidth - 1 then Some(Toggle(true))
        else if row == 0 && textWidth >= NEW_SESSION_BUTTON_SPAN && col == textWidth - 3 then Some(NewSession)
        else if row < |picks| && picks[row].Some? then Some(Picked(picks[row].value))
        else Some(Chrome)
    }

    function SectionAt(col: nat, row: nat): Option<SectionKind>
    {
      if !Covers(col, row) || collapsed || row >= |sections| then None else sections[row]
    }
  }

  /** Capture the interaction map of one composed frame: row by row, what the projection shows. */
  method Capture(width: nat, contentHeight: nat, collapsed: bool, p: Projection) returns (f: Frame)
    ensures f.width == width && f.contentHeight == contentHeight && f.collapsed == collapsed
    ensures |f.picks| == contentHeight && |f.sections| == contentHeight
    ensures forall y :: 0 <= y < contentHeight ==> f.picks[y] == PickOf(p.RowAt(y)) && f.sections[y] == p.SectionAt(y)
  {
    var picks := seq(contentHeight, _ => None);
    var sections := seq(contentHeight, _ => None);
    for row := 0 to contentHeight
      invariant |picks| == contentHeight && |sections| == contentHeight
      invariant forall y :: 0 <= y < row ==> picks[y] == PickOf(p.RowAt(y)) && sections[y] == p.SectionAt(y)
    {
      sections := sections[row := p.SectionAt(row)];
      picks := picks[row := PickOf(p.RowAt(row))];
    }
    f := Frame(width, contentHeight, collapsed, picks, sections);
  }

  /**
   A click on a captured frame picks an entry if and only if that entry was painted on the clicked
   row of an expanded sidebar: the two buttons sit on the header row, which picks nothing.
   */
  lemma FramePicksWhatIsPainted(
    f: Frame, scroll: Scroll, sessions: seq<SessionEntry>, agents: seq<AgentEntry>, col: nat, row: nat, pick: Pick)
    requires var p := Project(f.contentHeight, scroll, sessions, agents);
             && |f.picks| == f.contentHeight
             && forall y :: 0 <= y < f.contentHeight ==> f.picks[y] == PickOf(p.RowAt(y))
    ensures f.ClickAt(col, row) == Some(Picked(pick)) <==>
              && f.Covers(col, row) && !f.collapsed && f.width > 1
              && exists r ::
                   && (row, r) in Project(f.contentHeight, scroll, sessions, agents).Rows()
                   && PickOf(Some(r)) == Some(pick)
  {
    var p := Project(f.contentHeight, scroll, sessions, agents);
    if f.Covers(col, row) {
      if p.RowAt(row).Some? {
        RowsAgree(f.contentHeight, scroll, sessions, agents, row, p.RowAt(row).value);
      }
      forall r ensures (row, r) in p.Rows() <==> p.RowAt(row) == Some(r) {
        RowsAgree(f.contentHeight, scroll, sessions, agents, row, r);
      }
    }
  }

  /** The marks painted on the top row: the button that expands a rail, and the two that end the header bar. */
  datatype Mark = ExpandMark | NewSessionMark | CollapseMark

  function MarkAt(width: nat, collapsed: bool, col: nat): Option<Mark>
  {
    if collapsed || width == 1 then if width > 0 && col == 0 then Some(ExpandMark) else None
    else
      var textWidth := SatSub(width, 1);
      if textWidth >= 1 && col == textWidth - 1 then Some(CollapseMark)
      else if textWidth >= NEW_SESSION_BUTTON_SPAN && col + 3 == textWidth then Some(NewSessionMark)
      else None
  }

  /**
   Buttons do what they show: on an expanded sidebar a click collapses it, or opens a session, if and
   only if that mark is painted under it; a rail, with its one mark, expands wherever it is clicked;
   and a click beside the sidebar or below it is none of its business.
   */
  lemma ButtonsDoWhatTheyShow(f: Frame, col: nat, row: nat)
    ensures var (click, inside) := (f.ClickAt(col, row), col < f.width && row < f.contentHeight);
      && (click.Some? <==> inside)
      && (click == Some(Toggle(true)) <==>
            inside && row == 0 && MarkAt(f.width, f.collapsed, col) == Some(CollapseMark))
      && (click == Some(NewSession) <==>
            inside && row == 0 && MarkAt(f.width, f.collapsed, col) == Some(NewSessionMark))
      && (click == Some(Toggle(false)) <==> inside && MarkAt(f.width, f.collapsed, 0) == Some(ExpandMark))
  {
  }

  /** The wheel scrolls the list it is over: the sessions above the agents header, the agents from it on. */
  lemma WheelFindsItsList(
    f: Frame, scroll: Scroll, sessions: seq<SessionEntry>, agents: seq<AgentEntry>, col: nat, row: nat)
    requires |f.sections| == f.contentHeight
    requires var p := Project(f.contentHeight, scroll, sessions, agents);
             forall y :: 0 <= y < f.contentHeight ==> f.sections[y] == p.SectionAt(y)
    ensures var half := f.contentHeight - f.contentHeight / 2;
      f.SectionAt(col, row) ==
        if f.collapsed || col >= f.width || row >= f.contentHeight then None
        else if row < half then Some(Sessions) else Some(Agents)
  {
  }

  // ---------------------------------------------------------------- scroll state

  const STEP: nat := 3

  /** The index of the first entry for `sid`. */
  function IndexOf(entries: seq<SessionEntry>, sid: SessionId): (r: Option<nat>)
    ensures r.Some? ==> r.value < |entries| && entries[r.value].sid == sid
    ensures r.None? ==> forall i :: 0 <= i < |entries| ==> entries[i].sid != sid
  {
    if entries == [] then None
    else if entries[0].sid == sid then Some(0)
    else
      var rest := IndexOf(entries[1..], sid);
      if rest.Some? then Some(rest.value + 1) else None
  }

  /** Per-client scroll offsets, created lazily. */
  class ScrollState {
    var offsets: map<ClientId, Scroll>

    constructor ()
      ensures offsets == map[] && forall client :: Current(client) == Scroll(0, 0)
    {
      offsets := map[];
    }

    function Current(client: ClientId): Scroll
      reads this
    {
      if client in offsets then offsets[client] else Scroll(0, 0)
    }

    /** Scroll one section by the wheel step; true exactly when what is shown moves. */
    method ScrollSection(
      client: ClientId, kind: SectionKind, height: nat, up: bool, sessions: seq<SessionEntry>, agents: seq<AgentEntry>)
      returns (moved: bool)
      modifies this
      ensures var p := Project(SatSub(height, 1), old(Current(client)), sessions, agents);
              var q := Project(SatSub(height, 1), Current(client), sessions, agents);
              && q.sessions.offset == (if kind.Sessions? then p.sessions.ScrolledOffset(up, 3) else p.sessions.offset)
              && q.agents.offset == (if kind.Agents? then p.agents.ScrolledOffset(up, 3) else p.agents.offset)
              && moved == (q.sessions.offset != p.sessions.offset || q.agents.offset != p.agents.offset)
      ensures forall c ::
        c != client ==> (c in offsets <==> c in old(offsets)) && (c in offsets ==> offsets[c] == old(offsets)[c])
      ensures !moved ==> offsets == old(offsets)
    {
      var projection := Project(SatSub(height, 1), Current(client), sessions, agents);
      var current := projection.CurrentOffset(kind);
      var next := projection.ScrolledOffset(kind, up, STEP);
      if next == current {
        return false;
      }
      offsets := offsets[client := Current(client).With(kind, next)];
      return true;
    }

    /** Bring a session's row into view: afterwards it is shown, unless the section has no room for it. */
    method EnsureSessionVisible(
      client: ClientId, sid: SessionId, height: nat, sessions: seq<SessionEntry>, agents: seq<AgentEntry>)
      returns (moved: bool)
      modifies this
      ensures var q := Project(SatSub(height, 1), Current(client), sessions, agents);
              forall i :: IndexOf(sessions, sid) == Some(i) && q.sessions.Capacity() > 0
                ==> q.sessions.Shows(q.sessions.offset, i)
      ensures Current(client).agents == old(Current(client)).agents
      ensures forall c ::
        c != client ==> (c in offsets <==> c in old(offsets)) && (c in offsets ==> offsets[c] == old(offsets)[c])
      ensures !moved ==> offsets == old(offsets)
    {
      var projection := Project(SatSub(height, 1), Current(client), sessions, agents);
      var current := projection.CurrentOffset(Sessions);
      var index := IndexOf(sessions, sid);
      if index.None? {
        return false;
      }
      RevealingMovesLeast(projection.sessions, index.value);
      var next := projection.sessions.OffsetRevealing(index.value);
      if next.None? || next.value == current {
        return false;
      }
      offsets := offsets[client := Current(client).With(Sessions, next.value)];
      return true;
    }

    /** Store the clamped offsets; afterwards storing them again does nothing. */
    method Normalize(client: ClientId, height: nat, sessions: seq<SessionEntry>, agents: seq<AgentEntry>)
      modifies this
      ensures Current(client) == Project(SatSub(height, 1), old(Current(client)), sessions, agents).NormalizedScroll()
      ensures Current(client) == Project(SatSub(height, 1), Current(client), sessions, agents).NormalizedScroll()
      ensures forall c ::
        c != client ==> (c in offsets <==> c in old(offsets)) && (c in offsets ==> offsets[c] == old(offsets)[c])
    {
      var requested := Current(client);
      var normalized := Project(SatSub(height, 1), requested, sessions, agents).NormalizedScroll();
      if requested != normalized {
        offsets := offsets[client := normalized];
      }
    }
  }
}
