/**
 Copy mode over a pane's history: searching, moving by words, keeping the cursor in view, and
 selecting text. The buffer is a list of rows, one character per cell.
 */
module CopyMode {
  import opened Common

  type Grid = seq<string>

  datatype Pos = Pos(row: nat, col: nat)

  datatype SearchDir = Backward | Forward

  /** Reading order: by row, then by column. */
  predicate Before(p: Pos, q: Pos) { p.row < q.row || (p.row == q.row && p.col < q.col) }

  /** A row without its trailing blanks; beyond the buffer there is nothing. */
  function RowChars(grid: Grid, row: nat): string { if row < |grid| then TrimEnd(grid[row]) else "" }

  // ---------------------------------------------------------------- nearest positions

  /** The first position after `from` that has the property. */
  ghost predicate IsNext(at: Pos -> bool, from: Pos, r: Pos)
  {
    at(r) && Before(from, r) && forall q :: at(q) && Before(from, q) ==> !Before(q, r)
  }

  /** The last position before `from` that has the property. */
  ghost predicate IsPrevious(at: Pos -> bool, from: Pos, r: Pos)
  {
    at(r) && Before(r, from) && forall q :: at(q) && Before(q, from) ==> !Before(r, q)
  }

  ghost predicate NoneAfter(at: Pos -> bool, from: Pos) { forall q :: at(q) ==> !Before(from, q) }

  ghost predicate NoneBefore(at: Pos -> bool, from: Pos) { forall q :: at(q) ==> !Before(q, from) }

  // ---------------------------------------------------------------- search

  /** `needle` stands in `hay` at column `i`. */
  predicate StandsAt(hay: string, needle: string, i: nat)
  {
    needle != [] && i + |needle| <= |hay| && hay[i..i + |needle|] == needle
  }

  /** The first column from `start` on where `needle` stands. */
  function FindInRow(hay: string, needle: string, start: nat): (r: Option<nat>)
    ensures r.Some? ==>
      && start <= r.value && StandsAt(hay, needle, r.value)
      && forall i :: start <= i < r.value ==> !StandsAt(hay, needle, i)
    ensures r.None? ==> forall i :: start <= i ==> !StandsAt(hay, needle, i)
    decreases |hay| - start
  {
    if needle == [] || start + |needle| > |hay| then None
    else if StandsAt(hay, needle, start) then Some(start)
    else FindInRow(hay, needle, start + 1)
  }

  /** The last column before `limit` where `needle` stands. */
  function FindInRowRev(hay: string, needle: string, limit: nat): (r: Option<nat>)
    ensures r.Some? ==>
      && r.value < limit && StandsAt(hay, needle, r.value)
      && forall i :: r.value < i < limit ==> !StandsAt(hay, needle, i)
    ensures r.None? ==> forall i :: 0 <= i < limit ==> !StandsAt(hay, needle, i)
  {
    if limit == 0 then None
    else if StandsAt(hay, needle, limit - 1) then Some(limit - 1)
    else FindInRowRev(hay, needle, limit - 1)
  }

  predicate MatchAt(grid: Grid, query: string, p: Pos) { StandsAt(RowChars(grid, p.row), query, p.col) }

  function Matches(grid: Grid, query: string): Pos -> bool
  {
    (p: Pos) => MatchAt(grid, query, p)
  }

  /**
   A match is the query standing in the row, character for character, and ending no later than the
   row's last character that is not blank.
   */
  lemma MatchesStopAtTrailingBlanks(grid: Grid, query: string, p: Pos)
    ensures MatchAt(grid, query, p) <==>
      && p.row < |grid| && query != [] && p.col + |query| <= |grid[p.row]|
      && (forall k :: 0 <= k < |query| ==> grid[p.row][p.col + k] == query[k])
      && exists c: nat :: p.col + |query| - 1 <= c < |grid[p.row]| && !IsWhitespace(grid[p.row][c])
  {
    hide TrimEnd;
    if p.row < |grid| && p.col + |query| <= |grid[p.row]| {
      var there := grid[p.row][p.col..p.col + |query|];
      assert forall k :: 0 <= k < |query| ==> there[k] == grid[p.row][p.col + k];
    }
    if p.row < |grid| {
      var (text, kept) := (grid[p.row], RowChars(grid, p.row));
      var end := p.col + |query|;
      if end <= |kept| { assert kept[p.col..end] == text[p.col..end]; }
      if query != [] && end <= |kept| { assert !IsWhitespace(text[|kept| - 1]); }
    }
  }

  /** What a search from a position finds. Searching back from below the buffer finds nothing at all. */
  ghost predicate Finds(grid: Grid, query: string, dir: SearchDir, from: Pos, r: Option<Pos>)
  {
    var at := Matches(grid, query);
    match (dir, r)
    case (Forward, Some(p)) => IsNext(at, from, p)
    case (Forward, None) => NoneAfter(at, from)
    case (Backward, Some(p)) => from.row < |grid| && IsPrevious(at, from, p)
    case (Backward, None) => from.row < |grid| ==> NoneBefore(at, from)
  }

  method Find(query: string, dir: SearchDir, from: Pos, grid: Grid) returns (r: Option<Pos>)
    ensures Finds(grid, query, dir, from, r)
  {
    hide TrimEnd;
    var at := Matches(grid, query);
    if dir == Forward {
      var row := from.row;
      while row < |grid|
        invariant from.row <= row
        invariant forall q: Pos :: at(q) && Before(from, q) ==> q.row >= row
      {
        var start := if row == from.row then from.col + 1 else 0;
        var col := FindInRow(RowChars(grid, row), query, start);
        if col.Some? {
          return Some(Pos(row, col.value));
        }
        row := row + 1;
      }
      return None;
    }
    var row: int := from.row;
    while row >= 0
      invariant -1 <= row <= from.row
      invariant from.row < |grid| ==> forall q: Pos :: at(q) && Before(q, from) ==> q.row <= row
      invariant row < from.row ==> from.row < |grid|
    {
      if row >= |grid| {
        return None;
      }
      var hay := RowChars(grid, row);
      var limit := if row == from.row then from.col else |hay| + 1;
      var col := FindInRowRev(hay, query, limit);
      if col.Some? {
        return Some(Pos(row, col.value));
      }
      row := row - 1;
    }
    return None;
  }

  function Opposite(dir: SearchDir): SearchDir { if dir == Forward then Backward else Forward }

  lemma MatchIsInside(grid: Grid, query: string, p: Pos)
    requires MatchAt(grid, query, p)
    ensures p.row < |grid|
  {
  }

  /** From a cursor on a match, `n` that moves followed by `N` comes back to it, in either direction. */
  lemma RepeatAndReverseReturns(grid: Grid, query: string, dir: SearchDir, from: Pos, there: Pos, back: Option<Pos>)
    requires MatchAt(grid, query, from)
    requires Finds(grid, query, dir, from, Some(there)) && Finds(grid, query, Opposite(dir), there, back)
    ensures back == Some(from)
  {
    hide MatchAt;
    var at := Matches(grid, query);
    assert at(from) && at(there);
    MatchIsInside(grid, query, from);
    MatchIsInside(grid, query, there);
  }

  /** Below the buffer a backward search fails, whatever the buffer holds. */
  lemma BackwardFailsBelow(grid: Grid, query: string, from: Pos, r: Option<Pos>)
    requires Finds(grid, query, Backward, from, r)
    ensures r == None <==> from.row >= |grid| || NoneBefore(Matches(grid, query), from)
  {
  }

  // ---------------------------------------------------------------- word motions

  /** Character classes: which characters make up words is a parameter. */
  type Words = char -> bool

  predicate WordStart(word: Words, row: string, c: nat)
  {
    c < |row| && word(row[c]) && (c == 0 || !word(row[c - 1]))
  }

  predicate WordEnd(word: Words, row: string, c: nat)
  {
    c < |row| && word(row[c]) && (c + 1 == |row| || !word(row[c + 1]))
  }

  /** The characters from `a` to `b` are a word, and no more of the row belongs to it. */
  ghost predicate WordAround(word: Words, row: string, a: nat, b: nat)
  {
    && a <= b < |row| && (forall i :: a <= i <= b ==> word(row[i]))
    && (a == 0 || !word(row[a - 1])) && (b + 1 == |row| || !word(row[b + 1]))
  }

  /** Starts and ends bound words: the first is the only start in it, and the last the only end. */
  lemma StartsAndEndsBoundWords(word: Words, row: string, a: nat, b: nat, i: nat)
    requires WordAround(word, row, a, b) && a <= i <= b
    ensures WordStart(word, row, i) <==> i == a
    ensures WordEnd(word, row, i) <==> i == b
  {
  }

  /** And every character of a word is in one; other characters neither start nor end anything. */
  lemma {:induction false} EveryWordIsBounded(word: Words, row: string, i: nat)
    requires i < |row|
    ensures !word(row[i]) ==> !WordStart(word, row, i) && !WordEnd(word, row, i)
    ensures word(row[i]) ==> exists a: nat, b: nat :: WordAround(word, row, a, b) && a <= i <= b
  {
    if word(row[i]) {
      var a, b := i, i;
      while a > 0 && word(row[a - 1])
        invariant a <= i && forall k :: a <= k <= i ==> word(row[k])
      {
        a := a - 1;
      }
      while b + 1 < |row| && word(row[b + 1])
        invariant i <= b < |row| && forall k :: i <= k <= b ==> word(row[k])
      {
        b := b + 1;
      }
      assert WordAround(word, row, a, b);
    }
  }

  function WordStarts(grid: Grid, word: Words): Pos -> bool
  {
    (p: Pos) => WordStart(word, RowChars(grid, p.row), p.col)
  }

  function WordEnds(grid: Grid, word: Words): Pos -> bool
  {
    (p: Pos) => WordEnd(word, RowChars(grid, p.row), p.col)
  }

  /** The last row of the buffer, or row zero when there is none. */
  function MaxRow(grid: Grid): nat { SatSub(|grid|, 1) }

  /** All such places are characters of the buffer. */
  ghost predicate Inside(grid: Grid, at: Pos -> bool)
  {
    forall q: Pos :: at(q) ==> q.row < |grid| && q.col < |RowChars(grid, q.row)|
  }

  lemma WordsInside(grid: Grid, word: Words)
    ensures Inside(grid, WordStarts(grid, word)) && Inside(grid, WordEnds(grid, word))
  {
    hide TrimEnd;
  }

  /** Nothing after `from` comes before `p`. */
  ghost predicate NoneUpTo(at: Pos -> bool, from: Pos, p: Pos)
  {
    forall q: Pos :: at(q) && Before(from, q) ==> !Before(q, p)
  }

  lemma NoneAtOnce(at: Pos -> bool, from: Pos)
    ensures Before(from, Pos(from.row, from.col + 1)) && NoneUpTo(at, from, Pos(from.row, from.col + 1))
  {
  }

  lemma NoneHere(at: Pos -> bool, from: Pos, p: Pos)
    requires Before(from, p) && NoneUpTo(at, from, p) && !at(p)
    ensures Before(from, Pos(p.row, p.col + 1)) && NoneUpTo(at, from, Pos(p.row, p.col + 1))
  {
  }

  lemma NoneInRest(grid: Grid, at: Pos -> bool, from: Pos, p: Pos)
    requires Before(from, p) && NoneUpTo(at, from, p) && Inside(grid, at) && |RowChars(grid, p.row)| <= p.col
    ensures Before(from, Pos(p.row + 1, 0)) && NoneUpTo(at, from, Pos(p.row + 1, 0))
  {
    hide RowChars;
  }

  lemma FirstHere(at: Pos -> bool, from: Pos, p: Pos)
    requires Before(from, p) && NoneUpTo(at, from, p) && at(p)
    ensures IsNext(at, from, p)
  {
  }

  lemma NoneAtAll(grid: Grid, at: Pos -> bool, from: Pos, p: Pos)
    requires NoneUpTo(at, from, p) && Inside(grid, at) && MaxRow(grid) < p.row
    ensures NoneAfter(at, from)
  {
    hide RowChars;
  }

  /** The next word start anywhere below, and only when there is none the end of the last row. */
  method NextWordStart(grid: Grid, word: Words, from: Pos) returns (p: Pos)
    ensures IsNext(WordStarts(grid, word), from, p)
         || (NoneAfter(WordStarts(grid, word), from) && p == Pos(MaxRow(grid), |RowChars(grid, MaxRow(grid))|))
  {
    hide RowChars, Before, NoneUpTo, IsNext, NoneAfter, Inside;
    var at := WordStarts(grid, word);
    WordsInside(grid, word);
    NoneAtOnce(at, from);
    var r: nat, c: nat := from.row, from.col + 1;
    while r <= MaxRow(grid)
      invariant Before(from, Pos(r, c)) && NoneUpTo(at, from, Pos(r, c))
      decreases MaxRow(grid) + 1 - r
    {
      var chars := RowChars(grid, r);
      while c <= |chars|
        invariant Before(from, Pos(r, c)) && NoneUpTo(at, from, Pos(r, c))
      {
        if c == |chars| {
          break;
        }
        if WordStart(word, chars, c) {
          FirstHere(at, from, Pos(r, c));
          return Pos(r, c);
        }
        NoneHere(at, from, Pos(r, c));
        c := c + 1;
      }
      NoneInRest(grid, at, from, Pos(r, c));
      r, c := r + 1, 0;
      if r <= MaxRow(grid) && WordStart(word, RowChars(grid, r), 0) {
        FirstHere(at, from, Pos(r, 0));
        return Pos(r, 0);
      }
    }
    NoneAtAll(grid, at, from, Pos(r, c));
    p := Pos(MaxRow(grid), |RowChars(grid, MaxRow(grid))|);
  }

  /** The next word end anywhere below, and only when there is none the last character. */
  method NextWordEnd(grid: Grid, word: Words, from: Pos) returns (p: Pos)
    ensures IsNext(WordEnds(grid, word), from, p)
         || (NoneAfter(WordEnds(grid, word), from) && p == Pos(MaxRow(grid), SatSub(|RowChars(grid, MaxRow(grid))|, 1)))
  {
    hide RowChars, Before, NoneUpTo, IsNext, NoneAfter, Inside;
    var at := WordEnds(grid, word);
    WordsInside(grid, word);
    NoneAtOnce(at, from);
    var r: nat, c: nat := from.row, from.col + 1;
    while r <= MaxRow(grid)
      invariant Before(from, Pos(r, c)) && NoneUpTo(at, from, Pos(r, c))
      decreases MaxRow(grid) + 1 - r
    {
      var chars := RowChars(grid, r);
      while c < |chars|
        invariant Before(from, Pos(r, c)) && NoneUpTo(at, from, Pos(r, c))
      {
        if WordEnd(word, chars, c) {
          FirstHere(at, from, Pos(r, c));
          return Pos(r, c);
        }
        NoneHere(at, from, Pos(r, c));
        c := c + 1;
      }
      NoneInRest(grid, at, from, Pos(r, c));
      r, c := r + 1, 0;
    }
    NoneAtAll(grid, at, from, Pos(r, c));
    p := Pos(MaxRow(grid), SatSub(|RowChars(grid, MaxRow(grid))|, 1));
  }

  /** The last word start before, and only when there is none the top of the buffer. */
  method PreviousWordStart(grid: Grid, word: Words, from: Pos) returns (p: Pos)
    ensures IsPrevious(WordStarts(grid, word), from, p)
         || (NoneBefore(WordStarts(grid, word), from) && p == Pos(0, 0))
  {
    hide TrimEnd;
    var at := WordStarts(grid, word);
    var r: nat, c: nat := from.row, from.col;
    while true
      invariant !Before(from, Pos(r, c))
      invariant forall q: Pos :: at(q) && Before(q, from) ==> Before(q, Pos(r, c))
      decreases r
    {
      var chars := RowChars(grid, r);
      var i: nat := c;
      while i > 0
        invariant !Before(from, Pos(r, i))
        invariant forall q: Pos :: at(q) && Before(q, from) ==> Before(q, Pos(r, i))
      {
        i := i - 1;
        if WordStart(word, chars, i) {
          assert at(Pos(r, i));
          return Pos(r, i);
        }
        assert !at(Pos(r, i));
      }
      if r == 0 {
        return Pos(0, 0);
      }
      r := r - 1;
      c := |RowChars(grid, r)|;
    }
  }

  // ---------------------------------------------------------------- selection

  datatype Selection = Selection(anchor: Pos, cursor: Pos, rectangle: bool)

  function Swapped(s: Selection): Selection { s.(anchor := s.cursor, cursor := s.anchor) }

  function First(s: Selection): Pos { if Before(s.cursor, s.anchor) then s.cursor else s.anchor }

  function Last(s: Selection): Pos { if Before(s.cursor, s.anchor) then s.anchor else s.cursor }

  function Top(s: Selection): nat { Min(s.anchor.row, s.cursor.row) }

  function Bottom(s: Selection): nat { Max(s.anchor.row, s.cursor.row) }

  /** The columns highlighted on a row of a pane that wide, if it is selected. */
  function SelectionSpan(s: Selection, row: nat, width: nat): Option<(nat, nat)>
  {
    if s.rectangle then
      if row < Top(s) || row > Bottom(s) then None
      else Some((Min(s.anchor.col, s.cursor.col), Min(Max(s.anchor.col, s.cursor.col) + 1, width)))
    else
      var (start, end) := (First(s), Last(s));
      if row < start.row || row > end.row then None else
      var (c0, c1) := Columns(start, end, row, width);
      Some((Min(c0, width), Min(c1, width)))
  }

  /** The columns a stream selection covers on one of its rows. */
  function Columns(start: Pos, end: Pos, row: nat, width: nat): (nat, nat)
  {
    if start.row == end.row then (start.col, end.col)
    else if row == start.row then (start.col, width)
    else if row == end.row then (0, end.col)
    else (0, width)
  }

  /** A cell is highlighted. */
  predicate Highlighted(s: Selection, p: Pos, width: nat)
  {
    var span := SelectionSpan(s, p.row, width);
    span.Some? && span.value.0 <= p.col < span.value.1
  }

  function Earlier(p: Pos, q: Pos): Pos { if Before(q, p) then q else p }

  function Later(p: Pos, q: Pos): Pos { if Before(q, p) then p else q }

  /**
   Which cells are selected: by a stream those from the earlier of anchor and cursor up to, and not
   including, the later, in reading order; by a block those between the two both by row and by column.
   */
  lemma SelectedCells(s: Selection, p: Pos, width: nat)
    requires p.col < width
    ensures !s.rectangle ==>
      (Highlighted(s, p, width) <==>
         !Before(p, Earlier(s.anchor, s.cursor)) && Before(p, Later(s.anchor, s.cursor)))
    ensures s.rectangle ==>
      (Highlighted(s, p, width) <==>
         && (s.anchor.row <= p.row <= s.cursor.row || s.cursor.row <= p.row <= s.anchor.row)
         && (s.anchor.col <= p.col <= s.cursor.col || s.cursor.col <= p.col <= s.anchor.col))
  {
  }

  function Slice(text: string, c0: nat, c1: nat): string
  {
    var hi := Min(c1, |text|);
    TrimEnd(text[Min(c0, hi)..hi])
  }

  /** What the highlight covers on a row, blanks at its end aside. */
  function HighlightedRow(s: Selection, grid: Grid, width: nat, row: nat): string
  {
    match SelectionSpan(s, row, width)
    case Some((c0, c1)) => if row < |grid| then Slice(grid[row], c0, c1) else ""
    case None => ""
  }

  /** The highlighted rows from the top down to `row`, joined by newlines. */
  function HighlightedText(s: Selection, grid: Grid, width: nat, row: nat): string
    requires Top(s) <= row
    decreases row
  {
    (if row == Top(s) then "" else HighlightedText(s, grid, width, row - 1) + "\n")
      + HighlightedRow(s, grid, width, row)
  }

  /** Where the copy and the highlight may differ: a stream selection reaching more than one row below the buffer. */
  predicate ReachesBelow(s: Selection, grid: Grid) { !s.rectangle && Top(s) < Bottom(s) && Bottom(s) > |grid| }

  // ---------------------------------------------------------------- what is copied

  function Newline(s: Selection, row: nat): string { if row != Bottom(s) then "\n" else "" }

  /** The copied text of the rows from the top down to `row`, as a stream: missing rows add nothing. */
  function StreamText(s: Selection, grid: Grid, row: nat): string
    requires Top(s) <= row
    decreases row
  {
    var above := if row == Top(s) then "" else StreamText(s, grid, row - 1);
    if row >= |grid| then above else
    var (c0, c1) := Columns(First(s), Last(s), row, |grid[row]|);
    above + Slice(grid[row], c0, c1) + Newline(s, row)
  }

  function BlockRow(s: Selection, grid: Grid, row: nat): string
  {
    if row >= |grid| then ""
    else Slice(grid[row], Min(s.anchor.col, s.cursor.col), Max(s.anchor.col, s.cursor.col) + 1)
  }

  /** The copied text of the rows from the top down to `row`, as a block: missing rows are empty lines. */
  function BlockText(s: Selection, grid: Grid, row: nat): string
    requires Top(s) <= row
    decreases row
  {
    var above := if row == Top(s) then "" else BlockText(s, grid, row - 1);
    above + BlockRow(s, grid, row) + Newline(s, row)
  }

  function CopiedText(s: Selection, grid: Grid): string
  {
    if s.rectangle then BlockText(s, grid, Bottom(s)) else StreamText(s, grid, Bottom(s))
  }

  ghost predicate RowsFit(grid: Grid, width: nat) { forall r :: 0 <= r < |grid| ==> |grid[r]| <= width }

  /** One more row of a stream. */
  lemma StreamStep(s: Selection, grid: Grid, row: nat, above: string, text: string)
    requires Top(s) <= row && above == if row == Top(s) then "" else StreamText(s, grid, row - 1)
    requires row >= |grid| ==> text == above
    requires row < |grid| ==>
      var (c0, c1) := Columns(First(s), Last(s), row, |grid[row]|);
      text == if row == Bottom(s) then above + Slice(grid[row], c0, c1) else above + Slice(grid[row], c0, c1) + "\n"
    ensures text == StreamText(s, grid, row)
  {
    hide TrimEnd, Slice;
  }

  /** One more row of a block. */
  lemma BlockStep(s: Selection, grid: Grid, row: nat, above: string, text: string)
    requires Top(s) <= row && above == if row == Top(s) then "" else BlockText(s, grid, row - 1)
    requires var longer := if row < |grid| then above + BlockRow(s, grid, row) else above;
             text == if row == Bottom(s) then longer else longer + "\n"
    ensures text == BlockText(s, grid, row)
  {
    hide Slice;
  }

  lemma SameSlice(text: string, a0: nat, a1: nat, b0: nat, b1: nat)
    requires Min(a1, |text|) == Min(b1, |text|) && Min(a0, Min(a1, |text|)) == Min(b0, Min(b1, |text|))
    ensures Slice(text, a0, a1) == Slice(text, b0, b1)
  {
    hide TrimEnd;
  }

  lemma StreamRowAgrees(s: Selection, grid: Grid, width: nat, row: nat)
    requires RowsFit(grid, width) && !s.rectangle && Top(s) <= row <= Bottom(s) && row < |grid|
    ensures var (c0, c1) := Columns(First(s), Last(s), row, |grid[row]|);
            HighlightedRow(s, grid, width, row) == Slice(grid[row], c0, c1)
  {
    hide Slice, TrimEnd;
    assert |grid[row]| <= width;
    var (c0, c1) := Columns(First(s), Last(s), row, |grid[row]|);
    var (d0, d1) := SelectionSpan(s, row, width).value;
    SameSlice(grid[row], d0, d1, c0, c1);
  }

  lemma {:induction false} StreamIsHighlight(s: Selection, grid: Grid, width: nat, row: nat)
    requires RowsFit(grid, width) && !s.rectangle && Top(s) <= row <= Bottom(s) && row < |grid|
    ensures StreamText(s, grid, row) == HighlightedText(s, grid, width, row) + Newline(s, row)
    decreases row
  {
    hide TrimEnd, Slice, HighlightedRow, RowsFit;
    StreamRowAgrees(s, grid, width, row);
    if row > Top(s) { StreamIsHighlight(s, grid, width, row - 1); }
  }

  lemma BlockRowAgrees(s: Selection, grid: Grid, width: nat, row: nat)
    requires RowsFit(grid, width) && s.rectangle && Top(s) <= row <= Bottom(s)
    ensures HighlightedRow(s, grid, width, row) == BlockRow(s, grid, row)
  {
    hide TrimEnd;
    if row < |grid| { assert |grid[row]| <= width; }
  }

  lemma {:induction false} BlockIsHighlight(s: Selection, grid: Grid, width: nat, row: nat)
    requires RowsFit(grid, width) && s.rectangle && Top(s) <= row <= Bottom(s)
    ensures BlockText(s, grid, row) == HighlightedText(s, grid, width, row) + Newline(s, row)
    decreases row
  {
    hide BlockRow, HighlightedRow, RowsFit;
    BlockRowAgrees(s, grid, width, row);
    if row > Top(s) { BlockIsHighlight(s, grid, width, row - 1); }
  }

  lemma NothingHighlightedBelow(s: Selection, grid: Grid, width: nat, row: nat)
    requires |grid| <= row
    ensures HighlightedRow(s, grid, width, row) == ""
  {
  }

  /** Below the buffer a stream gains nothing while the highlight gains a line per row. */
  lemma {:induction false} BelowTheBuffer(s: Selection, grid: Grid, width: nat, base: nat, row: nat)
    requires !s.rectangle && Top(s) <= base <= row && |grid| <= base + 1
    ensures StreamText(s, grid, row) == StreamText(s, grid, base)
    ensures |HighlightedText(s, grid, width, row)| == |HighlightedText(s, grid, width, base)| + (row - base)
    decreases row
  {
    hide HighlightedRow, Columns, Slice, First, Last, Newline;
    if row > base {
      BelowTheBuffer(s, grid, width, base, row - 1);
      NothingHighlightedBelow(s, grid, width, row);
    }
  }

  /** The row's text is the row from column `from` on, ends in no blank, and leaves out only blanks after it. */
  ghost predicate ShowsItsCells(s: Selection, grid: Grid, width: nat, row: nat, from: nat)
    requires row < |grid|
  {
    var (shown, text) := (HighlightedRow(s, grid, width, row), grid[row]);
    && from + |shown| <= |text| && shown == text[from..from + |shown|]
    && (shown != [] ==> !IsWhitespace(shown[|shown| - 1]))
    && (forall c :: from <= c < from + |shown| ==> Highlighted(s, Pos(row, c), width))
    && (forall c: nat :: c < |text| && Highlighted(s, Pos(row, c), width) ==>
          from <= c && (from + |shown| <= c ==> IsWhitespace(text[c])))
  }

  /** What a row contributes: the text of its highlighted cells, in order, less the blanks at its end. */
  lemma RowsShowTheirCells(s: Selection, grid: Grid, width: nat, row: nat)
    requires row < |grid|
    ensures exists from: nat :: ShowsItsCells(s, grid, width, row, from)
  {
    hide TrimEnd, SelectionSpan;
    var text := grid[row];
    if SelectionSpan(s, row, width).Some? {
      var (c0, c1) := SelectionSpan(s, row, width).value;
      var hi := Min(c1, |text|);
      var from := Min(c0, hi);
      var (cut, shown) := (text[from..hi], TrimEnd(text[from..hi]));
      assert shown == HighlightedRow(s, grid, width, row);
      assert shown == text[from..from + |shown|];
      forall c | from + |shown| <= c < hi ensures IsWhitespace(text[c]) { assert text[c] == cut[c - from]; }
      assert ShowsItsCells(s, grid, width, row, from);
    } else {
      assert text[0..0] == "" == HighlightedRow(s, grid, width, row);
      assert ShowsItsCells(s, grid, width, row, 0);
    }
  }

  /**
   What is copied is what is highlighted, on rows no longer than the pane is wide, exactly unless a
   stream selection reaches more than one row below the buffer.
   */
  lemma CopyIsHighlight(s: Selection, grid: Grid, width: nat)
    requires RowsFit(grid, width)
    ensures CopiedText(s, grid) == HighlightedText(s, grid, width, Bottom(s)) <==> !ReachesBelow(s, grid)
  {
    if s.rectangle {
      BlockIsHighlight(s, grid, width, Bottom(s));
    } else if Bottom(s) < |grid| {
      StreamIsHighlight(s, grid, width, Bottom(s));
    } else if Top(s) < |grid| {
      var base := |grid| - 1;
      StreamIsHighlight(s, grid, width, base);
      BelowTheBuffer(s, grid, width, base, Bottom(s));
      if Bottom(s) == |grid| {
        assert HighlightedRow(s, grid, width, Bottom(s)) == "";
      }
    } else {
      BelowTheBuffer(s, grid, width, Top(s), Bottom(s));
    }
  }

  /** Swapping anchor and cursor changes neither what is highlighted nor what is copied. */
  lemma EndsAreInterchangeable(s: Selection, grid: Grid, width: nat, row: nat)
    ensures SelectionSpan(Swapped(s), row, width) == SelectionSpan(s, row, width)
    ensures CopiedText(Swapped(s), grid) == CopiedText(s, grid)
  {
    hide Columns, CopiedText;
    SwappedCopies(s, grid);
  }

  lemma SwappedCopies(s: Selection, grid: Grid)
    ensures CopiedText(Swapped(s), grid) == CopiedText(s, grid)
  {
    hide StreamText, BlockText;
    if s.rectangle { SwappedBlock(s, grid, Bottom(s)); } else { SwappedStream(s, grid, Bottom(s)); }
  }

  lemma {:induction false} SwappedStream(s: Selection, grid: Grid, row: nat)
    requires Top(s) <= row
    ensures StreamText(Swapped(s), grid, row) == StreamText(s, grid, row)
    decreases row
  {
    assert First(Swapped(s)) == First(s) && Last(Swapped(s)) == Last(s);
    hide Slice, TrimEnd;
    if row > Top(s) { SwappedStream(s, grid, row - 1); }
  }

  lemma SwappedBlockRow(s: Selection, grid: Grid, row: nat)
    ensures BlockRow(Swapped(s), grid, row) == BlockRow(s, grid, row)
    ensures Newline(Swapped(s), row) == Newline(s, row) && Top(Swapped(s)) == Top(s)
  {
    hide Slice;
  }

  lemma {:induction false} SwappedBlock(s: Selection, grid: Grid, row: nat)
    requires Top(s) <= row
    ensures BlockText(Swapped(s), grid, row) == BlockText(s, grid, row)
    decreases row
  {
    hide BlockRow, Newline;
    SwappedBlockRow(s, grid, row);
    if row > Top(s) { SwappedBlock(s, grid, row - 1); }
  }

  // ---------------------------------------------------------------- is the cursor's cell copied?

  /** The same stream with its last cell one further: what including that cell would copy. */
  function OneFurther(s: Selection): Selection
  {
    if Before(s.cursor, s.anchor) then s.(anchor := Pos(s.anchor.row, s.anchor.col + 1))
    else s.(cursor := Pos(s.cursor.row, s.cursor.col + 1))
  }

  lemma {:induction false} RowsAboveAgree(s: Selection, grid: Grid, row: nat)
    requires !s.rectangle && Top(s) <= row < Bottom(s)
    ensures StreamText(OneFurther(s), grid, row) == StreamText(s, grid, row)
    decreases row
  {
    hide Slice;
    if row > Top(s) { RowsAboveAgree(s, grid, row - 1); }
  }

  /** Trimmed, one more character makes a difference exactly when it is not blank. */
  lemma OneMoreCharacter(text: string, c0: nat, c1: nat)
    requires c0 <= c1
    ensures Slice(text, c0, c1 + 1) == Slice(text, c0, c1) <==> c1 >= |text| || IsWhitespace(text[c1])
  {
    if c1 < |text| {
      var (short, long) := (text[c0..c1], text[c0..c1 + 1]);
      assert long[..|long| - 1] == short && long[|long| - 1] == text[c1];
    }
  }

  /**
   A stream copies as if it included the last cell exactly when that cell is beyond its row or
   blank; otherwise the cell is left out, although a selection is meant to include it.
   */
  lemma StreamExcludesItsEnd(s: Selection, grid: Grid)
    requires !s.rectangle
    ensures var end := Last(s);
      CopiedText(OneFurther(s), grid) == CopiedText(s, grid) <==>
      end.row >= |grid| || end.col >= |grid[end.row]| || IsWhitespace(grid[end.row][end.col])
  {
    hide Slice, StreamText, Columns, First, Last;
    var (t, end) := (OneFurther(s), Last(s));
    OneFurtherEnds(s);
    LastRow(s, grid);
    LastRow(t, grid);
    if Top(s) < Bottom(s) { RowsAboveAgree(s, grid, Bottom(s) - 1); }
    if end.row < |grid| {
      var c0 := Columns(First(s), end, end.row, |grid[end.row]|).0;
      OneMoreCharacter(grid[end.row], c0, end.col);
      SameTail(RowsAbove(s, grid), Slice(grid[end.row], c0, end.col + 1), Slice(grid[end.row], c0, end.col));
    }
  }

  function RowsAbove(s: Selection, grid: Grid): string
  {
    if Bottom(s) == Top(s) then "" else StreamText(s, grid, Bottom(s) - 1)
  }

  /** A stream's last row ends at its last cell. */
  lemma LastRow(s: Selection, grid: Grid)
    requires !s.rectangle
    ensures var end := Last(s);
      && end.row == Bottom(s) && Top(s) == First(s).row
      && StreamText(s, grid, Bottom(s)) ==
           RowsAbove(s, grid) +
           (if end.row >= |grid| then ""
            else Slice(grid[end.row], Columns(First(s), end, end.row, |grid[end.row]|).0, end.col))
  {
    hide Slice;
  }

  lemma OneFurtherEnds(s: Selection)
    ensures var t := OneFurther(s);
      && First(t) == First(s) && Last(t) == Pos(Last(s).row, Last(s).col + 1)
      && Top(t) == Top(s) && Bottom(t) == Bottom(s)
    ensures forall row, width ::
      Columns(First(s), Last(OneFurther(s)), row, width).0 == Columns(First(s), Last(s), row, width).0
    ensures forall row, width :: Columns(First(s), Last(s), row, width).0 <= Last(s).col || row != Last(s).row
  {
  }

  lemma SameTail(above: string, x: string, y: string)
    ensures above + x == above + y <==> x == y
  {
    assert (above + x)[|above|..] == x && (above + y)[|above|..] == y;
  }

  /** A selection just started copies nothing as a stream, and the cursor's cell as a block. */
  lemma FreshSelection(cursor: Pos, grid: Grid)
    ensures CopiedText(Selection(cursor, cursor, false), grid) == ""
    ensures cursor.row < |grid| && cursor.col < |grid[cursor.row]| && !IsWhitespace(grid[cursor.row][cursor.col]) ==>
              CopiedText(Selection(cursor, cursor, true), grid) == [grid[cursor.row][cursor.col]]
  {
    if cursor.row < |grid| && cursor.col < |grid[cursor.row]| {
      var row := grid[cursor.row];
      assert row[cursor.col..cursor.col + 1] == [row[cursor.col]];
      assert [] + [row[cursor.col]] + [] == [row[cursor.col]];
    }
  }

  // ---------------------------------------------------------------- the mode itself

  /** The row is one of those shown from `top`, and the view does not run past the buffer. */
  ghost predicate Shows(top: nat, row: nat, height: nat, len: nat)
  {
    top <= row < top + height && top <= SatSub(len, height)
  }

  class CopyMode {
    var top: nat
    var cursor: Pos
    var anchor: Option<Pos>
    var height: nat
    var lastQuery: Option<string>
    var lastDir: SearchDir
    var rectangle: bool

    ghost predicate CursorShown(grid: Grid)
      reads this
    {
      Shows(top, cursor.row, height, |grid|)
    }

    /** Enter at the live tail. */
    constructor Enter(grid: Grid, height: nat)
      ensures top == SatSub(|grid|, height) && cursor == Pos(top, 0) && anchor == None && this.height == height
      ensures lastQuery == None && lastDir == Backward && !rectangle
      ensures height > 0 ==> CursorShown(grid)
    {
      this.top := SatSub(|grid|, height);
      this.cursor := Pos(SatSub(|grid|, height), 0);
      this.anchor, this.height, this.lastQuery, this.lastDir, this.rectangle := None, height, None, Backward, false;
    }

    /** Bring the cursor's row into view, moving the view no further than needed. */
    method ScrollToCursor(grid: Grid)
      modifies this`top
      ensures height > 0 && cursor.row < |grid| ==> CursorShown(grid)
      ensures old(CursorShown(grid)) ==> top == old(top)
      ensures cursor.row < |grid|
        ==> forall t: nat :: Shows(t, cursor.row, height, |grid|) ==> Abs(top - old(top)) <= Abs(t - old(top))
    {
      if cursor.row < top {
        top := cursor.row;
      } else if cursor.row >= top + height {
        top := cursor.row + 1 - height;
      }
      top := Min(top, SatSub(|grid|, height));
    }

    /** Start a selection at the cursor, or start it over. */
    method StartSelection()
      modifies this`anchor
      ensures anchor == Some(cursor)
    {
      anchor := Some(cursor);
    }

    /** Switch between stream and block; without a selection, one starts at the cursor. */
    method ToggleRectangle() returns (now: bool)
      modifies this`rectangle, this`anchor
      ensures now == rectangle == !old(rectangle)
      ensures anchor == if old(anchor).None? then Some(cursor) else old(anchor)
    {
      rectangle := !rectangle;
      if anchor.None? {
        anchor := Some(cursor);
      }
      now := rectangle;
    }

    /** Move to a match, if there is one, and bring it into view. */
    method MoveTo(found: Option<Pos>, grid: Grid) returns (moved: bool)
      modifies this`cursor, this`top
      ensures moved == found.Some?
      ensures cursor == if moved then found.value else old(cursor)
      ensures !moved ==> top == old(top)
      ensures moved && height > 0 && cursor.row < |grid| ==> CursorShown(grid)
    {
      if found.None? {
        return false;
      }
      cursor := found.value;
      ScrollToCursor(grid);
      return true;
    }

    /** A fresh search; the query is remembered whether or not it is found. */
    method Search(query: string, dir: SearchDir, grid: Grid) returns (moved: bool)
      modifies this`cursor, this`top, this`lastQuery, this`lastDir
      ensures query == [] ==> !moved && cursor == old(cursor) && lastQuery == old(lastQuery) && lastDir == old(lastDir)
      ensures query != [] ==> lastQuery == Some(query) && lastDir == dir
      ensures query != [] ==> Finds(grid, query, dir, old(cursor), if moved then Some(cursor) else None)
      ensures !moved ==> cursor == old(cursor) && top == old(top)
      ensures moved && height > 0 ==> CursorShown(grid)
    {
      if query == [] {
        return false;
      }
      var found := Find(query, dir, cursor, grid);
      lastQuery, lastDir := Some(query), dir;
      moved := MoveTo(found, grid);
    }

    /** `n` keeps the direction of the last search, `N` reverses it; neither changes what is remembered. */
    method SearchRepeat(sameDir: bool, grid: Grid) returns (moved: bool)
      modifies this`cursor, this`top
      ensures lastQuery.None? ==> !moved
      ensures lastQuery.Some? ==>
        Finds(
          grid, lastQuery.value, if sameDir then lastDir else Opposite(lastDir), old(cursor),
          if moved then Some(cursor) else None)
      ensures !moved ==> cursor == old(cursor) && top == old(top)
      ensures moved && height > 0 ==> CursorShown(grid)
    {
      if lastQuery.None? {
        return false;
      }
      var dir := if sameDir then lastDir else if lastDir == Forward then Backward else Forward;
      var found := Find(lastQuery.value, dir, cursor, grid);
      moved := MoveTo(found, grid);
    }

    /** Text of the selection, row by row. */
    method SelectedText(grid: Grid) returns (text: string)
      ensures text == if anchor.None? then "" else CopiedText(Selection(anchor.value, cursor, rectangle), grid)
    {
      if anchor.None? {
        return "";
      }
      if rectangle {
        text := SelectedBlock(anchor.value, grid);
      } else {
        text := SelectedStream(anchor.value, grid);
      }
    }

    method SelectedStream(anchor: Pos, grid: Grid) returns (text: string)
      ensures text == StreamText(Selection(anchor, cursor, false), grid, Max(anchor.row, cursor.row))
    {
      hide Slice, Columns, StreamText;
      var s := Selection(anchor, cursor, false);
      var (start, end) := if Before(cursor, anchor) then (cursor, anchor) else (anchor, cursor);
      text := "";
      for row := start.row to end.row + 1
        invariant text == if row == start.row then "" else StreamText(s, grid, row - 1)
      {
        ghost var above := text;
        if row < |grid| {
          var (c0, c1) := Columns(start, end, row, |grid[row]|);
          text := text + Slice(grid[row], c0, c1);
          if row != end.row {
            text := text + "\n";
          }
        }
        StreamStep(s, grid, row, above, text);
      }
    }

    method SelectedBlock(anchor: Pos, grid: Grid) returns (text: string)
      ensures text == BlockText(Selection(anchor, cursor, true), grid, Max(anchor.row, cursor.row))
    {
      hide Slice, BlockText;
      var s := Selection(anchor, cursor, true);
      var r0, r1 := Min(anchor.row, cursor.row), Max(anchor.row, cursor.row);
      var lo, hi := Min(anchor.col, cursor.col), Max(anchor.col, cursor.col) + 1;
      text := "";
      for row := r0 to r1 + 1
        invariant text == if row == r0 then "" else BlockText(s, grid, row - 1)
      {
        ghost var above := text;
        if row < |grid| {
          text := text + Slice(grid[row], lo, hi);
        }
        if row != r1 {
          text := text + "\n";
        }
        BlockStep(s, grid, row, above, text);
      }
    }
  }
}
