/**
 Status-line formats: plain text with variables (`#S`), times (`%H`), styles (`#[...]`) and blocks
 (`#{...}`), where a block is a variable or a conditional whose branches are formats themselves.
 */
module StatusFormat {
  import opened Common

  /** Values for the tokens; what a token or a name stands for is given from outside. */
  datatype Context = Context(variable: char -> string, time: char -> string, named: string -> string,
    clientPrefix: bool)

  /** The style specifications in force, oldest first. */
  type Style = seq<string>

  datatype Span = Span(text: string, style: Style)

  /** One styled character of the result. */
  datatype Cell = Cell(ch: char, style: Style)

  function Paint(text: string, style: Style): seq<Cell>
  {
    seq(|text|, i requires 0 <= i < |text| => Cell(text[i], style))
  }

  function Cells(spans: seq<Span>): seq<Cell>
  {
    if spans == [] then [] else Paint(spans[0].text, spans[0].style) + Cells(spans[1..])
  }

  function TextOf(cells: seq<Cell>): string
  {
    seq(|cells|, i requires 0 <= i < |cells| => cells[i].ch)
  }

  // ---------------------------------------------------------------- blocks and pieces

  /** Read a block to its matching brace: the body, and what follows. An open block takes everything. */
  function Block(s: string, depth: nat): (r: (string, string))
    ensures |r.0| <= |s| && |r.1| <= |s|
    decreases |s|
  {
    if s == [] then ("", "")
    else if s[0] == '}' && depth == 0 then ("", s[1..])
    else
      var next := if s[0] == '{' then depth + 1 else if s[0] == '}' then depth - 1 else depth;
      var (body, rest) := Block(s[1..], next);
      ([s[0]] + body, rest)
  }

  /** Read a style specification to its bracket. */
  function Spec(s: string): (r: (string, string))
    ensures |r.1| <= |s|
  {
    if s == [] then ("", "")
    else if s[0] == ']' then ("", s[1..])
    else var (spec, rest) := Spec(s[1..]); ([s[0]] + spec, rest)
  }

  function Extend(head: string, pieces: seq<string>): seq<string>
    requires pieces != []
  {
    [head + pieces[0]] + pieces[1..]
  }

  /** Split on separators outside all braces. */
  function Split(s: string, sep: char, depth: int): (pieces: seq<string>)
    ensures pieces != []
    ensures forall i :: 0 <= i < |pieces| ==> |pieces[i]| <= |s|
    decreases |s|
  {
    if s == [] then [""]
    else if s[0] == '#' && |s| > 1 && s[1] == '{' then Extend("#{", Split(s[2..], sep, depth + 1))
    else if s[0] == '{' then Extend("{", Split(s[1..], sep, depth + 1))
    else if s[0] == '}' then Extend("}", Split(s[1..], sep, depth - 1))
    else if s[0] == sep && depth == 0 then [""] + Split(s[1..], sep, depth)
    else Extend([s[0]], Split(s[1..], sep, depth))
  }

  function Piece(pieces: seq<string>, i: nat): string { if i < |pieces| then pieces[i] else "" }

  // ---------------------------------------------------------------- evaluation

  predicate Condition(name: string, ctx: Context)
  {
    if name == "client_prefix" then ctx.clientPrefix else ctx.named(name) != ""
  }

  /** The branch a conditional block takes; it is shorter than the block. */
  function Chosen(body: string, ctx: Context): (branch: string)
    requires body != [] && body[0] == '?'
    ensures |branch| < |body|
  {
    var pieces := Split(body[1..], ',', 0);
    if Condition(pieces[0], ctx) then Piece(pieces, 1) else Piece(pieces, 2)
  }

  /** The styled text a format stands for, in a style. */
  function Styled(fmt: string, style: Style, ctx: Context): seq<Cell>
    decreases |fmt|
  {
    if fmt == [] then []
    else if fmt[0] == '#' then
      if |fmt| == 1 then Paint("#", style)
      else if fmt[1] == '[' then
        var (spec, rest) := Spec(fmt[2..]);
        Styled(rest, style + [spec], ctx)
      else if fmt[1] == '#' then Paint("#", style) + Styled(fmt[2..], style, ctx)
      else if fmt[1] == '{' then
        var (body, rest) := Block(fmt[2..], 0);
        Paint(BlockText(body, ctx), style) + Styled(rest, style, ctx)
      else Paint(ctx.variable(fmt[1]), style) + Styled(fmt[2..], style, ctx)
    else if fmt[0] == '%' then
      if |fmt| == 1 then Paint("%", style)
      else Paint(ctx.time(fmt[1]), style) + Styled(fmt[2..], style, ctx)
    else Paint([fmt[0]], style) + Styled(fmt[1..], style, ctx)
  }

  /** The text of a block. */
  function BlockText(body: string, ctx: Context): string
    decreases |body|
  {
    if body != [] && body[0] == '?' then TextOf(Styled(Chosen(body, ctx), [], ctx)) else ctx.named(body)
  }

  // ---------------------------------------------------------------- the loops

  function Prepend(head: string, r: (string, string)): (string, string) { (head + r.0, r.1) }

  lemma PrependMore(head: string, c: char, r: (string, string))
    ensures Prepend(head, Prepend([c], r)) == Prepend(head + [c], r)
    ensures Prepend("", r) == r
    ensures Prepend(head, ("", r.1)) == (head, r.1)
  {
    assert head + ([c] + r.0) == head + [c] + r.0;
    assert "" + r.0 == r.0 && head + "" == head;
  }

  /** Read to the brace that closes the block. */
  method ReadBlock(s: string, from: nat) returns (body: string, next: nat)
    requires from <= |s|
    ensures from <= next <= |s| && (body, s[next..]) == Block(s[from..], 0)
    ensures |body| <= next - from
  {
    body, next := "", from;
    var depth := 1;
    PrependMore("", '}', Block(s[from..], 0));
    while next < |s|
      invariant from <= next <= |s| && depth >= 1 && |body| == next - from
      invariant Block(s[from..], 0) == Prepend(body, Block(s[next..], depth - 1))
    {
      var c := s[next];
      assert s[next..][1..] == s[next + 1..];
      next := next + 1;
      if c == '{' {
        depth := depth + 1;
      } else if c == '}' {
        depth := depth - 1;
        if depth == 0 {
          PrependMore(body, c, ("", s[next..]));
          return;
        }
      }
      PrependMore(body, c, Block(s[next..], depth - 1));
      body := body + [c];
    }
    PrependMore(body, '}', ("", ""));
  }

  /** Read to the bracket that closes the style. */
  method ReadSpec(s: string, from: nat) returns (spec: string, next: nat)
    requires from <= |s|
    ensures from <= next <= |s| && (spec, s[next..]) == Spec(s[from..])
  {
    spec, next := "", from;
    PrependMore("", ']', Spec(s[from..]));
    while next < |s|
      invariant from <= next <= |s|
      invariant Spec(s[from..]) == Prepend(spec, Spec(s[next..]))
    {
      var c := s[next];
      assert s[next..][1..] == s[next + 1..];
      next := next + 1;
      if c == ']' {
        PrependMore(spec, c, ("", s[next..]));
        return;
      }
      PrependMore(spec, c, Spec(s[next..]));
      spec := spec + [c];
    }
    PrependMore(spec, ']', ("", ""));
  }

  /** The finished pieces, the open one and what the rest splits into make up the whole. */
  ghost predicate Splitting(
    whole: seq<string>, out: seq<string>, cur: string, s: string, i: nat, sep: char, depth: int)
  {
    i <= |s| && whole == out + Extend(cur, Split(s[i..], sep, depth))
  }

  lemma SplitFront(s: string, i: nat, sep: char, depth: int)
    requires i < |s|
    ensures Split(s[i..], sep, depth) ==
            if s[i] == '#' && i + 1 < |s| && s[i + 1] == '{' then Extend("#{", Split(s[i + 2..], sep, depth + 1))
            else if s[i] == '{' then Extend("{", Split(s[i + 1..], sep, depth + 1))
            else if s[i] == '}' then Extend("}", Split(s[i + 1..], sep, depth - 1))
            else if s[i] == sep && depth == 0 then [""] + Split(s[i + 1..], sep, depth)
            else Extend([s[i]], Split(s[i + 1..], sep, depth))
  {
    assert s[i..][1..] == s[i + 1..];
    if i + 1 < |s| { assert s[i..][2..] == s[i + 2..]; }
  }

  lemma StaysInPiece(whole: seq<string>, out: seq<string>, cur: string, s: string, i: nat, sep: char, depth: int,
    text: string, depth': int)
    requires Splitting(whole, out, cur, s, i, sep, depth) && i + |text| <= |s|
    requires Split(s[i..], sep, depth) == Extend(text, Split(s[i + |text|..], sep, depth'))
    ensures Splitting(whole, out, cur + text, s, i + |text|, sep, depth')
  {
    hide Split, Extend;
    ExtendTwice(cur, text, Split(s[i + |text|..], sep, depth'));
  }

  lemma EndsPiece(whole: seq<string>, out: seq<string>, cur: string, s: string, i: nat, sep: char, depth: int)
    requires Splitting(whole, out, cur, s, i, sep, depth) && i < |s|
    requires Split(s[i..], sep, depth) == [""] + Split(s[i + 1..], sep, depth)
    ensures Splitting(whole, out + [cur], "", s, i + 1, sep, depth)
  {
    hide Split, Extend;
    NextPiece(out, cur, Split(s[i + 1..], sep, depth));
  }

  lemma StartsPieces(s: string, sep: char)
    ensures Splitting(Split(s, sep, 0), [], "", s, 0, sep, 0)
  {
    hide Split, Extend;
    assert s[0..] == s;
    NextPiece([], "", Split(s, sep, 0));
    assert [] + Extend("", Split(s, sep, 0)) == Split(s, sep, 0);
  }

  lemma EndsPieces(whole: seq<string>, out: seq<string>, cur: string, s: string, sep: char, depth: int)
    requires Splitting(whole, out, cur, s, |s|, sep, depth)
    ensures whole == out + [cur]
  {
    assert s[|s|..] == [] && cur + "" == cur;
    assert Extend(cur, [""]) == [cur];
  }

  method SplitTopLevel(s: string, sep: char) returns (out: seq<string>)
    ensures out == Split(s, sep, 0)
  {
    hide Split, Extend, Splitting;
    ghost var whole := Split(s, sep, 0);
    StartsPieces(s, sep);
    out := [];
    var cur, depth, i := "", 0, 0;
    while i < |s|
      invariant 0 <= i <= |s| && Splitting(whole, out, cur, s, i, sep, depth)
    {
      var c := s[i];
      SplitFront(s, i, sep, depth);
      if c == '#' && i + 1 < |s| && s[i + 1] == '{' {
        StaysInPiece(whole, out, cur, s, i, sep, depth, "#{", depth + 1);
        cur, depth, i := cur + "#{", depth + 1, i + 2;
      } else if c == '{' {
        StaysInPiece(whole, out, cur, s, i, sep, depth, "{", depth + 1);
        cur, depth, i := cur + [c], depth + 1, i + 1;
      } else if c == '}' {
        StaysInPiece(whole, out, cur, s, i, sep, depth, "}", depth - 1);
        cur, depth, i := cur + [c], depth - 1, i + 1;
      } else if c == sep && depth == 0 {
        EndsPiece(whole, out, cur, s, i, sep, depth);
        out, cur, i := out + [cur], "", i + 1;
      } else {
        StaysInPiece(whole, out, cur, s, i, sep, depth, [c], depth);
        cur, i := cur + [c], i + 1;
      }
    }
    EndsPieces(whole, out, cur, s, sep, depth);
    out := out + [cur];
  }

  lemma ExtendTwice(a: string, b: string, pieces: seq<string>)
    requires pieces != []
    ensures Extend(a, Extend(b, pieces)) == Extend(a + b, pieces)
  {
    assert a + (b + pieces[0]) == a + b + pieces[0];
  }

  lemma NextPiece(out: seq<string>, cur: string, pieces: seq<string>)
    requires pieces != []
    ensures out + Extend(cur, [""] + pieces) == out + [cur] + Extend("", pieces)
    ensures Extend("", pieces) == pieces
  {
    assert cur + "" == cur && "" + pieces[0] == pieces[0];
    assert ([""] + pieces)[1..] == pieces;
    assert [pieces[0]] + pieces[1..] == pieces;
  }

  lemma PaintMore(a: string, b: string, style: Style)
    ensures Paint(a + b, style) == Paint(a, style) + Paint(b, style)
    ensures Paint("", style) == []
  {
  }

  lemma {:induction false} CellsConcat(a: seq<Span>, b: seq<Span>)
    ensures Cells(a + b) == Cells(a) + Cells(b)
  {
    hide Paint;
    if a == [] {
      assert a + b == b;
    } else {
      assert (a + b)[1..] == a[1..] + b && (a + b)[0] == a[0];
      CellsConcat(a[1..], b);
      var (x, y, z) := (Paint(a[0].text, a[0].style), Cells(a[1..]), Cells(b));
      assert x + (y + z) == x + y + z;
    }
  }

  /** What has been emitted and collected, followed by what the rest stands for, is the whole. */
  ghost predicate Emits(whole: seq<Cell>, spans: seq<Span>, cur: string, style: Style, rest: string, ctx: Context)
  {
    whole == Cells(spans) + Paint(cur, style) + Styled(rest, style, ctx)
  }

  lemma CollectText(
    whole: seq<Cell>, spans: seq<Span>, cur: string, style: Style, s: string, i: nat, text: string, next: nat,
    ctx: Context)
    requires i <= next <= |s| && Emits(whole, spans, cur, style, s[i..], ctx)
    requires Styled(s[i..], style, ctx) == Paint(text, style) + Styled(s[next..], style, ctx)
    ensures Emits(whole, spans, cur + text, style, s[next..], ctx)
  {
    hide Styled, Cells;
    PaintMore(cur, text, style);
    var (a, b, c, d) := (Cells(spans), Paint(cur, style), Paint(text, style), Styled(s[next..], style, ctx));
    assert a + b + (c + d) == a + (b + c) + d;
  }

  method Flush(spans: seq<Span>, cur: string, style: Style) returns (spans': seq<Span>)
    ensures Cells(spans') == Cells(spans) + Paint(cur, style)
    ensures (forall i :: 0 <= i < |spans| ==> spans[i].text != "")
      ==> forall i :: 0 <= i < |spans'| ==> spans'[i].text != ""
  {
    if cur == "" {
      PaintMore("", "", style);
      return spans;
    }
    spans' := spans + [Span(cur, style)];
    CellsConcat(spans, [Span(cur, style)]);
    assert [Span(cur, style)][1..] == [];
    assert Cells([Span(cur, style)]) == Paint(cur, style);
  }

  /** What the token at the front stands for. */
  lemma TokenStands(s: string, i: nat, style: Style, ctx: Context)
    requires i < |s|
    ensures var rest := Styled(s[i..], style, ctx);
      if s[i] == '#' && i + 1 < |s| then
        if s[i + 1] == '[' then var (spec, r) := Spec(s[i + 2..]); rest == Styled(r, style + [spec], ctx)
        else if s[i + 1] == '#' then rest == Paint("#", style) + Styled(s[i + 2..], style, ctx)
        else if s[i + 1] == '{' then
          var (body, r) := Block(s[i + 2..], 0);
          rest == Paint(BlockText(body, ctx), style) + Styled(r, style, ctx)
        else rest == Paint(ctx.variable(s[i + 1]), style) + Styled(s[i + 2..], style, ctx)
      else if s[i] == '%' && i + 1 < |s| then rest == Paint(ctx.time(s[i + 1]), style) + Styled(s[i + 2..], style, ctx)
      else rest == Paint([s[i]], style) + Styled(s[i + 1..], style, ctx)
  {
    if i + 1 < |s| { assert s[i..][2..] == s[i + 2..]; }
    assert s[i..][1..] == s[i + 1..];
  }

  lemma ChangeStyle(
    whole: seq<Cell>, spans: seq<Span>, cur: string, style: Style, s: string, rest: string, flushed: seq<Span>,
    next: Style, ctx: Context)
    requires Emits(whole, spans, cur, style, s, ctx) && Cells(flushed) == Cells(spans) + Paint(cur, style)
    requires Styled(s, style, ctx) == Styled(rest, next, ctx)
    ensures Emits(whole, flushed, "", next, rest, ctx)
  {
    hide Styled, Cells;
    PaintMore("", "", next);
    assert Cells(flushed) + [] == Cells(flushed);
  }

  lemma StartEmitting(fmt: string, ctx: Context)
    ensures Emits(Styled(fmt, [], ctx), [], "", [], fmt[0..], ctx)
  {
    hide Styled;
    assert fmt[0..] == fmt;
    PaintMore("", "", []);
    assert [] + [] + Styled(fmt, [], ctx) == Styled(fmt, [], ctx);
  }

  lemma StopEmitting(whole: seq<Cell>, spans: seq<Span>, cur: string, style: Style, ctx: Context)
    requires Emits(whole, spans, cur, style, "", ctx)
    ensures whole == Cells(spans) + Paint(cur, style)
  {
    assert Styled("", style, ctx) == [];
    assert Cells(spans) + Paint(cur, style) + [] == Cells(spans) + Paint(cur, style);
  }

  /** Parse a format into styled spans. */
  method Format(fmt: string, ctx: Context) returns (spans: seq<Span>)
    ensures Cells(spans) == Styled(fmt, [], ctx)
    ensures forall i :: 0 <= i < |spans| ==> spans[i].text != ""
    decreases |fmt|
  {
    hide Styled, Cells, BlockText, Emits;
    ghost var whole := Styled(fmt, [], ctx);
    spans := [];
    var cur, style, i: nat := "", [], 0;
    StartEmitting(fmt, ctx);
    while i < |fmt|
      invariant i <= |fmt|
      invariant Emits(whole, spans, cur, style, fmt[i..], ctx)
      invariant forall i :: 0 <= i < |spans| ==> spans[i].text != ""
    {
      TokenStands(fmt, i, style, ctx);
      var text, next: nat := [fmt[i]], i + 1;
      if fmt[i] == '#' && i + 1 < |fmt| {
        if fmt[i + 1] == '[' {
          var flushed := Flush(spans, cur, style);
          var spec, after := ReadSpec(fmt, i + 2);
          ChangeStyle(whole, spans, cur, style, fmt[i..], fmt[after..], flushed, style + [spec], ctx);
          spans, cur, style, i := flushed, "", style + [spec], after;
          continue;
        } else if fmt[i + 1] == '#' {
          text, next := "#", i + 2;
        } else if fmt[i + 1] == '{' {
          var body, after := ReadBlock(fmt, i + 2);
          text := SubstituteBlock(body, ctx);
          next := after;
        } else {
          text, next := ctx.variable(fmt[i + 1]), i + 2;
        }
      } else if fmt[i] == '%' && i + 1 < |fmt| {
        text, next := ctx.time(fmt[i + 1]), i + 2;
      }
      CollectText(whole, spans, cur, style, fmt, i, text, next, ctx);
      cur, i := cur + text, next;
    }
    assert fmt[i..] == "";
    StopEmitting(whole, spans, cur, style, ctx);
    spans := Flush(spans, cur, style);
  }

  /** The text of a block: a variable, or the text of the branch a conditional takes. */
  method SubstituteBlock(body: string, ctx: Context) returns (text: string)
    ensures text == BlockText(body, ctx)
    decreases |body|
  {
    if body != [] && body[0] == '?' {
      var parts := SplitTopLevel(body[1..], ',');
      var thenS := if |parts| > 1 then parts[1] else "";
      var elseS := if |parts| > 2 then parts[2] else "";
      var chosen := if Condition(parts[0], ctx) then thenS else elseS;
      assert chosen == Chosen(body, ctx);
      var spans := Format(chosen, ctx);
      text := JoinTexts(spans);
      return;
    }
    return ctx.named(body);
  }

  method JoinTexts(spans: seq<Span>) returns (text: string)
    ensures text == TextOf(Cells(spans))
  {
    text := "";
    for i := 0 to |spans|
      invariant text == TextOf(Cells(spans[..i]))
    {
      assert spans[..i + 1] == spans[..i] + [spans[i]];
      CellsConcat(spans[..i], [spans[i]]);
      assert [spans[i]][1..] == [];
      assert Cells([spans[i]]) == Paint(spans[i].text, spans[i].style);
      text := text + spans[i].text;
    }
    assert spans[..|spans|] == spans;
  }

  // ---------------------------------------------------------------- what formats promise

  /** Joining the pieces with the separator gives back the string. */
  function Join(pieces: seq<string>, sep: char): string
    requires pieces != []
  {
    if |pieces| == 1 then pieces[0] else pieces[0] + [sep] + Join(pieces[1..], sep)
  }

  lemma JoinExtend(head: string, pieces: seq<string>, sep: char)
    requires pieces != []
    ensures Join(Extend(head, pieces), sep) == head + Join(pieces, sep)
  {
    assert Extend(head, pieces)[1..] == pieces[1..];
    if |pieces| > 1 {
      assert head + pieces[0] + [sep] + Join(pieces[1..], sep) == head + (pieces[0] + [sep] + Join(pieces[1..], sep));
    }
  }

  lemma {:induction false} JoinSplit(s: string, sep: char, depth: int)
    ensures Join(Split(s, sep, depth), sep) == s
    decreases |s|
  {
    if s == [] {
    } else if s[0] == '#' && |s| > 1 && s[1] == '{' {
      JoinSplit(s[2..], sep, depth + 1);
      JoinExtend("#{", Split(s[2..], sep, depth + 1), sep);
      assert s == "#{" + s[2..];
    } else {
      assert s == [s[0]] + s[1..];
      if s[0] == '{' {
        JoinSplit(s[1..], sep, depth + 1);
        JoinExtend("{", Split(s[1..], sep, depth + 1), sep);
      } else if s[0] == '}' {
        JoinSplit(s[1..], sep, depth - 1);
        JoinExtend("}", Split(s[1..], sep, depth - 1), sep);
      } else {
        JoinSplit(s[1..], sep, depth);
        var rest := Split(s[1..], sep, depth);
        if s[0] == sep && depth == 0 {
          assert ([""] + rest)[1..] == rest && "" + [sep] + s[1..] == s;
        } else {
          JoinExtend([s[0]], rest, sep);
        }
      }
    }
  }

  /** Nested this deep after the string, starting from a depth; and never below zero on the way. */
  predicate Nests(s: string, from: int, to: int)
    decreases |s|
  {
    if s == [] then from == to
    else if s[0] == '{' then Nests(s[1..], from + 1, to)
    else if s[0] == '}' then from > 0 && Nests(s[1..], from - 1, to)
    else Nests(s[1..], from, to)
  }

  predicate Balanced(s: string) { Nests(s, 0, 0) }

  /** No separator stands outside all braces. */
  predicate NoTop(s: string, sep: char, depth: int)
    decreases |s|
  {
    s != [] ==>
      && !(s[0] == sep && depth == 0)
      && NoTop(s[1..], sep, if s[0] == '{' then depth + 1 else if s[0] == '}' then depth - 1 else depth)
  }

  /** A balanced body is read exactly to the brace that closes it. */
  lemma {:induction false} BlockReadsBalanced(s: string, rest: string, depth: nat)
    requires Nests(s, depth, 0)
    ensures Block(s + "}" + rest, depth) == (s, rest)
    decreases |s|
  {
    var all := s + "}" + rest;
    if s == [] {
      assert all[1..] == rest;
    } else {
      assert all[1..] == s[1..] + "}" + rest;
      BlockReadsBalanced(s[1..], rest, if s[0] == '{' then depth + 1 else if s[0] == '}' then depth - 1 else depth);
      assert [s[0]] + s[1..] == s;
    }
  }

  function Deeper(c: char, depth: int): int { if c == '{' then depth + 1 else if c == '}' then depth - 1 else depth }

  /** Splitting after a balanced piece splits the piece and the rest. */
  lemma {:induction false} SplitOff(s: string, rest: string, sep: char, depth: nat)
    requires sep !in "#{}" && Nests(s, depth, 0)
    ensures Split(s + [sep] + rest, sep, depth) == Split(s, sep, depth) + Split(rest, sep, 0)
    decreases |s|
  {
    var all := s + [sep] + rest;
    if s == [] {
      assert all[1..] == rest;
    } else if s[0] == '#' && |s| > 1 && s[1] == '{' {
      assert all[2..] == s[2..] + [sep] + rest && s[1..][1..] == s[2..];
      SplitOff(s[2..], rest, sep, depth + 1);
      ExtendConcat("#{", Split(s[2..], sep, depth + 1), Split(rest, sep, 0));
    } else {
      assert all[1..] == s[1..] + [sep] + rest;
      assert s[0] == '#' ==> all[1] != '{';
      var next := Deeper(s[0], depth);
      SplitOff(s[1..], rest, sep, next);
      ExtendConcat([s[0]], Split(s[1..], sep, next), Split(rest, sep, 0));
      FirstSplit(s, sep, depth);
      FirstSplit(all, sep, depth);
    }
  }

  lemma ExtendConcat(head: string, x: seq<string>, y: seq<string>)
    requires x != []
    ensures Extend(head, x + y) == Extend(head, x) + y
    ensures ([""] + x) + y == [""] + (x + y)
  {
  }

  lemma FirstSplit(s: string, sep: char, depth: int)
    requires s != [] && !(s[0] == '#' && |s| > 1 && s[1] == '{') && sep !in "#{}"
    ensures Split(s, sep, depth) ==
            if s[0] == sep && depth == 0 then [""] + Split(s[1..], sep, depth)
            else Extend([s[0]], Split(s[1..], sep, Deeper(s[0], depth)))
  {
  }

  /** A string is one piece exactly when no separator stands outside its braces; else its first piece is shorter. */
  lemma {:induction false} WholeIffNoTop(s: string, sep: char, depth: int)
    requires sep !in "#{}"
    ensures NoTop(s, sep, depth) ==> Split(s, sep, depth) == [s]
    ensures !NoTop(s, sep, depth) ==> |Split(s, sep, depth)| > 1 && |Split(s, sep, depth)[0]| < |s|
    decreases |s|
  {
    if s != [] {
      hide Split, NoTop, Extend;
      FrontOfTop(s, sep, depth);
      if s[0] == '#' && |s| > 1 && s[1] == '{' {
        WholeIffNoTop(s[2..], sep, depth + 1);
        ExtendedWhole("#{", Split(s[2..], sep, depth + 1));
        assert "#{" + s[2..] == s;
      } else {
        FirstSplit(s, sep, depth);
        WholeIffNoTop(s[1..], sep, Deeper(s[0], depth));
        ExtendedWhole([s[0]], Split(s[1..], sep, Deeper(s[0], depth)));
        assert [s[0]] + s[1..] == s;
      }
    }
  }

  lemma ExtendedWhole(head: string, pieces: seq<string>)
    requires pieces != []
    ensures |Extend(head, pieces)| == |pieces| && Extend(head, pieces)[0] == head + pieces[0]
    ensures |pieces| == 1 ==> Extend(head, pieces) == [head + pieces[0]]
  {
  }

  lemma FrontOfTop(s: string, sep: char, depth: int)
    requires s != [] && sep !in "#{}"
    ensures if s[0] == '#' && |s| > 1 && s[1] == '{'
            then Split(s, sep, depth) == Extend("#{", Split(s[2..], sep, depth + 1))
              && NoTop(s, sep, depth) == NoTop(s[2..], sep, depth + 1)
            else NoTop(s, sep, depth) == (!(s[0] == sep && depth == 0) && NoTop(s[1..], sep, Deeper(s[0], depth)))
  {
    if s[0] == '#' && |s| > 1 && s[1] == '{' {
      assert s[1..][1..] == s[2..];
      assert NoTop(s[1..], sep, depth) == NoTop(s[2..], sep, depth + 1);
    }
  }

  lemma {:induction false} NestsConcat(s: string, t: string, from: int, mid: int, to: int)
    requires Nests(s, from, mid) && Nests(t, mid, to)
    ensures Nests(s + t, from, to)
    decreases |s|
  {
    if s == [] {
      assert s + t == t;
    } else {
      assert (s + t)[1..] == s[1..] + t && (s + t)[0] == s[0];
      NestsConcat(s[1..], t, if s[0] == '{' then from + 1 else if s[0] == '}' then from - 1 else from, mid, to);
    }
  }

  /** A piece of a conditional: its braces match, and it has no comma outside them. */
  predicate Part(s: string) { Balanced(s) && NoTop(s, ',', 0) }

  function Conditional(c: string, a: string, b: string): string { "?" + (c + [','] + (a + [','] + b)) }

  lemma ConditionalBalances(c: string, a: string, b: string)
    requires Balanced(c) && Balanced(a) && Balanced(b)
    ensures Balanced(Conditional(c, a, b))
  {
    assert Nests([','], 0, 0) && Nests("?", 0, 0);
    NestsConcat(a, [','], 0, 0, 0);
    NestsConcat(a + [','], b, 0, 0, 0);
    NestsConcat(c, [','], 0, 0, 0);
    NestsConcat(c + [','], a + [','] + b, 0, 0, 0);
    NestsConcat("?", c + [','] + (a + [','] + b), 0, 0, 0);
  }

  lemma ConditionalSplits(c: string, a: string, b: string)
    requires Part(c) && Balanced(a)
    ensures Split(Conditional(c, a, b)[1..], ',', 0) == [c] + (Split(a, ',', 0) + Split(b, ',', 0))
  {
    assert Conditional(c, a, b)[1..] == c + [','] + (a + [','] + b);
    SplitOff(c, a + [','] + b, ',', 0);
    SplitOff(a, b, ',', 0);
    WholeIffNoTop(c, ',', 0);
  }

  /**
   Which branch survives: the first exactly when it has no comma outside its braces; the second,
   after such a first, exactly when it has none either; after another first, its second piece is
   taken for the second branch.
   */
  lemma BranchesSurviveWithoutOuterCommas(c: string, a: string, b: string, ctx: Context)
    requires Part(c) && Balanced(a)
    ensures var chosen := Chosen(Conditional(c, a, b), ctx);
      && (Condition(c, ctx) ==> chosen == Split(a, ',', 0)[0] && (chosen == a <==> NoTop(a, ',', 0)))
      && (!Condition(c, ctx) && NoTop(a, ',', 0)
        ==> chosen == Split(b, ',', 0)[0] && (chosen == b <==> NoTop(b, ',', 0)))
      && (!Condition(c, ctx) && !NoTop(a, ',', 0) ==> |Split(a, ',', 0)| > 1 && chosen == Split(a, ',', 0)[1])
  {
    ConditionalSplits(c, a, b);
    WholeIffNoTop(a, ',', 0);
    WholeIffNoTop(b, ',', 0);
    var pieces := [c] + (Split(a, ',', 0) + Split(b, ',', 0));
    assert pieces[0] == c && pieces[1] == Split(a, ',', 0)[0];
    assert pieces[2] == if |Split(a, ',', 0)| > 1 then Split(a, ',', 0)[1] else Split(b, ',', 0)[0];
  }

  /**
   A comma outside all braces, as in a style of several parts, ends the branch: the rest of it is
   taken for the other.
   */
  lemma StrayCommaCutsBranch(c: string, x: string, y: string, b: string, ctx: Context)
    requires Part(c) && Part(x) && Part(y)
    ensures Chosen(Conditional(c, x + [','] + y, b), ctx) == if Condition(c, ctx) then x else y
  {
    assert Conditional(c, x + [','] + y, b)[1..] == c + [','] + (x + [','] + (y + [','] + b));
    SplitOff(c, x + [','] + (y + [','] + b), ',', 0);
    SplitOff(x, y + [','] + b, ',', 0);
    SplitOff(y, b, ',', 0);
    WholeIffNoTop(c, ',', 0);
    WholeIffNoTop(x, ',', 0);
    WholeIffNoTop(y, ',', 0);
    var pieces := [c] + ([x] + ([y] + Split(b, ',', 0)));
    assert pieces[0] == c && pieces[1] == x && pieces[2] == y;
  }

  /** Every token of the format is finished, so that more may follow. */
  predicate Closed(p: string)
    decreases |p|
  {
    if p == [] then true
    else if p[0] == '#' then
      |p| > 1
      && (if p[1] == '[' then ']' in p[2..] && Closed(Spec(p[2..]).1)
          else if p[1] == '{' then Closes(p[2..], 0) && Closed(Block(p[2..], 0).1)
          else Closed(p[2..]))
    else if p[0] == '%' then |p| > 1 && Closed(p[2..])
    else Closed(p[1..])
  }

  /** The block's closing brace is there. */
  predicate Closes(s: string, depth: nat)
    decreases |s|
  {
    s != [] && (
      || (s[0] == '}' && depth == 0)
      || Closes(s[1..], if s[0] == '{' then depth + 1 else if s[0] == '}' then SatSub(depth, 1) else depth))
  }

  /** The style in force after a format. */
  function StyleAfter(p: string, style: Style): Style
    decreases |p|
  {
    if p == [] then style
    else if p[0] == '#' && |p| > 1 then
      if p[1] == '[' then StyleAfter(Spec(p[2..]).1, style + [Spec(p[2..]).0])
      else if p[1] == '{' then StyleAfter(Block(p[2..], 0).1, style)
      else StyleAfter(p[2..], style)
    else if p[0] == '%' && |p| > 1 then StyleAfter(p[2..], style)
    else StyleAfter(p[1..], style)
  }

  lemma {:induction false} BlockThenMore(s: string, f: string, depth: nat)
    requires Closes(s, depth)
    ensures Block(s + f, depth) == (Block(s, depth).0, Block(s, depth).1 + f)
    decreases |s|
  {
    assert (s + f)[1..] == s[1..] + f && (s + f)[0] == s[0];
    if !(s[0] == '}' && depth == 0) {
      BlockThenMore(s[1..], f, if s[0] == '{' then depth + 1 else if s[0] == '}' then depth - 1 else depth);
    }
  }

  lemma {:induction false} SpecThenMore(s: string, f: string)
    requires ']' in s
    ensures Spec(s + f) == (Spec(s).0, Spec(s).1 + f)
  {
    assert (s + f)[1..] == s[1..] + f && (s + f)[0] == s[0];
    if s[0] != ']' {
      assert s == [s[0]] + s[1..];
      SpecThenMore(s[1..], f);
    }
  }

  /** The first token of a finished format, whatever follows it. */
  lemma FirstToken(
    p: string, f: string, style: Style, ctx: Context)
    returns (head: seq<Cell>, rest: string, next: Style)
    requires Closed(p) && p != []
    ensures |rest| < |p| && Closed(rest) && StyleAfter(p, style) == StyleAfter(rest, next)
    ensures Styled(p, style, ctx) == head + Styled(rest, next, ctx)
    ensures Styled(p + f, style, ctx) == head + Styled(rest + f, next, ctx)
  {
    hide BlockText;
    var all := p + f;
    assert all[1..] == p[1..] + f && all[0] == p[0];
    if p[0] == '#' || p[0] == '%' {
      assert all[2..] == p[2..] + f && all[1] == p[1];
    }
    if p[0] == '#' && p[1] == '[' {
      SpecThenMore(p[2..], f);
      head, rest, next := [], Spec(p[2..]).1, style + [Spec(p[2..]).0];
      assert head + Styled(rest, next, ctx) == Styled(rest, next, ctx);
      assert head + Styled(rest + f, next, ctx) == Styled(rest + f, next, ctx);
    } else if p[0] == '#' && p[1] == '{' {
      BlockThenMore(p[2..], f, 0);
      head, rest, next := Paint(BlockText(Block(p[2..], 0).0, ctx), style), Block(p[2..], 0).1, style;
    } else if p[0] == '#' {
      head, rest, next := Paint(if p[1] == '#' then "#" else ctx.variable(p[1]), style), p[2..], style;
    } else if p[0] == '%' {
      head, rest, next := Paint(ctx.time(p[1]), style), p[2..], style;
    } else {
      head, rest, next := Paint([p[0]], style), p[1..], style;
    }
  }

  /** Formats compose: finished tokens followed by more stand for the one followed by the other. */
  lemma {:induction false} FormatsCompose(p: string, f: string, style: Style, ctx: Context)
    requires Closed(p)
    ensures Styled(p + f, style, ctx) == Styled(p, style, ctx) + Styled(f, StyleAfter(p, style), ctx)
    decreases |p|
  {
    if p == [] {
      assert p + f == f;
    } else {
      var head, rest, next := FirstToken(p, f, style, ctx);
      FormatsCompose(rest, f, next, ctx);
      Regroup(head, Styled(rest, next, ctx), Styled(f, StyleAfter(rest, next), ctx));
    }
  }

  lemma Regroup(a: seq<Cell>, b: seq<Cell>, c: seq<Cell>)
    ensures a + (b + c) == a + b + c
  {
  }

  /**
   In every context a conditional expands to the text of the branch chosen, for all branches with
   matching braces. When its condition holds that is the first branch exactly if this has no outer
   comma; when it fails, and the first has none, it is the second exactly if that has none.
   */
  lemma ConditionalExpands(p: string, c: string, a: string, b: string, rest: string, style: Style, ctx: Context)
    requires Closed(p) && Part(c) && Balanced(a) && Balanced(b)
    ensures var (after, branch) := (StyleAfter(p, style), Chosen(Conditional(c, a, b), ctx));
      && Styled(p + ("#{" + (Conditional(c, a, b) + "}" + rest)), style, ctx)
           == Styled(p, style, ctx) + (Paint(TextOf(Styled(branch, [], ctx)), after) + Styled(rest, after, ctx))
      && (Condition(c, ctx) ==> (branch == a <==> NoTop(a, ',', 0)))
      && (!Condition(c, ctx) && NoTop(a, ',', 0) ==> (branch == b <==> NoTop(b, ',', 0)))
  {
    var body := Conditional(c, a, b);
    var fmt := "#{" + (body + "}" + rest);
    FormatsCompose(p, fmt, style, ctx);
    ConditionalBalances(c, a, b);
    BlockReadsBalanced(body, rest, 0);
    BranchesSurviveWithoutOuterCommas(c, a, b, ctx);
    assert fmt[2..] == body + "}" + rest && fmt[0] == '#' && fmt[1] == '{';
  }

  /** Text with its format characters doubled. */
  function Escaped(text: string): string
  {
    if text == [] then ""
    else (if text[0] == '#' then "##" else if text[0] == '%' then "%%" else [text[0]]) + Escaped(text[1..])
  }

  /** Any text survives: doubled format characters stand for themselves. */
  lemma {:induction false} EscapedTextStands(text: string, style: Style, ctx: Context)
    requires ctx.time('%') == "%"
    ensures Styled(Escaped(text), style, ctx) == Paint(text, style)
    decreases |text|
  {
    if text != [] {
      EscapedTextStands(text[1..], style, ctx);
      var fmt := Escaped(text);
      TokenStands(fmt, 0, style, ctx);
      assert fmt[0..] == fmt;
      assert (if text[0] == '#' || text[0] == '%' then fmt[2..] else fmt[1..]) == Escaped(text[1..]);
      PaintMore([text[0]], text[1..], style);
      assert [text[0]] + text[1..] == text;
    }
  }

  // ---------------------------------------------------------------- formats written from their tokens

  /** What a format is made of, apart from how it is written. */
  datatype Token =
    | Char(c: char)
    | Hash
    | Variable(c: char)
    | Time(c: char)
    | StyleOf(spec: string)
    | Named(name: string)
    | If(name: string, yes: Tokens, no: Tokens)

  datatype Tokens = End | Then(first: Token, rest: Tokens)

  function WriteToken(t: Token): string
  {
    match t
    case Char(c) => [c]
    case Hash => "##"
    case Variable(c) => ['#', c]
    case Time(c) => ['%', c]
    case StyleOf(spec) => "#[" + spec + "]"
    case Named(name) => "#{" + name + "}"
    case If(name, yes, no) => "#{" + Conditional(name, Write(yes), Write(no)) + "}"
  }

  function Write(ts: Tokens): string
  {
    match ts
    case End => ""
    case Then(t, rest) => WriteToken(t) + Write(rest)
  }

  /** Tokens that can be written: no character does a second duty, and the braces and commas of a branch are its own. */
  predicate Writable(ts: Tokens)
  {
    match ts
    case End => true
    case Then(t, rest) =>
      && Writable(rest)
      && match t
         case Char(c) => c != '#' && c != '%'
         case Variable(c) => c !in "#[{"
         case StyleOf(spec) => ']' !in spec
         case Named(name) => Balanced(name) && (name == "" || name[0] != '?')
         case If(name, yes, no) => Part(name) && Writable(yes) && Writable(no) && Part(Write(yes)) && Part(Write(no))
         case _ => true
  }

  /** What tokens stand for, in a style: a conditional, the text of one of its branches. */
  function Mean(ts: Tokens, style: Style, ctx: Context): seq<Cell>
  {
    match ts
    case End => []
    case Then(Char(c), rest) => [Cell(c, style)] + Mean(rest, style, ctx)
    case Then(Hash, rest) => [Cell('#', style)] + Mean(rest, style, ctx)
    case Then(Variable(c), rest) => Paint(ctx.variable(c), style) + Mean(rest, style, ctx)
    case Then(Time(c), rest) => Paint(ctx.time(c), style) + Mean(rest, style, ctx)
    case Then(StyleOf(spec), rest) => Mean(rest, style + [spec], ctx)
    case Then(Named(name), rest) => Paint(ctx.named(name), style) + Mean(rest, style, ctx)
    case Then(If(name, yes, no), rest) =>
      var holds := if name == "client_prefix" then ctx.clientPrefix else ctx.named(name) != "";
      Paint(TextOf(if holds then Mean(yes, [], ctx) else Mean(no, [], ctx)), style) + Mean(rest, style, ctx)
  }

  lemma {:induction false} SpecReads(spec: string, rest: string)
    requires ']' !in spec
    ensures Spec(spec + "]" + rest) == (spec, rest)
  {
    var all := spec + "]" + rest;
    if spec == "" {
      assert all[1..] == rest;
    } else {
      assert all[1..] == spec[1..] + "]" + rest;
      SpecReads(spec[1..], rest);
      assert [spec[0]] + spec[1..] == spec;
    }
  }

  /** A block with a balanced body stands for the body's text. */
  lemma BlockStands(body: string, rest: string, style: Style, ctx: Context)
    requires Balanced(body)
    ensures Styled("#{" + body + "}" + rest, style, ctx)
      == Paint(BlockText(body, ctx), style) + Styled(rest, style, ctx)
  {
    var fmt := "#{" + body + "}" + rest;
    BlockReadsBalanced(body, rest, 0);
    assert fmt[2..] == body + "}" + rest && fmt[0] == '#' && fmt[1] == '{';
  }

  lemma StyleStands(spec: string, rest: string, style: Style, ctx: Context)
    requires ']' !in spec
    ensures Styled("#[" + spec + "]" + rest, style, ctx) == Styled(rest, style + [spec], ctx)
  {
    var fmt := "#[" + spec + "]" + rest;
    SpecReads(spec, rest);
    assert fmt[2..] == spec + "]" + rest && fmt[0] == '#' && fmt[1] == '[';
  }

  lemma PairStands(a: char, b: char, rest: string, style: Style, ctx: Context)
    requires a == '%' || (a == '#' && b !in "[{")
    ensures var text := if a == '%' then ctx.time(b) else if b == '#' then "#" else ctx.variable(b);
            Styled([a, b] + rest, style, ctx) == Paint(text, style) + Styled(rest, style, ctx)
  {
    assert ([a, b] + rest)[2..] == rest;
  }

  lemma CharStands(c: char, rest: string, style: Style, ctx: Context)
    requires c != '#' && c != '%'
    ensures Styled([c] + rest, style, ctx) == [Cell(c, style)] + Styled(rest, style, ctx)
  {
    assert ([c] + rest)[1..] == rest;
    assert Paint([c], style) == [Cell(c, style)];
  }

  /** A conditional written from its branches takes one of them. */
  lemma BranchIsTaken(name: string, a: string, b: string, ctx: Context)
    requires Part(name) && Part(a) && Part(b)
    ensures var body := Conditional(name, a, b);
      && Balanced(body)
      && BlockText(body, ctx) == TextOf(Styled(if Condition(name, ctx) then a else b, [], ctx))
  {
    hide Styled, Split, NoTop, Nests;
    ConditionalBalances(name, a, b);
    BranchesSurviveWithoutOuterCommas(name, a, b, ctx);
    assert Conditional(name, a, b)[0] == '?';
  }

  /** The format written from any tokens stands for what they mean, conditionals within conditionals included. */
  lemma {:induction false} WrittenFormatsMean(ts: Tokens, style: Style, ctx: Context)
    requires Writable(ts)
    ensures Styled(Write(ts), style, ctx) == Mean(ts, style, ctx)
    decreases ts
  {
    hide Styled, BlockText, Balanced, Part, Conditional;
    match ts
    case End => NothingStands(style, ctx);
    case Then(t, rest) =>
      WrittenFormatsMean(rest, match t case StyleOf(spec) => style + [spec] case _ => style, ctx);
      match t {
        case Char(c) => CharStands(c, Write(rest), style, ctx);
        case Hash => PairStands('#', '#', Write(rest), style, ctx);
        case Variable(c) => PairStands('#', c, Write(rest), style, ctx);
        case Time(c) => PairStands('%', c, Write(rest), style, ctx);
        case StyleOf(spec) => StyleStands(spec, Write(rest), style, ctx);
        case Named(name) =>
          BlockStands(name, Write(rest), style, ctx);
          NameStands(name, ctx);
        case If(name, yes, no) =>
          BranchIsTaken(name, Write(yes), Write(no), ctx);
          BlockStands(Conditional(name, Write(yes), Write(no)), Write(rest), style, ctx);
          WrittenFormatsMean(yes, [], ctx);
          WrittenFormatsMean(no, [], ctx);
      }
  }

  lemma NothingStands(style: Style, ctx: Context)
    ensures Styled("", style, ctx) == []
  {
  }

  lemma NameStands(name: string, ctx: Context)
    requires name == "" || name[0] != '?'
    ensures BlockText(name, ctx) == ctx.named(name)
  {
  }
}
