/**
 The input diagnostic: prints what each read decodes to, holding cut-off mouse reports like the
 server does. Text between two reports is printed as one line.
 */
module DebugInput {
  import opened Common
  import opened Streaming
  import opened Mouse
  import opened MouseStream

  datatype Line = Text(bytes: seq<Byte>) | Mouse(report: Report)

  function Typed(bytes: seq<Byte>): seq<Item>
  {
    seq(|bytes|, i requires 0 <= i < |bytes| => Key(bytes[i]))
  }

  /** The items a transcript stands for. */
  function Meaning(lines: seq<Line>): seq<Item>
  {
    if lines == [] then [] else
    (match lines[0] case Text(bytes) => Typed(bytes) case Mouse(report) => [Pointer(report, None)])
      + Meaning(lines[1..])
  }

  lemma {:induction false} MeaningConcat(a: seq<Line>, b: seq<Line>)
    ensures Meaning(a + b) == Meaning(a) + Meaning(b)
  {
    if a == [] {
      assert a + b == b;
    } else {
      assert (a + b)[1..] == a[1..] + b && (a + b)[0] == a[0];
      MeaningConcat(a[1..], b);
    }
  }

  lemma MeaningAppend(lines: seq<Line>, line: Line)
    ensures Meaning(lines + [line])
      == Meaning(lines) + (match line case Text(bytes) => Typed(bytes) case Mouse(report) => [Pointer(report, None)])
  {
    MeaningConcat(lines, [line]);
    assert [line][1..] == [];
  }

  lemma NothingTyped(items: seq<Item>)
    ensures items + Typed([]) == items
  {
    assert Typed([]) == [];
  }

  lemma NothingPrinted()
    ensures Meaning([]) + Typed([]) == []
  {
  }

  /** No text line is empty and no two are adjacent. */
  predicate Merged(lines: seq<Line>)
  {
    forall i :: 0 <= i < |lines| && lines[i].Text? ==> lines[i].bytes != [] && (i + 1 < |lines| ==> lines[i + 1].Mouse?)
  }

  /** Text may follow: the last line, if any, is a report. */
  predicate AfterReport(lines: seq<Line>) { Merged(lines) && (lines == [] || lines[|lines| - 1].Mouse?) }

  /** The server this program mirrors: reports change nothing, and no selection is ever pending. */
  const MIRROR: Server<()> := Server((_, _, _) => (), _ => false)

  method FlushText(lines: seq<Line>, text: seq<Byte>) returns (lines': seq<Line>)
    requires AfterReport(lines)
    ensures Merged(lines') && Meaning(lines') == Meaning(lines) + Typed(text)
  {
    if text == [] {
      return lines;
    }
    MeaningAppend(lines, Text(text));
    lines' := lines + [Text(text)];
  }

  /** A report ends the text before it. */
  method PrintReport(lines: seq<Line>, text: seq<Byte>, report: Report) returns (lines': seq<Line>)
    requires AfterReport(lines)
    ensures AfterReport(lines') && Meaning(lines') + Typed([]) == Meaning(lines) + Typed(text) + [Pointer(report, None)]
  {
    hide Meaning, Typed;
    lines' := FlushText(lines, text);
    MeaningAppend(lines', Mouse(report));
    lines' := lines' + [Mouse(report)];
    NothingTyped(Meaning(lines'));
  }

  lemma TypeByte(lines: seq<Line>, text: seq<Byte>, b: Byte)
    ensures Meaning(lines) + Typed(text + [b]) == Meaning(lines) + Typed(text) + [Key(b)]
  {
    assert Typed(text + [b]) == Typed(text) + [Key(b)];
  }

  /** With the lines printed and the text collected so far, decoding goes on at byte `i`. */
  ghost predicate Printing(
    whole: Scanned<Tagged, Item, ()>, s: seq<Tagged>, i: nat, lines: seq<Line>, text: seq<Byte>)
  {
    GoesOn(MIRROR, whole, (), s, i, Meaning(lines) + Typed(text))
  }

  lemma StartPrinting(s: seq<Tagged>)
    ensures Printing(Decode(MIRROR, (), s), s, 0, [], [])
  {
    NothingPrinted();
    StartDecoding(MIRROR, (), s);
  }

  lemma CollectKey(whole: Scanned<Tagged, Item, ()>, s: seq<Tagged>, i: nat, lines: seq<Line>, text: seq<Byte>)
    requires i < |s| && Printing(whole, s, i, lines, text)
    requires var tail := Bytes(s)[i..]; Parsed(tail).None? && !IsPartial(tail)
    ensures Printing(whole, s, i + 1, lines, text + [s[i].b])
  {
    hide Parsed, Meaning, Typed, IsPartial, IsIntroducerPrefix, GoesOn, Keys;
    var done := Meaning(lines) + Typed(text);
    TakeKey(MIRROR, whole, (), s, i, done, i + 1, done + [Key(s[i].b)]);
    TypeByte(lines, text, s[i].b);
  }

  lemma ReportPrinted(
    whole: Scanned<Tagged, Item, ()>, s: seq<Tagged>, i: nat, lines: seq<Line>, text: seq<Byte>, report: Report,
    i': nat, lines': seq<Line>)
    requires i < |s| && Printing(whole, s, i, lines, text) && s[i].epoch == None
    requires i <= i' && Parsed(Bytes(s)[i..]) == Some((report, i' - i))
    requires Meaning(lines') + Typed([]) == Meaning(lines) + Typed(text) + [Pointer(report, None)]
    ensures i < i' <= |s| && Printing(whole, s, i', lines', [])
  {
    hide Parsed, Meaning, Typed, GoesOn, Keys;
    var done := Meaning(lines) + Typed(text);
    TakeReport(MIRROR, whole, (), s, i, done, report, (), i', done + [Pointer(report, None)]);
  }

  lemma StopPrinting(whole: Scanned<Tagged, Item, ()>, s: seq<Tagged>, i: nat, lines: seq<Line>, text: seq<Byte>)
    requires i <= |s| && Printing(whole, s, i, lines, text)
    requires var tail := Bytes(s)[i..]; tail == [] || (Parsed(tail).None? && IsPartial(tail))
    ensures whole.items == Meaning(lines) + Typed(text) && Bytes(whole.pending) == Bytes(s)[i..]
  {
    hide Parsed, Meaning, Typed, IsPartial, IsIntroducerPrefix, GoesOn;
    StopAt(MIRROR, whole, (), s, i, Meaning(lines) + Typed(text));
  }

  /** What one read prints and leaves for the next. */
  method DecodeRead(bytes: seq<Byte>) returns (lines: seq<Line>, rest: seq<Byte>)
    ensures var r := Decode(MIRROR, (), TagAll(bytes, None)); Meaning(lines) == r.items && rest == Bytes(r.pending)
    ensures Merged(lines)
  {
    hide Parsed, Meaning, Typed, IsPartial, Printing, Decode;
    ghost var s := TagAll(bytes, None);
    ghost var whole := Decode(MIRROR, (), s);
    assert Bytes(s) == bytes && forall i :: 0 <= i < |s| ==> s[i] == Tagged(bytes[i], None);
    StartPrinting(s);
    lines := [];
    var text: seq<Byte> := [];
    var i := 0;
    while i < |bytes|
      invariant 0 <= i <= |bytes| && AfterReport(lines) && Printing(whole, s, i, lines, text)
    {
      var tail := bytes[i..];
      var parsed := Parse(tail);
      if parsed.Some? {
        var lines' := PrintReport(lines, text, parsed.value.0);
        ReportPrinted(whole, s, i, lines, text, parsed.value.0, i + parsed.value.1, lines');
        lines, text := lines', [];
        i := i + parsed.value.1;
      } else if IsPartial(tail) {
        StopPrinting(whole, s, i, lines, text);
        lines := FlushText(lines, text);
        rest := tail;
        return;
      } else {
        CollectKey(whole, s, i, lines, text);
        text := text + [bytes[i]];
        i := i + 1;
      }
    }
    StopPrinting(whole, s, i, lines, text);
    lines := FlushText(lines, text);
    rest := [];
  }

  /** The diagnostic shows what the server acts on: without a selection both decode every stream alike. */
  lemma {:induction false} MirrorsTheServer<W(!new)>(sv: Server<W>, w: W, s: seq<Tagged>)
    requires forall u :: !sv.selecting(u)
    ensures Decode(sv, w, s).items == Decode(MIRROR, (), s).items
      && Decode(sv, w, s).pending == Decode(MIRROR, (), s).pending
    decreases |s|
  {
    hide Parsed;
    DecodeFront(sv, w, s);
    DecodeFront(MIRROR, (), s);
    var f := Decide(sv, w, s);
    if f.Take? {
      MirrorsTheServer(sv, f.mode, s[f.n..]);
    }
  }
}
