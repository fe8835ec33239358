/**
 * The event transducer of `generate_core_xml` (src/main.rs:316-362): a start tag of
 * `dcterms:created` or `dcterms:modified` is re-emitted with the new date as its only
 * text and a synthesized end tag, the original events up to the matching end tag are
 * skipped; stray end tags of those two names are dropped; every other event is copied.
 *
 * The writer escapes the new dates (`BytesText::new`); that escaping is not modelled
 * here: the rewriter is given `texts`, the raw text the writer puts out for each date.
 */
module CoreRewrite {
  import opened Outcomes
  import opened XmlEvents
  import opened MetadataScan

  /** What the loop of `generate_core_xml` ends with: the events written, the
      tokenizer's error ("XML processing error: ..."), or a panic of the
      `read_to_end_into(..).unwrap()` that skips a date element with no matching end. */
  datatype Rewritten = Emitted(events: seq<Event>) | XmlFailed(msg: string) | Panicked(tag: string)

  function Prepend(prefix: seq<Event>, r: Rewritten): Rewritten {
    if r.Emitted? then Emitted(prefix + r.events) else r
  }

  /** The events written for the date element opened by `e`, holding the raw `text`. */
  function DateElement(e: Event, text: string): seq<Event>
    requires e.Start?
  {
    [e, Text(text), End(e.name)]
  }

  /** Writes the start tag `e` and `text`, skips the original element up to its
      matching end tag and writes that end tag; `false` when no end tag matches. */
  method WriteDateElement(reader: Reader, writer: Writer, e: Event, text: string) returns (closed: bool)
    requires reader.Valid() && e.Start?
    modifies reader, writer
    ensures reader.Valid()
    ensures closed == MatchEnd(old(reader.Rest()), e.name).Some?
    ensures closed ==> writer.written == old(writer.written) + DateElement(e, text)
    ensures closed ==> reader.Rest() == old(reader.Rest())[MatchEnd(old(reader.Rest()), e.name).value + 1..]
    ensures closed ==> reader.Pending() == old(reader.Pending())
  {
    writer.WriteEvent(e);
    writer.WriteEvent(Text(text));
    var skipped := reader.ReadToEnd(e.name);
    if skipped.None? {
      return false;
    }
    writer.WriteEvent(End(e.name));
    return true;
  }

  /** The loop of `generate_core_xml` over the events not read yet. */
  function Rewrite(es: seq<Event>, end: StreamEnd, texts: Dates): (r: Rewritten)
    ensures end.Malformed? ==> !r.Emitted?
    decreases |es|
  {
    if es == [] then
      if end.Malformed? then XmlFailed(end.msg) else Emitted([])
    else
      var e, rest := es[0], es[1..];
      if e.Start? && IsDateTag(e.name) then
        match MatchEnd(rest, e.name)
        case Some(k) => Prepend(DateElement(e, texts.Get(e.name)), Rewrite(rest[k + 1..], end, texts))
        case None => Panicked(e.name)
      else if e.End? && IsDateTag(e.name) then
        Rewrite(rest, end, texts)
      else
        Prepend([e], Rewrite(rest, end, texts))
  }

  /** The loop of `generate_core_xml`, over a reader and a writer (src/main.rs:316-362). */
  method RewriteEvents(s: Stream, texts: Dates) returns (r: Rewritten)
    ensures r == Rewrite(s.events, s.end, texts)
  {
    var reader := new Reader(s);
    var writer := new Writer();
    while true
      invariant reader.Valid() && reader.Pending() == s.end
      invariant Prepend(writer.written, Rewrite(reader.Rest(), s.end, texts))
                == Rewrite(s.events, s.end, texts)
      decreases |reader.Rest()|
    {
      ghost var before := reader.Rest();
      ghost var written := writer.written;
      var ev := reader.ReadEvent();
      if ev.Stop? {
        assert before == [];
        if ev.end.Malformed? {
          return XmlFailed(ev.end.msg);
        }
        assert written + [] == written;
        return Emitted(writer.written);
      }
      var e := ev.event;
      assert before != [] && before[0] == e && reader.Rest() == before[1..];
      if e.Start? && IsDateTag(e.name) {
        var text := if e.name == CreatedTag then texts.created else texts.modified;
        assert text == texts.Get(e.name);
        var closed := WriteDateElement(reader, writer, e, text);
        if !closed {
          return Panicked(e.name);
        }
        DateStep(written, before, reader.Rest(), s.end, texts);
      } else if e.End? && IsDateTag(e.name) {
        RewriteOtherStep(before, s.end, texts);
      } else {
        writer.WriteEvent(e);
        CopyStep(written, before, s.end, texts);
      }
    }
  }

  /** The loop invariant of `RewriteEvents` across a date element. */
  lemma DateStep(written: seq<Event>, es: seq<Event>, after: seq<Event>, end: StreamEnd, texts: Dates)
    requires es != [] && es[0].Start? && IsDateTag(es[0].name) && MatchEnd(es[1..], es[0].name).Some?
    requires after == es[1..][MatchEnd(es[1..], es[0].name).value + 1..]
    ensures Prepend(written + DateElement(es[0], texts.Get(es[0].name)), Rewrite(after, end, texts))
            == Prepend(written, Rewrite(es, end, texts))
  {
    RewriteStartStep(es, end, texts);
    PrependPrepend(written, DateElement(es[0], texts.Get(es[0].name)), Rewrite(after, end, texts));
  }

  /** The loop invariant of `RewriteEvents` across a copied event. */
  lemma CopyStep(written: seq<Event>, es: seq<Event>, end: StreamEnd, texts: Dates)
    requires es != [] && !((es[0].Start? || es[0].End?) && IsDateTag(es[0].name))
    ensures Prepend(written + [es[0]], Rewrite(es[1..], end, texts)) == Prepend(written, Rewrite(es, end, texts))
  {
    RewriteOtherStep(es, end, texts);
    PrependPrepend(written, [es[0]], Rewrite(es[1..], end, texts));
  }

  lemma PrependPrepend(a: seq<Event>, b: seq<Event>, r: Rewritten)
    ensures Prepend(a, Prepend(b, r)) == Prepend(a + b, r)
  {
    if r.Emitted? {
      assert a + (b + r.events) == (a + b) + r.events;
    }
  }

  /** One step of `Rewrite` at a date start tag whose matching end exists. */
  lemma RewriteStartStep(es: seq<Event>, end: StreamEnd, texts: Dates)
    requires es != [] && es[0].Start? && IsDateTag(es[0].name) && MatchEnd(es[1..], es[0].name).Some?
    ensures var k := MatchEnd(es[1..], es[0].name).value;
      Rewrite(es, end, texts)
      == Prepend(DateElement(es[0], texts.Get(es[0].name)), Rewrite(es[1..][k + 1..], end, texts))
  {
  }

  /** One step of `Rewrite` at any other event: a date end tag is dropped, the rest copied. */
  lemma RewriteOtherStep(es: seq<Event>, end: StreamEnd, texts: Dates)
    requires es != [] && !(es[0].Start? && IsDateTag(es[0].name))
    ensures Rewrite(es, end, texts)
            == if es[0].End? && IsDateTag(es[0].name) then Rewrite(es[1..], end, texts)
               else Prepend([es[0]], Rewrite(es[1..], end, texts))
  {
  }

  /** Events that open or close neither date element are copied unchanged and in order:
      a prefix of them is written as it is, ahead of whatever the rest becomes. */
  lemma {:induction false} RewriteCopiesUnrelated(pre: seq<Event>, post: seq<Event>, end: StreamEnd, texts: Dates)
    requires forall i :: 0 <= i < |pre| ==> !((pre[i].Start? || pre[i].End?) && IsDateTag(pre[i].name))
    ensures Rewrite(pre + post, end, texts) == Prepend(pre, Rewrite(post, end, texts))
    decreases |pre|
  {
    if pre == [] {
      assert pre + post == post;
    } else {
      var es := pre + post;
      assert es[0] == pre[0];
      assert es[1..] == pre[1..] + post;
      RewriteCopiesUnrelated(pre[1..], post, end, texts);
      PrependPrepend([pre[0]], pre[1..], Rewrite(post, end, texts));
      assert [pre[0]] + pre[1..] == pre;
    }
  }

  /** A document without date elements is written back unchanged. */
  lemma RewriteIsIdentityWithoutDates(es: seq<Event>, texts: Dates)
    requires forall i :: 0 <= i < |es| ==> !((es[i].Start? || es[i].End?) && IsDateTag(es[i].name))
    ensures Rewrite(es, Eof, texts) == Emitted(es)
  {
    RewriteCopiesUnrelated(es, [], Eof, texts);
    assert es + [] == es;
  }

  /** A date start tag at `i` with no matching end tag after it. */
  predicate UnclosedDate(es: seq<Event>, i: nat) {
    i < |es| && es[i].Start? && IsDateTag(es[i].name) && MatchEnd(es[i + 1..], es[i].name).None?
  }

  /** The rewrite panics only at a date start tag whose element never closes, and the
      panic names that tag. */
  lemma {:induction false} PanicNeedsUnclosedDate(es: seq<Event>, end: StreamEnd, texts: Dates)
    requires Rewrite(es, end, texts).Panicked?
    ensures exists i: nat :: UnclosedDate(es, i) && es[i].name == Rewrite(es, end, texts).tag
    decreases |es|
  {
    var e, rest := es[0], es[1..];
    if e.Start? && IsDateTag(e.name) {
      match MatchEnd(rest, e.name)
      case None =>
        assert UnclosedDate(es, 0);
      case Some(k) =>
        var tail := rest[k + 1..];
        assert Rewrite(es, end, texts) == Prepend(DateElement(e, texts.Get(e.name)), Rewrite(tail, end, texts));
        PanicNeedsUnclosedDate(tail, end, texts);
        var j: nat :| UnclosedDate(tail, j) && tail[j].name == Rewrite(tail, end, texts).tag;
        UnclosedDateShifts(es, k + 2, j);
    } else {
      PanicNeedsUnclosedDate(rest, end, texts);
      var j: nat :| UnclosedDate(rest, j) && rest[j].name == Rewrite(rest, end, texts).tag;
      UnclosedDateShifts(es, 1, j);
    }
  }

  /** An unclosed date start tag of a suffix is one of the whole sequence. */
  lemma UnclosedDateShifts(es: seq<Event>, d: nat, j: nat)
    requires d <= |es| && UnclosedDate(es[d..], j)
    ensures UnclosedDate(es, d + j) && es[d + j] == es[d..][j]
  {
    assert es[d + j + 1..] == es[d..][j + 1..];
  }

  /** When every date start tag has a matching end tag, the rewrite does not panic. */
  lemma DatesClosedNoPanic(es: seq<Event>, end: StreamEnd, texts: Dates)
    requires forall i :: 0 <= i < |es| && es[i].Start? && IsDateTag(es[i].name) ==>
      MatchEnd(es[i + 1..], es[i].name).Some?
    ensures !Rewrite(es, end, texts).Panicked?
  {
    if Rewrite(es, end, texts).Panicked? {
      PanicNeedsUnclosedDate(es, end, texts);
    }
  }

  /** The first date start tag is always reached: when its element never closes, the
      rewrite panics with its name. */
  lemma {:induction false} FirstUnclosedDatePanics(es: seq<Event>, end: StreamEnd, texts: Dates, i: nat)
    requires UnclosedDate(es, i)
    requires forall j :: 0 <= j < i ==> !(es[j].Start? && IsDateTag(es[j].name))
    ensures Rewrite(es, end, texts) == Panicked(es[i].name)
    decreases i
  {
    if i > 0 {
      RewriteOtherStep(es, end, texts);
      assert es[1..][i - 1] == es[i] && es[1..][i..] == es[i + 1..];
      FirstUnclosedDatePanics(es[1..], end, texts, i - 1);
    }
  }

  /** Every date start tag in `out` is followed by the new date's text and its own end tag. */
  predicate DatesHoldNewValues(out: seq<Event>, texts: Dates) {
    forall i :: 0 <= i < |out| && out[i].Start? && IsDateTag(out[i].name) ==>
      i + 2 < |out| && out[i + 1] == Text(texts.Get(out[i].name)) && out[i + 2] == End(out[i].name)
  }

  /** Every date end tag in `out` closes a date start tag two events earlier. */
  predicate DateEndsSynthesized(out: seq<Event>) {
    forall i :: 0 <= i < |out| && out[i].End? && IsDateTag(out[i].name) ==>
      2 <= i && Opens(out[i - 2], out[i].name)
  }

  /** In the output every date start tag is followed by the new date's text and its own
      end tag, and every date end tag is one of those synthesized ones. */
  lemma {:induction false} RewrittenDatesHoldNewValues(es: seq<Event>, end: StreamEnd, texts: Dates)
    requires Rewrite(es, end, texts).Emitted?
    ensures DatesHoldNewValues(Rewrite(es, end, texts).events, texts)
    ensures DateEndsSynthesized(Rewrite(es, end, texts).events)
    decreases |es|
  {
    if es != [] {
      var e, rest := es[0], es[1..];
      if e.Start? && IsDateTag(e.name) {
        var k := MatchEnd(rest, e.name).value;
        RewrittenDatesHoldNewValues(rest[k + 1..], end, texts);
        ShapeAfterDateElement(e, Rewrite(rest[k + 1..], end, texts).events, texts);
      } else {
        RewrittenDatesHoldNewValues(rest, end, texts);
        if !(e.End? && IsDateTag(e.name)) {
          ShapeAfterOther(e, Rewrite(rest, end, texts).events, texts);
        }
      }
    }
  }

  lemma ShapeAfterDateElement(e: Event, tail: seq<Event>, texts: Dates)
    requires e.Start? && IsDateTag(e.name)
    requires DatesHoldNewValues(tail, texts) && DateEndsSynthesized(tail)
    ensures var out := DateElement(e, texts.Get(e.name)) + tail;
      DatesHoldNewValues(out, texts) && DateEndsSynthesized(out)
  {
    var out := DateElement(e, texts.Get(e.name)) + tail;
    forall i | 0 <= i < |out| && out[i].Start? && IsDateTag(out[i].name)
      ensures i + 2 < |out| && out[i + 1] == Text(texts.Get(out[i].name)) && out[i + 2] == End(out[i].name)
    {
      if i >= 3 { assert tail[i - 3] == out[i]; }
    }
    forall i | 0 <= i < |out| && out[i].End? && IsDateTag(out[i].name)
      ensures 2 <= i && Opens(out[i - 2], out[i].name)
    {
      if i >= 3 { assert tail[i - 3] == out[i]; }
    }
  }

  lemma ShapeAfterOther(e: Event, tail: seq<Event>, texts: Dates)
    requires !((e.Start? || e.End?) && IsDateTag(e.name))
    requires DatesHoldNewValues(tail, texts) && DateEndsSynthesized(tail)
    ensures DatesHoldNewValues([e] + tail, texts) && DateEndsSynthesized([e] + tail)
  {
    var out := [e] + tail;
    forall i | 0 <= i < |out| && out[i].Start? && IsDateTag(out[i].name)
      ensures i + 2 < |out| && out[i + 1] == Text(texts.Get(out[i].name)) && out[i + 2] == End(out[i].name)
    {
      assert i >= 1;
      assert tail[i - 1] == out[i];
    }
    forall i | 0 <= i < |out| && out[i].End? && IsDateTag(out[i].name)
      ensures 2 <= i && Opens(out[i - 2], out[i].name)
    {
      assert i >= 1;
      assert tail[i - 1] == out[i];
    }
  }

  /** Rewriting is idempotent: a rewritten document is rewritten to itself. */
  lemma {:induction false} RewriteIdempotent(es: seq<Event>, end: StreamEnd, texts: Dates)
    requires Rewrite(es, end, texts).Emitted?
    ensures var out := Rewrite(es, end, texts).events;
      Rewrite(out, Eof, texts) == Emitted(out)
    decreases |es|
  {
    if es != [] {
      var e, rest := es[0], es[1..];
      if e.Start? && IsDateTag(e.name) {
        var k := MatchEnd(rest, e.name).value;
        var tail := Rewrite(rest[k + 1..], end, texts).events;
        RewriteIdempotent(rest[k + 1..], end, texts);
        RewriteDateElement(e, texts.Get(e.name), tail, texts);
      } else if e.End? && IsDateTag(e.name) {
        RewriteIdempotent(rest, end, texts);
      } else {
        RewriteIdempotent(rest, end, texts);
        var tail := Rewrite(rest, end, texts).events;
        RewriteCopiesUnrelated([e], tail, Eof, texts);
      }
    }
  }

  /** A date element already in rewritten form is rewritten to itself. */
  lemma RewriteDateElement(e: Event, text: string, tail: seq<Event>, texts: Dates)
    requires e.Start? && IsDateTag(e.name) && text == texts.Get(e.name)
    ensures Rewrite(DateElement(e, text) + tail, Eof, texts)
            == Prepend(DateElement(e, text), Rewrite(tail, Eof, texts))
  {
    var es := DateElement(e, text) + tail;
    var rest := es[1..];
    assert rest == [Text(text)] + [End(e.name)] + tail;
    MatchEndSkipsUnrelated([Text(text)], tail, e.name);
    assert rest[2..] == tail;
  }

  /** Whether `es` holds a start tag of `tag`. */
  predicate Mentions(es: seq<Event>, tag: string) {
    exists i :: 0 <= i < |es| && Opens(es[i], tag)
  }

  lemma MentionsAppend(a: seq<Event>, b: seq<Event>, tag: string)
    ensures Mentions(a + b, tag) <==> Mentions(a, tag) || Mentions(b, tag)
  {
    if Mentions(a + b, tag) {
      var i :| 0 <= i < |a + b| && Opens((a + b)[i], tag);
      if i >= |a| { assert b[i - |a|] == (a + b)[i]; }
    }
    if Mentions(a, tag) {
      var i :| 0 <= i < |a| && Opens(a[i], tag);
      assert (a + b)[i] == a[i];
    }
    if Mentions(b, tag) {
      var i :| 0 <= i < |b| && Opens(b[i], tag);
      assert (a + b)[i + |a|] == b[i];
    }
  }

  /** The dates a scan of the rewritten document `out` ends with, starting from `acc`. */
  function Expected(out: seq<Event>, texts: Dates, acc: Dates): Dates {
    Dates(if Mentions(out, CreatedTag) then texts.created else acc.created,
          if Mentions(out, ModifiedTag) then texts.modified else acc.modified)
  }

  /** Scanning a synthesized date element sets that date to the element's text. */
  lemma ScanDateElement(e: Event, text: string, tail: seq<Event>, acc: Dates)
    requires e.Start? && IsDateTag(e.name)
    ensures ScanEvents(DateElement(e, text) + tail, Eof, acc) == ScanEvents(tail, Eof, acc.With(e.name, text))
  {
    var es := DateElement(e, text) + tail;
    var rest := es[1..];
    assert rest == [Text(text)] + [End(e.name)] + tail;
    MatchEndSkipsUnrelated([Text(text)], tail, e.name);
    assert rest[..1] == [Text(text)];
    assert Render([Text(text)]) == text;
    assert rest[2..] == tail;
  }

  /** A synthesized date element makes the scan expect its new text for that date. */
  lemma ExpectedAfterDateElement(e: Event, tail: seq<Event>, texts: Dates, acc: Dates)
    requires e.Start? && IsDateTag(e.name)
    ensures var block := DateElement(e, texts.Get(e.name));
      Expected(block + tail, texts, acc) == Expected(tail, texts, acc.With(e.name, texts.Get(e.name)))
  {
    var block := DateElement(e, texts.Get(e.name));
    MentionsAppend(block, tail, CreatedTag);
    MentionsAppend(block, tail, ModifiedTag);
    assert Opens(block[0], e.name);
    assert Mentions(block, CreatedTag) <==> e.name == CreatedTag;
    assert Mentions(block, ModifiedTag) <==> e.name == ModifiedTag;
  }

  /** A copied event opens no date element, so it changes nothing the scan expects. */
  lemma ExpectedAfterOther(e: Event, tail: seq<Event>, texts: Dates, acc: Dates)
    requires !(e.Start? && IsDateTag(e.name))
    ensures Expected([e] + tail, texts, acc) == Expected(tail, texts, acc)
  {
    MentionsAppend([e], tail, CreatedTag);
    MentionsAppend([e], tail, ModifiedTag);
    assert !Mentions([e], CreatedTag) && !Mentions([e], ModifiedTag);
  }

  /** Scanning a copied event that neither opens nor closes a date element changes nothing. */
  lemma ScanOther(e: Event, tail: seq<Event>, acc: Dates)
    requires !((e.Start? || e.End?) && IsDateTag(e.name))
    ensures ScanEvents([e] + tail, Eof, acc) == ScanEvents(tail, Eof, acc)
  {
    assert ([e] + tail)[0] == e && ([e] + tail)[1..] == tail;
  }

  /** Scanning a rewritten document finds the new text for every date element it holds. */
  lemma {:induction false} ScanOfRewritten(es: seq<Event>, end: StreamEnd, texts: Dates, acc: Dates)
    requires Rewrite(es, end, texts).Emitted?
    ensures var out := Rewrite(es, end, texts).events;
      ScanEvents(out, Eof, acc) == Ok(Expected(out, texts, acc))
    decreases |es|
  {
    var out := Rewrite(es, end, texts).events;
    if es == [] {
      assert !Mentions(out, CreatedTag) && !Mentions(out, ModifiedTag);
    } else {
      var e, rest := es[0], es[1..];
      if e.Start? && IsDateTag(e.name) {
        var k := MatchEnd(rest, e.name).value;
        var text := texts.Get(e.name);
        var tail := Rewrite(rest[k + 1..], end, texts).events;
        RewriteStartStep(es, end, texts);
        assert out == DateElement(e, text) + tail;
        ScanOfRewritten(rest[k + 1..], end, texts, acc.With(e.name, text));
        ScanDateElement(e, text, tail, acc);
        ExpectedAfterDateElement(e, tail, texts, acc);
      } else if e.End? && IsDateTag(e.name) {
        RewriteOtherStep(es, end, texts);
        ScanOfRewritten(rest, end, texts, acc);
      } else {
        RewriteOtherStep(es, end, texts);
        ScanOfRewritten(rest, end, texts, acc);
        var tail := Rewrite(rest, end, texts).events;
        assert out == [e] + tail;
        ScanOther(e, tail, acc);
        ExpectedAfterOther(e, tail, texts, acc);
      }
    }
  }

  /** Whether the scan of `es` reaches a start tag `tag`: it looks at every event but
      those inside a date element it has read the text of. */
  predicate ScanMeets(es: seq<Event>, tag: string)
    decreases |es|
  {
    if es == [] then false
    else
      var e, rest := es[0], es[1..];
      if e.Start? && IsDateTag(e.name) then
        e.name == tag || match MatchEnd(rest, e.name)
                         case Some(k) => ScanMeets(rest[k + 1..], tag)
                         case None => false
      else
        ScanMeets(rest, tag)
  }

  /** Every date start tag the scan of the original reaches, and so every date whose
      value the scan changes, is present in the rewritten document. */
  lemma {:induction false} SeenDatesAreRewritten(es: seq<Event>, texts: Dates, acc: Dates)
    requires Rewrite(es, Eof, texts).Emitted?
    ensures var out := Rewrite(es, Eof, texts).events;
      && (ScanMeets(es, CreatedTag) ==> Mentions(out, CreatedTag))
      && (ScanMeets(es, ModifiedTag) ==> Mentions(out, ModifiedTag))
    ensures var out := Rewrite(es, Eof, texts).events;
      var d := ScanEvents(es, Eof, acc).value;
      && (d.created != acc.created ==> Mentions(out, CreatedTag))
      && (d.modified != acc.modified ==> Mentions(out, ModifiedTag))
    decreases |es|
  {
    var out := Rewrite(es, Eof, texts).events;
    if es != [] {
      var e, rest := es[0], es[1..];
      if e.Start? && IsDateTag(e.name) {
        var k := MatchEnd(rest, e.name).value;
        var block := DateElement(e, texts.Get(e.name));
        var tail := Rewrite(rest[k + 1..], Eof, texts).events;
        RewriteStartStep(es, Eof, texts);
        assert out == block + tail;
        SeenDatesAreRewritten(rest[k + 1..], texts, acc.With(e.name, Render(rest[..k])));
        MentionsAppend(block, tail, CreatedTag);
        MentionsAppend(block, tail, ModifiedTag);
        assert Opens(block[0], e.name);
      } else if e.End? && IsDateTag(e.name) {
        RewriteOtherStep(es, Eof, texts);
        SeenDatesAreRewritten(rest, texts, acc);
      } else {
        RewriteOtherStep(es, Eof, texts);
        SeenDatesAreRewritten(rest, texts, acc);
        var tail := Rewrite(rest, Eof, texts).events;
        assert out == [e] + tail;
        MentionsAppend([e], tail, CreatedTag);
        MentionsAppend([e], tail, ModifiedTag);
      }
    }
  }

  /** Round trip: when the original `core.xml` loads and the written date texts are
      non-empty, loading the rewritten document gives back exactly those texts. */
  lemma RoundTrip(s: Stream, texts: Dates)
    requires LoadCore(s).Ok?
    requires Rewrite(s.events, s.end, texts).Emitted?
    requires texts.created != "" && texts.modified != ""
    ensures LoadCore(Stream(Rewrite(s.events, s.end, texts).events, Eof)) == Ok(texts)
  {
    SeenDatesAreRewritten(s.events, texts, NoDates);
    ScanOfRewritten(s.events, s.end, texts, NoDates);
  }
}
