/**
 * The XML event stream that the `quick_xml` reader delivers for `docProps/core.xml`,
 * and the reader and writer objects that `load_metadata` and `generate_core_xml`
 * (src/main.rs) drive. Tokenizing and escaping belong to `quick_xml` and are not
 * modelled: a document is given as the events its tokenizer yields, followed by
 * how the tokenizer stopped (end of input, or a syntax error).
 */
module XmlEvents {
  import opened Outcomes

  /** One event of the pull parser. `Text` carries the raw character data as it
      stands in the document (still escaped); `Other` carries the complete markup
      of a comment, CDATA section, declaration, processing instruction or doctype. */
  datatype Event =
    | Start(name: string, attrs: string)
    | End(name: string)
    | Empty(name: string, attrs: string)
    | Text(raw: string)
    | Other(raw: string)

  /** How the tokenizer stops once the events run out. */
  datatype StreamEnd = Eof | Malformed(msg: string)

  datatype Stream = Stream(events: seq<Event>, end: StreamEnd)

  /** What one `read_event_into` call returns: an event, or the stream's end
      (`Ok(Event::Eof)` or the tokenizer's `Err`). */
  datatype Read = Next(event: Event) | Stop(end: StreamEnd)

  predicate Opens(e: Event, name: string) { e.Start? && e.name == name }

  predicate Closes(e: Event, name: string) { e.End? && e.name == name }

  /** The markup of one event as it stands in the document, and as the writer emits it. */
  function Markup(e: Event): string {
    match e
    case Start(n, a) => "<" + n + a + ">"
    case End(n) => "</" + n + ">"
    case Empty(n, a) => "<" + n + a + "/>"
    case Text(raw) => raw
    case Other(raw) => raw
  }

  /** The text of a run of events: the slice of the document they were read from. */
  function Render(es: seq<Event>): string {
    if es == [] then "" else Render(es[..|es| - 1]) + Markup(es[|es| - 1])
  }

  function Shift(o: Option<nat>, offset: nat): Option<nat> {
    if o.Some? then Some(o.value + offset) else None
  }

  /** How far `es` changes the nesting of elements called `name`: the number of
      its `Start(name)` events minus the number of its `End(name)` events. Only
      same-named tags count, as in `quick_xml`'s `read_to_end`. */
  function Nesting(es: seq<Event>, name: string): int {
    if es == [] then 0
    else
      (if Opens(es[0], name) then 1 else if Closes(es[0], name) then -1 else 0)
      + Nesting(es[1..], name)
  }

  /** The index in `es` of the `End(name)` that closes an element called `name`
      opened `depth` levels up, as `read_to_end` finds it: a nested `Start(name)`
      goes one level down, an `End(name)` one level up. `None` when the events
      run out first. */
  function MatchEndAt(es: seq<Event>, name: string, depth: nat): (r: Option<nat>)
    ensures r.Some? ==> r.value < |es| && es[r.value] == End(name)
    decreases |es|
  {
    if es == [] then None
    else if Closes(es[0], name) && depth == 0 then Some(0)
    else
      var d: nat := if Opens(es[0], name) then depth + 1
                    else if Closes(es[0], name) then depth - 1
                    else depth;
      Shift(MatchEndAt(es[1..], name, d), 1)
  }

  /** The matching end of an element whose start tag was just read. */
  function MatchEnd(es: seq<Event>, name: string): (r: Option<nat>)
    ensures r.Some? ==> r.value < |es| && es[r.value] == End(name)
  {
    MatchEndAt(es, name, 0)
  }

  /** One step of the search: an event that is not the matching end moves the
      depth and the found offset by one. */
  lemma MatchEndAtStep(es: seq<Event>, name: string, depth: nat, next: nat)
    requires es != [] && !(Closes(es[0], name) && depth == 0)
    requires next == if Opens(es[0], name) then depth + 1
                     else if Closes(es[0], name) then depth - 1
                     else depth
    ensures forall c: nat :: Shift(MatchEndAt(es, name, depth), c)
                             == Shift(MatchEndAt(es[1..], name, next), c + 1)
  {
  }

  /** `MatchEndAt` finds exactly the first point where the nesting of `name`,
      counted from `depth`, drops below zero; and it finds nothing exactly when
      the nesting never drops below zero. */
  lemma {:induction false} MatchEndIsFirstUnderflow(es: seq<Event>, name: string, depth: nat)
    ensures var r := MatchEndAt(es, name, depth);
      r.Some? ==>
        && depth + Nesting(es[..r.value + 1], name) == -1
        && forall j :: 0 <= j <= r.value ==> depth + Nesting(es[..j], name) >= 0
    ensures MatchEndAt(es, name, depth).None? ==>
      forall j :: 0 <= j <= |es| ==> depth + Nesting(es[..j], name) >= 0
    decreases |es|
  {
    if es == [] {
      assert es[..0] == [];
    } else {
      assert es[..0] == [];
      var step := if Opens(es[0], name) then 1 else if Closes(es[0], name) then -1 else 0;
      forall j | 1 <= j <= |es|
        ensures Nesting(es[..j], name) == step + Nesting(es[1..][..j - 1], name)
      {
        assert es[..j][0] == es[0];
        assert es[..j][1..] == es[1..][..j - 1];
      }
      if Closes(es[0], name) && depth == 0 {
        assert es[..1][1..] == [];
      } else {
        var d: nat := if Opens(es[0], name) then depth + 1
                      else if Closes(es[0], name) then depth - 1
                      else depth;
        assert d == depth + step;
        MatchEndIsFirstUnderflow(es[1..], name, d);
      }
    }
  }

  /** A match found in `es` is found at the same place when more events follow. */
  lemma {:induction false} MatchEndAtExtends(es: seq<Event>, more: seq<Event>, name: string, depth: nat)
    requires MatchEndAt(es, name, depth).Some?
    ensures MatchEndAt(es + more, name, depth) == MatchEndAt(es, name, depth)
    decreases |es|
  {
    assert (es + more)[0] == es[0];
    if !(Closes(es[0], name) && depth == 0) {
      var d: nat := if Opens(es[0], name) then depth + 1
                    else if Closes(es[0], name) then depth - 1
                    else depth;
      assert (es + more)[1..] == es[1..] + more;
      MatchEndAtExtends(es[1..], more, name, d);
    }
  }

  /** Events that neither open nor close `name` do not disturb the search. */
  lemma {:induction false} MatchEndSkipsUnrelated(inner: seq<Event>, after: seq<Event>, name: string)
    requires forall i :: 0 <= i < |inner| ==> !Opens(inner[i], name) && !Closes(inner[i], name)
    ensures MatchEnd(inner + [End(name)] + after, name) == Some(|inner|)
    decreases |inner|
  {
    if inner != [] {
      var es := inner + [End(name)] + after;
      assert es[0] == inner[0];
      assert es[1..] == inner[1..] + [End(name)] + after;
      MatchEndSkipsUnrelated(inner[1..], after, name);
    }
  }

  /** A `quick_xml::reader::Reader` over a tokenized document. Once the events run
      out, the next read reports how the stream ended; every read after that
      reports `Eof`, as `quick_xml` does once it has returned its error. */
  class Reader {
    const events: seq<Event>
    const end: StreamEnd
    var pos: nat
    var ended: bool

    ghost predicate Valid()
      reads this
    {
      pos <= |events| && (ended ==> pos == |events|)
    }

    /** The events not read yet. */
    ghost function Rest(): seq<Event>
      reads this
      requires Valid()
    {
      events[pos..]
    }

    /** What the read after the last event reports. */
    ghost function Pending(): StreamEnd
      reads this
    {
      if ended then Eof else end
    }

    /** `Reader::from_reader`: nothing read yet. */
    constructor (s: Stream)
      ensures Valid() && events == s.events && end == s.end
      ensures Rest() == s.events && Pending() == s.end
    {
      events, end, pos, ended := s.events, s.end, 0, false;
    }

    /** `read_event_into`. */
    method ReadEvent() returns (r: Read)
      requires Valid()
      modifies this
      ensures Valid()
      ensures old(Rest()) == [] ==> r == Stop(old(Pending())) && Rest() == [] && Pending() == Eof
      ensures old(Rest()) != [] ==>
        r == Next(old(Rest())[0]) && Rest() == old(Rest())[1..] && Pending() == old(Pending())
    {
      if pos == |events| {
        r := Stop(if ended then Eof else end);
        ended := true;
      } else {
        r := Next(events[pos]);
        pos := pos + 1;
      }
    }

    /** `read_to_end_into(name)`, called just after the start tag of `name`:
        consumes the events up to and including the matching end tag and returns
        that tag's offset among them, or `None` (an `Err`) when the stream ends first. */
    method ReadToEnd(name: string) returns (r: Option<nat>)
      requires Valid()
      modifies this
      ensures Valid()
      ensures r == MatchEnd(old(Rest()), name)
      ensures r.Some? ==> Rest() == old(Rest())[r.value + 1..] && Pending() == old(Pending())
      ensures r.None? ==> Rest() == [] && Pending() == Eof
    {
      ghost var rest0 := Rest();
      ghost var pending0 := Pending();
      var consumed: nat := 0;
      var depth: nat := 0;
      while true
        invariant Valid() && consumed <= |rest0|
        invariant Rest() == rest0[consumed..] && Pending() == pending0
        invariant MatchEndAt(rest0, name, 0) == Shift(MatchEndAt(Rest(), name, depth), consumed)
        decreases |events| - pos
      {
        ghost var before := Rest();
        ghost var depth0 := depth;
        var ev := ReadEvent();
        if ev.Stop? {
          return None;
        }
        var e := ev.event;
        consumed := consumed + 1;
        if Closes(e, name) && depth == 0 {
          return Some(consumed - 1);
        }
        depth := if Opens(e, name) then depth + 1
                 else if Closes(e, name) then depth - 1
                 else depth;
        MatchEndAtStep(before, name, depth0, depth);
      }
    }

    /** `read_text(name)`: the raw text between the start tag just read and its
        matching end tag, with the reader left after that end tag; `None` (an
        `Err`) when the stream ends first. */
    method ReadText(name: string) returns (r: Option<string>)
      requires Valid()
      modifies this
      ensures Valid()
      ensures var m := MatchEnd(old(Rest()), name);
        && (m.Some? ==> && r == Some(Render(old(Rest())[..m.value]))
                        && Rest() == old(Rest())[m.value + 1..] && Pending() == old(Pending()))
        && (m.None? ==> r == None && Rest() == [] && Pending() == Eof)
    {
      var from := pos;
      var k := ReadToEnd(name);
      if k.Some? {
        assert events[from..][..k.value] == events[from..from + k.value];
        r := Some(Render(events[from..from + k.value]));
      } else {
        r := None;
      }
    }
  }

  /** A `quick_xml::writer::Writer` over an in-memory buffer: it appends events. */
  class Writer {
    var written: seq<Event>

    /** `Writer::new` over an empty buffer. */
    constructor ()
      ensures written == []
    {
      written := [];
    }

    /** `write_event`. Writing to a `Cursor<Vec<u8>>` cannot fail. */
    method WriteEvent(e: Event)
      modifies this
      ensures written == old(written) + [e]
    {
      written := written + [e];
    }
  }
}
