/**
 * The scan of `docProps/core.xml` in `load_metadata` (src/main.rs:203-243): walk
 * the event stream, remember the raw text of every `dcterms:created` and
 * `dcterms:modified` element (a later one overwrites an earlier one), and fail
 * at the end unless both are non-empty.
 */
module MetadataScan {
  import opened Outcomes
  import opened XmlEvents

  const CreatedTag: string := "dcterms:created"
  const ModifiedTag: string := "dcterms:modified"

  predicate IsDateTag(name: string) {
    name == CreatedTag || name == ModifiedTag
  }

  /** The pair of dates the editor shows and saves. */
  datatype Dates = Dates(created: string, modified: string) {

    /** The value held for a date element name. */
    function Get(tag: string): string {
      if tag == CreatedTag then created else modified
    }

    /** The pair with the value for a date element name replaced. */
    function With(tag: string, value: string): (d: Dates)
      requires IsDateTag(tag)
      ensures d.Get(tag) == value
      ensures forall other :: IsDateTag(other) && other != tag ==> d.Get(other) == Get(other)
    {
      if tag == CreatedTag then this.(created := value) else this.(modified := value)
    }
  }

  const NoDates := Dates("", "")

  datatype ScanError =
    | XmlParse(msg: string)   // "XML parsing error: ..."
    | DatesNotFound           // "Could not find created/modified date tags in core.xml."

  /** The loop of `load_metadata` from the point where `es` are the events not read
      yet and `acc` holds the dates found so far: `Ok` with the final pair at end of
      input, `Err` when the tokenizer fails. A `read_text` that finds no matching end
      yields "" (`unwrap_or_default`); it has consumed the stream's end, so the next
      read reports `Eof` and the loop stops. */
  function ScanEvents(es: seq<Event>, end: StreamEnd, acc: Dates): (r: Result<Dates, ScanError>)
    ensures r.Err? ==> end.Malformed? && r == Err(XmlParse(end.msg))
    ensures end.Eof? ==> r.Ok?
    decreases |es|
  {
    if es == [] then
      if end.Malformed? then Err(XmlParse(end.msg)) else Ok(acc)
    else
      var e, rest := es[0], es[1..];
      if e.Start? && IsDateTag(e.name) then
        match MatchEnd(rest, e.name)
        case Some(k) => ScanEvents(rest[k + 1..], end, acc.With(e.name, Render(rest[..k])))
        case None => Ok(acc.With(e.name, ""))
      else
        ScanEvents(rest, end, acc)
  }

  /** `load_metadata` once `core.xml` has been read: the scan, then the final check. */
  function LoadCore(s: Stream): (r: Result<Dates, ScanError>)
    ensures r.Ok? ==> r.value.created != "" && r.value.modified != ""
    ensures r.Ok? <==> (ScanEvents(s.events, s.end, NoDates).Ok? &&
                        var d := ScanEvents(s.events, s.end, NoDates).value;
                        d.created != "" && d.modified != "")
    ensures r.Err? && r.error.XmlParse? ==> s.end == Malformed(r.error.msg)
  {
    match ScanEvents(s.events, s.end, NoDates)
    case Err(e) => Err(e)
    case Ok(d) => if d.created == "" || d.modified == "" then Err(DatesNotFound) else Ok(d)
  }

  /** The loop of `load_metadata` over the events of `core.xml`, then the check that
      both dates were found (src/main.rs:214-242). */
  method ScanCoreXml(s: Stream) returns (r: Result<Dates, ScanError>)
    ensures r == LoadCore(s)
  {
    var reader := new Reader(s);
    var created, modified := "", "";
    while true
      invariant reader.Valid()
      invariant ScanEvents(reader.Rest(), reader.Pending(), Dates(created, modified))
                == ScanEvents(s.events, s.end, NoDates)
      decreases |reader.Rest()|
    {
      ghost var before := reader.Rest();
      var ev := reader.ReadEvent();
      match ev
      case Stop(Eof) =>
        break;
      case Stop(Malformed(msg)) =>
        return Err(XmlParse(msg));
      case Next(e) =>
        created, modified := ScanEvent(reader, e, created, modified, before);
    }
    if created == "" || modified == "" {
      return Err(DatesNotFound);
    }
    return Ok(Dates(created, modified));
  }

  /** The body of the loop of `load_metadata` for an event `e` just read from `before`:
      a date start tag has its text read into that date; any other event is passed over. */
  method ScanEvent(reader: Reader, e: Event, created: string, modified: string, ghost before: seq<Event>)
    returns (created': string, modified': string)
    requires reader.Valid() && before != [] && before[0] == e && reader.Rest() == before[1..]
    modifies reader
    ensures reader.Valid() && |reader.Rest()| < |before|
    ensures ScanEvents(reader.Rest(), reader.Pending(), Dates(created', modified'))
            == ScanEvents(before, old(reader.Pending()), Dates(created, modified))
  {
    ghost var rest, pending, acc := reader.Rest(), reader.Pending(), Dates(created, modified);
    created', modified' := created, modified;
    if e.Start? && e.name == CreatedTag {
      created' := ReadDateText(reader, e.name);
      ScanDateStep(before, rest, pending, acc, reader.Rest(), reader.Pending(), created');
    } else if e.Start? && e.name == ModifiedTag {
      modified' := ReadDateText(reader, e.name);
      ScanDateStep(before, rest, pending, acc, reader.Rest(), reader.Pending(), modified');
    } else {
      ScanOtherStep(before, pending, acc);
    }
  }

  /** One step of the scan at a date start tag followed by `rest`: `read_text` leaves
      the reader at `after` with `pending` still to report, and the date takes `text`. */
  lemma ScanDateStep(es: seq<Event>, rest: seq<Event>, end: StreamEnd, acc: Dates,
                     after: seq<Event>, pending: StreamEnd, text: string)
    requires es != [] && es[0].Start? && IsDateTag(es[0].name) && rest == es[1..]
    requires var m := MatchEnd(rest, es[0].name);
      && (m.Some? ==> after == rest[m.value + 1..] && pending == end && text == Render(rest[..m.value]))
      && (m.None? ==> after == [] && pending == Eof && text == "")
    ensures ScanEvents(after, pending, acc.With(es[0].name, text)) == ScanEvents(es, end, acc)
  {
  }

  /** `read_text(name).unwrap_or_default()`: the raw text of the element, or "" when
      no end tag matches. */
  method ReadDateText(reader: Reader, name: string) returns (text: string)
    requires reader.Valid()
    modifies reader
    ensures reader.Valid()
    ensures var m := MatchEnd(old(reader.Rest()), name);
      && (m.Some? ==> && text == Render(old(reader.Rest())[..m.value])
                      && reader.Rest() == old(reader.Rest())[m.value + 1..]
                      && reader.Pending() == old(reader.Pending()))
      && (m.None? ==> text == "" && reader.Rest() == [] && reader.Pending() == Eof)
  {
    var r := reader.ReadText(name);
    text := if r.Some? then r.value else "";
  }

  /** One step of the scan at any other event: nothing changes. */
  lemma ScanOtherStep(es: seq<Event>, end: StreamEnd, acc: Dates)
    requires es != [] && !(es[0].Start? && IsDateTag(es[0].name))
    ensures ScanEvents(es[1..], end, acc) == ScanEvents(es, end, acc)
  {
  }

  /** The walk of a fragment that the scan leaves exactly at its end: every date
      element it meets closes inside it. `None` when one does not. */
  function Walk(es: seq<Event>, acc: Dates): Option<Dates>
    decreases |es|
  {
    if es == [] then Some(acc)
    else
      var e, rest := es[0], es[1..];
      if e.Start? && IsDateTag(e.name) then
        match MatchEnd(rest, e.name)
        case Some(k) => Walk(rest[k + 1..], acc.With(e.name, Render(rest[..k])))
        case None => None
      else
        Walk(rest, acc)
  }

  /** Scanning a fragment the walk closes, then the rest, is scanning the rest from
      the dates the fragment leaves. */
  lemma {:induction false} ScanAfterWalk(pre: seq<Event>, post: seq<Event>, end: StreamEnd, acc: Dates)
    requires Walk(pre, acc).Some?
    ensures ScanEvents(pre + post, end, acc) == ScanEvents(post, end, Walk(pre, acc).value)
    decreases |pre|
  {
    if pre == [] {
      assert pre + post == post;
    } else {
      var es := pre + post;
      var e, rest := pre[0], pre[1..];
      assert es[0] == e;
      assert es[1..] == rest + post;
      if e.Start? && IsDateTag(e.name) {
        var k := MatchEnd(rest, e.name).value;
        MatchEndAtExtends(rest, post, e.name, 0);
        assert (rest + post)[k + 1..] == rest[k + 1..] + post;
        assert (rest + post)[..k] == rest[..k];
        ScanAfterWalk(rest[k + 1..], post, end, acc.With(e.name, Render(rest[..k])));
      } else {
        ScanAfterWalk(rest, post, end, acc);
      }
    }
  }

  /** The scan fails exactly when the tokenizer fails and every date element before
      the failure closes; a date element the failure cuts off ends the scan at `Eof`
      with that date empty. */
  lemma {:induction false} ScanFailsIff(es: seq<Event>, end: StreamEnd, acc: Dates)
    ensures ScanEvents(es, end, acc).Err? <==> end.Malformed? && Walk(es, acc).Some?
    decreases |es|
  {
    if es != [] {
      var e, rest := es[0], es[1..];
      if e.Start? && IsDateTag(e.name) {
        match MatchEnd(rest, e.name)
        case Some(k) =>
          ScanFailsIff(rest[k + 1..], end, acc.With(e.name, Render(rest[..k])));
        case None =>
      } else {
        ScanFailsIff(rest, end, acc);
      }
    }
  }

  /** A tokenizer error reached by the scan makes the load fail with its message. */
  lemma LoadFailsOnTokenizerError(s: Stream)
    requires s.end.Malformed? && Walk(s.events, NoDates).Some?
    ensures LoadCore(s) == Err(XmlParse(s.end.msg))
  {
    ScanFailsIff(s.events, s.end, NoDates);
  }

  /** On a stream the tokenizer cuts off, the scan fails, or a `read_text` the error
      cut short leaves a date empty. */
  lemma {:induction false} ScanOfMalformed(es: seq<Event>, end: StreamEnd, acc: Dates)
    requires end.Malformed?
    ensures var r := ScanEvents(es, end, acc);
      r.Err? || r.value.created == "" || r.value.modified == ""
    decreases |es|
  {
    if es != [] {
      var e, rest := es[0], es[1..];
      if e.Start? && IsDateTag(e.name) {
        match MatchEnd(rest, e.name)
        case Some(k) =>
          ScanOfMalformed(rest[k + 1..], end, acc.With(e.name, Render(rest[..k])));
        case None =>
          assert acc.With(e.name, "").Get(e.name) == "";
      } else {
        ScanOfMalformed(rest, end, acc);
      }
    }
  }

  /** A tokenizer error anywhere in `core.xml` makes the load fail: with the error's
      message when the loop reaches it, with "dates not found" when a `read_text`
      swallows it. */
  lemma LoadFailsOnMalformed(s: Stream)
    requires s.end.Malformed?
    ensures LoadCore(s).Err?
  {
    ScanOfMalformed(s.events, s.end, NoDates);
  }

  /** A tokenizer error inside a date element is swallowed by `read_text`: the scan
      stops at `Eof` and the load reports that the dates were not found. */
  lemma CutOffDateHidesError(text: string, msg: string)
    ensures LoadCore(Stream([Start(CreatedTag, ""), Text(text)], Malformed(msg))) == Err(DatesNotFound)
  {
    var es := [Start(CreatedTag, ""), Text(text)];
    assert es[1..] == [Text(text)] && es[1..][1..] == [];
    assert MatchEnd(es[1..], CreatedTag).None?;
  }

  /** A date the remaining events never open keeps the value it has. */
  lemma {:induction false} ScanKeepsUnopened(es: seq<Event>, end: StreamEnd, acc: Dates, tag: string)
    requires IsDateTag(tag)
    requires forall i :: 0 <= i < |es| ==> !Opens(es[i], tag)
    ensures ScanEvents(es, end, acc).Ok? ==> ScanEvents(es, end, acc).value.Get(tag) == acc.Get(tag)
    decreases |es|
  {
    if es != [] {
      var e, rest := es[0], es[1..];
      assert forall i :: 0 <= i < |rest| ==> rest[i] == es[i + 1];
      if e.Start? && IsDateTag(e.name) {
        assert e.name != tag by { assert !Opens(es[0], tag); }
        match MatchEnd(rest, e.name)
        case Some(k) =>
          var tail := rest[k + 1..];
          forall i | 0 <= i < |tail| ensures !Opens(tail[i], tag) {
            assert tail[i] == es[i + k + 2];
          }
          ScanKeepsUnopened(tail, end, acc.With(e.name, Render(rest[..k])), tag);
        case None =>
      } else {
        ScanKeepsUnopened(rest, end, acc, tag);
      }
    }
  }

  /** The last occurrence wins: after any fragment the scan walks through, an element
      `tag` holding `inner`, and events that never open `tag` again, a successful scan
      reports the raw text of `inner` for `tag`, whatever came before. */
  lemma LastOccurrenceWins(pre: seq<Event>, tag: string, attrs: string, inner: seq<Event>,
                           post: seq<Event>, end: StreamEnd, acc: Dates)
    requires IsDateTag(tag) && Walk(pre, acc).Some?
    requires forall i :: 0 <= i < |inner| ==> !Opens(inner[i], tag) && !Closes(inner[i], tag)
    requires forall i :: 0 <= i < |post| ==> !Opens(post[i], tag)
    ensures var r := ScanEvents(pre + ([Start(tag, attrs)] + inner + [End(tag)] + post), end, acc);
      r.Ok? ==> r.value.Get(tag) == Render(inner)
  {
    var mid := Walk(pre, acc).value;
    var elem := [Start(tag, attrs)] + inner + [End(tag)] + post;
    ScanAfterWalk(pre, elem, end, acc);
    var rest := elem[1..];
    assert rest == inner + [End(tag)] + post;
    MatchEndSkipsUnrelated(inner, post, tag);
    assert rest[..|inner|] == inner;
    assert rest[|inner| + 1..] == post;
    ScanKeepsUnopened(post, end, mid.With(tag, Render(inner)), tag);
  }
}
