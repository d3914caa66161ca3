/**
 The writer of the runtime's History.  What it appends, the offline checker replays, and gets back what
 was appended, unless the checker cannot read the text it was handed, something in it is escaped after
 the hash was taken, the operation is changed by being written, or the file becomes too large.
 */
module Writer {
  import opened Options
  import opened Decimals
  import opened Json
  import opened History
  import opened HistoryTheorems
  import opened Canonical
  import opened Dialects
  import opened HtmlEscapes
  import opened FrameFormat

  /** What the reader makes of a string that the encoder wrote. */
  function ReadName(lex: Lexicon, quote: Quote, s: Bytes): Bytes {
    if lex.text(quote(s)).Some? then lex.text(quote(s)).value else []
  }

  /** The reader makes something of the string, though perhaps another string, and nothing longer than its text. */
  predicate Legible(lex: Lexicon, quote: Quote, s: Bytes) {
    && lex.text(quote(s)).Some?
    && (s != [] ==> ReadName(lex, quote, s) != []) && |ReadName(lex, quote, s)| <= |quote(s)|
  }

  ghost predicate WritesLegibly(lex: Lexicon, quote: Quote) {
    forall s :: Legible(lex, quote, s)
  }

  /**
   What the writer and the reader have in common.  The writer lets more through (`go`) than the reader can
   read (`lex`); `quote` is how the writer's encoder writes a string.
   */
  ghost predicate Agree(go: Lexicon, lex: Lexicon, tools: Tools, quote: Quote) {
    && ValidLexicon(go) && ValidLexicon(lex) && Wider(go, lex) && IsDecoder(lex, tools.decode)
    && (forall n :: lex.scalar(Decimal(n)) == Some(Decimal(n)))
    && KeepsPlain(lex, quote) && WritesLegibly(lex, quote)
    && KeepsText(go, lex, EscapeHtml) && PlainTokens(go)
    && (forall s :: IsDigest(tools.sha(s)))
  }

  // ----- The two encodings of the data -----

  function HashOf(tools: Tools, sequence: nat, previous: Bytes, operation: Bytes, data: Node): Bytes {
    tools.sha(Preimage(sequence, previous, operation, Print(Owned(data))))
  }

  /** The payload of the frame: the hash is over the compact data, the frame holds it escaped. */
  function Payload(tools: Tools, quote: Quote, sequence: nat, previous: Bytes, operation: Bytes, data: Node): Bytes {
    Print(EventNode(
      quote, Decimal(sequence), previous, operation, Stored(data), HashOf(tools, sequence, previous, operation, data)))
  }

  /** What was hashed and what the frame shows differ, and have the same digest all the same. */
  predicate Collides(
    lex: Lexicon, tools: Tools, quote: Quote, sequence: nat, previous: Bytes, operation: Bytes, data: Node)
  {
    var a := Preimage(sequence, previous, operation, Print(Owned(data)));
    var b := Preimage(sequence, previous, ReadName(lex, quote, operation), Print(Stored(data)));
    a != b && tools.sha(a) == tools.sha(b)
  }

  /** Writing leaves the operation and, once the hash is taken, the data as they are. */
  predicate WrittenAsIs(lex: Lexicon, quote: Quote, operation: Bytes, data: Node) {
    SafeText(lex, quote, operation) && NoHtml(Print(Owned(data)))
  }

  /**
   The reader can read the data (it is text for it, repeats no key and is not nested too deeply), and
   the event is written as it was hashed.
   */
  ghost predicate Survives(
    lex: Lexicon, tools: Tools, quote: Quote, sequence: nat, previous: Bytes, operation: Bytes, data: Node)
  {
    && DataAdmitted(lex, data)
    && (WrittenAsIs(lex, quote, operation, data)
        || Collides(lex, tools, quote, sequence, previous, operation, data))
  }

  lemma {:induction false} SameDigestIff(
    go: Lexicon, lex: Lexicon, tools: Tools, quote: Quote, sequence: nat, previous: Bytes, operation: Bytes, data: Node)
    requires PlainTokens(go) && Legal(go, data) && lex.text(quote(operation)).Some?
    requires Packable(sequence, previous, operation, Print(Stored(data)))
    requires |ReadName(lex, quote, operation)| < WORD
    ensures
      tools.sha(Preimage(sequence, previous, ReadName(lex, quote, operation), Print(Stored(data))))
      == HashOf(tools, sequence, previous, operation, data)
      <==> WrittenAsIs(lex, quote, operation, data) || Collides(lex, tools, quote, sequence, previous, operation, data)
  {
    var owned, stored, name := Print(Owned(data)), Print(Stored(data)), ReadName(lex, quote, operation);
    StoredIsEscaped(go, data);
    UnchangedIff(owned);
    EscapingGrows(owned);
    if Preimage(sequence, previous, operation, owned) == Preimage(sequence, previous, name, stored) {
      PreimageInjective(sequence, previous, operation, owned, sequence, previous, name, stored);
    }
  }

  /** The checker's own reading of the data is that of the data as it is stored. */
  lemma StoredAdmitted(go: Lexicon, lex: Lexicon, data: Node)
    requires KeepsText(go, lex, EscapeHtml) && Legal(go, data)
    ensures Legal(go, Stored(data)) && (DataAdmitted(lex, Stored(data)) <==> DataAdmitted(lex, data))
    ensures Meaning(lex, Stored(data)) == Meaning(lex, data)
  {
    RewrittenMeans(go, lex, EscapeHtml, data);
  }

  /**
   The checker reads back what was written exactly when it survives: data that the writer admits and the
   checker does not, an operation that is changed by being written, and data in which something is
   escaped after hashing make it refuse the frame (unless, for the last two, the digest collides).
   */
  lemma {:induction false} WrittenIsReadIff(
    go: Lexicon, lex: Lexicon, tools: Tools, quote: Quote, sequence: nat, previous: Bytes, operation: Bytes, data: Node)
    requires Agree(go, lex, tools, quote) && IsDigest(previous) && Legal(go, data) && operation != []
    requires Packable(sequence, previous, operation, Print(Stored(data)))
    requires |ReadName(lex, quote, operation)| < WORD
    ensures
      CheckFrame(tools, Payload(tools, quote, sequence, previous, operation, data), sequence, previous) ==
        if Survives(lex, tools, quote, sequence, previous, operation, data)
        then
          var hash := HashOf(tools, sequence, previous, operation, data);
          var name := ReadName(lex, quote, operation);
          Some(Link(Event(sequence, name, Meaning(lex, data), previous, hash), Print(Stored(data))))
        else None
  {
    var hash, name := HashOf(tools, sequence, previous, operation, data), ReadName(lex, quote, operation);
    assert Legible(lex, quote, operation);
    assert Decimal(1) == "1";
    assert Writes(lex, quote, Decimal(sequence), previous, operation, name, hash);
    StoredAdmitted(go, lex, data);
    EventChecked(go, lex, tools, quote, sequence, previous, operation, name, Stored(data), hash);
    SameDigestIff(go, lex, tools, quote, sequence, previous, operation, data);
  }

  // ----- Inputs that are not read back -----

  /** Data that is the text `"<"` is not read back, unless its two encodings have one digest. */
  lemma {:induction false} LessThanIsRefused(
    go: Lexicon, lex: Lexicon, tools: Tools, quote: Quote, sequence: nat, previous: Bytes, operation: Bytes)
    requires Agree(go, lex, tools, quote) && IsDigest(previous) && lex.text("<").Some? && lex.nesting > 0
    requires operation != [] && sequence < WORD
    requires |operation| < WORD && |ReadName(lex, quote, operation)| < WORD
    ensures
      CheckFrame(tools, Payload(tools, quote, sequence, previous, operation, Text("<")), sequence, previous).None?
      <==> !Collides(lex, tools, quote, sequence, previous, operation, Text("<"))
  {
    var data := Text("<");
    assert BodyAdmitted(go, lex, "<");
    assert Print(Owned(data)) == ['"'] + "<" + ['"'];
    assert IsHtml(Print(Owned(data))[1]) && |Print(Owned(data))| == 3;
    StoredIsEscaped(go, data);
    assert EscapeHtml("<") == "\\u003c" + [] && "<"[1..] == [];
    assert |Print(Stored(data))| == 8;
    WrittenIsReadIff(go, lex, tools, quote, sequence, previous, operation, data);
  }

  const NOT_UTF8: Bytes := "\U{ff}"
  const REPLACEMENT: Bytes := "\U{ef}\U{bf}\U{bd}"

  /**
   Data that is a string of one byte that is not UTF-8 is never read back if, as Go and Python do, the
   writer lets it through and the reader does not, although nothing in it is escaped and no key repeated.
   */
  lemma {:induction false} NotUtf8IsRefused(
    go: Lexicon, lex: Lexicon, tools: Tools, quote: Quote, sequence: nat, previous: Bytes, operation: Bytes)
    requires Agree(go, lex, tools, quote) && IsDigest(previous)
    requires go.text(NOT_UTF8).Some? && lex.text(NOT_UTF8).None?
    requires operation != [] && sequence < WORD
    requires |operation| < WORD && |ReadName(lex, quote, operation)| < WORD
    ensures
      var data := Text(NOT_UTF8);
      && CheckFrame(tools, Payload(tools, quote, sequence, previous, operation, data), sequence, previous).None?
      && NoRepeats(Meaning(lex, data)) && NoHtml(Print(Owned(data)))
  {
    var data := Text(NOT_UTF8);
    var printed := Print(Owned(data));
    assert printed == ['"'] + NOT_UTF8 + ['"'] && |printed| == 3;
    assert printed[0] == '"' && printed[1] == '\U{ff}' && printed[2] == '"';
    StoredIsEscaped(go, data);
    UnchangedIff(printed);
    WrittenIsReadIff(go, lex, tools, quote, sequence, previous, operation, data);
  }

  /**
   An operation that is one byte and not UTF-8 is hashed as it is and written as U+FFFD, so that the event
   is not read back, whatever its data, unless the digest collides.
   */
  lemma {:induction false} NameNotUtf8IsRefused(
    go: Lexicon, lex: Lexicon, tools: Tools, quote: Quote, sequence: nat, previous: Bytes, data: Node)
    requires Agree(go, lex, tools, quote) && IsDigest(previous) && Legal(go, data)
    requires lex.text(quote(NOT_UTF8)) == Some(REPLACEMENT)
    requires Packable(sequence, previous, NOT_UTF8, Print(Stored(data)))
    ensures
      CheckFrame(tools, Payload(tools, quote, sequence, previous, NOT_UTF8, data), sequence, previous).Some?
      <==> DataAdmitted(lex, data) && Collides(lex, tools, quote, sequence, previous, NOT_UTF8, data)
  {
    assert |NOT_UTF8| == 1 && |REPLACEMENT| == 3;
    WrittenIsReadIff(go, lex, tools, quote, sequence, previous, NOT_UTF8, data);
  }

  // ----- Appending to the file -----

  lemma StillFirst(raw: Bytes, more: Bytes)
    requires FirstFrame(raw).Some?
    ensures
      var length := FirstFrame(raw).value;
      && FirstFrame(raw + more) == Some(length)
      && (raw + more)[12..12 + length] == raw[12..12 + length]
      && (raw + more)[12 + length..] == raw[12 + length..] + more
  {
    assert (raw + more)[..4] == raw[..4] && (raw + more)[4..12] == raw[4..12];
  }

  lemma OneFrameReplays(check: Check, sequence: nat, previous: Bytes, payload: Bytes, link: Link)
    requires 0 < |payload| <= MAX_HISTORY_FRAME_BYTES && check(payload, sequence, previous) == Some(link)
    ensures ReplayFrom(check, Frame(payload), sequence, previous) == Some([link])
  {
    FrameOpens(payload, []);
    assert Frame(payload) + [] == Frame(payload);
    assert ReplayFrom(check, [], sequence + 1, link.event.hash) == Some([]);
    assert [link] + [] == [link];
  }

  lemma BeforeTail(links: seq<Link>, previous: Bytes)
    requires links != []
    ensures HashBefore(links[1..], links[0].event.hash, |links| - 1) == HashBefore(links, previous, |links|)
  {
  }

  lemma JoinCons(links: seq<Link>, rest: Option<seq<Link>>)
    requires links != []
    ensures Join([links[0]], Join(links[1..], rest)) == Join(links, rest)
  {
    if rest.Some? {
      assert [links[0]] + (links[1..] + rest.value) == links + rest.value;
    }
  }

  /** What the replay makes of the first frame and the rest. */
  lemma ReplayCons(check: Check, raw: Bytes, sequence: nat, previous: Bytes, link: Link)
    requires raw != [] && FirstFrame(raw).Some?
    requires check(raw[12..12 + FirstFrame(raw).value], sequence, previous) == Some(link)
    ensures
      ReplayFrom(check, raw, sequence, previous)
      == Join([link], ReplayFrom(check, raw[12 + FirstFrame(raw).value..], sequence + 1, link.event.hash))
  {
  }

  lemma {:induction false} GoesOnCons(
    check: Check, raw: Bytes, more: Bytes, links: seq<Link>, sequence: nat, previous: Bytes, tail: Option<seq<Link>>)
    requires ReplayFrom(check, raw, sequence, previous) == Some(links) && raw != []
    requires FirstFrame(raw).Some? && links != []
    requires
      ReplayFrom(check, raw[12 + FirstFrame(raw).value..] + more, sequence + 1, links[0].event.hash)
      == Join(links[1..], tail)
    ensures ReplayFrom(check, raw + more, sequence, previous) == Join(links, tail)
  {
    FirstLink(check, raw, links, sequence, previous);
    StillFirst(raw, more);
    ReplayCons(check, raw + more, sequence, previous, links[0]);
    JoinCons(links, tail);
  }

  /** Replaying an accepted file with more after it goes on where the file ends. */
  lemma {:induction false} ReplayGoesOn(
    check: Check, raw: Bytes, more: Bytes, links: seq<Link>, sequence: nat, previous: Bytes)
    requires ReplayFrom(check, raw, sequence, previous) == Some(links)
    ensures
      ReplayFrom(check, raw + more, sequence, previous)
      == Join(links, ReplayFrom(check, more, sequence + |links|, HashBefore(links, previous, |links|)))
    decreases |raw|
  {
    var tail := ReplayFrom(check, more, sequence + |links|, HashBefore(links, previous, |links|));
    if raw == [] {
      assert raw + more == more;
      JoinEmpty(tail);
    } else {
      FirstLink(check, raw, links, sequence, previous);
      BeforeTail(links, previous);
      var rest := raw[12 + FirstFrame(raw).value..];
      ReplayGoesOn(check, rest, more, links[1..], sequence + 1, links[0].event.hash);
      GoesOnCons(check, raw, more, links, sequence, previous, tail);
    }
  }

  /** A frame put after an accepted History is read after it. */
  lemma {:induction false} FrameAppended(
    check: Check, raw: Bytes, links: seq<Link>, sequence: nat, previous: Bytes, payload: Bytes, link: Link)
    requires ReplayFrom(check, raw, sequence, previous) == Some(links)
    requires 0 < |payload| <= MAX_HISTORY_FRAME_BYTES
    requires check(payload, sequence + |links|, HashBefore(links, previous, |links|)) == Some(link)
    ensures ReplayFrom(check, raw + Frame(payload), sequence, previous) == Some(links + [link])
  {
    ReplayGoesOn(check, raw, Frame(payload), links, sequence, previous);
    OneFrameReplays(check, sequence + |links|, HashBefore(links, previous, |links|), payload, link);
  }

  /** A refused frame makes everything before it unreadable too. */
  lemma {:induction false} FrameRefused(
    check: Check, raw: Bytes, links: seq<Link>, sequence: nat, previous: Bytes, payload: Bytes)
    requires ReplayFrom(check, raw, sequence, previous) == Some(links)
    requires 0 < |payload| <= MAX_HISTORY_FRAME_BYTES
    requires check(payload, sequence + |links|, HashBefore(links, previous, |links|)) == None
    ensures ReplayFrom(check, raw + Frame(payload), sequence, previous) == None
  {
    ReplayGoesOn(check, raw, Frame(payload), links, sequence, previous);
    FrameOpens(payload, []);
    assert Frame(payload) + [] == Frame(payload);
  }
/** An event as the writer keeps it, with its data as compact text. */
  datatype Written = Written(sequence: nat, operation: Bytes, data: Bytes, previousHash: Bytes, hash: Bytes)

  /** What the reader makes of an event that was appended. */
  datatype Reading = Reading(operation: Bytes, data: Value)

  /** What the head says about the events. */
  predicate HeadOf(events: seq<Written>, sequence: nat, hash: Bytes) {
    sequence == |events| && hash == if events == [] then ZERO_HASH else events[|events| - 1].hash
  }

  /** The checker read the event like this. */
  predicate Matches(l: Link, w: Written, r: Reading) {
    && l.event == Event(w.sequence, r.operation, r.data, w.previousHash, w.hash)
    && l.raw == EscapeHtml(w.data)
  }

  /** The checker read the events like this, one by one. */
  ghost predicate AllMatch(links: seq<Link>, events: seq<Written>, readings: seq<Reading>) {
    && |links| == |events| == |readings|
    && forall i :: 0 <= i < |events| ==> Matches(links[i], events[i], readings[i])
  }

  lemma AllMatchSnoc(
    links: seq<Link>, events: seq<Written>, readings: seq<Reading>, link: Link, w: Written, r: Reading)
    requires AllMatch(links, events, readings) && Matches(link, w, r)
    ensures AllMatch(links + [link], events + [w], readings + [r])
  {
    forall i | 0 <= i <= |events| ensures Matches((links + [link])[i], (events + [w])[i], (readings + [r])[i]) {
      assert i < |events| ==> Matches(links[i], events[i], readings[i]);
    }
  }

  /** The file replays to these events. */
  ghost predicate Holds(check: Check, file: Bytes, events: seq<Written>, readings: seq<Reading>) {
    var links := ReplayFrom(check, file, 1, ZERO_HASH);
    links.Some? && AllMatch(links.value, events, readings)
  }

  lemma HeadLinks(
    check: Check, file: Bytes, events: seq<Written>, readings: seq<Reading>, sequence: nat, hash: Bytes)
    requires Holds(check, file, events, readings) && HeadOf(events, sequence, hash)
    ensures
      var links := ReplayFrom(check, file, 1, ZERO_HASH).value;
      |links| == sequence && HashBefore(links, ZERO_HASH, |links|) == hash
  {
    var links := ReplayFrom(check, file, 1, ZERO_HASH).value;
    if events != [] {
      var k := |events| - 1;
      assert Matches(links[k], events[k], readings[k]);
    }
  }

  lemma {:induction false} AppendHolds(
    check: Check, file: Bytes, events: seq<Written>, readings: seq<Reading>, sequence: nat, previous: Bytes,
    payload: Bytes, link: Link, w: Written, r: Reading)
    requires Holds(check, file, events, readings) && HeadOf(events, sequence, previous)
    requires 0 < |payload| <= MAX_HISTORY_FRAME_BYTES
    requires check(payload, sequence + 1, previous) == Some(link) && Matches(link, w, r)
    ensures Holds(check, file + Frame(payload), events + [w], readings + [r])
  {
    var links := ReplayFrom(check, file, 1, ZERO_HASH).value;
    HeadLinks(check, file, events, readings, sequence, previous);
    FrameAppended(check, file, links, 1, ZERO_HASH, payload, link);
    AllMatchSnoc(links, events, readings, link, w, r);
  }

  lemma {:induction false} AppendRefused(
    check: Check, file: Bytes, events: seq<Written>, readings: seq<Reading>, sequence: nat, previous: Bytes,
    payload: Bytes)
    requires Holds(check, file, events, readings) && HeadOf(events, sequence, previous)
    requires 0 < |payload| <= MAX_HISTORY_FRAME_BYTES && check(payload, sequence + 1, previous) == None
    ensures ReplayFrom(check, file + Frame(payload), 1, ZERO_HASH) == None
  {
    HeadLinks(check, file, events, readings, sequence, previous);
    FrameRefused(check, file, ReplayFrom(check, file, 1, ZERO_HASH).value, 1, ZERO_HASH, payload);
  }

  lemma {:induction false} PrintedWithin(es: seq<Entry>, i: nat)
    requires i < |es|
    ensures |Print(es[i].value)| <= |PrintEntries(es)|
    decreases i
  {
    if i > 0 {
      PrintedWithin(es[1..], i - 1);
    }
  }

  lemma PartsWithin(tools: Tools, quote: Quote, sequence: nat, previous: Bytes, operation: Bytes, data: Node)
    ensures |Print(Stored(data))| < |Payload(tools, quote, sequence, previous, operation, data)|
    ensures |quote(operation)| < |Payload(tools, quote, sequence, previous, operation, data)|
  {
    var hash := HashOf(tools, sequence, previous, operation, data);
    var es := EventEntries(quote, Decimal(sequence), previous, operation, Stored(data), hash);
    PrintedWithin(es, 2);
    PrintedWithin(es, 3);
    assert es[2].value == Text(quote(operation)) && es[3].value == Stored(data);
  }

  /** The state of the writer, with what the reader makes of the events. */
  datatype Log = Log(file: Bytes, events: seq<Written>, readings: seq<Reading>, sequence: nat, hash: Bytes)

  /** The file replays to the events, and the head is theirs. */
  ghost predicate Consistent(go: Lexicon, lex: Lexicon, tools: Tools, quote: Quote, log: Log) {
    && Agree(go, lex, tools, quote)
    && Holds(RawCheck(tools), log.file, log.events, log.readings)
    && HeadOf(log.events, log.sequence, log.hash)
    && IsDigest(log.hash)
  }

  /** The checker's loop refuses the file. */
  ghost predicate Unreadable(tools: Tools, file: Bytes) {
    ReplayFrom(RawCheck(tools), file, 1, ZERO_HASH) == None
  }

  function NextPayload(tools: Tools, quote: Quote, log: Log, operation: Bytes, data: Node): Bytes {
    Payload(tools, quote, log.sequence + 1, log.hash, operation, data)
  }

  function NextEvent(tools: Tools, log: Log, operation: Bytes, data: Node): Written {
    Written(
      log.sequence + 1, operation, Print(Owned(data)), log.hash,
      HashOf(tools, log.sequence + 1, log.hash, operation, data))
  }

  function NextReading(lex: Lexicon, quote: Quote, operation: Bytes, data: Node): Reading {
    Reading(ReadName(lex, quote, operation), Meaning(lex, data))
  }

  /** The next event survives. */
  ghost predicate NextSurvives(
    lex: Lexicon, tools: Tools, quote: Quote, log: Log, operation: Bytes, data: Node)
  {
    Survives(lex, tools, quote, log.sequence + 1, log.hash, operation, data)
  }

  /** The log with one event more. */
  function AppendedTo(lex: Lexicon, tools: Tools, quote: Quote, log: Log, operation: Bytes, data: Node): Log {
    var w := NextEvent(tools, log, operation, data);
    Log(
      log.file + Frame(NextPayload(tools, quote, log, operation, data)),
      log.events + [w], log.readings + [NextReading(lex, quote, operation, data)], log.sequence + 1, w.hash)
  }

  /** Appending a frame that the checker reads as this event. */
  lemma {:induction false} FrameRead(
    go: Lexicon, lex: Lexicon, tools: Tools, quote: Quote, log: Log, payload: Bytes, w: Written, r: Reading)
    requires Consistent(go, lex, tools, quote, log) && 0 < |payload| <= MAX_HISTORY_FRAME_BYTES
    requires w.sequence == log.sequence + 1 && w.previousHash == log.hash && IsDigest(w.hash)
    requires
      CheckFrame(tools, payload, log.sequence + 1, log.hash)
      == Some(Link(Event(w.sequence, r.operation, r.data, w.previousHash, w.hash), EscapeHtml(w.data)))
    ensures
      Consistent(
        go, lex, tools, quote,
        Log(log.file + Frame(payload), log.events + [w], log.readings + [r], w.sequence, w.hash))
  {
    var link := Link(Event(w.sequence, r.operation, r.data, w.previousHash, w.hash), EscapeHtml(w.data));
    AppendHolds(RawCheck(tools), log.file, log.events, log.readings, log.sequence, log.hash, payload, link, w, r);
  }

  lemma {:induction false} FrameUnread(
    go: Lexicon, lex: Lexicon, tools: Tools, quote: Quote, log: Log, payload: Bytes)
    requires Consistent(go, lex, tools, quote, log) && 0 < |payload| <= MAX_HISTORY_FRAME_BYTES
    requires CheckFrame(tools, payload, log.sequence + 1, log.hash) == None
    ensures Unreadable(tools, log.file + Frame(payload))
  {
    AppendRefused(RawCheck(tools), log.file, log.events, log.readings, log.sequence, log.hash, payload);
  }

  /** What `AppendJSON` demands before it writes anything. */
  ghost predicate Appendable(
    go: Lexicon, tools: Tools, quote: Quote, log: Log, operation: Bytes, data: Node)
  {
    && operation != [] && Legal(go, data)
    && log.sequence + 1 < WORD && |operation| < WORD
    && |NextPayload(tools, quote, log, operation, data)| <= MAX_HISTORY_FRAME_BYTES
  }

  /** What the checker makes of the next payload. */
  lemma {:induction false} NextIsRead(
    go: Lexicon, lex: Lexicon, tools: Tools, quote: Quote, log: Log, operation: Bytes, data: Node)
    requires Agree(go, lex, tools, quote) && IsDigest(log.hash) && Appendable(go, tools, quote, log, operation, data)
    ensures
      var w, r := NextEvent(tools, log, operation, data), NextReading(lex, quote, operation, data);
      var link := Link(Event(w.sequence, r.operation, r.data, log.hash, w.hash), EscapeHtml(w.data));
      && IsDigest(w.hash) && NextPayload(tools, quote, log, operation, data) != []
      && CheckFrame(tools, NextPayload(tools, quote, log, operation, data), log.sequence + 1, log.hash)
         == if NextSurvives(lex, tools, quote, log, operation, data) then Some(link) else None
  {
    PartsWithin(tools, quote, log.sequence + 1, log.hash, operation, data);
    assert Legible(lex, quote, operation);
    StoredIsEscaped(go, data);
    WrittenIsReadIff(go, lex, tools, quote, log.sequence + 1, log.hash, operation, data);
  }

  /**
   Appending an event keeps the file readable exactly when the event survives and the file stays within
   the checker's limit.  Then the checker reads every event back; when the event does not survive, its
   loop refuses the whole file, whatever the size.
   */
  lemma {:induction false} EventAppended(
    go: Lexicon, lex: Lexicon, tools: Tools, quote: Quote, log: Log, operation: Bytes, data: Node)
    requires Consistent(go, lex, tools, quote, log) && Appendable(go, tools, quote, log, operation, data)
    ensures
      var log' := AppendedTo(lex, tools, quote, log, operation, data);
      && (Replay(RawCheck(tools), log'.file).Some? <==>
            NextSurvives(lex, tools, quote, log, operation, data) && |log'.file| <= MAX_HISTORY_BYTES)
      && if NextSurvives(lex, tools, quote, log, operation, data)
         then Consistent(go, lex, tools, quote, log') else Unreadable(tools, log'.file)
  {
    var payload, w := NextPayload(tools, quote, log, operation, data), NextEvent(tools, log, operation, data);
    NextIsRead(go, lex, tools, quote, log, operation, data);
    if NextSurvives(lex, tools, quote, log, operation, data) {
      FrameRead(go, lex, tools, quote, log, payload, w, NextReading(lex, quote, operation, data));
    } else {
      FrameUnread(go, lex, tools, quote, log, payload);
    }
  }

  /** The log after an event was appended, and when its file can still be read. */
  ghost predicate IsAppended(
    go: Lexicon, lex: Lexicon, tools: Tools, quote: Quote, log: Log, operation: Bytes, data: Node, log': Log)
  {
    && log' == AppendedTo(lex, tools, quote, log, operation, data)
    && (Replay(RawCheck(tools), log'.file).Some? <==>
          NextSurvives(lex, tools, quote, log, operation, data) && |log'.file| <= MAX_HISTORY_BYTES)
    && if NextSurvives(lex, tools, quote, log, operation, data)
       then Consistent(go, lex, tools, quote, log') else Unreadable(tools, log'.file)
  }

  lemma {:induction false} AppendedIs(
    go: Lexicon, lex: Lexicon, tools: Tools, quote: Quote, log: Log, operation: Bytes, data: Node,
    payload: Bytes, w: Written, r: Reading)
    requires Consistent(go, lex, tools, quote, log) && Appendable(go, tools, quote, log, operation, data)
    requires payload == NextPayload(tools, quote, log, operation, data)
    requires w == NextEvent(tools, log, operation, data) && r == NextReading(lex, quote, operation, data)
    ensures
      IsAppended(
        go, lex, tools, quote, log, operation, data,
        Log(log.file + Frame(payload), log.events + [w], log.readings + [r], log.sequence + 1, w.hash))
  {
    EventAppended(go, lex, tools, quote, log, operation, data);
  }

  /** The event and the payload that stores it. */
  method Encode(tools: Tools, quote: Quote, sequence: nat, previous: Bytes, operation: Bytes, data: Node)
    returns (w: Written, payload: Bytes)
    ensures
      w == Written(
        sequence, operation, Print(Owned(data)), previous, HashOf(tools, sequence, previous, operation, data))
    ensures payload == Payload(tools, quote, sequence, previous, operation, data) && payload != []
  {
    var owned := Print(Owned(data));
    var hash := EventHash(tools, sequence, previous, operation, owned);
    w := Written(sequence, operation, owned, previous, hash);
    payload := Print(EventNode(quote, Decimal(sequence), previous, operation, Stored(data), hash));
  }

  /** What `json.Marshal` makes of a value is valid JSON with nothing left to escape. */
  predicate Marshalled(go: Lexicon, encoded: Option<Node>) {
    encoded.Some? ==> Legal(go, encoded.value) && NoHtml(Print(Owned(encoded.value)))
  }

  ghost predicate Marshals(go: Lexicon, marshal: Value -> Option<Node>) {
    forall v :: Marshalled(go, marshal(v))
  }

  /** `History` of the runtime, with its file as the bytes in it. */
  class HistoryFile {
    const tools: Tools
    const quote: Quote
    /** How the runtime's encoder writes a value, unless it fails. */
    const marshal: Value -> Option<Node>
    ghost const go: Lexicon
    ghost const lex: Lexicon
    var file: Bytes
    var events: seq<Written>
    var sequence: nat
    var hash: Bytes

    /** What the reader makes of the events. */
    ghost var readings: seq<Reading>

    ghost function View(): Log
      reads this
    {
      Log(file, events, readings, sequence, hash)
    }

    /** The checker's loop replays the file to the events that were appended. */
    ghost predicate Valid()
      reads this
    {
      Consistent(go, lex, tools, quote, View())
    }

    constructor (
      tools: Tools, quote: Quote, marshal: Value -> Option<Node>, ghost go: Lexicon, ghost lex: Lexicon)
      requires Agree(go, lex, tools, quote)
      ensures Valid() && View() == Log([], [], [], 0, ZERO_HASH)
      ensures this.tools == tools && this.quote == quote && this.marshal == marshal
      ensures this.go == go && this.lex == lex
    {
      this.tools, this.quote, this.marshal, this.go, this.lex := tools, quote, marshal, go, lex;
      file, events, sequence, hash, readings := [], [], 0, ZERO_HASH, [];
      new;
      ZeroIsDigest();
    }

    /**
     `AppendJSON`, with the syntax of the text it is handed, if that is valid JSON.  An empty operation,
     an invalid text and an event whose frame is too large are refused and change nothing.  Otherwise
     the checker accepts the file exactly when the event survives and the file is not too large; when
     the event does not survive, the checker refuses the file from then on.
     */
    method AppendJson(operation: Bytes, text: Option<Node>) returns (event: Option<Written>)
      requires Valid() && (text.Some? ==> Legal(go, text.value))
      requires sequence + 1 < WORD && |operation| < WORD
      modifies this
      ensures event.None? <==>
        || operation == [] || text.None?
        || |NextPayload(tools, quote, old(View()), operation, text.value)| > MAX_HISTORY_FRAME_BYTES
      ensures event.None? ==> unchanged(this)
      ensures event.Some? ==>
        && event.value == NextEvent(tools, old(View()), operation, text.value)
        && IsAppended(go, lex, tools, quote, old(View()), operation, text.value, View())
    {
      if operation == [] || text.None? {
        return None;
      }
      event := Store(operation, text.value);
    }

    /** The part of `AppendJSON` that comes after its checks. */
    method Store(operation: Bytes, data: Node) returns (event: Option<Written>)
      requires Valid() && operation != [] && Legal(go, data)
      requires sequence + 1 < WORD && |operation| < WORD
      modifies this
      ensures event.None? <==> |NextPayload(tools, quote, old(View()), operation, data)| > MAX_HISTORY_FRAME_BYTES
      ensures event.None? ==> unchanged(this)
      ensures event.Some? ==>
        && event.value == NextEvent(tools, old(View()), operation, data)
        && IsAppended(go, lex, tools, quote, old(View()), operation, data, View())
    {
      var w, payload := Encode(tools, quote, sequence + 1, hash, operation, data);
      if |payload| > MAX_HISTORY_FRAME_BYTES {
        return None;
      }
      ghost var r := NextReading(lex, quote, operation, data);
      AppendedIs(go, lex, tools, quote, View(), operation, data, payload, w, r);
      Extend(payload, w, r);
      event := Some(w);
    }

    /** The part of `AppendJSON` that writes the frame and moves the head. */
    method Extend(payload: Bytes, w: Written, ghost r: Reading)
      modifies this
      ensures
        View() ==
          Log(old(file) + Frame(payload), old(events) + [w], old(readings) + [r], old(sequence) + 1, w.hash)
    {
      file := file + (MARKER + Pack(|payload|)) + payload;
      assert file == old(file) + Frame(payload);
      events, readings := events + [w], readings + [r];
      sequence, hash := sequence + 1, w.hash;
    }

    /**
     `Append`: a value that cannot be encoded is refused.  What the encoder writes has nothing left to
     escape, so with an operation that is written as it is, it survives exactly if the reader admits it.
     */
    method Append(operation: Bytes, data: Value) returns (event: Option<Written>)
      requires Valid() && Marshals(go, marshal)
      requires sequence + 1 < WORD && |operation| < WORD
      modifies this
      ensures event.None? <==>
        || operation == [] || marshal(data).None?
        || |NextPayload(tools, quote, old(View()), operation, marshal(data).value)| > MAX_HISTORY_FRAME_BYTES
      ensures event.None? ==> unchanged(this)
      ensures event.Some? ==>
        && event.value == NextEvent(tools, old(View()), operation, marshal(data).value)
        && IsAppended(go, lex, tools, quote, old(View()), operation, marshal(data).value, View())
      ensures event.Some? && DataAdmitted(lex, marshal(data).value) && SafeText(lex, quote, operation) ==>
        Valid() && readings == old(readings) + [Reading(operation, Meaning(lex, marshal(data).value))]
    {
      var encoded := marshal(data);
      assert Marshalled(go, encoded);
      event := AppendJson(operation, encoded);
    }
  }

  lemma HeadIsAnchored(tools: Tools, links: seq<Link>, sequence: nat, hash: Bytes)
    requires links != [] && |links| == sequence && HashBefore(links, ZERO_HASH, |links|) == hash
    ensures AnchorAccepts(tools, Anchor(tools, sequence, hash), links)
  {
  }

  lemma HeldReplays(check: Check, file: Bytes, events: seq<Written>, readings: seq<Reading>)
    requires Holds(check, file, events, readings) && events != [] && |file| <= MAX_HISTORY_BYTES
    ensures Replay(check, file) == ReplayFrom(check, file, 1, ZERO_HASH)
    ensures Replay(check, file).Some? && AllMatch(Replay(check, file).value, events, readings)
  {
  }

  /** A file within the size limit is accepted, and its head is the anchor that the checker asks for. */
  lemma HeldIsAccepted(
    tools: Tools, file: Bytes, events: seq<Written>, readings: seq<Reading>, sequence: nat, hash: Bytes)
    requires Holds(RawCheck(tools), file, events, readings) && HeadOf(events, sequence, hash)
    requires events != [] && |file| <= MAX_HISTORY_BYTES
    ensures
      var links := Replay(RawCheck(tools), file);
      && links.Some? && AllMatch(links.value, events, readings)
      && AnchorAccepts(tools, Anchor(tools, sequence, hash), links.value)
  {
    HeldReplays(RawCheck(tools), file, events, readings);
    HeadLinks(RawCheck(tools), file, events, readings, sequence, hash);
    HeadIsAnchored(tools, Replay(RawCheck(tools), file).value, sequence, hash);
  }
}
