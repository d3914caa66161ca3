/**
 The MCP checker reads a History by re-encoding: every frame must be its own canonical encoding, and
 the hash is over the re-encoded data.  Where it differs from the checker that scans the bytes, and
 that it differs nowhere else.
 */
module McpHistory {
  import opened Options
  import opened Decimals
  import opened Json
  import opened Scanner
  import opened Unambiguous
  import opened History
  import opened HistoryTheorems
  import opened Canonical
  import opened Dialects
  import opened FrameFormat

  const MAX_EVIDENCE_BYTES := 67108864

  /** The two operations that the evidence is about leave this many events. */
  const EVENT_COUNT := 7

  // ----- The checker -----

  /** Python's `==` between a decoded value and a positive integer of fewer than seventeen digits. */
  predicate IsNumber(v: Value, n: nat) {
    v.Atom? && (v.token == Decimal(n) || v.token == Decimal(n) + ".0" || (n == 1 && v.token == "true"))
  }

  predicate McpFieldsOk(ms: seq<Member>, sequence: nat, previous: Bytes) {
    && Names(ms) == FIELDS
    && IsNumber(Field(ms, "version"), 1)
    && IsNumber(Field(ms, "sequence"), sequence)
    && Field(ms, "operation").Str? && Field(ms, "operation").text != []
    && Field(ms, "previous_hash") == Str(previous)
  }

  /** The checks that `_history` makes on one payload. */
  function McpCheckFrame(tools: Tools, quote: Quote, payload: Bytes, sequence: nat, previous: Bytes): Option<Link> {
    var stored := tools.decode(payload);
    if stored.None? || !stored.value.Obj? || Compact(quote, stored.value) != payload then None
    else
      var ms := stored.value.members;
      var raw := Compact(quote, Field(ms, "data"));
      if !McpFieldsOk(ms, sequence, previous) then None
      else if !Packable(sequence, previous, Field(ms, "operation").text, raw) then None
      else
        var operation := Field(ms, "operation").text;
        var hash := tools.sha(Preimage(sequence, previous, operation, raw));
        if Field(ms, "hash") != Str(hash) then None
        else Some(Link(Event(sequence, operation, Field(ms, "data"), previous, hash), raw))
  }

  function McpCheck(tools: Tools, quote: Quote): Check {
    (payload: Bytes, sequence: nat, previous: Bytes) => McpCheckFrame(tools, quote, payload, sequence, previous)
  }

  function McpReplay(check: Check, raw: Bytes): Option<seq<Link>> {
    if |raw| > MAX_EVIDENCE_BYTES || raw == [] then None else ReplayFrom(check, raw, 1, ZERO_HASH)
  }

  method McpVerifyFrame(tools: Tools, quote: Quote, payload: Bytes, sequence: nat, previous: Bytes)
    returns (link: Option<Link>)
    ensures link == McpCheckFrame(tools, quote, payload, sequence, previous)
  {
    var stored := tools.decode(payload);
    if stored.None? || !stored.value.Obj? || Compact(quote, stored.value) != payload {
      return None;
    }
    var ms := stored.value.members;
    var raw := Compact(quote, Field(ms, "data"));
    if !McpFieldsOk(ms, sequence, previous) || !Packable(sequence, previous, Field(ms, "operation").text, raw) {
      return None;
    }
    var operation := Field(ms, "operation").text;
    var hash := EventHash(tools, sequence, previous, operation, raw);
    link := if Field(ms, "hash") == Str(hash)
      then Some(Link(Event(sequence, operation, Field(ms, "data"), previous, hash), raw)) else None;
  }

  method McpNextFrame(tools: Tools, quote: Quote, raw: Bytes, offset: nat, sequence: nat, previous: Bytes)
    returns (link: Option<Link>, end: nat)
    requires offset < |raw|
    ensures link.None? ==> ReplayFrom(McpCheck(tools, quote), raw[offset..], sequence, previous).None?
    ensures link.Some? ==> IsNext(McpCheck(tools, quote), raw, offset, sequence, previous, link.value, end)
  {
    link, end := None, offset;
    var rest := raw[offset..];
    var length := FirstFrame(rest);
    if length.Some? {
      link := McpVerifyFrame(tools, quote, rest[12..12 + length.value], sequence, previous);
      end := offset + 12 + length.value;
    }
  }

  /** `_history`, on the bytes of the file. */
  method ReadHistory(tools: Tools, quote: Quote, raw: Bytes) returns (events: Option<seq<Event>>)
    ensures
      var links := ReplayFrom(McpCheck(tools, quote), raw, 1, ZERO_HASH);
      events ==
        if 0 < |raw| <= 67108864 && links.Some? && |links.value| == 7 then Some(Events(links.value)) else None
  {
    if |raw| > MAX_EVIDENCE_BYTES || raw == [] {
      return None;
    }
    var offset := 0;
    var previous := ZERO_HASH;
    var kept: seq<Event> := [];
    ghost var done: seq<Link> := [];
    ghost var check := McpCheck(tools, quote);
    Started(check, raw);
    while offset < |raw|
      invariant Progress(check, raw, offset, kept, previous, done)
      decreases |raw| - offset
    {
      var link, end := McpNextFrame(tools, quote, raw, offset, |kept| + 1, previous);
      if link.None? {
        return None;
      }
      Advanced(check, raw, offset, kept, previous, done, link.value, end);
      done := done + [link.value];
      kept := kept + [link.value.event];
      previous := link.value.event.hash;
      offset := end;
    }
    Completed(check, raw, kept, previous, done);
    events := if |kept| == EVENT_COUNT then Some(kept) else None;
  }

  // ----- Constants that are no JSON -----

  const CONSTANTS: set<Bytes> := {"NaN", "Infinity", "-Infinity"}

  /** The lexicon with the `parse_constant` hook that refuses them. */
  function Strict(loose: Lexicon): Lexicon {
    Lexicon((token: Bytes) => if token in CONSTANTS then None else loose.scalar(token), loose.text, loose.nesting)
  }

  /** No such constant is written in the text. */
  predicate FiniteText(n: Node)
    decreases n, 1
  {
    match n
    case Scalar(token) => token !in CONSTANTS
    case Text(_) => true
    case Composite(_, entries, _) => FiniteEntries(entries)
  }

  predicate FiniteEntries(es: seq<Entry>)
    decreases es, 0
  {
    es == [] || (FiniteText(es[0].value) && FiniteEntries(es[1..]))
  }

  /** No such constant occurs in the value. */
  predicate Finite(v: Value)
    decreases v, 1
  {
    match v
    case Atom(token) => token !in CONSTANTS
    case Str(_) => true
    case Arr(items) => FiniteItems(items)
    case Obj(members) => FiniteMembers(members)
  }

  predicate FiniteItems(items: seq<Value>)
    decreases items, 0
  {
    items == [] || (Finite(items[0]) && FiniteItems(items[1..]))
  }

  predicate FiniteMembers(ms: seq<Member>)
    decreases ms, 0
  {
    ms == [] || (Finite(ms[0].value) && FiniteMembers(ms[1..]))
  }

  /** The strict lexicon reads exactly the finite texts, and reads them the same. */
  lemma {:induction false} StrictReads(loose: Lexicon, n: Node)
    ensures Legal(Strict(loose), n) <==> Legal(loose, n) && FiniteText(n)
    ensures Legal(Strict(loose), n) ==> Meaning(Strict(loose), n) == Meaning(loose, n)
    decreases n, 1
  {
    if n.Composite? {
      StrictReadsEntries(loose, n.entries, n.isObject);
    }
  }

  lemma {:induction false} StrictReadsEntries(loose: Lexicon, es: seq<Entry>, isObject: bool)
    ensures LegalEntries(Strict(loose), es, isObject) <==> LegalEntries(loose, es, isObject) && FiniteEntries(es)
    ensures LegalEntries(Strict(loose), es, isObject) ==>
      && MembersOf(Strict(loose), es) == MembersOf(loose, es)
      && ItemsOf(Strict(loose), es) == ItemsOf(loose, es)
    decreases es, 0
  {
    if es != [] {
      StrictReads(loose, es[0].value);
      StrictReadsEntries(loose, es[1..], isObject);
      StrictReadsNames(loose, es[0], isObject);
      assert LegalEntries(Strict(loose), es, isObject) <==>
        LegalEntry(Strict(loose), es[0], isObject) && LegalEntries(Strict(loose), es[1..], isObject);
      assert LegalEntries(loose, es, isObject) <==>
        LegalEntry(loose, es[0], isObject) && LegalEntries(loose, es[1..], isObject);
    }
  }

  lemma StrictReadsNames(loose: Lexicon, e: Entry, isObject: bool)
    ensures LegalName(Strict(loose), e.name, isObject) <==> LegalName(loose, e.name, isObject)
    ensures KeyOf(Strict(loose), e) == KeyOf(loose, e)
  {
  }

  lemma {:induction false} CompactFinite(quote: Quote, v: Value)
    ensures FiniteText(CompactNode(quote, v)) <==> Finite(v)
    decreases v, 1
  {
    match v
    case Atom(_) =>
    case Str(_) =>
    case Arr(items) => ItemsFinite(quote, items);
    case Obj(members) => MembersFinite(quote, members);
  }

  lemma {:induction false} ItemsFinite(quote: Quote, items: seq<Value>)
    ensures FiniteEntries(ItemEntries(quote, items)) <==> FiniteItems(items)
    decreases items, 0
  {
    if items != [] {
      CompactFinite(quote, items[0]);
      ItemsFinite(quote, items[1..]);
      assert ItemEntries(quote, items)[1..] == ItemEntries(quote, items[1..]);
    }
  }

  lemma {:induction false} MembersFinite(quote: Quote, ms: seq<Member>)
    ensures FiniteEntries(MemberEntries(quote, ms)) <==> FiniteMembers(ms)
    decreases ms, 0
  {
    if ms != [] {
      CompactFinite(quote, ms[0].value);
      MembersFinite(quote, ms[1..]);
      assert MemberEntries(quote, ms)[1..] == MemberEntries(quote, ms[1..]);
    }
  }

  // ----- The two decoders -----

  /** The tools of the two checkers: one digest, and decoders that differ in the constants they admit. */
  ghost predicate Siblings(loose: Lexicon, mcp: Tools, scan: Tools, quote: Quote) {
    && ValidLexicon(loose) && Rewrites(loose, quote)
    && IsDecoder(loose, mcp.decode) && IsDecoder(Strict(loose), scan.decode)
    && (forall s :: mcp.sha(s) == scan.sha(s) && IsDigest(scan.sha(s)))
  }

  lemma StrictIsValid(loose: Lexicon)
    requires ValidLexicon(loose)
    ensures ValidLexicon(Strict(loose)) && Wider(loose, Strict(loose))
  {
  }

  /** Whatever the strict decoder reads, the loose one reads the same. */
  lemma {:induction false} StrictIsLoose(loose: Lexicon, mcp: Tools, scan: Tools, quote: Quote, data: Bytes)
    requires Siblings(loose, mcp, scan, quote) && scan.decode(data).Some?
    ensures mcp.decode(data) == scan.decode(data)
  {
    var n, left, right :| Spells(Strict(loose), data, n, left, right);
    StrictReads(loose, n);
    assert Spells(loose, data, n, left, right);
  }

  /** What a canonical text decodes to can be written, and is the reading of that text. */
  lemma {:induction false} CanonicalParses(loose: Lexicon, tools: Tools, quote: Quote, data: Bytes)
    requires ValidLexicon(loose) && Rewrites(loose, quote) && IsDecoder(loose, tools.decode)
    requires IsCanonical(tools, quote, data)
    ensures
      var v := tools.decode(data).value;
      && Parses(loose, data, CompactNode(quote, v), [], [])
      && Meaning(loose, CompactNode(quote, v)) == v && NoRepeats(v)
      && Depth(CompactNode(quote, v)) <= loose.nesting
  {
    var v := tools.decode(data).value;
    var n, left, right :| Spells(loose, data, n, left, right);
    DecodedIsWritable(loose, quote, n);
    CompactMeans(loose, quote, v);
    assert [] + data + [] == data;
    OneReading(loose, data, n, left, right, CompactNode(quote, v), [], []);
  }

  /** On a canonical text the strict decoder agrees exactly when no constant occurs. */
  lemma {:induction false} StrictDecodesIff(loose: Lexicon, mcp: Tools, scan: Tools, quote: Quote, data: Bytes)
    requires Siblings(loose, mcp, scan, quote) && IsCanonical(mcp, quote, data)
    ensures scan.decode(data) == if Finite(mcp.decode(data).value) then mcp.decode(data) else None
  {
    var v := mcp.decode(data).value;
    var n := CompactNode(quote, v);
    CanonicalParses(loose, mcp, quote, data);
    assert data == Print(n);
    CompactFinite(quote, v);
    StrictReads(loose, n);
    StrictIsValid(loose);
    ForeignDecodes(loose, Strict(loose), scan.decode, n);
  }

  // ----- One frame -----

  /** The sequence is written as an integer, and no constant occurs. */
  predicate IsPlainFrame(tools: Tools, payload: Bytes, sequence: nat) {
    var stored := tools.decode(payload);
    && stored.Some? && stored.value.Obj?
    && Finite(stored.value)
    && Field(stored.value.members, "sequence") == Atom(Decimal(sequence))
  }

  lemma NumberOne(v: Value)
    ensures IsNumber(v, 1) <==> v.Atom? && v.token in ONES
  {
    assert Decimal(1) == "1" && "1" + ".0" == "1.0";
  }

  lemma {:induction false} SameRaw(loose: Lexicon, mcp: Tools, scan: Tools, quote: Quote, payload: Bytes)
    requires Siblings(loose, mcp, scan, quote) && IsCanonical(mcp, quote, payload)
    requires scan.decode(payload).Some? && scan.decode(payload).value.Obj?
    requires "data" in Names(scan.decode(payload).value.members)
    ensures
      RawObjectMember(payload, "data", scan.decode)
      == Some(Compact(quote, Field(scan.decode(payload).value.members, "data")))
  {
    var v := mcp.decode(payload).value;
    StrictIsLoose(loose, mcp, scan, quote, payload);
    StrictIsValid(loose);
    CanonicalParses(loose, mcp, quote, payload);
    StrictDecodesIff(loose, mcp, scan, quote, payload);
    CompactFinite(quote, v);
    StrictReads(loose, CompactNode(quote, v));
    CompactCut(Strict(loose), quote, scan.decode, payload, v.members);
  }

  lemma {:induction false} CompactCut(
    lex: Lexicon, quote: Quote, decode: Bytes -> Option<Value>, payload: Bytes, ms: seq<Member>)
    requires ValidLexicon(lex) && IsDecoder(lex, decode) && NoRepeats(Obj(ms)) && "data" in Names(ms)
    requires Parses(lex, payload, CompactNode(quote, Obj(ms)), [], [])
    requires Meaning(lex, CompactNode(quote, Obj(ms))) == Obj(ms)
    ensures RawObjectMember(payload, "data", decode) == Some(Compact(quote, Field(ms, "data")))
  {
    var n := CompactNode(quote, Obj(ms));
    var i :| 0 <= i < |ms| && ms[i].key == "data";
    CutAt(lex, decode, payload, n, [], [], i);
    MembersAt(lex, n.entries, true, i);
    MemberEntryAt(quote, ms, i);
    LookupAt(ms, i);
  }

  /**
   On one frame the two checkers differ in exactly three ways.  A frame that the scanning checker
   accepts, the MCP checker accepts if and only if it is canonical; a frame that the MCP checker
   accepts, the scanning checker accepts if and only if its sequence is written as an integer and no
   constant occurs in it.  When both accept, they read the same event and hash the same bytes.
   */
  lemma {:induction false} CheckersAgreeIff(
    loose: Lexicon, mcp: Tools, scan: Tools, quote: Quote, payload: Bytes, sequence: nat, previous: Bytes)
    requires Siblings(loose, mcp, scan, quote)
    ensures
      var m, c := McpCheckFrame(mcp, quote, payload, sequence, previous), CheckFrame(scan, payload, sequence, previous);
      && (c.Some? ==> m == if IsCanonical(mcp, quote, payload) then c else None)
      && (m.Some? ==> c == if IsPlainFrame(mcp, payload, sequence) then m else None)
  {
    if IsCanonical(mcp, quote, payload) {
      StrictDecodesIff(loose, mcp, scan, quote, payload);
      if scan.decode(payload).Some? && scan.decode(payload).value.Obj? {
        FramesJudged(loose, mcp, scan, quote, payload, sequence, previous);
      }
    }
  }

  /** A canonical frame that both decoders read is judged the same, up to the sequence. */
  lemma {:induction false} FramesJudged(
    loose: Lexicon, mcp: Tools, scan: Tools, quote: Quote, payload: Bytes, sequence: nat, previous: Bytes)
    requires Siblings(loose, mcp, scan, quote) && IsCanonical(mcp, quote, payload)
    requires scan.decode(payload) == mcp.decode(payload) && scan.decode(payload).value.Obj?
    ensures
      CheckFrame(scan, payload, sequence, previous) ==
        if Field(mcp.decode(payload).value.members, "sequence") == Atom(Decimal(sequence))
        then McpCheckFrame(mcp, quote, payload, sequence, previous) else None
  {
    var ms := mcp.decode(payload).value.members;
    NumberOne(Field(ms, "version"));
    if FieldsOk(ms, sequence, previous) || McpFieldsOk(ms, sequence, previous) {
      assert "data" in FIELDS;
      SameRaw(loose, mcp, scan, quote, payload);
    }
  }

  // ----- A whole file -----

  /** Every frame of the file, with its place, satisfies `P`. */
  ghost predicate AllFrames(P: (Bytes, nat) -> bool, raw: Bytes, sequence: nat)
    decreases |raw|
  {
    raw == [] ||
    (FirstFrame(raw).Some? &&
     var length := FirstFrame(raw).value;
     P(raw[12..12 + length], sequence) && AllFrames(P, raw[12 + length..], sequence + 1))
  }

  /** Checks that agree frame by frame, up to `P`, agree on whole files up to `P`. */
  lemma {:induction false} ReplaysAgree(
    c: Check, d: Check, P: (Bytes, nat) -> bool, raw: Bytes, links: seq<Link>, sequence: nat, previous: Bytes)
    requires forall payload, s: nat, p ::
      c(payload, s, p).Some? ==> d(payload, s, p) == if P(payload, s) then c(payload, s, p) else None
    requires ReplayFrom(c, raw, sequence, previous) == Some(links)
    ensures ReplayFrom(d, raw, sequence, previous) == if AllFrames(P, raw, sequence) then Some(links) else None
    decreases |raw|
  {
    if raw != [] {
      FirstLink(c, raw, links, sequence, previous);
      var length := FirstFrame(raw).value;
      if P(raw[12..12 + length], sequence) {
        ReplaysAgree(c, d, P, raw[12 + length..], links[1..], sequence + 1, links[0].event.hash);
        assert links == [links[0]] + links[1..];
      }
    }
  }

  function PlainFrames(tools: Tools): (Bytes, nat) -> bool {
    (payload: Bytes, sequence: nat) => IsPlainFrame(tools, payload, sequence)
  }

  function CanonicalFrames(tools: Tools, quote: Quote): (Bytes, nat) -> bool {
    (payload: Bytes, _: nat) => IsCanonical(tools, quote, payload)
  }

  /**
   A History that the MCP checker's loop accepts, the scanning checker accepts, with the same links,
   if and only if it is within 32 MiB and every frame writes its sequence as an integer and holds no
   constant.
   */
  lemma {:induction false} ScannedIff(
    loose: Lexicon, mcp: Tools, scan: Tools, quote: Quote, raw: Bytes, links: seq<Link>)
    requires Siblings(loose, mcp, scan, quote) && McpReplay(McpCheck(mcp, quote), raw) == Some(links)
    ensures
      Replay(RawCheck(scan), raw) ==
        if |raw| <= 33554432 && AllFrames(PlainFrames(mcp), raw, 1) then Some(links) else None
  {
    var c, d, P := McpCheck(mcp, quote), RawCheck(scan), PlainFrames(mcp);
    forall payload, s: nat, p | c(payload, s, p).Some?
      ensures d(payload, s, p) == if P(payload, s) then c(payload, s, p) else None
    {
      CheckersAgreeIff(loose, mcp, scan, quote, payload, s, p);
    }
    ReplaysAgree(c, d, P, raw, links, 1, ZERO_HASH);
  }

  /** A History that the scanning checker accepts, the MCP loop accepts iff every frame is canonical. */
  lemma {:induction false} ReencodedIff(
    loose: Lexicon, mcp: Tools, scan: Tools, quote: Quote, raw: Bytes, links: seq<Link>)
    requires Siblings(loose, mcp, scan, quote) && Replay(RawCheck(scan), raw) == Some(links)
    ensures
      McpReplay(McpCheck(mcp, quote), raw) ==
        if AllFrames(CanonicalFrames(mcp, quote), raw, 1) then Some(links) else None
  {
    var c, d, P := RawCheck(scan), McpCheck(mcp, quote), CanonicalFrames(mcp, quote);
    forall payload, s: nat, p | c(payload, s, p).Some?
      ensures d(payload, s, p) == if P(payload, s) then c(payload, s, p) else None
    {
      CheckersAgreeIff(loose, mcp, scan, quote, payload, s, p);
    }
    ReplaysAgree(c, d, P, raw, links, 1, ZERO_HASH);
  }

  // ----- Frames on which they differ -----

  lemma MemberEntriesCons(quote: Quote, m: Member, ms: seq<Member>)
    ensures
      MemberEntries(quote, [m] + ms)
      == [FieldEntry(quote, m.key, CompactNode(quote, m.value))] + MemberEntries(quote, ms)
  {
    assert ([m] + ms)[1..] == ms;
  }

  lemma LinkIsCompact(quote: Quote, data: Value, previous: Bytes, hash: Bytes)
    ensures
      MemberEntries(quote, LinkFields(data, previous, hash))
      == LinkEntries(quote, CompactNode(quote, data), previous, hash)
  {
    var m5 := [Member("hash", Str(hash))] + [];
    var m4 := [Member("previous_hash", Str(previous))] + m5;
    MemberEntriesCons(quote, Member("hash", Str(hash)), []);
    MemberEntriesCons(quote, Member("previous_hash", Str(previous)), m5);
    MemberEntriesCons(quote, Member("data", data), m4);
  }

  /** A written event with compact data is the compact encoding of its fields. */
  lemma EventIsCompact(quote: Quote, number: Bytes, previous: Bytes, operation: Bytes, data: Value, hash: Bytes)
    ensures
      Print(EventNode(quote, number, previous, operation, CompactNode(quote, data), hash))
      == Compact(quote, Obj(Fields(number, previous, operation, data, hash)))
  {
    var m3 := LinkFields(data, previous, hash);
    var m2 := [Member("operation", Str(operation))] + m3;
    LinkIsCompact(quote, data, previous, hash);
    MemberEntriesCons(quote, Member("operation", Str(operation)), m3);
    MemberEntriesCons(quote, Member("sequence", Atom(number)), m2);
    MemberEntriesCons(quote, Member("version", Atom("1")), [Member("sequence", Atom(number))] + m2);
  }

  /** A frame at its place in the chain, with the sequence written as `number`. */
  function FrameText(
    tools: Tools, quote: Quote, number: Bytes, sequence: nat, previous: Bytes, operation: Bytes, data: Value): Bytes
  {
    var hash := tools.sha(Preimage(sequence, previous, operation, Compact(quote, data)));
    Print(EventNode(quote, number, previous, operation, CompactNode(quote, data), hash))
  }

  /**
   Every frame, with any data and with its sequence written in any way that compares equal, is
   accepted by the MCP checker; the scanning checker accepts it if and only if the sequence is the
   integer and the data holds no constant.
   */
  lemma {:induction false} FrameAcceptedIff(
    loose: Lexicon, mcp: Tools, scan: Tools, quote: Quote,
    number: Bytes, sequence: nat, previous: Bytes, operation: Bytes, data: Value)
    requires Siblings(loose, mcp, scan, quote) && Writable(loose, quote, data) && NoRepeats(data)
    requires Depth(CompactNode(quote, data)) < loose.nesting
    requires
      var hash := mcp.sha(Preimage(sequence, previous, operation, Compact(quote, data)));
      Writes(loose, quote, number, previous, operation, operation, hash)
    requires IsNumber(Atom(number), sequence) && number !in CONSTANTS && operation != []
    requires Packable(sequence, previous, operation, Compact(quote, data))
    ensures
      var payload := FrameText(mcp, quote, number, sequence, previous, operation, data);
      var hash := mcp.sha(Preimage(sequence, previous, operation, Compact(quote, data)));
      var link := Link(Event(sequence, operation, data, previous, hash), Compact(quote, data));
      && McpCheckFrame(mcp, quote, payload, sequence, previous) == Some(link)
      && CheckFrame(scan, payload, sequence, previous)
         == if number == Decimal(sequence) && Finite(data) then Some(link) else None
  {
    var payload := FrameText(mcp, quote, number, sequence, previous, operation, data);
    var hash := mcp.sha(Preimage(sequence, previous, operation, Compact(quote, data)));
    var ms := Fields(number, previous, operation, data, hash);
    CompactMeans(loose, quote, data);
    EventDecodes(
      loose, loose, mcp.decode, quote, number, previous, operation, operation, CompactNode(quote, data), hash);
    EventIsCompact(quote, number, previous, operation, data, hash);
    FieldsRead(number, previous, operation, data, hash);
    NumberOne(Atom("1"));
    FieldsFinite(number, previous, operation, data, hash);
    CheckersAgreeIff(loose, mcp, scan, quote, payload, sequence, previous);
  }

  lemma FieldsFinite(number: Bytes, previous: Bytes, operation: Bytes, data: Value, hash: Bytes)
    requires number !in CONSTANTS
    ensures Finite(Obj(Fields(number, previous, operation, data, hash))) <==> Finite(data)
  {
    var m5 := [Member("hash", Str(hash))] + [];
    var m4 := [Member("previous_hash", Str(previous))] + m5;
    var m3 := LinkFields(data, previous, hash);
    var m2 := [Member("operation", Str(operation))] + m3;
    FiniteCons(Member("hash", Str(hash)), []);
    FiniteCons(Member("previous_hash", Str(previous)), m5);
    FiniteCons(Member("data", data), m4);
    FiniteCons(Member("operation", Str(operation)), m3);
    FiniteCons(Member("sequence", Atom(number)), m2);
    FiniteCons(Member("version", Atom("1")), [Member("sequence", Atom(number))] + m2);
  }

  lemma FiniteCons(m: Member, ms: seq<Member>)
    ensures FiniteMembers([m] + ms) <==> Finite(m.value) && FiniteMembers(ms)
  {
    assert ([m] + ms)[1..] == ms;
  }

  /**
   What the examples need of the encoder: integers, `true`, a constant and plain text are written as they
   are, and an object may hold another.
   */
  ghost predicate Literal(loose: Lexicon, quote: Quote) {
    && KeepsPlain(loose, quote) && loose.nesting >= 2
    && loose.scalar("1") == Some("1") && loose.scalar("true") == Some("true") && loose.scalar("NaN") == Some("NaN")
  }

  lemma FirstFrameWrites(loose: Lexicon, quote: Quote, number: Bytes, hash: Bytes)
    requires Literal(loose, quote) && (number == "1" || number == "true") && IsDigest(hash)
    ensures Writes(loose, quote, number, ZERO_HASH, "op", "op", hash)
  {
    ZeroIsDigest();
    assert IsPlain("op") && IsPlain(ZERO_HASH) && IsPlain(hash);
  }

  lemma FirstFrameDiffers(loose: Lexicon, mcp: Tools, scan: Tools, quote: Quote, number: Bytes, data: Value)
    requires Siblings(loose, mcp, scan, quote) && Literal(loose, quote)
    requires number == "1" || number == "true"
    requires Writable(loose, quote, data) && NoRepeats(data) && |Compact(quote, data)| < WORD
    requires Depth(CompactNode(quote, data)) < loose.nesting && (number == "true" || !Finite(data))
    ensures
      var payload := FrameText(mcp, quote, number, 1, ZERO_HASH, "op", data);
      McpCheckFrame(mcp, quote, payload, 1, ZERO_HASH).Some? && CheckFrame(scan, payload, 1, ZERO_HASH).None?
  {
    var hash := mcp.sha(Preimage(1, ZERO_HASH, "op", Compact(quote, data)));
    ZeroIsDigest();
    CompactMeans(loose, quote, data);
    assert Decimal(1) == "1" && "1"[0] != "true"[0];
    FirstFrameWrites(loose, quote, number, hash);
    FrameAcceptedIff(loose, mcp, scan, quote, number, 1, ZERO_HASH, "op", data);
  }

  /** A first frame with `"sequence":true`: the MCP checker accepts it, the scanning checker does not. */
  lemma {:induction false} SequenceTrueDiffers(loose: Lexicon, mcp: Tools, scan: Tools, quote: Quote)
    requires Siblings(loose, mcp, scan, quote) && Literal(loose, quote)
    ensures
      var payload := FrameText(mcp, quote, "true", 1, ZERO_HASH, "op", Obj([]));
      McpCheckFrame(mcp, quote, payload, 1, ZERO_HASH).Some? && CheckFrame(scan, payload, 1, ZERO_HASH).None?
  {
    assert Compact(quote, Obj([])) == "{" + "" + "}";
    FirstFrameDiffers(loose, mcp, scan, quote, "true", Obj([]));
  }

  /** A first frame whose data is `NaN`: the MCP checker accepts it, the scanning checker does not. */
  lemma {:induction false} ConstantDiffers(loose: Lexicon, mcp: Tools, scan: Tools, quote: Quote)
    requires Siblings(loose, mcp, scan, quote) && Literal(loose, quote)
    ensures
      var payload := FrameText(mcp, quote, "1", 1, ZERO_HASH, "op", Atom("NaN"));
      McpCheckFrame(mcp, quote, payload, 1, ZERO_HASH).Some? && CheckFrame(scan, payload, 1, ZERO_HASH).None?
  {
    FirstFrameDiffers(loose, mcp, scan, quote, "1", Atom("NaN"));
  }
}
