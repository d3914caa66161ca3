/**
 Replay of the binary History: length-prefixed frames, each holding one JSON object that is linked to
 its predecessor by a hash over its own bytes.  `None` stands for EvidenceError.
 */
module History {
  import opened Options
  import opened Decimals
  import opened Json
  import opened Scanner

  /** The standard decoder and the hexadecimal SHA-256 digest, which the checker only calls. */
  datatype Tools = Tools(decode: Bytes -> Option<Value>, sha: Bytes -> Bytes)

  const MARKER: Bytes := "HST1"
  const EVENT_TAG: Bytes := "history-event-v1\0"
  const ANCHOR_TAG: Bytes := "history-head-anchor-v1\0"
  const ZERO_HASH: Bytes := Zeros(64)
  const MAX_HISTORY_BYTES := 33554432
  const MAX_HISTORY_FRAME_BYTES := 16777216

  datatype Event = Event(sequence: nat, operation: Bytes, data: Value, previousHash: Bytes, hash: Bytes)

  /** An accepted event together with the bytes of its `data` member. */
  datatype Link = Link(event: Event, raw: Bytes)

  predicate IsDigest(s: Bytes) {
    |s| == 64 && forall i :: 0 <= i < 64 ==> '0' <= s[i] <= '9' || 'a' <= s[i] <= 'f'
  }

  function HashPart(part: Bytes): Bytes {
    Pack(|part|) + part
  }

  /** Everything that `_event_hash` feeds to the digest. */
  function Preimage(sequence: nat, previous: Bytes, operation: Bytes, raw: Bytes): Bytes {
    EVENT_TAG + Pack(sequence) + HashPart(previous) + HashPart(operation) + HashPart(raw)
  }

  method EventHash(tools: Tools, sequence: nat, previous: Bytes, operation: Bytes, raw: Bytes) returns (hash: Bytes)
    ensures hash == tools.sha(Preimage(sequence, previous, operation, raw))
  {
    var digest := EVENT_TAG;
    digest := digest + Pack(sequence);
    digest := digest + HashPart(previous);
    digest := digest + HashPart(operation);
    digest := digest + HashPart(raw);
    hash := tools.sha(digest);
  }

  const FIELDS: set<Bytes> := {"version", "sequence", "operation", "data", "previous_hash", "hash"}

  function Names(ms: seq<Member>): set<Bytes> {
    set i | 0 <= i < |ms| :: ms[i].key
  }

  function Field(ms: seq<Member>, key: Bytes): Value {
    if Lookup(ms, key).Some? then Lookup(ms, key).value else Atom([])
  }

  /** `struct.pack` refuses a length or sequence that does not fit eight bytes. */
  predicate Packable(sequence: nat, previous: Bytes, operation: Bytes, raw: Bytes) {
    sequence < WORD && |previous| < WORD && |operation| < WORD && |raw| < WORD
  }

  /** The values that Python's `==` identifies with 1, as the encoder writes them. */
  const ONES: set<Bytes> := {"1", "1.0", "true"}

  /** The checks on the fields of a frame that do not involve its hash. */
  predicate FieldsOk(ms: seq<Member>, sequence: nat, previous: Bytes) {
    && Names(ms) == FIELDS
    && Field(ms, "version").Atom? && Field(ms, "version").token in ONES
    && Field(ms, "sequence") == Atom(Decimal(sequence))
    && Field(ms, "operation").Str? && Field(ms, "operation").text != []
    && Field(ms, "previous_hash") == Str(previous)
    && Field(ms, "hash").Str? && IsDigest(Field(ms, "hash").text)
  }

  function LinkOf(ms: seq<Member>, sequence: nat, previous: Bytes, raw: Bytes): Link
    requires FieldsOk(ms, sequence, previous)
  {
    Link(Event(sequence, Field(ms, "operation").text, Field(ms, "data"), previous, Field(ms, "hash").text), raw)
  }

  /** The checks that one turn of the replay loop makes on the payload of a frame. */
  function CheckFrame(tools: Tools, payload: Bytes, sequence: nat, previous: Bytes): Option<Link> {
    var stored := tools.decode(payload);
    if stored.None? || !stored.value.Obj? || !FieldsOk(stored.value.members, sequence, previous) then None
    else
      var ms := stored.value.members;
      var raw := RawObjectMember(payload, "data", tools.decode);
      if raw.None? || !Packable(sequence, previous, Field(ms, "operation").text, raw.value) then None
      else if tools.sha(Preimage(sequence, previous, Field(ms, "operation").text, raw.value)) != Field(ms, "hash").text
      then None
      else Some(LinkOf(ms, sequence, previous, raw.value))
  }

  method VerifyFrame(tools: Tools, payload: Bytes, sequence: nat, previous: Bytes) returns (link: Option<Link>)
    ensures link == CheckFrame(tools, payload, sequence, previous)
  {
    var stored := tools.decode(payload);
    if stored.None? || !stored.value.Obj? || !FieldsOk(stored.value.members, sequence, previous) {
      return None;
    }
    var ms := stored.value.members;
    var raw := CutMember(payload, "data", tools.decode);
    if raw.None? || !Packable(sequence, previous, Field(ms, "operation").text, raw.value) {
      return None;
    }
    var hash := EventHash(tools, sequence, previous, Field(ms, "operation").text, raw.value);
    link := if hash == Field(ms, "hash").text then Some(LinkOf(ms, sequence, previous, raw.value)) else None;
  }

  // ----- Framing -----

  /** How a checker judges one payload, given its place in the chain and the hash before it. */
  type Check = (Bytes, nat, Bytes) -> Option<Link>

  /** The payload length that the header of the first frame announces, when the frame is all there. */
  function FirstFrame(raw: Bytes): (length: Option<nat>)
    ensures length.Some? ==> 0 < length.value <= MAX_HISTORY_FRAME_BYTES && 12 + length.value <= |raw|
  {
    if |raw| < 12 || raw[..4] != MARKER then None
    else
      var length := Unpack(raw[4..12]);
      if 0 < length <= MAX_HISTORY_FRAME_BYTES && 12 + length <= |raw| then Some(length) else None
  }

  function ReplayFrom(check: Check, raw: Bytes, sequence: nat, previous: Bytes): (links: Option<seq<Link>>)
    decreases |raw|
  {
    if raw == [] then Some([])
    else
      var length := FirstFrame(raw);
      if length.None? then None
      else
        var first := check(raw[12..12 + length.value], sequence, previous);
        if first.None? then None
        else
          var rest := ReplayFrom(check, raw[12 + length.value..], sequence + 1, first.value.event.hash);
          if rest.None? then None else Some([first.value] + rest.value)
  }

  function Replay(check: Check, raw: Bytes): Option<seq<Link>> {
    if |raw| > MAX_HISTORY_BYTES || raw == [] then None else ReplayFrom(check, raw, 1, ZERO_HASH)
  }

  /** The check of `_replay_history`. */
  function RawCheck(tools: Tools): Check {
    (payload: Bytes, sequence: nat, previous: Bytes) => CheckFrame(tools, payload, sequence, previous)
  }

  function Events(links: seq<Link>): seq<Event> {
    seq(|links|, i requires 0 <= i < |links| => links[i].event)
  }

  lemma EventsSnoc(links: seq<Link>, link: Link)
    ensures Events(links + [link]) == Events(links) + [link.event]
  {
  }

  function Join(done: seq<Link>, rest: Option<seq<Link>>): Option<seq<Link>> {
    if rest.None? then None else Some(done + rest.value)
  }

  lemma JoinEmpty(rest: Option<seq<Link>>)
    ensures Join([], rest) == rest
  {
    if rest.Some? {
      assert [] + rest.value == rest.value;
    }
  }

  lemma JoinStep(check: Check, raw: Bytes, sequence: nat, previous: Bytes, done: seq<Link>, link: Link)
    requires FirstFrame(raw).Some?
    requires check(raw[12..12 + FirstFrame(raw).value], sequence, previous) == Some(link)
    ensures
      Join(done, ReplayFrom(check, raw, sequence, previous))
      == Join(done + [link], ReplayFrom(check, raw[12 + FirstFrame(raw).value..], sequence + 1, link.event.hash))
  {
    var rest := ReplayFrom(check, raw[12 + FirstFrame(raw).value..], sequence + 1, link.event.hash);
    if rest.Some? {
      assert done + ([link] + rest.value) == done + [link] + rest.value;
    }
  }

  /** One turn of the replay loop: the frame at `offset`, and where it ends. */
  method NextFrame(tools: Tools, raw: Bytes, offset: nat, sequence: nat, previous: Bytes)
    returns (link: Option<Link>, end: nat)
    requires offset < |raw|
    ensures link.None? ==> ReplayFrom(RawCheck(tools), raw[offset..], sequence, previous).None?
    ensures link.Some? ==> IsNext(RawCheck(tools), raw, offset, sequence, previous, link.value, end)
  {
    link, end := None, offset;
    var rest := raw[offset..];
    var length := FirstFrame(rest);
    if length.Some? {
      link := VerifyFrame(tools, rest[12..12 + length.value], sequence, previous);
      end := offset + 12 + length.value;
    }
  }

  /** The frame at `offset` ends at `end` and is accepted as `link`. */
  ghost predicate IsNext(
    check: Check, raw: Bytes, offset: nat, sequence: nat, previous: Bytes, link: Link, end: nat)
    requires offset < |raw|
  {
    var rest := raw[offset..];
    && FirstFrame(rest).Some? && offset < end <= |raw|
    && check(rest[12..12 + FirstFrame(rest).value], sequence, previous) == Some(link)
    && raw[end..] == rest[12 + FirstFrame(rest).value..]
  }

  lemma WholeFromStart(raw: Bytes)
    ensures raw[0..] == raw && raw[|raw|..] == []
  {
  }

  lemma JoinNothing(check: Check, done: seq<Link>, sequence: nat, previous: Bytes)
    ensures Join(done, ReplayFrom(check, [], sequence, previous)) == Some(done)
  {
    assert done + [] == done;
  }

  /** How far the loop has come: what was read, and that the rest decides the whole. */
  ghost predicate Progress(
    check: Check, raw: Bytes, offset: int, kept: seq<Event>, previous: Bytes, done: seq<Link>)
  {
    && 0 <= offset <= |raw|
    && kept == Events(done)
    && (offset == 0 <==> done == [])
    && Join(done, ReplayFrom(check, raw[offset..], |done| + 1, previous)) == ReplayFrom(check, raw, 1, ZERO_HASH)
  }

  lemma Started(check: Check, raw: Bytes)
    ensures Progress(check, raw, 0, [], ZERO_HASH, [])
  {
    WholeFromStart(raw);
    JoinEmpty(ReplayFrom(check, raw, 1, ZERO_HASH));
  }

  lemma Advanced(
    check: Check, raw: Bytes, offset: nat, kept: seq<Event>, previous: Bytes, done: seq<Link>, link: Link, end: nat)
    requires offset < |raw| && Progress(check, raw, offset, kept, previous, done)
    requires IsNext(check, raw, offset, |done| + 1, previous, link, end)
    ensures Progress(check, raw, end, kept + [link.event], link.event.hash, done + [link])
  {
    JoinStep(check, raw[offset..], |done| + 1, previous, done, link);
    EventsSnoc(done, link);
  }

  lemma Completed(check: Check, raw: Bytes, kept: seq<Event>, previous: Bytes, done: seq<Link>)
    requires Progress(check, raw, |raw|, kept, previous, done)
    ensures ReplayFrom(check, raw, 1, ZERO_HASH) == Some(done) && (raw == [] <==> done == [])
  {
    WholeFromStart(raw);
    JoinNothing(check, done, |done| + 1, previous);
  }

  /** `_replay_history`, on the bytes of the file. */
  method ReplayHistory(tools: Tools, raw: Bytes) returns (events: Option<seq<Event>>)
    ensures events.None? <==> Replay(RawCheck(tools), raw).None?
    ensures events.Some? ==> events.value == Events(Replay(RawCheck(tools), raw).value)
  {
    if |raw| > MAX_HISTORY_BYTES {
      return None;
    }
    var offset := 0;
    var previous := ZERO_HASH;
    var kept: seq<Event> := [];
    ghost var done: seq<Link> := [];
    ghost var check := RawCheck(tools);
    Started(check, raw);
    while offset < |raw|
      invariant Progress(check, raw, offset, kept, previous, done)
      decreases |raw| - offset
    {
      var link, end := NextFrame(tools, raw, offset, |kept| + 1, previous);
      if link.None? {
        return None;
      }
      Advanced(check, raw, offset, kept, previous, done, link.value, end);
      done := done + [link.value];
      kept := kept + [link.value.event];
      previous := link.value.event.hash;
      offset := end;
    }
    Completed(check, raw, kept, previous, done);
    events := if kept == [] then None else Some(kept);
  }

  // ----- The head anchor -----

  const ANCHOR_HEAD: Bytes := "{\"version\":1,\"sequence\":"
  const ANCHOR_HASH: Bytes := "\"hash\":\""

  function AnchorTail(tools: Tools, sequence: nat, hash: Bytes): Bytes {
    "\",\"checksum\":\"" + tools.sha(ANCHOR_TAG + Pack(sequence) + hash) + "\"}\n"
  }

  /** The bytes that `runtime.head` must hold for a History with this length and last hash. */
  function Anchor(tools: Tools, sequence: nat, hash: Bytes): Bytes {
    ANCHOR_HEAD + (Decimal(sequence) + [','] + (ANCHOR_HASH + hash + AnchorTail(tools, sequence, hash)))
  }

  predicate AnchorAccepts(tools: Tools, anchor: Bytes, links: seq<Link>) {
    links != [] && anchor == Anchor(tools, |links|, links[|links| - 1].event.hash)
  }
}
