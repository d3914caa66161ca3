/**
 What an accepted History is worth: its bytes are exactly its frames, the head anchor pins every
 event, and no truncation survives both checks.
 */
module HistoryTheorems {
  import opened Options
  import opened Decimals
  import opened Json
  import opened Scanner
  import opened ScannerTheorems
  import opened Unambiguous
  import opened History

  // ----- Framing, for any check of the payloads -----

  function Frame(payload: Bytes): Bytes {
    MARKER + Pack(|payload|) + payload
  }

  function FrameAll(payloads: seq<Bytes>): Bytes {
    if payloads == [] then [] else Frame(payloads[0]) + FrameAll(payloads[1..])
  }

  /** The check accepts the payloads one after the other, each continuing the hash of the one before. */
  ghost predicate Accepts(check: Check, payloads: seq<Bytes>, links: seq<Link>, sequence: nat, previous: Bytes) {
    if payloads == [] || links == [] then payloads == [] && links == []
    else
      && 0 < |payloads[0]| <= MAX_HISTORY_FRAME_BYTES
      && check(payloads[0], sequence, previous) == Some(links[0])
      && Accepts(check, payloads[1..], links[1..], sequence + 1, links[0].event.hash)
  }

  lemma FrameOpens(payload: Bytes, rest: Bytes)
    requires 0 < |payload| <= MAX_HISTORY_FRAME_BYTES
    ensures
      var raw := Frame(payload) + rest;
      && FirstFrame(raw) == Some(|payload|)
      && raw[12..12 + |payload|] == payload
      && raw[12 + |payload|..] == rest
  {
    var raw := Frame(payload) + rest;
    assert raw[..4] == MARKER;
    assert raw[4..12] == Pack(|payload|);
    PackRoundTrip(|payload|);
  }

  /** Framing any chain of payloads that the check accepts, and replaying it, gives back its links. */
  lemma {:induction false} FramesReplay(
    check: Check, payloads: seq<Bytes>, links: seq<Link>, sequence: nat, previous: Bytes)
    requires Accepts(check, payloads, links, sequence, previous)
    ensures ReplayFrom(check, FrameAll(payloads), sequence, previous) == Some(links)
    decreases |payloads|
  {
    if payloads != [] {
      FrameOpens(payloads[0], FrameAll(payloads[1..]));
      FramesReplay(check, payloads[1..], links[1..], sequence + 1, links[0].event.hash);
      assert links == [links[0]] + links[1..];
    }
  }

  lemma FrameCloses(raw: Bytes)
    requires IsBytes(raw) && FirstFrame(raw).Some?
    ensures
      var length := FirstFrame(raw).value;
      raw == Frame(raw[12..12 + length]) + raw[12 + length..]
  {
    var length := FirstFrame(raw).value;
    FromBigEndianRoundTrip(raw[4..12]);
    assert raw == raw[..4] + raw[4..12] + raw[12..12 + length] + raw[12 + length..];
  }

  /** An accepted History is nothing but the frames of payloads that were each accepted in turn. */
  lemma {:induction false} ReplayedIsFramed(
    check: Check, raw: Bytes, links: seq<Link>, sequence: nat, previous: Bytes) returns (payloads: seq<Bytes>)
    requires IsBytes(raw) && ReplayFrom(check, raw, sequence, previous) == Some(links)
    ensures raw == FrameAll(payloads)
    ensures Accepts(check, payloads, links, sequence, previous)
    decreases |raw|
  {
    if raw == [] {
      payloads := [];
    } else {
      var length := FirstFrame(raw).value;
      var payload, rest := raw[12..12 + length], raw[12 + length..];
      FrameCloses(raw);
      var more := ReplayedIsFramed(check, rest, links[1..], sequence + 1, links[0].event.hash);
      payloads := [payload] + more;
      assert payloads[1..] == more;
    }
  }

  /** With the limits: such a file is accepted, with exactly these links, unless it is empty or too large. */
  lemma {:induction false} FramedIsAccepted(check: Check, payloads: seq<Bytes>, links: seq<Link>)
    requires Accepts(check, payloads, links, 1, ZERO_HASH)
    ensures
      var raw := FrameAll(payloads);
      Replay(check, raw) == if payloads != [] && |raw| <= MAX_HISTORY_BYTES then Some(links) else None
  {
    FramesReplay(check, payloads, links, 1, ZERO_HASH);
  }

  /** The bytes are the frames of payloads that the check accepts one after the other. */
  ghost predicate Framed(check: Check, raw: Bytes, payloads: seq<Bytes>, links: seq<Link>) {
    raw == FrameAll(payloads) && Accepts(check, payloads, links, 1, ZERO_HASH)
  }

  /** A file is accepted with these links if and only if it is framed so, not empty and not too large. */
  lemma {:induction false} AcceptedIff(check: Check, raw: Bytes, links: seq<Link>)
    requires IsBytes(raw)
    ensures
      Replay(check, raw) == Some(links) <==>
      0 < |raw| <= MAX_HISTORY_BYTES && exists payloads :: Framed(check, raw, payloads, links)
  {
    if Replay(check, raw) == Some(links) {
      var payloads := ReplayedIsFramed(check, raw, links, 1, ZERO_HASH);
      assert Framed(check, raw, payloads, links);
    } else if payloads :| Framed(check, raw, payloads, links) {
      FramedIsAccepted(check, payloads, links);
    }
  }

  /** A prefix of the bytes is rejected, or replays to a prefix of the links, shorter if the bytes are. */
  lemma {:induction false} PrefixReplays(
    check: Check, raw: Bytes, links: seq<Link>, sequence: nat, previous: Bytes, k: nat) returns (m: nat)
    requires ReplayFrom(check, raw, sequence, previous) == Some(links) && k <= |raw|
    ensures m <= |links| && (k < |raw| ==> m < |links|)
    ensures
      var cut := ReplayFrom(check, raw[..k], sequence, previous);
      cut.None? || cut == Some(links[..m])
    decreases |raw|
  {
    m := 0;
    if k == |raw| {
      assert raw[..k] == raw && links[..|links|] == links;
      m := |links|;
    } else if k > 0 && FirstFrame(raw[..k]).Some? {
      var length := FirstFrame(raw).value;
      assert raw[..k][..4] == raw[..4] && raw[..k][4..12] == raw[4..12];
      assert raw[..k][12..12 + length] == raw[12..12 + length];
      assert raw[..k][12 + length..] == raw[12 + length..][..k - 12 - length];
      var more := PrefixReplays(
        check, raw[12 + length..], links[1..], sequence + 1, links[0].event.hash, k - 12 - length);
      m := more + 1;
      assert links[..m] == [links[0]] + links[1..][..more];
    }
  }

  // ----- The anchor -----

  lemma NumeralThenText(head: Bytes, m: nat, mid: Bytes, h: Bytes, t: Bytes, n: nat, k: Bytes, u: Bytes)
    requires head + (Decimal(m) + [','] + (mid + h + t)) == head + (Decimal(n) + [','] + (mid + k + u))
    ensures m == n
    ensures |h| == |k| ==> h == k
  {
    var x, y := Decimal(m) + [','] + (mid + h + t), Decimal(n) + [','] + (mid + k + u);
    assert x == (head + x)[|head|..] && y == (head + y)[|head|..];
    DecimalDelimited(m, n, ',', mid + h + t, mid + k + u);
    if |h| == |k| {
      assert h == (mid + h + t)[|mid|..|mid| + |h|] && k == (mid + k + u)[|mid|..|mid| + |k|];
    }
  }

  /** The anchor bytes determine the length of the History, and its last hash when that is a digest. */
  lemma AnchorPins(tools: Tools, m: nat, h: Bytes, n: nat, k: Bytes)
    requires Anchor(tools, m, h) == Anchor(tools, n, k)
    ensures m == n
    ensures |h| == |k| ==> h == k
  {
    NumeralThenText(ANCHOR_HEAD, m, ANCHOR_HASH, h, AnchorTail(tools, m, h), n, k, AnchorTail(tools, n, k));
  }

  /**
   Cutting a History short at any byte is found out: replay refuses what is left, or returns a strict
   prefix of the events, and then the anchor of the whole History refuses that.
   */
  lemma {:induction false} TruncationDetected(
    tools: Tools, check: Check, raw: Bytes, links: seq<Link>, anchor: Bytes, k: nat)
    requires Replay(check, raw) == Some(links) && AnchorAccepts(tools, anchor, links) && k < |raw|
    ensures
      var cut := Replay(check, raw[..k]);
      cut.Some? ==> cut.value < links && !AnchorAccepts(tools, anchor, cut.value)
  {
    var m := PrefixReplays(check, raw, links, 1, ZERO_HASH, k);
    var cut := Replay(check, raw[..k]);
    if cut.Some? {
      assert cut.value == links[..m];
      if AnchorAccepts(tools, anchor, cut.value) {
        AnchorPins(tools, m, cut.value[m - 1].event.hash, |links|, links[|links| - 1].event.hash);
      }
    }
  }

  // ----- The chain -----

  function PreimageOf(l: Link): Bytes {
    Preimage(l.event.sequence, l.event.previousHash, l.event.operation, l.raw)
  }

  ghost predicate LinkOk(tools: Tools, l: Link, sequence: nat, previous: Bytes) {
    && l.event.sequence == sequence
    && l.event.previousHash == previous
    && Packable(sequence, previous, l.event.operation, l.raw)
    && l.event.hash == tools.sha(PreimageOf(l))
    && IsDigest(l.event.hash)
    && tools.decode(l.raw) == Some(l.event.data)
  }

  lemma HashPartPrefix(a: Bytes, x: Bytes, b: Bytes, y: Bytes)
    requires |a| < WORD && |b| < WORD
    requires HashPart(a) + x == HashPart(b) + y
    ensures a == b && x == y
  {
    var s, t := HashPart(a) + x, HashPart(b) + y;
    assert Pack(|a|) == s[..8] && Pack(|b|) == t[..8];
    PackRoundTrip(|a|);
    PackRoundTrip(|b|);
    assert a == s[8..8 + |a|] && b == t[8..8 + |b|];
    assert x == s[8 + |a|..] && y == t[8 + |b|..];
  }

  lemma SameWidth(tag: Bytes, a: Bytes, x: Bytes, b: Bytes, y: Bytes)
    requires |a| == |b| && tag + a + x == tag + b + y
    ensures a == b && x == y
  {
    var s, t, n := tag + a + x, tag + b + y, |tag|;
    assert a == s[n..n + |a|] && b == t[n..n + |b|];
    assert x == s[n + |a|..] && y == t[n + |b|..];
  }

  function Parts(p: Bytes, o: Bytes, r: Bytes): Bytes {
    HashPart(p) + (HashPart(o) + (HashPart(r) + []))
  }

  lemma PartsInjective(p: Bytes, o: Bytes, r: Bytes, p': Bytes, o': Bytes, r': Bytes)
    requires |p| < WORD && |o| < WORD && |r| < WORD && |p'| < WORD && |o'| < WORD && |r'| < WORD
    requires Parts(p, o, r) == Parts(p', o', r')
    ensures p == p' && o == o' && r == r'
  {
    HashPartPrefix(p, HashPart(o) + (HashPart(r) + []), p', HashPart(o') + (HashPart(r') + []));
    HashPartPrefix(o, HashPart(r) + [], o', HashPart(r') + []);
    HashPartPrefix(r, [], r', []);
  }

  lemma PreimageParts(s: nat, p: Bytes, o: Bytes, r: Bytes)
    ensures Preimage(s, p, o, r) == EVENT_TAG + Pack(s) + Parts(p, o, r)
  {
    var a, b, c := HashPart(p), HashPart(o), HashPart(r);
    assert EVENT_TAG + Pack(s) + a + b + c == EVENT_TAG + Pack(s) + (a + (b + (c + [])));
  }

  /** The hashed bytes determine every part that went into them. */
  lemma PreimageInjective(s: nat, p: Bytes, o: Bytes, r: Bytes, s': nat, p': Bytes, o': Bytes, r': Bytes)
    requires Packable(s, p, o, r) && Packable(s', p', o', r')
    requires Preimage(s, p, o, r) == Preimage(s', p', o', r')
    ensures s == s' && p == p' && o == o' && r == r'
  {
    PreimageParts(s, p, o, r);
    PreimageParts(s', p', o', r');
    SameWidth(EVENT_TAG, Pack(s), Parts(p, o, r), Pack(s'), Parts(p', o', r'));
    PackRoundTrip(s);
    PackRoundTrip(s');
    PartsInjective(p, o, r, p', o', r');
  }

  lemma {:induction false} MembersAt(lex: Lexicon, es: seq<Entry>, isObject: bool, i: nat)
    requires LegalEntries(lex, es, isObject) && i < |es|
    ensures MembersOf(lex, es)[i] == Member(KeyOf(lex, es[i]), Meaning(lex, es[i].value))
    ensures Legal(lex, es[i].value)
    decreases i
  {
    if i > 0 {
      MembersAt(lex, es[1..], isObject, i - 1);
    }
  }

  lemma {:induction false} LookupAt(ms: seq<Member>, i: nat)
    requires DistinctKeys(ms) && i < |ms|
    ensures Lookup(ms, ms[i].key) == Some(ms[i].value)
    decreases i
  {
    if i > 0 {
      assert ms[0].key != ms[i].key;
      forall j, k | 0 <= j < k < |ms[1..]| ensures ms[1..][j].key != ms[1..][k].key {
        assert ms[j + 1].key != ms[k + 1].key;
      }
      LookupAt(ms[1..], i - 1);
    }
  }

  /** The decoder refuses a legal text exactly when a key is repeated or the nesting is too deep. */
  lemma {:induction false} PrintedDecodes(lex: Lexicon, decode: Bytes -> Option<Value>, n: Node)
    requires ValidLexicon(lex) && IsDecoder(lex, decode) && Legal(lex, n)
    ensures decode(Print(n)) == if Admits(lex, n) then Some(Meaning(lex, n)) else None
  {
    var data := Print(n);
    assert [] + data + [] == data;
    assert Parses(lex, data, n, [], []);
    if Admits(lex, n) {
      assert Spells(lex, data, n, [], []);
    } else if decode(data).Some? {
      var n', left, right :| Spells(lex, data, n', left, right);
      OneReading(lex, data, n, [], [], n', left, right);
    }
  }

  lemma {:induction false} DepthAt(es: seq<Entry>, i: nat)
    requires i < |es|
    ensures Depth(es[i].value) <= DepthWithin(es)
    decreases i
  {
    if i > 0 {
      DepthAt(es[1..], i - 1);
    }
  }

  lemma {:induction false} CutAt(
    lex: Lexicon, decode: Bytes -> Option<Value>, payload: Bytes, n: Node, left: Bytes, right: Bytes, i: nat)
    requires ValidLexicon(lex) && IsDecoder(lex, decode) && Parses(lex, payload, n, left, right)
    requires n.Composite? && n.isObject && i < |n.entries| && DistinctKeys(MembersOf(lex, n.entries))
    ensures RawObjectMember(payload, KeyOf(lex, n.entries[i]), decode) == Some(Print(n.entries[i].value))
  {
    var ms := MembersOf(lex, n.entries);
    MembersAt(lex, n.entries, true, i);
    forall j: nat | NamedAt(lex, n.entries, ms[i].key, j) ensures j == i {
      MembersAt(lex, n.entries, true, j);
    }
    CutsExactBytes(lex, decode, payload, n, left, right, ms[i].key, i);
  }

  /**
   On every payload that the decoder accepts as an object with a given member, the scanner succeeds,
   and decoding the bytes it cuts out gives the value that the decoder gave for the member.
   */
  lemma {:induction false} CutDecodes(lex: Lexicon, tools: Tools, payload: Bytes, ms: seq<Member>, key: Bytes)
    requires ValidLexicon(lex) && IsDecoder(lex, tools.decode)
    requires tools.decode(payload) == Some(Obj(ms)) && key in Names(ms)
    ensures RawObjectMember(payload, key, tools.decode).Some?
    ensures tools.decode(RawObjectMember(payload, key, tools.decode).value) == Some(Field(ms, key))
  {
    var n, left, right :| Spells(lex, payload, n, left, right);
    assert Meaning(lex, n) == Obj(ms);
    var i :| 0 <= i < |ms| && ms[i].key == key;
    CutAt(lex, tools.decode, payload, n, left, right, i);
    MembersAt(lex, n.entries, true, i);
    LookupAt(ms, i);
    DepthAt(n.entries, i);
    PrintedDecodes(lex, tools.decode, n.entries[i].value);
  }

  lemma CheckedLink(lex: Lexicon, tools: Tools, payload: Bytes, sequence: nat, previous: Bytes)
    requires ValidLexicon(lex) && IsDecoder(lex, tools.decode)
    requires CheckFrame(tools, payload, sequence, previous).Some?
    ensures LinkOk(tools, CheckFrame(tools, payload, sequence, previous).value, sequence, previous)
  {
    assert "data" in FIELDS;
    CutDecodes(lex, tools, payload, tools.decode(payload).value.members, "data");
  }

  /** The hash that link `i` must continue. */
  function HashBefore(links: seq<Link>, previous: Bytes, i: nat): Bytes
    requires i <= |links|
  {
    if i == 0 then previous else links[i - 1].event.hash
  }

  /** The link at place `i` continues the chain. */
  ghost predicate ChainedAt(tools: Tools, links: seq<Link>, sequence: nat, previous: Bytes, i: int) {
    0 <= i < |links| ==> LinkOk(tools, links[i], sequence + i, HashBefore(links, previous, i))
  }

  ghost predicate Chained(tools: Tools, links: seq<Link>, sequence: nat, previous: Bytes) {
    forall i :: ChainedAt(tools, links, sequence, previous, i)
  }

  lemma ChainedCons(tools: Tools, links: seq<Link>, sequence: nat, previous: Bytes)
    requires links != [] && LinkOk(tools, links[0], sequence, previous)
    requires Chained(tools, links[1..], sequence + 1, links[0].event.hash)
    ensures Chained(tools, links, sequence, previous)
  {
    var rest := links[1..];
    forall i ensures ChainedAt(tools, links, sequence, previous, i) {
      if 0 < i < |links| {
        assert ChainedAt(tools, rest, sequence + 1, links[0].event.hash, i - 1);
      }
    }
  }

  /** What an accepted History starts with. */
  lemma FirstLink(check: Check, raw: Bytes, links: seq<Link>, sequence: nat, previous: Bytes)
    requires ReplayFrom(check, raw, sequence, previous) == Some(links) && raw != []
    ensures FirstFrame(raw).Some? && links != []
    ensures
      var length := FirstFrame(raw).value;
      && check(raw[12..12 + length], sequence, previous) == Some(links[0])
      && ReplayFrom(check, raw[12 + length..], sequence + 1, links[0].event.hash) == Some(links[1..])
  {
  }

  lemma {:induction false} ReplayedIsChained(
    lex: Lexicon, tools: Tools, raw: Bytes, links: seq<Link>, sequence: nat, previous: Bytes)
    requires ValidLexicon(lex) && IsDecoder(lex, tools.decode)
    requires ReplayFrom(RawCheck(tools), raw, sequence, previous) == Some(links)
    ensures Chained(tools, links, sequence, previous)
    decreases |raw|
  {
    if raw != [] {
      FirstLink(RawCheck(tools), raw, links, sequence, previous);
      var length := FirstFrame(raw).value;
      CheckedLink(lex, tools, raw[12..12 + length], sequence, previous);
      ReplayedIsChained(lex, tools, raw[12 + length..], links[1..], sequence + 1, links[0].event.hash);
      ChainedCons(tools, links, sequence, previous);
    }
  }

  /** The two events feed different bytes to the digest and get the same hash. */
  predicate Collides(tools: Tools, l: Link, m: Link) {
    PreimageOf(l) != PreimageOf(m) && tools.sha(PreimageOf(l)) == tools.sha(PreimageOf(m))
  }

  /** At place `i` the two Histories feed different bytes to the digest and get the same hash. */
  predicate Collision(tools: Tools, a: seq<Link>, b: seq<Link>, i: nat) {
    i < |a| && i < |b| && Collides(tools, a[i], b[i])
  }

  lemma SameLink(tools: Tools, l: Link, m: Link, sequence: nat, p: Bytes, q: Bytes)
    requires LinkOk(tools, l, sequence, p) && LinkOk(tools, m, sequence, q)
    requires l.event.hash == m.event.hash && PreimageOf(l) == PreimageOf(m)
    ensures l == m && p == q
  {
    PreimageInjective(sequence, p, l.event.operation, l.raw, sequence, q, m.event.operation, m.raw);
  }

  /** Two chains with the same hash at place `i` collide there, or have the same link and the same hash before it. */
  lemma {:induction false} SameAt(
    tools: Tools, a: seq<Link>, b: seq<Link>, sequence: nat, previous: Bytes, i: nat)
    requires Chained(tools, a, sequence, previous) && Chained(tools, b, sequence, previous)
    requires i < |a| && i < |b| && a[i].event.hash == b[i].event.hash
    ensures
      Collision(tools, a, b, i) || (a[i] == b[i] && HashBefore(a, previous, i) == HashBefore(b, previous, i))
  {
    assert ChainedAt(tools, a, sequence, previous, i) && ChainedAt(tools, b, sequence, previous, i);
    if PreimageOf(a[i]) == PreimageOf(b[i]) {
      SameLink(tools, a[i], b[i], sequence + i, HashBefore(a, previous, i), HashBefore(b, previous, i));
    }
  }

  /** Two chains of one length that end with the same hash. */
  ghost predicate SameEnds(tools: Tools, a: seq<Link>, b: seq<Link>, sequence: nat, previous: Bytes) {
    && Chained(tools, a, sequence, previous) && Chained(tools, b, sequence, previous)
    && |a| == |b| && HashBefore(a, previous, |a|) == HashBefore(b, previous, |b|)
  }

  ghost predicate Collide(tools: Tools, a: seq<Link>, b: seq<Link>) {
    exists i :: Collision(tools, a, b, i)
  }

  /** The chains agree from place `k` on, and on the hash before it. */
  ghost predicate AgreeFrom(a: seq<Link>, b: seq<Link>, previous: Bytes, k: nat) {
    && k <= |a| == |b|
    && HashBefore(a, previous, k) == HashBefore(b, previous, k)
    && forall i :: k <= i < |a| ==> a[i] == b[i]
  }

  lemma {:induction false} StepBack(
    tools: Tools, a: seq<Link>, b: seq<Link>, sequence: nat, previous: Bytes, k: nat)
    requires SameEnds(tools, a, b, sequence, previous) && k < |a| && AgreeFrom(a, b, previous, k + 1)
    ensures Collide(tools, a, b) || AgreeFrom(a, b, previous, k)
  {
    SameAt(tools, a, b, sequence, previous, k);
  }

  lemma {:induction false} BackTo(
    tools: Tools, a: seq<Link>, b: seq<Link>, sequence: nat, previous: Bytes, k: nat)
    requires SameEnds(tools, a, b, sequence, previous) && k <= |a|
    ensures Collide(tools, a, b) || AgreeFrom(a, b, previous, k)
    decreases |a| - k
  {
    if k < |a| {
      BackTo(tools, a, b, sequence, previous, k + 1);
      if !Collide(tools, a, b) {
        StepBack(tools, a, b, sequence, previous, k);
      }
    }
  }

  /** Two chains of one length with the same last hash are equal, link by link, or collide at some place. */
  lemma {:induction false} SameHeadSameChain(
    tools: Tools, a: seq<Link>, b: seq<Link>, sequence: nat, previous: Bytes)
    requires SameEnds(tools, a, b, sequence, previous)
    ensures a == b || Collide(tools, a, b)
  {
    BackTo(tools, a, b, sequence, previous, 0);
  }

  lemma LastIsDigest(tools: Tools, links: seq<Link>, sequence: nat, previous: Bytes)
    requires Chained(tools, links, sequence, previous) && links != []
    ensures |links[|links| - 1].event.hash| == 64
  {
    assert ChainedAt(tools, links, sequence, previous, |links| - 1);
  }

  /**
   One anchor, one History: whatever bytes two accepted files consist of, if the same anchor accepts
   both then they replay to the same events, unless the two files exhibit a SHA-256 collision at the
   same place in the chain.  Blanks and the order of members inside a frame make no difference.
   */
  lemma {:induction false} AnchorPinsEvents(
    lex: Lexicon, tools: Tools, anchor: Bytes, raw: Bytes, raw': Bytes, a: seq<Link>, b: seq<Link>)
    requires ValidLexicon(lex) && IsDecoder(lex, tools.decode)
    requires Replay(RawCheck(tools), raw) == Some(a) && AnchorAccepts(tools, anchor, a)
    requires Replay(RawCheck(tools), raw') == Some(b) && AnchorAccepts(tools, anchor, b)
    ensures Events(a) == Events(b) || Collide(tools, a, b)
  {
    ReplayedIsChained(lex, tools, raw, a, 1, ZERO_HASH);
    ReplayedIsChained(lex, tools, raw', b, 1, ZERO_HASH);
    LastIsDigest(tools, a, 1, ZERO_HASH);
    LastIsDigest(tools, b, 1, ZERO_HASH);
    AnchorPins(tools, |a|, a[|a| - 1].event.hash, |b|, b[|b| - 1].event.hash);
    SameHeadSameChain(tools, a, b, 1, ZERO_HASH);
  }
}
