/**
 What stands in an accepted frame and in an accepted anchor, spelled out, and that no bytes are ever
 hashed for one of them that could be hashed for the other.
 */
module HistoryFields {
  import opened Options
  import opened Decimals
  import opened Json
  import opened Scanner
  import opened History
  import opened HistoryTheorems

  // ----- Numbers in eight bytes -----

  /** Byte `i` of the eight is the one with the weight of its place, the most significant byte first. */
  lemma {:induction false} BigEndianByte(n: nat, width: nat, i: nat)
    requires i < width
    ensures BigEndian(n, width)[i] as int == n / Power256(width - 1 - i) % 256
  {
    if i < width - 1 {
      BigEndianByte(n / 256, width - 1, i);
      DivideTwice(n, Power256(width - 2 - i));
    } else {
      assert n / 1 == n;
    }
  }

  lemma DivideTwice(n: nat, p: nat)
    requires p > 0
    ensures n / 256 / p == n / (256 * p)
  {
    var q := n / 256 / p;
    var r, s := n / 256 % p, n % 256;
    assert n / 256 == q * p + r && n == 256 * (n / 256) + s;
    assert n == 256 * (q * p + r) + s;
    assert 256 * (q * p + r) == q * (256 * p) + 256 * r;
    assert 0 <= 256 * r + s < 256 * p;
    QuotientIs(n, 256 * p, q, 256 * r + s);
  }

  lemma MultipleOf(e: int, d: nat)
    ensures e >= 1 ==> e * d >= d
    ensures e <= -1 ==> e * d <= 0 - d
  {
    if e >= 1 {
      assert e * d == (e - 1) * d + d;
    } else {
      assert e * d == (e + 1) * d - d;
    }
  }

  lemma QuotientIs(n: nat, d: nat, q: nat, r: nat)
    requires d > 0 && n == q * d + r && r < d
    ensures n / d == q
  {
    var e := n / d - q;
    assert e * d == r - n % d;
    MultipleOf(e, d);
  }

  // ----- Frames -----

  /** Sixty-four lower-case hexadecimal digits. */
  predicate IsHex(s: Bytes) {
    |s| == 64 && forall i :: 0 <= i < 64 ==> IsHexDigit(s[i])
  }

  lemma HexIff(s: Bytes)
    ensures IsDigest(s) <==> IsHex(s)
  {
    forall i | 0 <= i < |s| ensures IsHexDigit(s[i]) <==> '0' <= s[i] <= '9' || 'a' <= s[i] <= 'f' {
      HexDigitIff(s[i]);
    }
  }

  /** The members of a frame that stands at this place and was accepted as this event. */
  ghost predicate IsFrameOf(ms: seq<Member>, e: Event, sequence: nat, previous: Bytes) {
    && (forall key :: HasKey(ms, key) <==>
          key in {"version", "sequence", "operation", "data", "previous_hash", "hash"})
    && (exists version :: version in {"1", "1.0", "true"} && Lookup(ms, "version") == Some(Atom(version)))
    && Lookup(ms, "sequence") == Some(Atom(Decimal(sequence))) && e.sequence == sequence
    && Lookup(ms, "operation") == Some(Str(e.operation)) && e.operation != []
    && Lookup(ms, "data") == Some(e.data)
    && Lookup(ms, "previous_hash") == Some(Str(previous)) && e.previousHash == previous
    && Lookup(ms, "hash") == Some(Str(e.hash)) && IsHex(e.hash)
  }

  lemma {:induction false} LookupIff(ms: seq<Member>, key: Bytes)
    ensures Lookup(ms, key).Some? <==> HasKey(ms, key)
    decreases ms
  {
    if ms != [] {
      LookupIff(ms[1..], key);
      if HasKey(ms, key) {
        var i :| 0 <= i < |ms| && ms[i].key == key;
        assert i > 0 ==> ms[1..][i - 1].key == key;
      }
      if HasKey(ms[1..], key) {
        var i :| 0 <= i < |ms[1..]| && ms[1..][i].key == key;
        assert ms[i + 1].key == key;
      }
      assert ms[0].key == key ==> HasKey(ms, key);
    }
  }

  /** Eight bytes can hold the sequence and the lengths of the parts that are hashed. */
  predicate FitsEightBytes(sequence: nat, previous: Bytes, operation: Bytes, raw: Bytes) {
    && sequence < 18446744073709551616 && |previous| < 18446744073709551616
    && |operation| < 18446744073709551616 && |raw| < 18446744073709551616
  }

  /** The bytes hashed for an event: tag, sequence, and three parts, each after its length in eight bytes. */
  function EventBytes(sequence: nat, previous: Bytes, operation: Bytes, raw: Bytes): Bytes {
    "history-event-v1\0" + Pack(sequence)
    + (Pack(|previous|) + previous) + (Pack(|operation|) + operation) + (Pack(|raw|) + raw)
  }

  /**
   The payload decodes to an object with exactly the six fields, each as it should be at this place, and
   its hash is that of the bytes of its data; the event shows these fields.
   */
  ghost predicate IsAcceptedAs(tools: Tools, payload: Bytes, sequence: nat, previous: Bytes, link: Link) {
    && tools.decode(payload).Some? && tools.decode(payload).value.Obj?
    && IsFrameOf(tools.decode(payload).value.members, link.event, sequence, previous)
    && RawObjectMember(payload, "data", tools.decode) == Some(link.raw)
    && FitsEightBytes(sequence, previous, link.event.operation, link.raw)
    && link.event.hash == tools.sha(EventBytes(sequence, previous, link.event.operation, link.raw))
  }

  lemma FieldsOkIff(ms: seq<Member>, sequence: nat, previous: Bytes, link: Link)
    ensures
      IsFrameOf(ms, link.event, sequence, previous) <==>
      FieldsOk(ms, sequence, previous) && LinkOf(ms, sequence, previous, link.raw) == link
  {
    forall key ensures key in Names(ms) <==> HasKey(ms, key) {
    }
    forall key ensures Lookup(ms, key).Some? <==> HasKey(ms, key) { LookupIff(ms, key); }
    HexIff(link.event.hash);
    assert "data" in FIELDS && "version" in FIELDS && "sequence" in FIELDS;
    if IsFrameOf(ms, link.event, sequence, previous) {
      assert Names(ms) == FIELDS;
    }
  }

  /** A frame is accepted as an event if and only if it is one, as spelled out above. */
  lemma {:induction false} FrameIsAcceptedIff(
    tools: Tools, payload: Bytes, sequence: nat, previous: Bytes, link: Link)
    ensures
      CheckFrame(tools, payload, sequence, previous) == Some(link) <==>
      IsAcceptedAs(tools, payload, sequence, previous, link)
  {
    if tools.decode(payload).Some? && tools.decode(payload).value.Obj? {
      FieldsOkIff(tools.decode(payload).value.members, sequence, previous, link);
      assert
        EventBytes(sequence, previous, link.event.operation, link.raw)
        == Preimage(sequence, previous, link.event.operation, link.raw);
    }
  }

  // ----- Files -----

  /** A payload after its header. */
  function FrameBytes(payload: Bytes): Bytes {
    "HST1" + Pack(|payload|) + payload
  }

  function FileBytes(payloads: seq<Bytes>): Bytes {
    if payloads == [] then [] else FrameBytes(payloads[0]) + FileBytes(payloads[1..])
  }

  /** The hash before place `i`; before the first it is sixty-four zeroes. */
  function PreviousAt(links: seq<Link>, i: nat): Bytes
    requires i <= |links|
  {
    if i == 0 then seq(64, k => '0') else links[i - 1].event.hash
  }

  /** The payload at place `i` has a lawful length and was accepted in its turn. */
  ghost predicate InTurnAt(tools: Tools, payloads: seq<Bytes>, links: seq<Link>, i: nat)
    requires i < |links| == |payloads|
  {
    && 0 < |payloads[i]| <= 16777216
    && IsAcceptedAs(tools, payloads[i], i + 1, PreviousAt(links, i), links[i])
  }

  /** The payloads were accepted one after the other, numbered from one and each after the hash before it. */
  ghost predicate AcceptedInTurn(tools: Tools, payloads: seq<Bytes>, links: seq<Link>) {
    |payloads| == |links| && forall i: nat :: i < |links| ==> InTurnAt(tools, payloads, links, i)
  }

  ghost predicate IsHistory(tools: Tools, raw: Bytes, payloads: seq<Bytes>, links: seq<Link>) {
    raw == FileBytes(payloads) && AcceptedInTurn(tools, payloads, links)
  }

  ghost predicate AcceptedAt(
    check: Check, payloads: seq<Bytes>, links: seq<Link>, sequence: nat, previous: Bytes, i: nat)
    requires i < |payloads| && i < |links|
  {
    && 0 < |payloads[i]| <= MAX_HISTORY_FRAME_BYTES
    && check(payloads[i], sequence + i, HashBefore(links, previous, i)) == Some(links[i])
  }

  lemma {:induction false} AcceptsIff(
    check: Check, payloads: seq<Bytes>, links: seq<Link>, sequence: nat, previous: Bytes)
    ensures
      Accepts(check, payloads, links, sequence, previous) <==>
      && |payloads| == |links|
      && forall i :: 0 <= i < |links| ==> AcceptedAt(check, payloads, links, sequence, previous, i)
    decreases |payloads|
  {
    if payloads != [] && links != [] {
      var ps, ls, next, hash := payloads[1..], links[1..], sequence + 1, links[0].event.hash;
      AcceptsIff(check, ps, ls, next, hash);
      if Accepts(check, payloads, links, sequence, previous) {
        forall i | 0 <= i < |links| ensures AcceptedAt(check, payloads, links, sequence, previous, i) {
          assert i > 0 ==> AcceptedAt(check, ps, ls, next, hash, i - 1);
        }
      } else if |payloads| == |links| && AcceptedAt(check, payloads, links, sequence, previous, 0) {
        var i :| 0 <= i < |ls| && !AcceptedAt(check, ps, ls, next, hash, i);
        assert !AcceptedAt(check, payloads, links, sequence, previous, i + 1);
      }
    }
  }

  lemma {:induction false} FileIsFrames(payloads: seq<Bytes>)
    ensures FileBytes(payloads) == FrameAll(payloads)
    decreases |payloads|
  {
    if payloads != [] {
      FileIsFrames(payloads[1..]);
    }
  }

  lemma InTurnAtIff(tools: Tools, payloads: seq<Bytes>, links: seq<Link>, i: nat)
    requires i < |links| == |payloads|
    ensures
      AcceptedAt(RawCheck(tools), payloads, links, 1, ZERO_HASH, i) <==> InTurnAt(tools, payloads, links, i)
  {
    assert ZERO_HASH == seq(64, k => '0');
    assert HashBefore(links, ZERO_HASH, i) == PreviousAt(links, i);
    FrameIsAcceptedIff(tools, payloads[i], i + 1, PreviousAt(links, i), links[i]);
  }

  lemma InTurnIff(tools: Tools, payloads: seq<Bytes>, links: seq<Link>)
    ensures AcceptedInTurn(tools, payloads, links) <==> Accepts(RawCheck(tools), payloads, links, 1, ZERO_HASH)
  {
    var check := RawCheck(tools);
    AcceptsIff(check, payloads, links, 1, ZERO_HASH);
    if |payloads| == |links| {
      forall i: nat | i < |links|
        ensures AcceptedAt(check, payloads, links, 1, ZERO_HASH, i) <==> InTurnAt(tools, payloads, links, i)
      {
        InTurnAtIff(tools, payloads, links, i);
      }
    }
  }

  /**
   A file is accepted if and only if it has at most 32 MiB, is not empty, and consists of frames of at
   most 16 MiB that are accepted one after the other, from sequence 1 and a hash of zeroes.
   */
  lemma {:induction false} HistoryIsAcceptedIff(tools: Tools, raw: Bytes, links: seq<Link>)
    requires IsBytes(raw)
    ensures
      Replay(RawCheck(tools), raw) == Some(links) <==>
      0 < |raw| <= 33554432 && exists payloads :: IsHistory(tools, raw, payloads, links)
  {
    AcceptedIff(RawCheck(tools), raw, links);
    if payloads :| Framed(RawCheck(tools), raw, payloads, links) {
      FileIsFrames(payloads);
      InTurnIff(tools, payloads, links);
      assert IsHistory(tools, raw, payloads, links);
    }
    if payloads :| IsHistory(tools, raw, payloads, links) {
      FileIsFrames(payloads);
      InTurnIff(tools, payloads, links);
      assert Framed(RawCheck(tools), raw, payloads, links);
    }
  }

  // ----- Events and anchors are never confused -----

  /** The bytes hashed for an anchor. */
  function AnchorPreimage(sequence: nat, hash: Bytes): Bytes {
    "history-head-anchor-v1\0" + Pack(sequence) + hash
  }

  /** What is hashed for an event is never hashed for an anchor. */
  lemma HashedApart(sequence: nat, previous: Bytes, operation: Bytes, raw: Bytes, sequence': nat, hash: Bytes)
    ensures EventBytes(sequence, previous, operation, raw) != AnchorPreimage(sequence', hash)
  {
    assert EventBytes(sequence, previous, operation, raw)[8] == "history-event-v1\0"[8] == 'e';
    assert AnchorPreimage(sequence', hash)[8] == "history-head-anchor-v1\0"[8] == 'h';
  }

  // ----- The anchor -----

  /** An anchor: version, sequence, hash and checksum in compact form, and a line feed. */
  function AnchorText(sequence: nat, hash: Bytes, checksum: Bytes): Bytes {
    "{\"version\":1,\"sequence\":" + Decimal(sequence) + ",\"hash\":\"" + hash
    + "\",\"checksum\":\"" + checksum + "\"}\n"
  }

  lemma AnchorRegrouped(a: Bytes, n: Bytes, b: Bytes, h: Bytes, c: Bytes, s: Bytes, d: Bytes)
    ensures a + (n + [','] + (b + h + (c + s + d))) == a + n + ([','] + b) + h + c + s + d
  {
  }

  lemma AnchorSpelled(tools: Tools, sequence: nat, hash: Bytes)
    ensures
      Anchor(tools, sequence, hash) == AnchorText(sequence, hash, tools.sha(AnchorPreimage(sequence, hash)))
  {
    assert ANCHOR_TAG == "history-head-anchor-v1\0";
    assert [','] + ANCHOR_HASH == ",\"hash\":\"";
    AnchorRegrouped(
      ANCHOR_HEAD, Decimal(sequence), ANCHOR_HASH, hash, "\",\"checksum\":\"",
      tools.sha(AnchorPreimage(sequence, hash)), "\"}\n");
  }

  /**
   The only anchor that is accepted for a History: it shows its length, its last hash, and the digest of
   the two as its checksum.
   */
  lemma AnchorIsAcceptedIff(tools: Tools, anchor: Bytes, links: seq<Link>)
    ensures
      AnchorAccepts(tools, anchor, links) <==>
      links != [] &&
      var hash := links[|links| - 1].event.hash;
      anchor == AnchorText(|links|, hash, tools.sha(AnchorPreimage(|links|, hash)))
  {
    if links != [] {
      AnchorSpelled(tools, |links|, links[|links| - 1].event.hash);
    }
  }

  /** The checksum of an anchor whose digests have 64 digits: what stands before the last three bytes. */
  function ChecksumOf(anchor: Bytes): Bytes {
    if |anchor| < 67 then [] else anchor[|anchor| - 67..|anchor| - 3]
  }

  /** Two different heads are hashed to one checksum. */
  predicate ChecksumsCollide(tools: Tools, m: nat, h: Bytes, n: nat, k: Bytes) {
    AnchorPreimage(m, h) != AnchorPreimage(n, k) && tools.sha(AnchorPreimage(m, h)) == tools.sha(AnchorPreimage(n, k))
  }

  lemma ChecksumStands(front: Bytes, checksum: Bytes, end: Bytes)
    requires |checksum| == 64 && |end| == 3
    ensures ChecksumOf(front + checksum + end) == checksum
  {
  }

  lemma ChecksumIs(tools: Tools, anchor: Bytes, links: seq<Link>)
    requires AnchorAccepts(tools, anchor, links) && (forall s :: |tools.sha(s)| == 64)
    ensures ChecksumOf(anchor) == tools.sha(AnchorPreimage(|links|, links[|links| - 1].event.hash))
  {
    AnchorIsAcceptedIff(tools, anchor, links);
    var hash := links[|links| - 1].event.hash;
    ChecksumStands(
      "{\"version\":1,\"sequence\":" + Decimal(|links|) + ",\"hash\":\"" + hash + "\",\"checksum\":\"",
      tools.sha(AnchorPreimage(|links|, hash)), "\"}\n");
  }

  /** The checksum alone pins length and last hash, unless two different heads collide. */
  lemma ChecksumPins(tools: Tools, a: Bytes, ls: seq<Link>, b: Bytes, ms: seq<Link>)
    requires AnchorAccepts(tools, a, ls) && AnchorAccepts(tools, b, ms) && (forall s :: |tools.sha(s)| == 64)
    requires |ls| < WORD && |ms| < WORD && ChecksumOf(a) == ChecksumOf(b)
    ensures
      var h, k := ls[|ls| - 1].event.hash, ms[|ms| - 1].event.hash;
      (|ls| == |ms| && h == k) || ChecksumsCollide(tools, |ls|, h, |ms|, k)
  {
    var h, k := ls[|ls| - 1].event.hash, ms[|ms| - 1].event.hash;
    ChecksumIs(tools, a, ls);
    ChecksumIs(tools, b, ms);
    if AnchorPreimage(|ls|, h) == AnchorPreimage(|ms|, k) {
      SameWidth("history-head-anchor-v1\0", Pack(|ls|), h, Pack(|ms|), k);
      PackRoundTrip(|ls|);
      PackRoundTrip(|ms|);
    }
  }
}
