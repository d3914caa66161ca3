/**
 On every legal JSON text the scanner stops exactly where the grammar says a value ends, so the cut
 member is the printed form of the member, and a text can be read in one way only.
 */
module ScannerTheorems {
  import opened Options
  import opened Json
  import opened Scanner

  /** `s` stands in `data` at position `p`. */
  ghost predicate At(data: Bytes, p: nat, s: Bytes) {
    p + |s| <= |data| && forall i :: 0 <= i < |s| ==> data[p + i] == s[i]
  }

  lemma AtIndex(data: Bytes, p: nat, s: Bytes, i: nat)
    requires At(data, p, s) && i < |s|
    ensures data[p + i] == s[i]
  {
  }

  lemma AtSplit(data: Bytes, p: nat, a: Bytes, b: Bytes)
    requires At(data, p, a + b)
    ensures At(data, p, a) && At(data, p + |a|, b)
  {
    forall i | 0 <= i < |a| ensures data[p + i] == a[i] { AtIndex(data, p, a + b, i); }
    forall i | 0 <= i < |b| ensures data[p + |a| + i] == b[i] { AtIndex(data, p, a + b, |a| + i); }
  }

  lemma AtHead(data: Bytes, p: nat, s: Bytes)
    requires At(data, p, s) && s != []
    ensures data[p] == s[0]
  {
    AtIndex(data, p, s, 0);
  }

  lemma AtDrop(data: Bytes, p: nat, s: Bytes, i: nat)
    requires At(data, p, s) && i <= |s|
    ensures At(data, p + i, s[i..])
  {
    forall k | 0 <= k < |s| - i ensures data[p + i + k] == s[i..][k] { AtIndex(data, p, s, i + k); }
  }

  lemma AtSlice(data: Bytes, p: nat, s: Bytes)
    ensures At(data, p, s) <==> p + |s| <= |data| && data[p..p + |s|] == s
  {
    if p + |s| <= |data| && data[p..p + |s|] == s {
      forall i | 0 <= i < |s| ensures data[p + i] == s[i] { assert data[p..p + |s|][i] == s[i]; }
    }
    if At(data, p, s) {
      forall i | 0 <= i < |s| ensures data[p..p + |s|][i] == s[i] { AtIndex(data, p, s, i); }
    }
  }

  lemma NameSplit(data: Bytes, p: nat, n: Name)
    requires At(data, p, PrintName(Some(n)))
    ensures
      var p1 := p + |Quoted(n.key)|;
      var p2 := p1 + |n.beforeColon|;
      && At(data, p, Quoted(n.key))
      && At(data, p1, n.beforeColon)
      && At(data, p2, [':'])
      && At(data, p2 + 1, n.afterColon)
      && p2 + 1 + |n.afterColon| == p + |PrintName(Some(n))|
  {
    var a, b, c, d := Quoted(n.key), n.beforeColon, [':'], n.afterColon;
    assert PrintName(Some(n)) == a + b + c + d;
    AtSplit(data, p, a + b + c, d);
    AtSplit(data, p, a + b, c);
    AtSplit(data, p, a, b);
  }

  lemma EntrySplit(data: Bytes, p: nat, e: Entry)
    requires At(data, p, PrintEntry(e))
    ensures
      var p1 := p + |e.before|;
      var p2 := p1 + |PrintName(e.name)|;
      var p3 := p2 + |Print(e.value)|;
      && At(data, p, e.before)
      && At(data, p1, PrintName(e.name))
      && At(data, p2, Print(e.value))
      && At(data, p3, e.after)
      && p3 + |e.after| == p + |PrintEntry(e)|
  {
    var a, b, c, d := e.before, PrintName(e.name), Print(e.value), e.after;
    AtSplit(data, p, a + b + c, d);
    AtSplit(data, p, a + b, c);
    AtSplit(data, p, a, b);
  }

  function Inner(entries: seq<Entry>, gap: Bytes): Bytes {
    if entries == [] then gap else PrintEntries(entries)
  }

  lemma CompositeSplit(data: Bytes, p: nat, isObject: bool, entries: seq<Entry>, gap: Bytes)
    requires At(data, p, Print(Composite(isObject, entries, gap)))
    ensures
      var q := p + 1 + |Inner(entries, gap)|;
      && data[p] == Opening(isObject)
      && At(data, p + 1, Inner(entries, gap))
      && q < |data| && data[q] == Closing(isObject)
      && q + 1 == p + |Print(Composite(isObject, entries, gap))|
  {
    var a, b, c := [Opening(isObject)], Inner(entries, gap), [Closing(isObject)];
    assert Print(Composite(isObject, entries, gap)) == a + b + c;
    AtSplit(data, p, a + b, c);
    AtSplit(data, p, a, b);
    AtHead(data, p, a);
    AtHead(data, p + |a + b|, c);
  }

  lemma EntriesSplit(data: Bytes, p: nat, es: seq<Entry>)
    requires |es| > 1 && At(data, p, PrintEntries(es))
    ensures
      var q := p + |PrintEntry(es[0])|;
      && At(data, p, PrintEntry(es[0]))
      && q < |data| && data[q] == ','
      && At(data, q + 1, PrintEntries(es[1..]))
      && q + 1 + |PrintEntries(es[1..])| == p + |PrintEntries(es)|
  {
    var a, b, c := PrintEntry(es[0]), [','], PrintEntries(es[1..]);
    assert PrintEntries(es) == a + b + c;
    AtSplit(data, p, a + b, c);
    AtSplit(data, p, a, b);
    AtHead(data, p + |a|, b);
  }

  /** A legal entry stands in `data` at position `p`. */
  ghost predicate EntryAt(lex: Lexicon, data: Bytes, p: nat, e: Entry, isObject: bool) {
    ValidLexicon(lex) && LegalEntry(lex, e, isObject) && At(data, p, PrintEntry(e))
  }

  ghost predicate EntriesAt(lex: Lexicon, data: Bytes, p: nat, es: seq<Entry>, isObject: bool) {
    ValidLexicon(lex) && es != [] && LegalEntries(lex, es, isObject) && At(data, p, PrintEntries(es))
  }

  lemma FirstEntry(lex: Lexicon, data: Bytes, p: nat, es: seq<Entry>, isObject: bool)
    requires EntriesAt(lex, data, p, es, isObject)
    ensures EntryAt(lex, data, p, es[0], isObject)
    ensures |es| == 1 ==> |PrintEntries(es)| == |PrintEntry(es[0])|
  {
    if |es| > 1 {
      EntriesSplit(data, p, es);
    }
  }

  lemma RestOfEntries(lex: Lexicon, data: Bytes, p: nat, es: seq<Entry>, isObject: bool)
    requires EntriesAt(lex, data, p, es, isObject) && |es| > 1
    ensures
      var q := p + |PrintEntry(es[0])|;
      && q < |data| && data[q] == ','
      && EntriesAt(lex, data, q + 1, es[1..], isObject)
      && q + 1 + |PrintEntries(es[1..])| == p + |PrintEntries(es)|
  {
    EntriesSplit(data, p, es);
  }

  // ----- Single loops -----

  lemma {:induction false} SpaceSkips(data: Bytes, p: nat, s: Bytes)
    requires At(data, p, s) && Blank(s)
    requires p + |s| < |data| ==> !IsSpace(data[p + |s|])
    ensures SkipSpace(data, p) == p + |s|
    decreases |s|
  {
    if s != [] {
      AtHead(data, p, s);
      AtDrop(data, p, s, 1);
      SpaceSkips(data, p + 1, s[1..]);
    }
  }

  lemma BodyDrop(data: Bytes, p: nat, body: Bytes, k: nat)
    requires At(data, p, body + ['"']) && k <= |body|
    ensures At(data, p + k, body[k..] + ['"'])
  {
    AtDrop(data, p, body + ['"'], k);
    assert (body + ['"'])[k..] == body[k..] + ['"'];
  }

  lemma {:induction false} StringSkips(data: Bytes, p: nat, body: Bytes)
    requires At(data, p, body + ['"']) && IsBody(body)
    ensures StringTail(data, p) == Some(p + |body| + 1)
    decreases |body|
  {
    AtHead(data, p, body + ['"']);
    if body != [] {
      var k := if body[0] == '\\' then 2 else 1;
      BodyDrop(data, p, body, k);
      StringSkips(data, p + k, body[k..]);
      assert StringTail(data, p) == StringTail(data, p + k);
    }
  }

  /** Whatever is open, the loop over a composite value gets from `p` to `q`. */
  ghost predicate Skips(data: Bytes, p: nat, q: nat) {
    forall stack :: stack != [] ==> CompositeTail(data, p, stack) == CompositeTail(data, q, stack)
  }

  lemma SkipsOn(data: Bytes, p: nat, q: nat, r: nat)
    requires Skips(data, p, q) && Skips(data, q, r)
    ensures Skips(data, p, r)
  {
  }

  predicate Neutral(s: Bytes) {
    forall i :: 0 <= i < |s| ==> s[i] != '"' && s[i] != '{' && s[i] != '[' && s[i] != '}' && s[i] != ']'
  }

  lemma {:induction false} NeutralSkips(data: Bytes, p: nat, s: Bytes)
    requires At(data, p, s) && Neutral(s)
    ensures Skips(data, p, p + |s|)
    decreases |s|
  {
    if s != [] {
      AtHead(data, p, s);
      AtDrop(data, p, s, 1);
      NeutralSkips(data, p + 1, s[1..]);
      assert Skips(data, p, p + 1);
    }
  }

  lemma {:induction false} LiteralSkips(data: Bytes, p: nat, body: Bytes)
    requires At(data, p, Quoted(body)) && IsBody(body)
    ensures StringEnd(data, p) == Some(p + |Quoted(body)|)
    ensures Skips(data, p, p + |Quoted(body)|)
  {
    AtHead(data, p, Quoted(body));
    AtDrop(data, p, Quoted(body), 1);
    assert Quoted(body)[1..] == body + ['"'];
    StringSkips(data, p + 1, body);
  }

  lemma {:induction false} ScalarSkips(data: Bytes, p: nat, s: Bytes)
    requires At(data, p, s) && forall i :: 0 <= i < |s| ==> IsAtomByte(s[i])
    requires p + |s| < |data| ==> EndsScalar(data[p + |s|])
    ensures ScalarTail(data, p) == p + |s|
    decreases |s|
  {
    if s != [] {
      AtHead(data, p, s);
      AtDrop(data, p, s, 1);
      ScalarSkips(data, p + 1, s[1..]);
    }
  }

  // ----- Nested values -----

  lemma {:induction false} ColonSkips(data: Bytes, p: nat, before: Bytes, after: Bytes)
    requires At(data, p, before) && At(data, p + |before|, [':']) && At(data, p + |before| + 1, after)
    requires Blank(before) && Blank(after)
    ensures Skips(data, p, p + |before| + 1 + |after|)
  {
    var q := p + |before|;
    NeutralSkips(data, p, before);
    NeutralSkips(data, q, [':']);
    NeutralSkips(data, q + 1, after);
    SkipsOn(data, p, q, q + 1);
    SkipsOn(data, p, q + 1, q + 1 + |after|);
  }

  lemma {:induction false} NameSkips(lex: Lexicon, data: Bytes, p: nat, name: Option<Name>, isObject: bool)
    requires ValidLexicon(lex) && LegalName(lex, name, isObject) && At(data, p, PrintName(name))
    ensures Skips(data, p, p + |PrintName(name)|)
  {
    if name.Some? {
      var n := name.value;
      NameSplit(data, p, n);
      var q := p + |Quoted(n.key)|;
      LiteralSkips(data, p, n.key);
      ColonSkips(data, q, n.beforeColon, n.afterColon);
      SkipsOn(data, p, q, p + |PrintName(name)|);
    }
  }

  /** With anything open around it, a value is skipped from its first byte to just past its last. */
  lemma {:induction false} NodeSkips(lex: Lexicon, data: Bytes, p: nat, n: Node)
    requires ValidLexicon(lex) && Legal(lex, n) && At(data, p, Print(n))
    ensures Skips(data, p, p + |Print(n)|)
    decreases n, 1
  {
    match n
    case Scalar(token) => NeutralSkips(data, p, token);
    case Text(body) => LiteralSkips(data, p, body);
    case Composite(isObject, entries, gap) =>
      AtHead(data, p, Print(n));
      forall stack | stack != []
        ensures CompositeTail(data, p, stack) == CompositeTail(data, p + |Print(n)|, stack)
      {
        CompositeSkips(lex, data, p, isObject, entries, gap, stack);
      }
  }

  /** The closing delimiter pops what its opening delimiter pushed. */
  lemma CloseSkips(data: Bytes, q: nat, isObject: bool, stack: Bytes)
    requires q < |data| && data[q] == Closing(isObject)
    ensures CompositeTail(data, q, stack + [Opening(isObject)]) == CompositeTail(data, q + 1, stack)
  {
    var open := stack + [Opening(isObject)];
    assert open[..|open| - 1] == stack;
  }

  /** Just inside an opening delimiter, the contents and the closing delimiter pop the stack once. */
  lemma {:induction false} CompositeSkips(
    lex: Lexicon, data: Bytes, p: nat, isObject: bool, entries: seq<Entry>, gap: Bytes, stack: Bytes)
    requires ValidLexicon(lex) && Blank(gap) && LegalEntries(lex, entries, isObject)
    requires At(data, p, Print(Composite(isObject, entries, gap)))
    ensures
      CompositeTail(data, p + 1, stack + [Opening(isObject)])
      == CompositeTail(data, p + |Print(Composite(isObject, entries, gap))|, stack)
    decreases entries, 2
  {
    CompositeSplit(data, p, isObject, entries, gap);
    var q := p + 1 + |Inner(entries, gap)|;
    if entries == [] {
      NeutralSkips(data, p + 1, gap);
    } else {
      EntriesSkip(lex, data, p + 1, entries, isObject);
    }
    SkipsWith(data, p + 1, q, stack + [Opening(isObject)]);
    CloseSkips(data, q, isObject, stack);
  }

  lemma SkipsWith(data: Bytes, p: nat, q: nat, stack: Bytes)
    requires Skips(data, p, q) && stack != []
    ensures CompositeTail(data, p, stack) == CompositeTail(data, q, stack)
  {
  }

  lemma {:induction false} EntriesSkip(lex: Lexicon, data: Bytes, p: nat, es: seq<Entry>, isObject: bool)
    requires EntriesAt(lex, data, p, es, isObject)
    ensures Skips(data, p, p + |PrintEntries(es)|)
    decreases es, 1
  {
    FirstSkips(lex, data, p, es, isObject);
    if |es| > 1 {
      RestOfEntries(lex, data, p, es, isObject);
      EntriesSkip(lex, data, p + |PrintEntry(es[0])| + 1, es[1..], isObject);
      MoreSkip(lex, data, p, es, isObject);
    }
  }

  lemma {:induction false} FirstSkips(lex: Lexicon, data: Bytes, p: nat, es: seq<Entry>, isObject: bool)
    requires EntriesAt(lex, data, p, es, isObject)
    ensures Skips(data, p, p + |PrintEntry(es[0])|)
    ensures |es| == 1 ==> Skips(data, p, p + |PrintEntries(es)|)
    decreases es, 0
  {
    FirstEntry(lex, data, p, es, isObject);
    EntrySkips(lex, data, p, es[0], isObject);
  }

  /** The first entry, a comma, and the rest. */
  lemma MoreSkip(lex: Lexicon, data: Bytes, p: nat, es: seq<Entry>, isObject: bool)
    requires EntriesAt(lex, data, p, es, isObject) && |es| > 1
    requires
      var q := p + |PrintEntry(es[0])|;
      Skips(data, p, q) && Skips(data, q + 1, q + 1 + |PrintEntries(es[1..])|)
    ensures Skips(data, p, p + |PrintEntries(es)|)
  {
    RestOfEntries(lex, data, p, es, isObject);
    SkipsComma(data, p, p + |PrintEntry(es[0])|, p + |PrintEntries(es)|);
  }

  lemma SkipsComma(data: Bytes, p: nat, q: nat, r: nat)
    requires q < |data| && data[q] == ',' && Skips(data, p, q) && Skips(data, q + 1, r)
    ensures Skips(data, p, r)
  {
    CommaSkips(data, q);
    SkipsOn(data, p, q, q + 1);
    SkipsOn(data, p, q + 1, r);
  }

  lemma CommaSkips(data: Bytes, p: nat)
    requires p < |data| && data[p] == ','
    ensures Skips(data, p, p + 1)
  {
  }

  lemma {:induction false} EntrySkips(lex: Lexicon, data: Bytes, p: nat, e: Entry, isObject: bool)
    requires EntryAt(lex, data, p, e, isObject)
    ensures Skips(data, p, p + |PrintEntry(e)|)
    decreases e, 0
  {
    EntrySplit(data, p, e);
    var p1 := p + |e.before|;
    var p2 := p1 + |PrintName(e.name)|;
    var p3 := p2 + |Print(e.value)|;
    NodeSkips(lex, data, p2, e.value);
    HeadSkips(lex, data, p, e, isObject);
    NeutralSkips(data, p3, e.after);
    SkipsOn(data, p, p2, p3);
    SkipsOn(data, p, p3, p + |PrintEntry(e)|);
  }

  lemma {:induction false} HeadSkips(lex: Lexicon, data: Bytes, p: nat, e: Entry, isObject: bool)
    requires ValidLexicon(lex) && Blank(e.before) && LegalName(lex, e.name, isObject)
    requires At(data, p, e.before) && At(data, p + |e.before|, PrintName(e.name))
    ensures Skips(data, p, p + |e.before| + |PrintName(e.name)|)
  {
    var p1 := p + |e.before|;
    NeutralSkips(data, p, e.before);
    NameSkips(lex, data, p1, e.name, isObject);
    SkipsOn(data, p, p1, p1 + |PrintName(e.name)|);
  }

  predicate Delimited(data: Bytes, p: nat) {
    p < |data| ==> EndsScalar(data[p])
  }

  lemma PrintStarts(lex: Lexicon, n: Node)
    requires ValidLexicon(lex) && Legal(lex, n)
    ensures Print(n) != [] && !IsSpace(Print(n)[0]) && !EndsScalar(Print(n)[0])
    ensures n.Scalar? ==> IsAtomByte(Print(n)[0])
    ensures n.Text? ==> Print(n)[0] == '"'
    ensures n.Composite? ==> Print(n)[0] == Opening(n.isObject)
  {
  }

  /** `_value_end` stops just past any legal value that something which ends a value follows. */
  lemma {:induction false} ValueEndsHere(lex: Lexicon, data: Bytes, p: nat, n: Node)
    requires ValidLexicon(lex) && Legal(lex, n)
    requires At(data, p, Print(n)) && Delimited(data, p + |Print(n)|)
    ensures SkipSpace(data, p) == p
    ensures ValueEnd(data, p) == Some(p + |Print(n)|)
  {
    PrintStarts(lex, n);
    AtHead(data, p, Print(n));
    match n
    case Scalar(token) => ScalarSkips(data, p, token);
    case Text(body) => LiteralSkips(data, p, body);
    case Composite(isObject, entries, gap) =>
      CompositeSkips(lex, data, p, isObject, entries, gap, []);
      assert [] + [Opening(isObject)] == [data[p]];
  }

  // ----- The cut member -----

  /** What the scanner asks of the decoder: that it reads a string literal. */
  ghost predicate ReadsNames(lex: Lexicon, decode: Bytes -> Option<Value>) {
    forall body :: lex.text(body).Some? ==> decode(Quoted(body)) == Some(Str(lex.text(body).value))
  }

  lemma DecoderReadsNames(lex: Lexicon, decode: Bytes -> Option<Value>)
    requires IsDecoder(lex, decode)
    ensures ReadsNames(lex, decode)
  {
    forall body | lex.text(body).Some? ensures decode(Quoted(body)) == Some(Str(lex.text(body).value)) {
      assert [] + Quoted(body) + [] == Quoted(body);
      assert Spells(lex, Quoted(body), Text(body), [], []);
    }
  }

  /** What the scanner finds when it reads a member's name at `p`, and its value at `start`. */
  ghost predicate NameRead(data: Bytes, p: nat, decode: Bytes -> Option<Value>, key: Value, start: nat) {
    var keyEnd := StringEnd(data, p);
    && keyEnd.Some?
    && decode(data[p..keyEnd.value]) == Some(key)
    && SkipSpace(data, keyEnd.value) < |data|
    && data[SkipSpace(data, keyEnd.value)] == ':'
    && SkipSpace(data, SkipSpace(data, keyEnd.value) + 1) == start
  }

  ghost predicate ValueRead(data: Bytes, start: nat, end: nat, next: nat) {
    ValueEnd(data, start) == Some(end) && SkipSpace(data, end) == next < |data|
  }

  ghost predicate MemberRead(data: Bytes, p: nat, decode: Bytes -> Option<Value>, span: Span) {
    var keyStart := SkipSpace(data, p);
    && keyStart < |data|
    && data[keyStart] == '"'
    && MemberSpan(data, keyStart, decode) == Some(span)
  }

  lemma MemberReadFrom(data: Bytes, p: nat, keyStart: nat, decode: Bytes -> Option<Value>, span: Span)
    requires SkipSpace(data, p) == keyStart < |data| && data[keyStart] == '"'
    requires NameRead(data, keyStart, decode, span.key, span.start)
    requires ValueRead(data, span.start, span.end, span.next)
    ensures MemberRead(data, p, decode, span)
  {
  }

  lemma NameReadFrom(
    data: Bytes, p: nat, decode: Bytes -> Option<Value>, key: Value, keyEnd: nat, colon: nat, start: nat)
    requires StringEnd(data, p) == Some(keyEnd) && decode(data[p..keyEnd]) == Some(key)
    requires SkipSpace(data, keyEnd) == colon < |data| && data[colon] == ':'
    requires SkipSpace(data, colon + 1) == start
    ensures NameRead(data, p, decode, key, start)
  {
  }

  lemma {:induction false} KeyRead(lex: Lexicon, decode: Bytes -> Option<Value>, data: Bytes, p: nat, key: Bytes)
    requires ValidLexicon(lex) && ReadsNames(lex, decode) && lex.text(key).Some? && At(data, p, Quoted(key))
    ensures p < |data| && data[p] == '"'
    ensures StringEnd(data, p) == Some(p + |Quoted(key)|)
    ensures decode(data[p..p + |Quoted(key)|]) == Some(Str(lex.text(key).value))
  {
    AtHead(data, p, Quoted(key));
    LiteralSkips(data, p, key);
    AtSlice(data, p, Quoted(key));
  }

  lemma {:induction false} ColonRead(data: Bytes, p: nat, before: Bytes, after: Bytes)
    requires At(data, p, before) && At(data, p + |before|, [':']) && At(data, p + |before| + 1, after)
    requires Blank(before) && Blank(after)
    requires
      var end := p + |before| + 1 + |after|;
      end < |data| && !IsSpace(data[end])
    ensures SkipSpace(data, p) == p + |before| < |data| && data[p + |before|] == ':'
    ensures SkipSpace(data, p + |before| + 1) == p + |before| + 1 + |after|
  {
    AtHead(data, p + |before|, [':']);
    SpaceSkips(data, p, before);
    SpaceSkips(data, p + |before| + 1, after);
  }

  lemma {:induction false} NameSpanFrom(
    lex: Lexicon, decode: Bytes -> Option<Value>, data: Bytes, p: nat, n: Name, keyEnd: nat, start: nat)
    requires ValidLexicon(lex) && ReadsNames(lex, decode) && LegalName(lex, Some(n), true)
    requires At(data, p, Quoted(n.key)) && keyEnd == p + |Quoted(n.key)|
    requires At(data, keyEnd, n.beforeColon) && At(data, keyEnd + |n.beforeColon|, [':'])
    requires At(data, keyEnd + |n.beforeColon| + 1, n.afterColon)
    requires start == keyEnd + |n.beforeColon| + 1 + |n.afterColon| < |data| && !IsSpace(data[start])
    ensures p < |data| && data[p] == '"'
    ensures NameRead(data, p, decode, Str(lex.text(n.key).value), start)
  {
    KeyRead(lex, decode, data, p, n.key);
    ColonRead(data, keyEnd, n.beforeColon, n.afterColon);
    NameReadFrom(data, p, decode, Str(lex.text(n.key).value), keyEnd, keyEnd + |n.beforeColon|, start);
  }

  lemma {:induction false} NameSpan(lex: Lexicon, decode: Bytes -> Option<Value>, data: Bytes, p: nat, n: Name)
    requires ValidLexicon(lex) && ReadsNames(lex, decode)
    requires LegalName(lex, Some(n), true) && At(data, p, PrintName(Some(n)))
    requires
      var end := p + |PrintName(Some(n))|;
      end < |data| && !IsSpace(data[end])
    ensures p < |data| && data[p] == '"'
    ensures NameRead(data, p, decode, Str(lex.text(n.key).value), p + |PrintName(Some(n))|)
  {
    NameSplit(data, p, n);
    var keyEnd, start := p + |Quoted(n.key)|, p + |PrintName(Some(n))|;
    assert start == keyEnd + |n.beforeColon| + 1 + |n.afterColon|;
    NameSpanFrom(lex, decode, data, p, n, keyEnd, start);
  }

  lemma {:induction false} ValueSpan(lex: Lexicon, data: Bytes, p: nat, value: Node, after: Bytes)
    requires ValidLexicon(lex) && Legal(lex, value) && Blank(after)
    requires At(data, p, Print(value)) && At(data, p + |Print(value)|, after)
    requires
      var next := p + |Print(value)| + |after|;
      next < |data| && (data[next] == ',' || data[next] == '}')
    ensures !IsSpace(data[p])
    ensures ValueRead(data, p, p + |Print(value)|, p + |Print(value)| + |after|)
  {
    PrintStarts(lex, value);
    AtHead(data, p, Print(value));
    if after != [] {
      AtHead(data, p + |Print(value)|, after);
    }
    ValueEndsHere(lex, data, p, value);
    SpaceSkips(data, p + |Print(value)|, after);
  }

  /** The span that the scanner must find for entry `e` printed at `p`. */
  function SpanAt(lex: Lexicon, p: nat, e: Entry): Span {
    var start := p + |e.before| + |PrintName(e.name)|;
    Span(Str(KeyOf(lex, e)), start, start + |Print(e.value)|, start + |Print(e.value)| + |e.after|)
  }

  /** Something that may follow a member. */
  ghost predicate EndsMember(data: Bytes, p: nat) {
    p < |data| && (data[p] == ',' || data[p] == '}')
  }

  lemma {:induction false} HeadAt(lex: Lexicon, data: Bytes, p: nat, e: Entry)
    requires EntryAt(lex, data, p, e, true)
    ensures
      var keyStart, start := p + |e.before|, SpanAt(lex, p, e).start;
      && e.name.Some? && LegalName(lex, e.name, true)
      && At(data, p, e.before) && At(data, keyStart, PrintName(e.name))
      && start == keyStart + |PrintName(e.name)|
      && start < |data| && !IsSpace(data[start])
  {
    EntrySplit(data, p, e);
    PrintStarts(lex, e.value);
    AtHead(data, p + |e.before| + |PrintName(e.name)|, Print(e.value));
  }

  lemma {:induction false} HeadRead(lex: Lexicon, decode: Bytes -> Option<Value>, data: Bytes, p: nat, e: Entry)
    requires ReadsNames(lex, decode) && EntryAt(lex, data, p, e, true)
    ensures
      var keyStart := SkipSpace(data, p);
      && keyStart < |data| && data[keyStart] == '"'
      && NameRead(data, keyStart, decode, Str(KeyOf(lex, e)), SpanAt(lex, p, e).start)
  {
    HeadAt(lex, data, p, e);
    var n := e.name.value;
    assert e.name == Some(n);
    NameSpan(lex, decode, data, p + |e.before|, n);
    SpaceSkips(data, p, e.before);
  }

  lemma {:induction false} TailAt(lex: Lexicon, data: Bytes, p: nat, e: Entry, start: nat, end: nat, next: nat)
    requires EntryAt(lex, data, p, e, true)
    requires start == p + |e.before| + |PrintName(e.name)|
    requires end == start + |Print(e.value)| && next == end + |e.after|
    ensures At(data, start, Print(e.value)) && At(data, end, e.after)
    ensures next == p + |PrintEntry(e)|
  {
    EntrySplit(data, p, e);
  }

  lemma {:induction false} TailRead(lex: Lexicon, data: Bytes, p: nat, e: Entry, start: nat, end: nat, next: nat)
    requires EntryAt(lex, data, p, e, true) && EndsMember(data, next)
    requires start == p + |e.before| + |PrintName(e.name)|
    requires end == start + |Print(e.value)| && next == end + |e.after|
    ensures ValueRead(data, start, end, next)
  {
    TailAt(lex, data, p, e, start, end, next);
    ValueSpan(lex, data, start, e.value, e.after);
  }

  lemma {:induction false} SpanOfEntry(lex: Lexicon, decode: Bytes -> Option<Value>, data: Bytes, p: nat, e: Entry)
    requires ReadsNames(lex, decode) && EntryAt(lex, data, p, e, true) && EndsMember(data, p + |PrintEntry(e)|)
    ensures MemberRead(data, p, decode, SpanAt(lex, p, e))
  {
    var start := p + |e.before| + |PrintName(e.name)|;
    var end := start + |Print(e.value)|;
    var next := end + |e.after|;
    TailAt(lex, data, p, e, start, end, next);
    HeadRead(lex, decode, data, p, e);
    TailRead(lex, data, p, e, start, end, next);
    assert SpanAt(lex, p, e) == Span(Str(KeyOf(lex, e)), start, end, next);
    MemberReadFrom(data, p, SkipSpace(data, p), decode, SpanAt(lex, p, e));
  }

  /** What scanning the members from left to right finds, and refuses when the name comes twice. */
  function Pick(lex: Lexicon, es: seq<Entry>, wanted: Bytes, found: Option<Bytes>): Option<Bytes> {
    if es == [] then found
    else if KeyOf(lex, es[0]) != wanted then Pick(lex, es[1..], wanted, found)
    else if found.Some? then None
    else Pick(lex, es[1..], wanted, Some(Print(es[0].value)))
  }

  /** What the loop goes on with after a member with this key and value, unless the name comes twice. */
  function Keep(key: Value, cut: Bytes, wanted: Bytes, found: Option<Bytes>): Option<Bytes> {
    if key == Str(wanted) then Some(cut) else found
  }

  /** The step of `Pick` at entry `e`. */
  function Kept(lex: Lexicon, e: Entry, wanted: Bytes, found: Option<Bytes>): Option<Bytes> {
    if KeyOf(lex, e) == wanted then Some(Print(e.value)) else found
  }

  /** What the loop over the members finds from a position on, with something found already. */
  type Tail = (nat, Option<Bytes>) -> Option<Bytes>

  function TailOf(data: Bytes, wanted: Bytes, decode: Bytes -> Option<Value>): Tail {
    (p: nat, found: Option<Bytes>) => MemberTail(data, p, wanted, found, decode)
  }

  /** How the loop goes on after a member with this key and value that ends at `next`. */
  ghost predicate Continues(
    data: Bytes, wanted: Bytes, tail: Tail, p: nat, key: Value, cut: Bytes, next: nat, found: Option<Bytes>)
  {
    && next < |data|
    && tail(p, found) ==
         if key == Str(wanted) && found.Some? then None
         else if data[next] == ',' then tail(next + 1, Keep(key, cut, wanted, found))
         else Keep(key, cut, wanted, found)
  }

  /** The loop's body, once it is known what is read. */
  lemma TailStep(
    data: Bytes, p: nat, wanted: Bytes, found: Option<Bytes>, decode: Bytes -> Option<Value>, keyStart: nat, span: Span)
    requires SkipSpace(data, p) == keyStart < |data| && data[keyStart] == '"'
    requires MemberSpan(data, keyStart, decode) == Some(span) && EndsMember(data, span.next)
    ensures
      var cut := data[span.start..span.end];
      MemberTail(data, p, wanted, found, decode) ==
        if span.key == Str(wanted) && found.Some? then None
        else if data[span.next] == ',' then
          MemberTail(data, span.next + 1, wanted, Keep(span.key, cut, wanted, found), decode)
        else Keep(span.key, cut, wanted, found)
  {
    var kept := Keep(span.key, data[span.start..span.end], wanted, found);
    if span.key != Str(wanted) || found.None? {
      if data[span.next] == ',' {
        assert MemberTail(data, p, wanted, found, decode) == MemberTail(data, span.next + 1, wanted, kept, decode);
      } else {
        assert data[span.next] == '}';
      }
    }
  }

  lemma TailFrom(
    data: Bytes, p: nat, wanted: Bytes, found: Option<Bytes>, decode: Bytes -> Option<Value>, span: Span, cut: Bytes)
    requires MemberRead(data, p, decode, span) && EndsMember(data, span.next)
    requires data[span.start..span.end] == cut
    ensures Continues(data, wanted, TailOf(data, wanted, decode), p, span.key, cut, span.next, found)
  {
    TailStep(data, p, wanted, found, decode, SkipSpace(data, p), span);
    var tail := TailOf(data, wanted, decode);
    assert tail(p, found) == MemberTail(data, p, wanted, found, decode);
    assert tail(span.next + 1, Keep(span.key, cut, wanted, found))
        == MemberTail(data, span.next + 1, wanted, Keep(span.key, cut, wanted, found), decode);
  }

  /** Reading one entry is one step of `Pick`. */
  ghost predicate Reads(lex: Lexicon, data: Bytes, wanted: Bytes, tail: Tail, p: nat, e: Entry, found: Option<Bytes>) {
    var kept, next := Kept(lex, e, wanted, found), p + |PrintEntry(e)|;
    && next < |data|
    && tail(p, found) ==
         if KeyOf(lex, e) == wanted && found.Some? then None
         else if data[next] == ',' then tail(next + 1, kept)
         else kept
  }

  /** The scanner's span of the entry at `p` holds the printed value. */
  ghost predicate SpanFits(lex: Lexicon, decode: Bytes -> Option<Value>, data: Bytes, p: nat, e: Entry) {
    var span := SpanAt(lex, p, e);
    && MemberRead(data, p, decode, span)
    && span.end <= |data| && data[span.start..span.end] == Print(e.value)
    && span.next == p + |PrintEntry(e)| && EndsMember(data, span.next)
  }

  lemma {:induction false} EntryFits(lex: Lexicon, decode: Bytes -> Option<Value>, data: Bytes, p: nat, e: Entry)
    requires ReadsNames(lex, decode) && EntryAt(lex, data, p, e, true) && EndsMember(data, p + |PrintEntry(e)|)
    ensures SpanFits(lex, decode, data, p, e)
  {
    EntrySplit(data, p, e);
    SpanOfEntry(lex, decode, data, p, e);
    AtSlice(data, SpanAt(lex, p, e).start, Print(e.value));
  }

  lemma {:induction false} EntryScanned(
    lex: Lexicon, decode: Bytes -> Option<Value>, data: Bytes, p: nat, e: Entry, wanted: Bytes, found: Option<Bytes>)
    requires SpanFits(lex, decode, data, p, e)
    ensures Reads(lex, data, wanted, TailOf(data, wanted, decode), p, e, found)
  {
    var span := SpanAt(lex, p, e);
    TailFrom(data, p, wanted, found, decode, span, Print(e.value));
    ReadsFrom(lex, data, wanted, TailOf(data, wanted, decode), p, e, span, found);
  }

  lemma ReadsFrom(
    lex: Lexicon, data: Bytes, wanted: Bytes, tail: Tail, p: nat, e: Entry, span: Span, found: Option<Bytes>)
    requires Continues(data, wanted, tail, p, span.key, Print(e.value), span.next, found)
    requires span.key == Str(KeyOf(lex, e)) && span.next == p + |PrintEntry(e)|
    ensures Reads(lex, data, wanted, tail, p, e, found)
  {
  }

  /** Members stand at `p`, and the end of the object follows them. */
  ghost predicate MembersClosed(lex: Lexicon, data: Bytes, p: nat, es: seq<Entry>) {
    && EntriesAt(lex, data, p, es, true)
    && p + |PrintEntries(es)| < |data| && data[p + |PrintEntries(es)|] == '}'
  }

  lemma {:induction false} FirstClosed(lex: Lexicon, data: Bytes, p: nat, es: seq<Entry>)
    requires MembersClosed(lex, data, p, es)
    ensures es != [] && EntryAt(lex, data, p, es[0], true)
    ensures
      var q := p + |PrintEntry(es[0])|;
      && EndsMember(data, q)
      && if |es| == 1 then data[q] == '}' else data[q] == ',' && MembersClosed(lex, data, q + 1, es[1..])
  {
    FirstEntry(lex, data, p, es, true);
    if |es| > 1 {
      RestOfEntries(lex, data, p, es, true);
    }
  }

  /** The loop reads an entry at `p` so, if a member stands there. */
  ghost predicate ScansAt(
    lex: Lexicon, data: Bytes, wanted: Bytes, tail: Tail, p: nat, e: Entry, found: Option<Bytes>)
  {
    EntryAt(lex, data, p, e, true) && EndsMember(data, p + |PrintEntry(e)|) ==>
      Reads(lex, data, wanted, tail, p, e, found)
  }

  ghost predicate Scans(lex: Lexicon, data: Bytes, wanted: Bytes, tail: Tail) {
    forall p: nat, e, found :: ScansAt(lex, data, wanted, tail, p, e, found)
  }

  lemma {:induction false} LoopScans(lex: Lexicon, decode: Bytes -> Option<Value>, data: Bytes, wanted: Bytes)
    requires ReadsNames(lex, decode)
    ensures Scans(lex, data, wanted, TailOf(data, wanted, decode))
  {
    forall p: nat, e, found ensures ScansAt(lex, data, wanted, TailOf(data, wanted, decode), p, e, found) {
      if EntryAt(lex, data, p, e, true) && EndsMember(data, p + |PrintEntry(e)|) {
        EntryFits(lex, decode, data, p, e);
        EntryScanned(lex, decode, data, p, e, wanted, found);
      }
    }
  }

  lemma FirstScanned(
    lex: Lexicon, data: Bytes, p: nat, es: seq<Entry>, wanted: Bytes, tail: Tail, found: Option<Bytes>)
    requires Scans(lex, data, wanted, tail) && MembersClosed(lex, data, p, es)
    ensures es != [] && Reads(lex, data, wanted, tail, p, es[0], found)
  {
    FirstClosed(lex, data, p, es);
    assert ScansAt(lex, data, wanted, tail, p, es[0], found);
  }

  /** One entry, and what the loop makes of the others. */
  lemma PickCons(
    lex: Lexicon, data: Bytes, wanted: Bytes, tail: Tail, p: nat, es: seq<Entry>, q: nat, found: Option<Bytes>)
    requires es != [] && Reads(lex, data, wanted, tail, p, es[0], found)
    requires q == p + |PrintEntry(es[0])| && q < |data| && (data[q] == ',' <==> |es| > 1)
    requires
      var kept := Kept(lex, es[0], wanted, found);
      |es| > 1 ==> tail(q + 1, kept) == Pick(lex, es[1..], wanted, kept)
    ensures tail(p, found) == Pick(lex, es, wanted, found)
  {
    if |es| == 1 {
      assert es[1..] == [];
    }
  }

  lemma {:induction false} ClosedScanned(
    lex: Lexicon, data: Bytes, p: nat, es: seq<Entry>, wanted: Bytes, tail: Tail, found: Option<Bytes>)
    requires Scans(lex, data, wanted, tail) && MembersClosed(lex, data, p, es)
    ensures tail(p, found) == Pick(lex, es, wanted, found)
    decreases |es|
  {
    FirstClosed(lex, data, p, es);
    FirstScanned(lex, data, p, es, wanted, tail, found);
    var q := p + |PrintEntry(es[0])|;
    if |es| > 1 {
      ClosedScanned(lex, data, q + 1, es[1..], wanted, tail, Kept(lex, es[0], wanted, found));
    }
    PickCons(lex, data, wanted, tail, p, es, q, found);
  }

  predicate NamedAt(lex: Lexicon, es: seq<Entry>, wanted: Bytes, i: nat) {
    i < |es| && KeyOf(lex, es[i]) == wanted
  }

  lemma {:induction false} PickNone(lex: Lexicon, es: seq<Entry>, wanted: Bytes, found: Option<Bytes>)
    requires forall i :: !NamedAt(lex, es, wanted, i)
    ensures Pick(lex, es, wanted, found) == found
  {
    if es != [] {
      assert !NamedAt(lex, es, wanted, 0);
      forall i: nat ensures !NamedAt(lex, es[1..], wanted, i) { assert !NamedAt(lex, es, wanted, i + 1); }
      PickNone(lex, es[1..], wanted, found);
    }
  }

  lemma {:induction false} PickAgain(lex: Lexicon, es: seq<Entry>, wanted: Bytes, found: Option<Bytes>, i: nat)
    requires found.Some? && NamedAt(lex, es, wanted, i)
    ensures Pick(lex, es, wanted, found) == None
  {
    if i > 0 && KeyOf(lex, es[0]) != wanted {
      PickAgain(lex, es[1..], wanted, found, i - 1);
    }
  }

  lemma {:induction false} PickTwice(lex: Lexicon, es: seq<Entry>, wanted: Bytes, i: nat, j: nat)
    requires i < j && NamedAt(lex, es, wanted, i) && NamedAt(lex, es, wanted, j)
    ensures Pick(lex, es, wanted, None) == None
  {
    if KeyOf(lex, es[0]) == wanted {
      PickAgain(lex, es[1..], wanted, Some(Print(es[0].value)), j - 1);
    } else {
      PickTwice(lex, es[1..], wanted, i - 1, j - 1);
    }
  }

  lemma {:induction false} PickOnce(lex: Lexicon, es: seq<Entry>, wanted: Bytes, i: nat)
    requires NamedAt(lex, es, wanted, i)
    requires forall j :: NamedAt(lex, es, wanted, j) ==> j == i
    ensures Pick(lex, es, wanted, None) == Some(Print(es[i].value))
  {
    forall j: nat | NamedAt(lex, es[1..], wanted, j) ensures j + 1 == i { assert NamedAt(lex, es, wanted, j + 1); }
    if i == 0 {
      PickNone(lex, es[1..], wanted, Some(Print(es[0].value)));
    } else {
      assert !NamedAt(lex, es, wanted, 0);
      PickOnce(lex, es[1..], wanted, i - 1);
    }
  }

  lemma {:induction false} EmptyScanned(
    decode: Bytes -> Option<Value>, data: Bytes, p: nat, gap: Bytes, wanted: Bytes)
    requires At(data, p, gap) && Blank(gap) && p + |gap| < |data| && data[p + |gap|] == '}'
    ensures MemberTail(data, p, wanted, None, decode) == None
  {
    SpaceSkips(data, p, gap);
  }

  lemma {:induction false} InsideScanned(
    lex: Lexicon, decode: Bytes -> Option<Value>, data: Bytes, p: nat, n: Node, wanted: Bytes)
    requires ValidLexicon(lex) && ReadsNames(lex, decode)
    requires Legal(lex, n) && n.Composite? && n.isObject && At(data, p, Print(n))
    ensures p < |data| && data[p] == '{'
    ensures TailOf(data, wanted, decode)(p + 1, None) == Pick(lex, n.entries, wanted, None)
  {
    CompositeSplit(data, p, true, n.entries, n.gap);
    if n.entries == [] {
      EmptyScanned(decode, data, p + 1, n.gap, wanted);
    } else {
      LoopScans(lex, decode, data, wanted);
      ClosedScanned(lex, data, p + 1, n.entries, wanted, TailOf(data, wanted, decode), None);
    }
  }

  lemma {:induction false} ObjectScanned(
    lex: Lexicon, decode: Bytes -> Option<Value>, data: Bytes, n: Node, left: Bytes, rest: Bytes, wanted: Bytes)
    requires ValidLexicon(lex) && ReadsNames(lex, decode)
    requires Legal(lex, n) && n.Composite? && n.isObject && Blank(left)
    requires data == left + Print(n) + rest
    ensures RawObjectMember(data, wanted, decode) == Pick(lex, n.entries, wanted, None)
  {
    assert At(data, 0, left);
    assert At(data, |left|, Print(n));
    InsideScanned(lex, decode, data, |left|, n, wanted);
    SpaceSkips(data, 0, left);
  }

  /**
   In any legal object text, however it is spaced, nested or escaped and whatever follows it,
   `_raw_object_member` returns exactly the printed bytes of the one member with the wanted name.
   */
  lemma {:induction false} CutsExactBytes(
    lex: Lexicon, decode: Bytes -> Option<Value>, data: Bytes, n: Node, left: Bytes, rest: Bytes, wanted: Bytes, i: nat)
    requires ValidLexicon(lex) && IsDecoder(lex, decode)
    requires Legal(lex, n) && n.Composite? && n.isObject && Blank(left)
    requires data == left + Print(n) + rest
    requires NamedAt(lex, n.entries, wanted, i)
    requires forall j :: NamedAt(lex, n.entries, wanted, j) ==> j == i
    ensures RawObjectMember(data, wanted, decode) == Some(Print(n.entries[i].value))
  {
    DecoderReadsNames(lex, decode);
    ObjectScanned(lex, decode, data, n, left, rest, wanted);
    PickOnce(lex, n.entries, wanted, i);
  }

  /** It refuses exactly the legal objects that do not have the member, or have it more than once. */
  lemma {:induction false} RefusesMissingOrRepeated(
    lex: Lexicon, decode: Bytes -> Option<Value>, data: Bytes, n: Node, left: Bytes, rest: Bytes, wanted: Bytes)
    requires ValidLexicon(lex) && IsDecoder(lex, decode)
    requires Legal(lex, n) && n.Composite? && n.isObject && Blank(left)
    requires data == left + Print(n) + rest
    ensures
      RawObjectMember(data, wanted, decode).None? <==>
        || (forall i :: !NamedAt(lex, n.entries, wanted, i))
        || (exists i, j :: i < j && NamedAt(lex, n.entries, wanted, i) && NamedAt(lex, n.entries, wanted, j))
  {
    DecoderReadsNames(lex, decode);
    ObjectScanned(lex, decode, data, n, left, rest, wanted);
    if forall i :: !NamedAt(lex, n.entries, wanted, i) {
      PickNone(lex, n.entries, wanted, None);
    } else if i, j :| i < j && NamedAt(lex, n.entries, wanted, i) && NamedAt(lex, n.entries, wanted, j) {
      PickTwice(lex, n.entries, wanted, i, j);
    } else {
      var i :| NamedAt(lex, n.entries, wanted, i);
      PickOnce(lex, n.entries, wanted, i);
    }
  }
}
