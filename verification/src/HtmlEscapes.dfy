/**
 What the runtime's encoder does to JSON text that it is handed ready-made: blanks between tokens go,
 and inside strings three characters and two line separators are replaced by escapes.
 */
module HtmlEscapes {
  import opened Options
  import opened Json

  // ----- Bytes -----

  predicate IsHtml(c: char) {
    c == '<' || c == '>' || c == '&'
  }

  /** The bytes start with U+2028 or U+2029 in UTF-8. */
  predicate IsSeparator(s: Bytes) {
    |s| >= 3 && s[0] as int == 0xE2 && s[1] as int == 0x80 && (s[2] as int == 0xA8 || s[2] as int == 0xA9)
  }

  /** How many bytes are written at once, and as what. */
  function Width(s: Bytes): (k: nat)
    requires s != []
    ensures 0 < k <= |s|
  {
    if !IsHtml(s[0]) && IsSeparator(s) then 3 else 1
  }

  function Code(s: Bytes): Bytes
    requires s != []
  {
    if s[0] == '<' then "\\u003c"
    else if s[0] == '>' then "\\u003e"
    else if s[0] == '&' then "\\u0026"
    else if IsSeparator(s) then if s[2] as int == 0xA8 then "\\u2028" else "\\u2029"
    else [s[0]]
  }

  function EscapeHtml(s: Bytes): Bytes {
    if s == [] then [] else Code(s) + EscapeHtml(s[Width(s)..])
  }

  lemma {:induction false} EscapeHead(t: Bytes, s: Bytes, code: Bytes)
    requires t != [] && Width(t + s) == |t| && Code(t + s) == code
    ensures EscapeHtml(t + s) == code + EscapeHtml(s)
  {
    assert (t + s)[|t|..] == s;
  }

  const LINE_SEPARATOR: Bytes := "\U{E2}\U{80}\U{A8}"
  const PARAGRAPH_SEPARATOR: Bytes := "\U{E2}\U{80}\U{A9}"

  lemma SeparatorIff(s: Bytes)
    ensures IsSeparator(s) <==> LINE_SEPARATOR <= s || PARAGRAPH_SEPARATOR <= s
  {
    if IsSeparator(s) {
      assert s[..3] == [s[0], s[1], s[2]];
      assert s[2] as int == 0xA8 ==> s[..3] == LINE_SEPARATOR;
      assert s[2] as int == 0xA9 ==> s[..3] == PARAGRAPH_SEPARATOR;
    }
  }

  /** What is escaped, and as what: three characters and two line separators, and nothing else. */
  lemma {:induction false} EscapesSpelled(c: char, s: Bytes)
    ensures EscapeHtml("<" + s) == "\\u003c" + EscapeHtml(s)
    ensures EscapeHtml(">" + s) == "\\u003e" + EscapeHtml(s)
    ensures EscapeHtml("&" + s) == "\\u0026" + EscapeHtml(s)
    ensures EscapeHtml(LINE_SEPARATOR + s) == "\\u2028" + EscapeHtml(s)
    ensures EscapeHtml(PARAGRAPH_SEPARATOR + s) == "\\u2029" + EscapeHtml(s)
    ensures
      c != '<' && c != '>' && c != '&' && !(LINE_SEPARATOR <= [c] + s) && !(PARAGRAPH_SEPARATOR <= [c] + s) ==>
        EscapeHtml([c] + s) == [c] + EscapeHtml(s)
  {
    EscapeHead("<", s, "\\u003c");
    EscapeHead(">", s, "\\u003e");
    EscapeHead("&", s, "\\u0026");
    EscapeHead(LINE_SEPARATOR, s, "\\u2028");
    EscapeHead(PARAGRAPH_SEPARATOR, s, "\\u2029");
    SeparatorIff([c] + s);
    if !IsHtml(c) && !IsSeparator([c] + s) {
      EscapeHead([c], s, [c]);
    }
  }

  /** Nothing in `s` is escaped. */
  predicate NoHtml(s: Bytes) {
    forall i :: 0 <= i < |s| ==> !IsHtml(s[i]) && !IsSeparator(s[i..])
  }

  lemma NoHtmlTail(s: Bytes)
    requires s != []
    ensures NoHtml(s) <==> !IsHtml(s[0]) && !IsSeparator(s) && NoHtml(s[1..])
  {
    assert s[0..] == s;
    forall i | 0 <= i < |s| - 1 ensures s[1..][i] == s[i + 1] && s[1..][i..] == s[i + 1..] {
    }
    if NoHtml(s[1..]) && !IsHtml(s[0]) && !IsSeparator(s) {
      forall i | 0 <= i < |s| ensures !IsHtml(s[i]) && !IsSeparator(s[i..]) {
        if i > 0 {
          assert s[1..][i - 1] == s[i] && s[1..][i - 1..] == s[i..];
        }
      }
    }
  }

  lemma {:induction false} EscapingGrows(s: Bytes)
    ensures |EscapeHtml(s)| >= |s|
    decreases |s|
  {
    if s != [] {
      EscapingGrows(s[Width(s)..]);
    }
  }

  lemma LongerCode(s: Bytes)
    requires s != [] && (IsHtml(s[0]) || IsSeparator(s))
    ensures |Code(s)| > Width(s)
  {
  }

  lemma UnchangedCons(s: Bytes)
    requires s != [] && !IsHtml(s[0]) && !IsSeparator(s)
    ensures EscapeHtml(s) == [s[0]] + EscapeHtml(s[1..])
    ensures EscapeHtml(s) == s <==> EscapeHtml(s[1..]) == s[1..]
  {
    assert s == [s[0]] + s[1..];
    assert ([s[0]] + EscapeHtml(s[1..]))[1..] == EscapeHtml(s[1..]);
  }

  /** Escaping changes nothing exactly when there is nothing to escape. */
  lemma {:induction false} UnchangedIff(s: Bytes)
    ensures EscapeHtml(s) == s <==> NoHtml(s)
    decreases |s|
  {
    if s != [] {
      NoHtmlTail(s);
      if IsHtml(s[0]) || IsSeparator(s) {
        LongerCode(s);
        EscapingGrows(s[Width(s)..]);
        assert |EscapeHtml(s)| > |s|;
      } else {
        UnchangedIff(s[1..]);
        UnchangedCons(s);
      }
    }
  }

  predicate IsAscii(c: char) {
    c as int < 0x80
  }

  /** No escaped character lies across the boundary. */
  predicate Seam(a: Bytes, b: Bytes) {
    a == [] || b == [] || IsAscii(a[|a| - 1]) || IsAscii(b[0])
  }

  lemma SeparatorWithin(a: Bytes, b: Bytes)
    requires a != [] && Seam(a, b)
    ensures IsSeparator(a + b) <==> IsSeparator(a)
  {
    if b == [] {
      assert a + b == a;
    } else if |a| == 1 {
      assert (a + b)[1] == b[0];
    } else if |a| == 2 {
      assert (a + b)[2] == b[0];
    }
  }

  lemma SameCode(a: Bytes, b: Bytes)
    requires a != [] && Seam(a, b)
    ensures Code(a + b) == Code(a) && Width(a + b) == Width(a)
  {
    SeparatorWithin(a, b);
    assert (a + b)[0] == a[0];
    assert IsSeparator(a) ==> (a + b)[2] == a[2];
  }

  lemma DropWithin(a: Bytes, b: Bytes, k: nat)
    requires k <= |a|
    ensures (a + b)[k..] == a[k..] + b
  {
  }

  lemma {:induction false} EscapeStep(a: Bytes, b: Bytes)
    requires a != [] && Seam(a, b)
    ensures EscapeHtml(a + b) == Code(a) + EscapeHtml(a[Width(a)..] + b)
  {
    SameCode(a, b);
    DropWithin(a, b, Width(a));
    assert a + b != [];
  }

  lemma {:induction false} EscapeJoin(a: Bytes, b: Bytes)
    requires Seam(a, b)
    ensures EscapeHtml(a + b) == EscapeHtml(a) + EscapeHtml(b)
    decreases |a|
  {
    if a == [] {
      assert a + b == b;
    } else {
      var rest := a[Width(a)..];
      EscapeJoin(rest, b);
      EscapeStep(a, b);
      Prepended(EscapeHtml(a + b), EscapeHtml(a), EscapeHtml(b), Code(a), EscapeHtml(rest + b), EscapeHtml(rest));
    }
  }

  lemma Prepended(whole: Bytes, left: Bytes, right: Bytes, first: Bytes, more: Bytes, rest: Bytes)
    requires whole == first + more && more == rest + right && left == first + rest
    ensures whole == left + right
  {
  }

  predicate IsPlainToken(s: Bytes) {
    forall i :: 0 <= i < |s| ==> IsAscii(s[i]) && !IsHtml(s[i])
  }

  lemma {:induction false} PlainUnchanged(s: Bytes)
    requires IsPlainToken(s)
    ensures EscapeHtml(s) == s
  {
    if s != [] {
      PlainUnchanged(s[1..]);
      assert s == [s[0]] + s[1..];
    }
  }

  // ----- Texts -----

  /** The text without blanks between its tokens, and with `f` applied inside every string. */
  function Rewritten(f: Bytes -> Bytes, n: Node): Node
    decreases n, 1
  {
    match n
    case Scalar(_) => n
    case Text(body) => Text(f(body))
    case Composite(isObject, entries, _) => Composite(isObject, RewrittenEntries(f, entries), [])
  }

  function RewrittenName(f: Bytes -> Bytes, name: Option<Name>): Option<Name> {
    if name.None? then None else Some(Name(f(name.value.key), [], []))
  }

  function RewrittenEntry(f: Bytes -> Bytes, e: Entry): Entry
    decreases e, 0
  {
    Entry([], RewrittenName(f, e.name), Rewritten(f, e.value), [])
  }

  function RewrittenEntries(f: Bytes -> Bytes, es: seq<Entry>): (r: seq<Entry>)
    ensures |r| == |es|
    decreases es, 0
  {
    if es == [] then [] else [RewrittenEntry(f, es[0])] + RewrittenEntries(f, es[1..])
  }

  function Same(s: Bytes): Bytes {
    s
  }

  /** `json.Compact`, which keeps the escapes that the caller used. */
  function Owned(n: Node): Node {
    Rewritten(Same, n)
  }

  /** The same text as `json.Marshal` stores it. */
  function Stored(n: Node): Node {
    Rewritten(EscapeHtml, n)
  }

  /**
   Rewriting a string that is legal for `wide` keeps it so, and keeps whether `lex` can read it and what
   it then denotes.
   */
  predicate TextKept(wide: Lexicon, lex: Lexicon, f: Bytes -> Bytes, body: Bytes) {
    wide.text(body).Some? ==> wide.text(f(body)).Some? && lex.text(f(body)) == lex.text(body)
  }

  ghost predicate KeepsText(wide: Lexicon, lex: Lexicon, f: Bytes -> Bytes) {
    forall body :: TextKept(wide, lex, f, body)
  }

  lemma {:induction false} RewrittenMeans(wide: Lexicon, lex: Lexicon, f: Bytes -> Bytes, n: Node)
    requires KeepsText(wide, lex, f) && Legal(wide, n)
    ensures Legal(wide, Rewritten(f, n)) && (Legal(lex, Rewritten(f, n)) <==> Legal(lex, n))
    ensures Meaning(lex, Rewritten(f, n)) == Meaning(lex, n) && Depth(Rewritten(f, n)) == Depth(n)
    decreases n, 1
  {
    match n
    case Scalar(_) =>
    case Text(body) => assert TextKept(wide, lex, f, body);
    case Composite(isObject, entries, _) => EntriesMeanTheSame(wide, lex, f, entries, isObject);
  }

  lemma NameMeansTheSame(wide: Lexicon, lex: Lexicon, f: Bytes -> Bytes, e: Entry, isObject: bool)
    requires KeepsText(wide, lex, f) && LegalName(wide, e.name, isObject)
    ensures LegalName(wide, RewrittenName(f, e.name), isObject)
    ensures LegalName(lex, RewrittenName(f, e.name), isObject) <==> LegalName(lex, e.name, isObject)
    ensures KeyOf(lex, RewrittenEntry(f, e)) == KeyOf(lex, e)
  {
    if e.name.Some? {
      assert TextKept(wide, lex, f, e.name.value.key);
    }
  }

  lemma {:induction false} EntriesMeanTheSame(
    wide: Lexicon, lex: Lexicon, f: Bytes -> Bytes, es: seq<Entry>, isObject: bool)
    requires KeepsText(wide, lex, f) && LegalEntries(wide, es, isObject)
    ensures
      var fs := RewrittenEntries(f, es);
      && LegalEntries(wide, fs, isObject) && (LegalEntries(lex, fs, isObject) <==> LegalEntries(lex, es, isObject))
      && MembersOf(lex, fs) == MembersOf(lex, es) && ItemsOf(lex, fs) == ItemsOf(lex, es)
      && DepthWithin(fs) == DepthWithin(es)
    decreases es, 0
  {
    if es != [] {
      var e, rest := RewrittenEntry(f, es[0]), RewrittenEntries(f, es[1..]);
      assert BlankAround(es[0]);
      NameMeansTheSame(wide, lex, f, es[0], isObject);
      RewrittenMeans(wide, lex, f, es[0].value);
      EntriesMeanTheSame(wide, lex, f, es[1..], isObject);
      EntriesConsMean(wide, lex, e, rest, es, isObject);
    }
  }

  predicate BlankAround(e: Entry) {
    Blank(e.before) && Blank(e.after)
  }

  /** Entries that mean the same one by one, as far as either reader is concerned. */
  lemma EntriesConsMean(wide: Lexicon, lex: Lexicon, e: Entry, rest: seq<Entry>, es: seq<Entry>, isObject: bool)
    requires es != [] && LegalEntry(wide, e, isObject) && LegalEntries(wide, rest, isObject)
    requires LegalEntry(lex, e, isObject) <==> LegalEntry(lex, es[0], isObject)
    requires LegalEntries(lex, rest, isObject) <==> LegalEntries(lex, es[1..], isObject)
    requires KeyOf(lex, e) == KeyOf(lex, es[0]) && Meaning(lex, e.value) == Meaning(lex, es[0].value)
    requires MembersOf(lex, rest) == MembersOf(lex, es[1..]) && ItemsOf(lex, rest) == ItemsOf(lex, es[1..])
    requires Depth(e.value) == Depth(es[0].value) && DepthWithin(rest) == DepthWithin(es[1..])
    ensures
      var fs := [e] + rest;
      && LegalEntries(wide, fs, isObject) && (LegalEntries(lex, fs, isObject) <==> LegalEntries(lex, es, isObject))
      && MembersOf(lex, fs) == MembersOf(lex, es) && ItemsOf(lex, fs) == ItemsOf(lex, es)
      && DepthWithin(fs) == DepthWithin(es)
  {
    assert ([e] + rest)[1..] == rest;
  }

  predicate TokenPlain(lex: Lexicon, token: Bytes) {
    lex.scalar(token).Some? ==> IsPlainToken(token)
  }

  /** The bare tokens of the grammar are plain. */
  ghost predicate PlainTokens(lex: Lexicon) {
    forall token :: TokenPlain(lex, token)
  }

  lemma QuotedEscapes(body: Bytes)
    ensures EscapeHtml(Quoted(body)) == Quoted(EscapeHtml(body))
  {
    var q := ['"'];
    EscapeJoin(q + body, q);
    EscapeJoin(q, body);
    PlainUnchanged(q);
  }

  lemma NamePrints(f: Bytes -> Bytes, name: Option<Name>)
    ensures PrintName(RewrittenName(f, name)) == if name.None? then [] else Quoted(f(name.value.key)) + [':']
  {
    if name.Some? {
      var quoted := Quoted(f(name.value.key));
      assert quoted + [] + [':'] + [] == quoted + [':'];
    }
  }

  lemma NameEscapes(name: Option<Name>)
    ensures EscapeHtml(PrintName(RewrittenName(Same, name))) == PrintName(RewrittenName(EscapeHtml, name))
    ensures
      var printed := PrintName(RewrittenName(Same, name));
      printed == [] || IsAscii(printed[|printed| - 1])
  {
    NamePrints(Same, name);
    NamePrints(EscapeHtml, name);
    if name.Some? {
      var key := name.value.key;
      QuotedEscapes(key);
      EscapeJoin(Quoted(key), [':']);
      PlainUnchanged([':']);
    }
  }

  /** Storing a text escapes it, as bytes. */
  lemma {:induction false} StoredIsEscaped(lex: Lexicon, n: Node)
    requires PlainTokens(lex) && Legal(lex, n)
    ensures Print(Stored(n)) == EscapeHtml(Print(Owned(n)))
    decreases n, 1
  {
    match n
    case Scalar(token) =>
      assert TokenPlain(lex, token);
      PlainUnchanged(token);
    case Text(body) => QuotedEscapes(body);
    case Composite(isObject, entries, gap) =>
      if entries != [] {
        EntriesEscape(lex, entries, isObject);
      }
      var inner := Inside(Same, entries);
      assert Inside(EscapeHtml, entries) == EscapeHtml(inner);
      DelimitedEscapes([Opening(isObject)], inner, [Closing(isObject)]);
  }

  /** What is printed between the delimiters. */
  function Inside(f: Bytes -> Bytes, entries: seq<Entry>): Bytes {
    if entries == [] then [] else PrintEntries(RewrittenEntries(f, entries))
  }

  lemma DelimitedEscapes(open: Bytes, inner: Bytes, close: Bytes)
    requires |open| == |close| == 1 && IsPlainToken(open) && IsPlainToken(close)
    ensures EscapeHtml(open + inner + close) == open + EscapeHtml(inner) + close
  {
    PlainUnchanged(open);
    PlainUnchanged(close);
    EscapeJoin(open + inner, close);
    EscapeJoin(open, inner);
  }

  lemma EntryPrints(name: Option<Name>, value: Node)
    ensures PrintEntry(Entry([], name, value, [])) == PrintName(name) + Print(value)
  {
    var a, b := PrintName(name), Print(value);
    assert [] + a + b + [] == a + b;
  }

  lemma {:induction false} EntryEscapes(lex: Lexicon, e: Entry, isObject: bool)
    requires PlainTokens(lex) && LegalEntry(lex, e, isObject)
    ensures PrintEntry(RewrittenEntry(EscapeHtml, e)) == EscapeHtml(PrintEntry(RewrittenEntry(Same, e)))
    decreases e, 0
  {
    NameEscapes(e.name);
    StoredIsEscaped(lex, e.value);
    EscapeJoin(PrintName(RewrittenName(Same, e.name)), Print(Owned(e.value)));
    EntryPrints(RewrittenName(Same, e.name), Owned(e.value));
    EntryPrints(RewrittenName(EscapeHtml, e.name), Stored(e.value));
  }

  lemma {:induction false} EntriesEscape(lex: Lexicon, es: seq<Entry>, isObject: bool)
    requires PlainTokens(lex) && LegalEntries(lex, es, isObject) && es != []
    ensures PrintEntries(RewrittenEntries(EscapeHtml, es)) == EscapeHtml(PrintEntries(RewrittenEntries(Same, es)))
    decreases es, 1
  {
    EntryEscapes(lex, es[0], isObject);
    if |es| > 1 {
      EntriesEscape(lex, es[1..], isObject);
      var first, rest := PrintEntry(RewrittenEntry(Same, es[0])), PrintEntries(RewrittenEntries(Same, es[1..]));
      EntriesPrint(Same, es);
      EntriesPrint(EscapeHtml, es);
      PlainUnchanged([',']);
      EscapeJoin(first + [','], rest);
      EscapeJoin(first, [',']);
    }
  }

  lemma EntriesPrint(f: Bytes -> Bytes, es: seq<Entry>)
    requires |es| > 1
    ensures
      PrintEntries(RewrittenEntries(f, es))
      == PrintEntry(RewrittenEntry(f, es[0])) + [','] + PrintEntries(RewrittenEntries(f, es[1..]))
  {
    assert RewrittenEntries(f, es)[1..] == RewrittenEntries(f, es[1..]);
  }
}
