/**
 A JSON text has one reading.  The scanner's answers are functions of the text, so two ways of
 reading the same text agree on where every token ends; the decoder's contract is therefore
 consistent and determines it.
 */
module Unambiguous {
  import opened Options
  import opened Json
  import opened Scanner
  import opened ScannerTheorems

  lemma AtSame(data: Bytes, p: nat, a: Bytes, b: Bytes)
    requires At(data, p, a) && At(data, p, b) && |a| == |b|
    ensures a == b
  {
    AtSlice(data, p, a);
    AtSlice(data, p, b);
  }

  lemma SameBlank(data: Bytes, p: nat, a: Bytes, b: Bytes)
    requires At(data, p, a) && At(data, p, b) && Blank(a) && Blank(b)
    requires p + |a| < |data| ==> !IsSpace(data[p + |a|])
    requires p + |b| < |data| ==> !IsSpace(data[p + |b|])
    ensures a == b
  {
    SpaceSkips(data, p, a);
    SpaceSkips(data, p, b);
    AtSame(data, p, a, b);
  }

  lemma SameLiteral(data: Bytes, p: nat, a: Bytes, b: Bytes)
    requires At(data, p, Quoted(a)) && At(data, p, Quoted(b)) && IsBody(a) && IsBody(b)
    ensures a == b
  {
    LiteralSkips(data, p, a);
    LiteralSkips(data, p, b);
    AtSame(data, p, Quoted(a), Quoted(b));
    assert a == Quoted(a)[1..|a| + 1];
    assert b == Quoted(b)[1..|b| + 1];
  }

  lemma SameColon(data: Bytes, p: nat, a: Name, b: Name)
    requires At(data, p, a.beforeColon) && At(data, p + |a.beforeColon|, [':'])
    requires At(data, p, b.beforeColon) && At(data, p + |b.beforeColon|, [':'])
    requires Blank(a.beforeColon) && Blank(b.beforeColon)
    ensures a.beforeColon == b.beforeColon
  {
    AtHead(data, p + |a.beforeColon|, [':']);
    AtHead(data, p + |b.beforeColon|, [':']);
    SameBlank(data, p, a.beforeColon, b.beforeColon);
  }

  lemma SameKeyFrom(data: Bytes, p: nat, a: Name, b: Name, q: nat, r: nat)
    requires IsBody(a.key) && IsBody(b.key) && Blank(a.beforeColon) && Blank(b.beforeColon)
    requires At(data, p, Quoted(a.key)) && q == p + |Quoted(a.key)|
    requires At(data, p, Quoted(b.key)) && r == p + |Quoted(b.key)|
    requires At(data, q, a.beforeColon) && At(data, q + |a.beforeColon|, [':'])
    requires At(data, r, b.beforeColon) && At(data, r + |b.beforeColon|, [':'])
    ensures a.key == b.key && a.beforeColon == b.beforeColon
  {
    SameLiteral(data, p, a.key, b.key);
    assert q == r;
    SameColon(data, q, a, b);
  }

  lemma {:induction false} SameKey(lex: Lexicon, data: Bytes, p: nat, a: Name, b: Name)
    requires ValidLexicon(lex) && LegalName(lex, Some(a), true) && LegalName(lex, Some(b), true)
    requires At(data, p, PrintName(Some(a))) && At(data, p, PrintName(Some(b)))
    ensures a.key == b.key && a.beforeColon == b.beforeColon
  {
    NameSplit(data, p, a);
    NameSplit(data, p, b);
    SameKeyFrom(data, p, a, b, p + |Quoted(a.key)|, p + |Quoted(b.key)|);
  }

  lemma {:induction false} SameName(lex: Lexicon, data: Bytes, p: nat, a: Name, b: Name)
    requires ValidLexicon(lex) && LegalName(lex, Some(a), true) && LegalName(lex, Some(b), true)
    requires At(data, p, PrintName(Some(a))) && At(data, p, PrintName(Some(b)))
    requires var q := p + |PrintName(Some(a))|; q < |data| && !IsSpace(data[q])
    requires var q := p + |PrintName(Some(b))|; q < |data| && !IsSpace(data[q])
    ensures a == b
  {
    SameKey(lex, data, p, a, b);
    NameSplit(data, p, a);
    NameSplit(data, p, b);
    var q, q' := p + |Quoted(a.key)| + |a.beforeColon| + 1, p + |Quoted(b.key)| + |b.beforeColon| + 1;
    assert q == q';
    assert q + |a.afterColon| == p + |PrintName(Some(a))| && q' + |b.afterColon| == p + |PrintName(Some(b))|;
    SameBlank(data, q, a.afterColon, b.afterColon);
  }

  /** A legal value stands at `p`, and something that ends a value follows it. */
  ghost predicate ValueAt(lex: Lexicon, data: Bytes, p: nat, n: Node) {
    ValidLexicon(lex) && Legal(lex, n) && At(data, p, Print(n)) && Delimited(data, p + |Print(n)|)
  }

  /** Two values read at one place. */
  lemma {:induction false} SameValue(lex: Lexicon, data: Bytes, p: nat, a: Node, b: Node)
    requires ValueAt(lex, data, p, a) && ValueAt(lex, data, p, b)
    ensures a == b
    decreases a, 2
  {
    ValueEndsHere(lex, data, p, a);
    ValueEndsHere(lex, data, p, b);
    PrintStarts(lex, a);
    PrintStarts(lex, b);
    AtHead(data, p, Print(a));
    AtHead(data, p, Print(b));
    AtSame(data, p, Print(a), Print(b));
    if a.Text? {
      SameLiteral(data, p, a.body, b.body);
    } else if a.Composite? {
      SameComposite(lex, data, p, a, b);
    }
  }

  /** Entries stand at `p`, up to a closing delimiter. */
  ghost predicate ListAt(lex: Lexicon, data: Bytes, p: nat, es: seq<Entry>, isObject: bool) {
    EntriesAt(lex, data, p, es, isObject) && ClosesAt(data, p + |PrintEntries(es)|, isObject)
  }

  ghost predicate GapAt(data: Bytes, p: nat, gap: Bytes, isObject: bool) {
    Blank(gap) && At(data, p, gap) && ClosesAt(data, p + |gap|, isObject)
  }

  lemma {:induction false} Inside(lex: Lexicon, data: Bytes, p: nat, n: Node)
    requires ValidLexicon(lex) && Legal(lex, n) && n.Composite? && At(data, p, Print(n))
    ensures n.entries == [] ==> GapAt(data, p + 1, n.gap, n.isObject)
    ensures n.entries != [] ==> n.gap == [] && ListAt(lex, data, p + 1, n.entries, n.isObject)
  {
    CompositeSplit(data, p, n.isObject, n.entries, n.gap);
  }

  lemma {:induction false} SameGap(data: Bytes, p: nat, a: Bytes, b: Bytes, isObject: bool)
    requires GapAt(data, p, a, isObject) && GapAt(data, p, b, isObject)
    ensures a == b
  {
    SameBlank(data, p, a, b);
  }

  lemma {:induction false} SameComposite(lex: Lexicon, data: Bytes, p: nat, a: Node, b: Node)
    requires ValidLexicon(lex) && Legal(lex, a) && Legal(lex, b)
    requires a.Composite? && b.Composite? && a.isObject == b.isObject
    requires At(data, p, Print(a)) && At(data, p, Print(b))
    ensures a == b
    decreases a, 1
  {
    Inside(lex, data, p, a);
    Inside(lex, data, p, b);
    if a.entries == [] {
      GapIsNoList(lex, data, p + 1, a.gap, b.entries, a.isObject);
      SameGap(data, p + 1, a.gap, b.gap, a.isObject);
    } else if b.entries == [] {
      GapIsNoList(lex, data, p + 1, b.gap, a.entries, a.isObject);
    } else {
      SameEntries(lex, data, p + 1, a.entries, b.entries, a.isObject);
    }
  }

  lemma {:induction false} EntryStarts(lex: Lexicon, data: Bytes, p: nat, e: Entry, isObject: bool)
    requires EntryAt(lex, data, p, e, isObject)
    ensures
      var q := p + |e.before|;
      q < |data| && !IsSpace(data[q]) && !EndsScalar(data[q])
  {
    EntrySplit(data, p, e);
    PrintStarts(lex, e.value);
    if e.name.Some? {
      NameSplit(data, p + |e.before|, e.name.value);
      AtHead(data, p + |e.before|, Quoted(e.name.value.key));
    } else {
      AtHead(data, p + |e.before|, Print(e.value));
    }
  }

  /** Blanks up to a closing delimiter are not also the start of an entry. */
  lemma {:induction false} GapIsNoList(lex: Lexicon, data: Bytes, p: nat, gap: Bytes, es: seq<Entry>, isObject: bool)
    requires GapAt(data, p, gap, isObject)
    ensures !ListAt(lex, data, p, es, isObject)
  {
    if EntriesAt(lex, data, p, es, isObject) {
      FirstEntry(lex, data, p, es, isObject);
      EntryStarts(lex, data, p, es[0], isObject);
      EntrySplit(data, p, es[0]);
      SameBlank(data, p, gap, es[0].before);
    }
  }

  predicate EndsEntry(data: Bytes, q: nat) {
    q < |data| && EndsScalar(data[q]) && !IsSpace(data[q])
  }

  /** Where the value of an entry starts, and that what follows ends it. */
  lemma {:induction false} ValueOfEntry(lex: Lexicon, data: Bytes, p: nat, e: Entry, isObject: bool)
    requires EntryAt(lex, data, p, e, isObject) && EndsEntry(data, p + |PrintEntry(e)|)
    ensures
      var q := p + |e.before| + |PrintName(e.name)|;
      && ValueAt(lex, data, q, e.value)
      && At(data, q + |Print(e.value)|, e.after)
      && q + |Print(e.value)| + |e.after| == p + |PrintEntry(e)|
  {
    EntrySplit(data, p, e);
    var q := p + |e.before| + |PrintName(e.name)| + |Print(e.value)|;
    if e.after != [] {
      AtHead(data, q, e.after);
    }
  }

  /** Where an entry's first token starts. */
  lemma {:induction false} TokenAfterBlanks(lex: Lexicon, data: Bytes, p: nat, e: Entry, isObject: bool)
    requires EntryAt(lex, data, p, e, isObject)
    ensures SkipSpace(data, p) == p + |e.before| && At(data, p, e.before)
  {
    EntrySplit(data, p, e);
    EntryStarts(lex, data, p, e, isObject);
    SpaceSkips(data, p, e.before);
  }

  lemma {:induction false} SameBefore(lex: Lexicon, data: Bytes, p: nat, a: Entry, b: Entry, isObject: bool)
    requires EntryAt(lex, data, p, a, isObject) && EntryAt(lex, data, p, b, isObject)
    ensures a.before == b.before
  {
    TokenAfterBlanks(lex, data, p, a, isObject);
    TokenAfterBlanks(lex, data, p, b, isObject);
    AtSame(data, p, a.before, b.before);
  }

  lemma {:induction false} SameHead(lex: Lexicon, data: Bytes, p: nat, a: Entry, b: Entry, isObject: bool)
    requires EntryAt(lex, data, p, a, isObject) && EntryAt(lex, data, p, b, isObject)
    ensures a.before == b.before && a.name == b.name
  {
    SameBefore(lex, data, p, a, b, isObject);
    EntrySplit(data, p, a);
    EntrySplit(data, p, b);
    var q := p + |a.before|;
    assert q == p + |b.before|;
    SameNames(lex, data, q, a, b, isObject);
  }

  lemma {:induction false} SameEntry(lex: Lexicon, data: Bytes, p: nat, a: Entry, b: Entry, isObject: bool)
    requires EntryAt(lex, data, p, a, isObject) && EndsEntry(data, p + |PrintEntry(a)|)
    requires EntryAt(lex, data, p, b, isObject) && EndsEntry(data, p + |PrintEntry(b)|)
    ensures a == b
    decreases a, 3
  {
    SameHead(lex, data, p, a, b, isObject);
    ValueOfEntry(lex, data, p, a, isObject);
    ValueOfEntry(lex, data, p, b, isObject);
    var q := p + |a.before| + |PrintName(a.name)|;
    assert q == p + |b.before| + |PrintName(b.name)|;
    SameValue(lex, data, q, a.value, b.value);
    var r := q + |Print(a.value)|;
    assert r == q + |Print(b.value)|;
    SameBlank(data, r, a.after, b.after);
  }

  lemma {:induction false} SameNames(lex: Lexicon, data: Bytes, p: nat, a: Entry, b: Entry, isObject: bool)
    requires ValidLexicon(lex)
    requires LegalName(lex, a.name, isObject) && Legal(lex, a.value)
    requires LegalName(lex, b.name, isObject) && Legal(lex, b.value)
    requires At(data, p, PrintName(a.name)) && At(data, p + |PrintName(a.name)|, Print(a.value))
    requires At(data, p, PrintName(b.name)) && At(data, p + |PrintName(b.name)|, Print(b.value))
    ensures a.name == b.name
  {
    if isObject {
      PrintStarts(lex, a.value);
      PrintStarts(lex, b.value);
      AtHead(data, p + |PrintName(a.name)|, Print(a.value));
      AtHead(data, p + |PrintName(b.name)|, Print(b.value));
      var m, n := a.name.value, b.name.value;
      assert a.name == Some(m) && b.name == Some(n);
      SameName(lex, data, p, m, n);
    }
  }

  ghost predicate ClosesAt(data: Bytes, q: nat, isObject: bool) {
    q < |data| && data[q] == Closing(isObject)
  }

  /** What follows the first entry tells whether there are more. */
  lemma {:induction false} AfterFirst(lex: Lexicon, data: Bytes, p: nat, es: seq<Entry>, isObject: bool)
    requires ListAt(lex, data, p, es, isObject)
    ensures es != [] && EntryAt(lex, data, p, es[0], isObject)
    ensures
      var q := p + |PrintEntry(es[0])|;
      && EndsEntry(data, q)
      && (|es| > 1 <==> data[q] == ',')
      && (|es| > 1 ==> ListAt(lex, data, q + 1, es[1..], isObject))
  {
    FirstEntry(lex, data, p, es, isObject);
    if |es| > 1 {
      RestOfEntries(lex, data, p, es, isObject);
    }
  }

  lemma SameFirstAndRest(es: seq<Entry>, fs: seq<Entry>)
    requires es != [] && fs != [] && es[0] == fs[0]
    requires if |es| > 1 then es[1..] == fs[1..] else |fs| == 1
    ensures es == fs
  {
    assert es == [es[0]] + es[1..] && fs == [fs[0]] + fs[1..];
  }

  /** Two lists at one place have the same first entry, and go on at the same place or not at all. */
  lemma {:induction false} SameFirst(
    lex: Lexicon, data: Bytes, p: nat, es: seq<Entry>, fs: seq<Entry>, isObject: bool) returns (q: nat)
    requires ListAt(lex, data, p, es, isObject) && ListAt(lex, data, p, fs, isObject)
    ensures es != [] && fs != [] && es[0] == fs[0] && (|es| > 1 <==> |fs| > 1)
    ensures |es| > 1 ==> ListAt(lex, data, q, es[1..], isObject) && ListAt(lex, data, q, fs[1..], isObject)
    decreases es, 0
  {
    AfterFirst(lex, data, p, es, isObject);
    AfterFirst(lex, data, p, fs, isObject);
    SameEntry(lex, data, p, es[0], fs[0], isObject);
    q := p + |PrintEntry(es[0])| + 1;
    assert q == p + |PrintEntry(fs[0])| + 1;
  }

  lemma {:induction false} SameEntries(
    lex: Lexicon, data: Bytes, p: nat, es: seq<Entry>, fs: seq<Entry>, isObject: bool)
    requires ListAt(lex, data, p, es, isObject) && ListAt(lex, data, p, fs, isObject)
    ensures es == fs
    decreases es, 1
  {
    var q := SameFirst(lex, data, p, es, fs, isObject);
    if |es| > 1 {
      SameEntries(lex, data, q, es[1..], fs[1..], isObject);
    }
    SameFirstAndRest(es, fs);
  }

  /** Where the value of a text stands. */
  lemma {:induction false} TextAt(lex: Lexicon, data: Bytes, n: Node, left: Bytes, right: Bytes)
    requires ValidLexicon(lex) && Parses(lex, data, n, left, right)
    ensures At(data, 0, left) && At(data, |left|, Print(n))
    ensures |left| < |data| && !IsSpace(data[|left|])
    ensures |left| + |Print(n)| <= |data| && right == data[|left| + |Print(n)|..]
  {
    PrintStarts(lex, n);
    AtHead(data, |left|, Print(n));
  }

  /** One text, one reading: blanks, escapes, order of members and all. */
  lemma {:induction false} OneReading(
    lex: Lexicon, data: Bytes, a: Node, l: Bytes, r: Bytes, b: Node, l': Bytes, r': Bytes)
    requires ValidLexicon(lex) && Parses(lex, data, a, l, r) && Parses(lex, data, b, l', r')
    ensures a == b && l == l' && r == r'
  {
    TextAt(lex, data, a, l, r);
    TextAt(lex, data, b, l', r');
    SameBlank(data, 0, l, l');
    SameValue(lex, data, |l|, a, b);
  }

  ghost function Decoded(lex: Lexicon, data: Bytes): Option<Value> {
    if exists n, left, right :: Spells(lex, data, n, left, right) then
      var n, left, right :| Spells(lex, data, n, left, right);
      Some(Meaning(lex, n))
    else None
  }

  lemma SpellsParses(lex: Lexicon, data: Bytes, n: Node, left: Bytes, right: Bytes)
    requires Spells(lex, data, n, left, right)
    ensures Parses(lex, data, n, left, right)
  {
  }

  /** The contract of the decoder can be met, and by one decoder only. */
  lemma DecoderIsDetermined(lex: Lexicon, decode: Bytes -> Option<Value>)
    requires ValidLexicon(lex)
    ensures IsDecoder(lex, data => Decoded(lex, data))
    ensures IsDecoder(lex, decode) ==> forall data :: decode(data) == Decoded(lex, data)
  {
    forall n, left, right, data | Spells(lex, data, n, left, right)
      ensures Decoded(lex, data) == Some(Meaning(lex, n))
    {
      var n', left', right' :| Spells(lex, data, n', left', right') && Decoded(lex, data) == Some(Meaning(lex, n'));
      SpellsParses(lex, data, n', left', right');
      OneReading(lex, data, n, left, right, n', left', right');
    }
  }
}
