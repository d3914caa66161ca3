/** Two readers of JSON text, of which one admits more tokens and strings than the other. */
module Dialects {
  import opened Options
  import opened Json
  import opened Unambiguous
  import opened HistoryTheorems

  predicate TokenAdmitted(wide: Lexicon, lex: Lexicon, token: Bytes) {
    lex.scalar(token).Some? ==> wide.scalar(token).Some?
  }

  predicate BodyAdmitted(wide: Lexicon, lex: Lexicon, body: Bytes) {
    lex.text(body).Some? ==> wide.text(body).Some?
  }

  /** Whatever is legal for `lex` is legal for `wide`. */
  ghost predicate Wider(wide: Lexicon, lex: Lexicon) {
    (forall token :: TokenAdmitted(wide, lex, token)) && (forall body :: BodyAdmitted(wide, lex, body))
  }

  lemma {:induction false} WiderLegal(wide: Lexicon, lex: Lexicon, n: Node)
    requires Wider(wide, lex) && Legal(lex, n)
    ensures Legal(wide, n)
    decreases n, 1
  {
    match n
    case Scalar(token) => assert TokenAdmitted(wide, lex, token);
    case Text(body) => assert BodyAdmitted(wide, lex, body);
    case Composite(isObject, entries, _) => WiderLegalEntries(wide, lex, entries, isObject);
  }

  lemma {:induction false} WiderLegalEntries(wide: Lexicon, lex: Lexicon, es: seq<Entry>, isObject: bool)
    requires Wider(wide, lex) && LegalEntries(lex, es, isObject)
    ensures LegalEntries(wide, es, isObject)
    decreases es, 0
  {
    if es != [] {
      if isObject {
        assert BodyAdmitted(wide, lex, es[0].name.value.key);
      }
      WiderLegal(wide, lex, es[0].value);
      WiderLegalEntries(wide, lex, es[1..], isObject);
    }
  }

  /**
   What a decoder makes of a text that is legal for a wider reader: it reads it exactly when the text is
   legal for itself, repeats no key and is not nested too deeply.
   */
  lemma {:induction false} ForeignDecodes(
    wide: Lexicon, lex: Lexicon, decode: Bytes -> Option<Value>, n: Node)
    requires ValidLexicon(wide) && ValidLexicon(lex) && Wider(wide, lex)
    requires IsDecoder(lex, decode) && Legal(wide, n)
    ensures decode(Print(n)) == if Legal(lex, n) && Admits(lex, n) then Some(Meaning(lex, n)) else None
  {
    var data := Print(n);
    if Legal(lex, n) {
      PrintedDecodes(lex, decode, n);
    } else if decode(data).Some? {
      var n', left, right :| Spells(lex, data, n', left, right);
      WiderLegal(wide, lex, n');
      assert [] + data + [] == data;
      assert Parses(wide, data, n', left, right);
      OneReading(wide, data, n, [], [], n', left, right);
    }
  }
}
