/**
 What the theorems about the two checkers and about the writer suppose of the encoders, decoders and
 digest can be met all at once: a small language of numerals, names and three other strings.
 */
module Witness {
  import opened Options
  import opened Decimals
  import opened Json
  import opened Unambiguous
  import opened History
  import opened Canonical
  import opened Dialects
  import opened HtmlEscapes
  import opened FrameFormat
  import opened Writer
  import opened McpHistory

  predicate IsNumeral(s: Bytes) {
    s != [] && AllDigits(s)
  }

  function ReadToken(token: Bytes): Option<Bytes> {
    if IsNumeral(token) || token == "true" || token == "NaN" then Some(token) else None
  }

  const LESS: Bytes := "<"
  const ESCAPED_LESS: Bytes := "\\u003c"

  /** Plain text, the replacement character and one character that can be escaped. */
  function ReadText(body: Bytes): Option<Bytes> {
    if IsPlain(body) || body == REPLACEMENT then Some(body)
    else if body == LESS || body == ESCAPED_LESS then Some(LESS)
    else None
  }

  /** The runtime also lets a byte through that is not UTF-8. */
  function AdmitText(body: Bytes): Option<Bytes> {
    if body == NOT_UTF8 then Some(body) else ReadText(body)
  }

  /** The runtime's encoder escapes the one character, and replaces what it cannot write. */
  function WriteText(s: Bytes): Bytes {
    if IsPlain(s) then s else if s == LESS then ESCAPED_LESS else REPLACEMENT
  }

  const READER := Lexicon(ReadToken, ReadText, 2)
  const RUNTIME := Lexicon(ReadToken, AdmitText, 2)

  function Marshal(v: Value): Option<Node> {
    if v == Atom("1") then Some(Scalar("1")) else None
  }

  ghost function ToolsOf(lex: Lexicon): Tools {
    Tools(data => Decoded(lex, data), _ => ZERO_HASH)
  }

  lemma ShortTexts()
    ensures |REPLACEMENT| == 3 && |NOT_UTF8| == 1 && |LESS| == 1 && |ESCAPED_LESS| == 6
    ensures !IsPlain(REPLACEMENT) && !IsPlain(NOT_UTF8) && !IsPlain(LESS) && !IsPlain(ESCAPED_LESS)
    ensures LESS != NOT_UTF8
  {
    assert REPLACEMENT[0] == '\U{ef}' && NOT_UTF8[0] == '\U{ff}' && LESS[0] == '<' && ESCAPED_LESS[0] == '\\';
  }

  lemma {:induction false} PlainIsBody(s: Bytes)
    requires IsPlain(s)
    ensures IsBody(s)
  {
    if s != [] { PlainIsBody(s[1..]); }
  }

  lemma TextsAreBodies()
    ensures IsBody(REPLACEMENT) && IsBody(NOT_UTF8) && IsBody(LESS) && IsBody(ESCAPED_LESS)
  {
    assert REPLACEMENT[1..] == "\U{bf}\U{bd}" && "\U{bf}\U{bd}"[1..] == "\U{bd}" && "\U{bd}"[1..] == "";
    assert NOT_UTF8[1..] == "" && LESS[1..] == "";
    assert ESCAPED_LESS[2..] == "003c" && IsPlain("003c");
    PlainIsBody("003c");
  }

  lemma BothValid()
    ensures ValidLexicon(READER) && ValidLexicon(RUNTIME)
  {
    TextsAreBodies();
    forall body | AdmitText(body).Some? ensures IsBody(body) {
      if IsPlain(body) { PlainIsBody(body); }
    }
    forall token | ReadToken(token).Some? ensures IsAtom(token) {
    }
  }

  lemma ReaderIsNarrower()
    ensures Wider(RUNTIME, READER)
  {
    forall token ensures TokenAdmitted(RUNTIME, READER, token) {
    }
    forall body ensures BodyAdmitted(RUNTIME, READER, body) {
    }
  }

  lemma LessEscaped()
    ensures EscapeHtml(LESS) == ESCAPED_LESS
  {
    assert LESS[1..] == "" && EscapeHtml("") == "";
    assert EscapeHtml(LESS) == Code(LESS) + EscapeHtml(LESS[1..]);
  }

  lemma EscapedLessKept()
    ensures EscapeHtml(ESCAPED_LESS) == ESCAPED_LESS
  {
    assert forall i :: 0 <= i < 6 ==> IsAscii(ESCAPED_LESS[i]) && !IsHtml(ESCAPED_LESS[i]);
    PlainUnchanged(ESCAPED_LESS);
  }

  lemma NoneToEscape()
    ensures NoHtml(REPLACEMENT) && NoHtml(NOT_UTF8)
  {
    assert REPLACEMENT[0] == '\U{ef}' && REPLACEMENT[1] == '\U{bf}' && REPLACEMENT[2] == '\U{bd}';
    assert NOT_UTF8[0] == '\U{ff}';
  }

  /** Escaping turns a text that the runtime admits into one that means the same to the reader. */
  lemma EscapedText(body: Bytes)
    requires AdmitText(body).Some?
    ensures EscapeHtml(body) == if body == LESS then ESCAPED_LESS else body
  {
    if IsPlain(body) {
      PlainUnchanged(body);
    } else if body == LESS {
      LessEscaped();
    } else if body == ESCAPED_LESS {
      EscapedLessKept();
    } else {
      NoneToEscape();
      UnchangedIff(body);
    }
  }

  lemma EscapesKept()
    ensures KeepsText(RUNTIME, READER, EscapeHtml)
  {
    forall body ensures TextKept(RUNTIME, READER, EscapeHtml, body) {
      if AdmitText(body).Some? {
        EscapedText(body);
        EscapedTextKept(body, EscapeHtml(body));
      }
    }
  }

  lemma EscapedTextKept(body: Bytes, escaped: Bytes)
    requires AdmitText(body).Some? && escaped == if body == LESS then ESCAPED_LESS else body
    ensures AdmitText(escaped).Some? && ReadText(escaped) == ReadText(body)
  {
    ShortTexts();
  }

  lemma WritingIsReadable()
    ensures KeepsPlain(READER, WriteText) && WritesLegibly(READER, WriteText) && Rewrites(READER, WriteText)
  {
    ShortTexts();
    forall s ensures Legible(READER, WriteText, s) {
    }
    forall token ensures TokenRewritten(READER, token) {
    }
    forall body ensures TextRewritten(READER, WriteText, body) {
    }
  }

  lemma TokensArePlain()
    ensures PlainTokens(RUNTIME) && forall n :: READER.scalar(Decimal(n)) == Some(Decimal(n))
  {
    forall token ensures TokenPlain(RUNTIME, token) {
    }
    forall n: nat ensures ReadToken(Decimal(n)) == Some(Decimal(n)) {
    }
  }

  /** A runtime and a checker that agree as the theorems about the writer suppose, and on which its examples exist. */
  lemma {:induction false} WriterAgrees()
    ensures Agree(RUNTIME, READER, ToolsOf(READER), WriteText) && Marshals(RUNTIME, Marshal)
    ensures READER.text("<").Some? && READER.nesting > 0
    ensures RUNTIME.text(NOT_UTF8).Some? && READER.text(NOT_UTF8).None?
    ensures READER.text(WriteText(NOT_UTF8)) == Some(REPLACEMENT)
  {
    BothValid();
    ReaderIsNarrower();
    DecoderIsDetermined(READER, ToolsOf(READER).decode);
    TokensArePlain();
    WritingIsReadable();
    EscapesKept();
    ShortTexts();
    ZeroIsDigest();
    forall v ensures Marshalled(RUNTIME, Marshal(v)) {
      assert Owned(Scalar("1")) == Scalar("1");
    }
  }

  /** Two checkers that are related as the theorems about them suppose, and on which their examples exist. */
  lemma {:induction false} CheckersAreSiblings()
    ensures Siblings(READER, ToolsOf(READER), ToolsOf(Strict(READER)), WriteText) && Literal(READER, WriteText)
  {
    BothValid();
    StrictIsValid(READER);
    DecoderIsDetermined(READER, ToolsOf(READER).decode);
    DecoderIsDetermined(Strict(READER), ToolsOf(Strict(READER)).decode);
    WritingIsReadable();
    ZeroIsDigest();
  }
}
