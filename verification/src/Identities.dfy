/**
 The texts that identities are made of: call ids with a decimal length prefix, and the NUL-separated
 bytes that are fed to a digest for operation ids and gateway requests.
 */
module Identities {
  import opened Decimals
  import opened CanonicalJson

  // ----- Call ids -----

  function CallIdV1(execution: string, sequence: nat): string {
    "mcp-call-v1:" + (Decimal(|execution|) + [':'] + (execution + ":" + Decimal(sequence)))
  }

  function CallIdV2(execution: string, key: string): string {
    "mcp-call-v2:" + (Decimal(|execution|) + [':'] + (execution + ":" + key))
  }

  /** A call id: the version, the length of the execution id, the execution id, and what tells its calls apart. */
  lemma CallIdsSpelled(execution: string, sequence: nat, key: string)
    ensures
      CallIdV1(execution, sequence)
      == "mcp-call-v1:" + Decimal(|execution|) + ":" + execution + ":" + Decimal(sequence)
    ensures CallIdV2(execution, key) == "mcp-call-v2:" + Decimal(|execution|) + ":" + execution + ":" + key
  {
    forall tag: string, a: string, x: string
      ensures tag + (a + [':'] + (execution + ":" + x)) == tag + a + ":" + execution + ":" + x
    {
    }
  }

  lemma PrefixedInjective(tag: string, a: string, x: string, b: string, y: string)
    requires tag + (Decimal(|a|) + [':'] + (a + ":" + x)) == tag + (Decimal(|b|) + [':'] + (b + ":" + y))
    ensures a == b && x == y
  {
    var s, t := Decimal(|a|) + [':'] + (a + ":" + x), Decimal(|b|) + [':'] + (b + ":" + y);
    assert s == (tag + s)[|tag|..] && t == (tag + t)[|tag|..];
    DecimalDelimited(|a|, |b|, ':', a + ":" + x, b + ":" + y);
    assert a == (a + ":" + x)[..|a|] && b == (b + ":" + y)[..|b|];
    assert x == (a + ":" + x)[|a| + 1..] && y == (b + ":" + y)[|b| + 1..];
  }

  /** Call ids determine the execution and the sequence number, whatever colons the execution id has. */
  lemma CallIdV1Injective(a: string, m: nat, b: string, n: nat)
    requires CallIdV1(a, m) == CallIdV1(b, n)
    ensures a == b && m == n
  {
    PrefixedInjective("mcp-call-v1:", a, Decimal(m), b, Decimal(n));
    DecimalInjective(m, n);
  }

  lemma CallIdV2Injective(a: string, x: string, b: string, y: string)
    requires CallIdV2(a, x) == CallIdV2(b, y)
    ensures a == b && x == y
  {
    PrefixedInjective("mcp-call-v2:", a, x, b, y);
  }

  /** The two versions never give the same call id. */
  lemma CallIdVersionsApart(a: string, m: nat, b: string, y: string)
    ensures CallIdV1(a, m) != CallIdV2(b, y)
  {
    assert CallIdV1(a, m)[10] == '1' && CallIdV2(b, y)[10] == '2';
  }

  // ----- Operation ids -----

  predicate NulFree(s: string) {
    forall i :: 0 <= i < |s| ==> s[i] != '\0'
  }

  lemma NulDelimited(a: string, x: string, b: string, y: string)
    requires NulFree(a) && NulFree(b) && a + "\0" + x == b + "\0" + y
    ensures a == b && x == y
  {
    var s, t := a + "\0" + x, b + "\0" + y;
    assert s[|a|] == '\0' && t[|b|] == '\0';
    assert a == s[..|a|] && b == t[..|b|];
    assert x == s[|a| + 1..] && y == t[|b| + 1..];
  }

  lemma TagDropped(tag: string, x: string, y: string)
    requires tag + x == tag + y
    ensures x == y
  {
    assert x == (tag + x)[|tag|..] && y == (tag + y)[|tag|..];
  }

  const OPERATION_TAG := "operation-id-v1\0"
  const SANDBOX_TAG := "sandbox-operation-id-v2\0"

  /** What `_operation_id` and `_sandbox_operation_id` feed to the digest. */
  function OperationPreimage(domain: string, call: string): string {
    OPERATION_TAG + (domain + "\0" + call)
  }

  function SandboxPreimage(domain: string, sandbox: string, call: string): string {
    SANDBOX_TAG + (domain + "\0" + (sandbox + "\0" + call))
  }

  /** The bytes that are hashed for operation ids: the tag, then the parts with a NUL between them. */
  lemma OperationsSpelled(domain: string, sandbox: string, call: string)
    ensures OperationPreimage(domain, call) == "operation-id-v1\0" + domain + "\0" + call
    ensures
      SandboxPreimage(domain, sandbox, call)
      == "sandbox-operation-id-v2\0" + domain + "\0" + sandbox + "\0" + call
  {
    assert SANDBOX_TAG + (domain + "\0" + (sandbox + "\0" + call))
        == SANDBOX_TAG + domain + "\0" + sandbox + "\0" + call;
  }

  lemma OperationPreimageInjective(d: string, c: string, d': string, c': string)
    requires NulFree(d) && NulFree(d') && OperationPreimage(d, c) == OperationPreimage(d', c')
    ensures d == d' && c == c'
  {
    TagDropped(OPERATION_TAG, d + "\0" + c, d' + "\0" + c');
    NulDelimited(d, c, d', c');
  }

  lemma SandboxPreimageInjective(d: string, s: string, c: string, d': string, s': string, c': string)
    requires NulFree(d) && NulFree(d') && NulFree(s) && NulFree(s')
    requires SandboxPreimage(d, s, c) == SandboxPreimage(d', s', c')
    ensures d == d' && s == s' && c == c'
  {
    TagDropped(SANDBOX_TAG, d + "\0" + (s + "\0" + c), d' + "\0" + (s' + "\0" + c'));
    NulDelimited(d, s + "\0" + c, d', s' + "\0" + c');
    NulDelimited(s, c, s', c');
  }

  lemma TagsApart(d: string, c: string, d': string, s': string, c': string)
    ensures OperationPreimage(d, c) != SandboxPreimage(d', s', c')
  {
    assert OperationPreimage(d, c)[0] == 'o' && SandboxPreimage(d', s', c')[0] == 's';
  }

  /**
   Without the restriction the preimage is ambiguous, and this is exactly when: no other domain and
   call give the same bytes if and only if neither the domain nor the call contains a NUL.
   */
  lemma UniquePreimageIff(d: string, c: string)
    ensures
      (forall d', c' :: OperationPreimage(d', c') == OperationPreimage(d, c) ==> d' == d && c' == c) <==>
      NulFree(d) && NulFree(c)
  {
    if !NulFree(d) {
      var i :| 0 <= i < |d| && d[i] == '\0';
      var d', c' := d[..i], d[i + 1..] + "\0" + c;
      assert d' + "\0" + c' == d + "\0" + c;
      assert OperationPreimage(d', c') == OperationPreimage(d, c) && d' != d;
    } else if !NulFree(c) {
      var i :| 0 <= i < |c| && c[i] == '\0';
      var d', c' := d + "\0" + c[..i], c[i + 1..];
      assert d' + "\0" + c' == d + "\0" + c;
      assert OperationPreimage(d', c') == OperationPreimage(d, c) && |d'| > |d|;
    } else {
      forall d', c' | OperationPreimage(d', c') == OperationPreimage(d, c) ensures d' == d && c' == c {
        TagDropped(OPERATION_TAG, d' + "\0" + c', d + "\0" + c);
        OneNul(d', c', d, c);
      }
    }
  }

  lemma OneNul(d': string, c': string, d: string, c: string)
    requires NulFree(d) && NulFree(c) && d' + "\0" + c' == d + "\0" + c
    ensures d' == d && c' == c
  {
    var s, t := d' + "\0" + c', d + "\0" + c;
    assert s[|d'|] == '\0';
    assert forall i :: 0 <= i < |t| && i != |d| ==> t[i] != '\0';
    assert d' == s[..|d'|] && d == t[..|d|];
    assert c' == s[|d'| + 1..] && c == t[|d| + 1..];
  }

  /** Two splits of the same bytes by a NUL: the domain and the call are not recoverable. */
  lemma {:induction false} NulIsAmbiguous()
    ensures OperationPreimage("a\0b", "c") == OperationPreimage("a", "b\0c")
    ensures SandboxPreimage("a\0b", "c", "d") == SandboxPreimage("a", "b", "c\0d")
  {
    assert "a\0b" + "\0" + "c" == "a" + "\0" + "b\0c";
    assert "a\0b" + "\0" + ("c" + "\0" + "d") == "a" + "\0" + ("b" + "\0" + "c\0d");
  }

  function ThreeParts(d: string, s: string, c: string): string {
    d + "\0" + (s + "\0" + c)
  }

  lemma TwoNuls(d': string, s': string, c': string, d: string, s: string, c: string)
    requires NulFree(d) && NulFree(s) && NulFree(c) && ThreeParts(d', s', c') == ThreeParts(d, s, c)
    ensures d' == d && s' == s && c' == c
  {
    var x, y := ThreeParts(d', s', c'), ThreeParts(d, s, c);
    var k, l := |d| + 1 + |s|, |d'| + 1 + |s'|;
    assert x[|d'|] == '\0' && x[l] == '\0';
    assert forall i :: 0 <= i < |y| && i != |d| && i != k ==> y[i] != '\0';
    assert d' == x[..|d'|] && d == y[..|d|];
    assert s' == x[|d'| + 1..l] && s == y[|d| + 1..k];
    assert c' == x[l + 1..] && c == y[k + 1..];
  }

  /** A part that holds a NUL can be split there instead. */
  lemma SplitElsewhere(d: string, s: string, c: string) returns (d': string, s': string, c': string)
    requires !NulFree(d) || !NulFree(s) || !NulFree(c)
    ensures ThreeParts(d', s', c') == ThreeParts(d, s, c) && d' != d
  {
    if !NulFree(d) {
      var i :| 0 <= i < |d| && d[i] == '\0';
      d', s', c' := d[..i], d[i + 1..], s + "\0" + c;
      assert d == d[..i] + "\0" + d[i + 1..];
    } else if !NulFree(s) {
      var i :| 0 <= i < |s| && s[i] == '\0';
      d', s', c' := d + "\0" + s[..i], s[i + 1..], c;
      assert s == s[..i] + "\0" + s[i + 1..];
      assert |d'| > |d|;
    } else {
      var i :| 0 <= i < |c| && c[i] == '\0';
      d', s', c' := d + "\0" + s, c[..i], c[i + 1..];
      assert c == c[..i] + "\0" + c[i + 1..];
      assert |d'| > |d|;
    }
  }

  /** No other three parts give the same bytes if and only if none of them contains a NUL. */
  lemma UniqueSandboxIff(d: string, s: string, c: string)
    ensures
      (forall d', s', c' ::
         SandboxPreimage(d', s', c') == SandboxPreimage(d, s, c) ==> d' == d && s' == s && c' == c) <==>
      NulFree(d) && NulFree(s) && NulFree(c)
  {
    if NulFree(d) && NulFree(s) && NulFree(c) {
      forall d', s', c' | SandboxPreimage(d', s', c') == SandboxPreimage(d, s, c)
        ensures d' == d && s' == s && c' == c
      {
        TagDropped(SANDBOX_TAG, ThreeParts(d', s', c'), ThreeParts(d, s, c));
        TwoNuls(d', s', c', d, s, c);
      }
    } else {
      var d', s', c' := SplitElsewhere(d, s, c);
      assert SandboxPreimage(d', s', c') == SandboxPreimage(d, s, c);
    }
  }

  // ----- Gateway requests -----

  datatype Header = Header(name: string, value: string)

  /** The headers, in the order that `sorted` gives them. */
  function Headers(operation: string, contentType: bool): seq<Header> {
    [Header("accept-encoding", "identity")]
    + (if contentType then [Header("content-type", "application/json")] else [])
    + [ Header("idempotency-key", operation), Header("user-agent", "safe-change-runtime/1"),
        Header("x-operation-id", operation) ]
  }

  lemma HeadersAreSorted(operation: string, contentType: bool)
    ensures
      var headers := Headers(operation, contentType);
      forall i, j :: 0 <= i < j < |headers| ==> Less(headers[i].name, headers[j].name)
  {
  }

  function HeaderBytes(headers: seq<Header>): string {
    if headers == [] then ""
    else
      HeaderBytes(headers[..|headers| - 1]) + (headers[|headers| - 1].name + ":" + headers[|headers| - 1].value + "\0")
  }

  function RequestPreimage(url: string, body: string, operation: string, contentType: bool): string {
    "POST\0" + (url + "\0" + (HeaderBytes(Headers(operation, contentType)) + body))
  }

  /** `_gateway_request_hash`, up to the digest of what it feeds. */
  method GatewayRequest(url: string, body: string, operation: string, contentType: bool) returns (digest: string)
    ensures digest == RequestPreimage(url, body, operation, contentType)
  {
    var headers := Headers(operation, contentType);
    var fed := "";
    for i := 0 to |headers|
      invariant fed == HeaderBytes(headers[..i])
    {
      assert headers[..i + 1][..i] == headers[..i];
      fed := fed + (headers[i].name + ":" + headers[i].value + "\0");
    }
    assert headers[..|headers|] == headers;
    digest := "POST\0" + (url + "\0" + (fed + body));
  }

  const ACCEPT := "accept-encoding" + ":" + "identity" + "\0"
  const CONTENT := "content-type" + ":" + "application/json" + "\0"
  const KEY := "idempotency-key" + ":"
  const AGENT := "user-agent" + ":" + "safe-change-runtime/1" + "\0" + ("x-operation-id" + ":")

  lemma HeaderBytesSnoc(headers: seq<Header>, h: Header)
    ensures HeaderBytes(headers + [h]) == HeaderBytes(headers) + (h.name + ":" + h.value + "\0")
  {
    assert (headers + [h])[..|headers|] == headers;
  }

  function AfterAccept(operation: string, contentType: bool, body: string): string {
    (if contentType then CONTENT else "") + (KEY + (operation + "\0" + (AGENT + (operation + "\0" + body))))
  }

  lemma FirstHeaders(contentType: bool)
    ensures
      var a, c := Header("accept-encoding", "identity"), Header("content-type", "application/json");
      HeaderBytes([a] + (if contentType then [c] else [])) == ACCEPT + if contentType then CONTENT else ""
  {
    var a, c := Header("accept-encoding", "identity"), Header("content-type", "application/json");
    HeaderBytesSnoc([], a);
    assert [] + [a] == [a] && [a] + [] == [a];
    HeaderBytesSnoc([a], c);
  }

  lemma Regrouped(first: string, kn: string, kv: string, u: string, xn: string, xv: string, body: string)
    ensures first + (kn + kv + "\0") + (u + "\0") + (xn + xv + "\0") + body
         == first + (kn + (kv + "\0" + ((u + "\0" + xn) + (xv + "\0" + body))))
  {
  }

  lemma LastHeaders(first: seq<Header>, k: Header, u: Header, x: Header, body: string)
    ensures
      HeaderBytes(first + [k, u, x]) + body
      == HeaderBytes(first) + ((k.name + ":") + (k.value + "\0"
         + ((u.name + ":" + u.value + "\0" + (x.name + ":")) + (x.value + "\0" + body))))
  {
    HeaderBytesSnoc(first, k);
    HeaderBytesSnoc(first + [k], u);
    HeaderBytesSnoc(first + [k] + [u], x);
    assert first + [k, u, x] == first + [k] + [u] + [x];
    Regrouped(HeaderBytes(first), k.name + ":", k.value, u.name + ":" + u.value, x.name + ":", x.value, body);
  }

  lemma Appended(a: string, b: string, c: string)
    ensures a + b + c == a + (b + c)
  {
  }

  lemma HeadersSpelled(operation: string, contentType: bool, body: string)
    ensures HeaderBytes(Headers(operation, contentType)) + body == ACCEPT + AfterAccept(operation, contentType, body)
  {
    var a, c := Header("accept-encoding", "identity"), Header("content-type", "application/json");
    var first := [a] + (if contentType then [c] else []);
    FirstHeaders(contentType);
    LastHeaders(
      first, Header("idempotency-key", operation), Header("user-agent", "safe-change-runtime/1"),
      Header("x-operation-id", operation), body);
    Appended(
      ACCEPT, if contentType then CONTENT else "",
      KEY + (operation + "\0" + (AGENT + (operation + "\0" + body))));
  }

  lemma LiteralsJoined()
    ensures ACCEPT == "accept-encoding:identity\0" && CONTENT == "content-type:application/json\0"
    ensures KEY == "idempotency-key:" && AGENT == "user-agent:safe-change-runtime/1\0" + "x-operation-id:"
  {
    assert "user-agent" + ":" + "safe-change-runtime/1" + "\0" == "user-agent:safe-change-runtime/1\0";
    assert "x-operation-id" + ":" == "x-operation-id:";
  }

  lemma Flattened(p: string, u: string, a: string, c: string, k: string, o: string, g: string, b: string)
    ensures
      p + (u + "\0" + (a + (c + (k + (o + "\0" + (g + (o + "\0" + b)))))))
      == p + u + "\0" + a + c + k + o + "\0" + g + o + "\0" + b
  {
  }

  /** The bytes that are hashed for a request, one after the other. */
  lemma {:induction false} RequestSpelled(url: string, body: string, operation: string, contentType: bool)
    ensures
      RequestPreimage(url, body, operation, contentType)
      == "POST\0" + url + "\0" + "accept-encoding:identity\0"
         + (if contentType then "content-type:application/json\0" else "")
         + "idempotency-key:" + operation + "\0"
         + ("user-agent:safe-change-runtime/1\0" + "x-operation-id:") + operation + "\0" + body
  {
    HeadersSpelled(operation, contentType, body);
    LiteralsJoined();
    Flattened(
      "POST\0", url, ACCEPT, if contentType then CONTENT else "", KEY, operation, AGENT, body);
  }

  /** The hashed bytes of a request determine its url, content-type flag, operation id and body. */
  lemma RequestPreimageInjective(
    u: string, b: string, o: string, t: bool, u': string, b': string, o': string, t': bool)
    requires NulFree(u) && NulFree(u') && NulFree(o) && NulFree(o')
    requires RequestPreimage(u, b, o, t) == RequestPreimage(u', b', o', t')
    ensures u == u' && b == b' && o == o' && t == t'
  {
    HeadersSpelled(o, t, b);
    HeadersSpelled(o', t', b');
    var x, x' := AfterAccept(o, t, b), AfterAccept(o', t', b');
    TagDropped("POST\0", u + "\0" + (ACCEPT + x), u' + "\0" + (ACCEPT + x'));
    NulDelimited(u, ACCEPT + x, u', ACCEPT + x');
    TagDropped(ACCEPT, x, x');
    assert x[0] == if t then 'c' else 'i';
    assert x'[0] == if t' then 'c' else 'i';
    var content := if t then CONTENT else "";
    var y, y' := o + "\0" + (AGENT + (o + "\0" + b)), o' + "\0" + (AGENT + (o' + "\0" + b'));
    TagDropped(content, KEY + y, KEY + y');
    TagDropped(KEY, y, y');
    NulDelimited(o, AGENT + (o + "\0" + b), o', AGENT + (o' + "\0" + b'));
    TagDropped(AGENT, o + "\0" + b, o' + "\0" + b');
    TagDropped(o + "\0", b, b');
  }

  // ----- When a request has another reading -----

  /** All that stands between the url and the body. */
  function Block(operation: string, contentType: bool): string {
    "\0" + HeaderBytes(Headers(operation, contentType))
  }

  /** A block of headers starts at place `p` of `s`. */
  ghost predicate BlockAt(s: string, p: int, operation: string, contentType: bool) {
    var block := Block(operation, contentType);
    NulFree(operation) && 0 <= p && p + |block| <= |s| && s[p..p + |block|] == block
  }

  ghost predicate HoldsBlock(s: string) {
    exists p, operation, contentType :: BlockAt(s, p, operation, contentType)
  }

  /** No NUL in `s` is followed by the letter that a block goes on with. */
  predicate Marks(s: string) {
    forall q :: 0 <= q < |s| - 1 && s[q] == '\0' ==> s[q + 1] != 'a'
  }

  lemma MarksJoin(x: string, y: string)
    requires Marks(x) && Marks(y)
    requires x == "" || y == "" || x[|x| - 1] != '\0' || y[0] != 'a'
    ensures Marks(x + y)
  {
  }

  lemma MarksFree(s: string)
    requires NulFree(s)
    ensures Marks(s) && Marks(s + "\0")
  {
  }

  lemma TagsMark()
    ensures Marks(ACCEPT) && Marks(CONTENT) && Marks(KEY) && Marks(AGENT)
    ensures CONTENT[0] == 'c' && KEY[0] == 'i' && AGENT[0] == 'u'
    ensures KEY[|KEY| - 1] == ':' && AGENT[|AGENT| - 1] == ':'
  {
    MarksFree("accept-encoding" + ":" + "identity");
    MarksFree("content-type" + ":" + "application/json");
    MarksFree(KEY);
    MarksFree("user-agent" + ":" + "safe-change-runtime/1");
    MarksFree("x-operation-id" + ":");
    MarksJoin("user-agent" + ":" + "safe-change-runtime/1" + "\0", "x-operation-id" + ":");
  }

  lemma BlockSpelled(o: string, t: bool)
    ensures Block(o, t) == "\0" + (ACCEPT + AfterAccept(o, t, ""))
  {
    HeadersSpelled(o, t, "");
    assert HeaderBytes(Headers(o, t)) + "" == HeaderBytes(Headers(o, t));
  }

  /** A block goes on with its letter after its first byte, and after no later one but the last. */
  lemma {:induction false} BlockMarks(o: string, t: bool)
    requires NulFree(o)
    ensures
      var block := Block(o, t);
      |block| > 2 && block[0] == '\0' && block[1] == 'a' && block[|block| - 1] == '\0' && Marks(block[1..])
  {
    var content, last := if t then CONTENT else "", o + "\0";
    TagsMark();
    MarksFree(o);
    MarksJoin(AGENT, last);
    MarksJoin(last, AGENT + last);
    MarksJoin(KEY, last + (AGENT + last));
    MarksJoin(content, KEY + (last + (AGENT + last)));
    MarksJoin(ACCEPT, content + (KEY + (last + (AGENT + last))));
    BlockSpelled(o, t);
    assert o + "\0" + "" == last;
    assert last + (AGENT + last) == o + "\0" + (AGENT + last);
    assert Block(o, t)[1..] == ACCEPT + (content + (KEY + (last + (AGENT + last))));
    assert ACCEPT[0] == 'a';
  }

  /** Two blocks in one text do not overlap, but for one byte. */
  lemma {:induction false} BlocksApart(s: string, p: int, o: string, t: bool, q: int, o': string, t': bool)
    requires BlockAt(s, p, o, t) && BlockAt(s, q, o', t') && p < q
    ensures p + |Block(o, t)| <= q + 1
  {
    BlockMarks(o', t');
    var block, k := Block(o, t), q - p;
    assert s[q] == Block(o', t')[0] && s[q + 1] == Block(o', t')[1];
    if k + 1 < |block| {
      assert block[k] == s[q] && block[k + 1] == s[q + 1];
      assert block[1..][k - 1] == '\0' && block[1..][k] == 'a';
      BlockMarks(o, t);
    }
  }

  lemma RequestBlock(u: string, b: string, o: string, t: bool)
    ensures RequestPreimage(u, b, o, t) == "POST\0" + (u + Block(o, t) + b)
    ensures NulFree(o) ==> BlockAt(u + Block(o, t) + b, |u|, o, t)
  {
    assert u + "\0" + (HeaderBytes(Headers(o, t)) + b) == u + Block(o, t) + b;
  }

  /** A block at another place lies in the url or in the body, up to the NUL that it shares. */
  lemma {:induction false} OtherBlock(
    u: string, b: string, o: string, t: bool, p: int, o': string, t': bool)
    requires NulFree(o) && BlockAt(u + Block(o, t) + b, p, o', t') && p != |u|
    ensures HoldsBlock(u + "\0") || HoldsBlock("\0" + b)
  {
    var whole, block, block' := u + Block(o, t) + b, Block(o, t), Block(o', t');
    RequestBlock(u, b, o, t);
    BlockMarks(o, t);
    if p < |u| {
      BlocksApart(whole, p, o', t', |u|, o, t);
      assert whole[..|u| + 1] == u + "\0";
      assert (u + "\0")[p..p + |block'|] == whole[p..p + |block'|];
      assert BlockAt(u + "\0", p, o', t');
    } else {
      BlocksApart(whole, |u|, o, t, p, o', t');
      var k := |u| + |block| - 1;
      assert whole[k..] == "\0" + b;
      assert ("\0" + b)[p - k..p - k + |block'|] == whole[p..p + |block'|];
      assert BlockAt("\0" + b, p - k, o', t');
    }
  }

  lemma BlockWithin(s: string, left: string, right: string, p: int, o: string, t: bool)
    requires BlockAt(s, p, o, t)
    ensures BlockAt(left + s + right, |left| + p, o, t)
  {
    var block, whole := Block(o, t), left + s + right;
    assert whole[|left| + p..|left| + p + |block|] == s[p..p + |block|];
  }

  /** The NUL at either end of the block counts as the end of the url or the start of the body. */
  lemma SharedNuls(u: string, block: string, b: string)
    requires |block| > 2 && block[0] == '\0' && block[|block| - 1] == '\0'
    ensures u + block + b == "" + (u + "\0") + (block[1..] + b)
    ensures u + block + b == u + block[..|block| - 1] + ("\0" + b) + ""
  {
  }

  lemma BlockElsewhere(u: string, b: string, o: string, t: bool) returns (p: int, o': string, t': bool)
    requires NulFree(o) && (HoldsBlock(u + "\0") || HoldsBlock("\0" + b))
    ensures BlockAt(u + Block(o, t) + b, p, o', t') && p != |u|
  {
    var block := Block(o, t);
    BlockMarks(o, t);
    SharedNuls(u, block, b);
    if HoldsBlock(u + "\0") {
      p, o', t' :| BlockAt(u + "\0", p, o', t');
      BlockMarks(o', t');
      BlockWithin(u + "\0", "", block[1..] + b, p, o', t');
    } else {
      p, o', t' :| BlockAt("\0" + b, p, o', t');
      BlockWithin("\0" + b, u + block[..|block| - 1], "", p, o', t');
      p := |u| + |block| - 1 + p;
    }
  }

  lemma Reread(whole: string, p: int, o: string, t: bool)
    requires BlockAt(whole, p, o, t)
    ensures whole == whole[..p] + Block(o, t) + whole[p + |Block(o, t)|..]
  {
  }

  /** A block in the url or in the body gives another reading. */
  lemma {:induction false} ReadElsewhere(u: string, b: string, o: string, t: bool)
    returns (u': string, b': string, o': string, t': bool)
    requires NulFree(o) && (HoldsBlock(u + "\0") || HoldsBlock("\0" + b))
    ensures NulFree(o') && RequestPreimage(u', b', o', t') == RequestPreimage(u, b, o, t) && u' != u
  {
    var whole := u + Block(o, t) + b;
    var p;
    p, o', t' := BlockElsewhere(u, b, o, t);
    u', b' := whole[..p], whole[p + |Block(o', t')|..];
    Reread(whole, p, o', t');
    RequestBlock(u, b, o, t);
    RequestBlock(u', b', o', t');
  }

  lemma {:induction false} SameUrl(u: string, b: string, o: string, t: bool, b': string, o': string, t': bool)
    requires NulFree(o) && NulFree(o') && RequestPreimage(u, b, o, t) == RequestPreimage(u, b', o', t')
    ensures b == b' && o == o' && t == t'
  {
    TagDropped("POST\0", u + "\0" + (HeaderBytes(Headers(o, t)) + b), u + "\0" + (HeaderBytes(Headers(o', t')) + b'));
    TagDropped(u + "\0", HeaderBytes(Headers(o, t)) + b, HeaderBytes(Headers(o', t')) + b');
    RequestPreimageInjective("", b, o, t, "", b', o', t');
  }

  /**
   Operation ids are digests and hold no NUL.  Among such requests, no other one gives the same bytes if
   and only if no block of headers stands in the url or in the body, counting the NUL next to either.
   */
  lemma {:induction false} UniqueRequestIff(u: string, b: string, o: string, t: bool)
    requires NulFree(o)
    ensures
      (forall u', b', o', t' ::
         NulFree(o') && RequestPreimage(u', b', o', t') == RequestPreimage(u, b, o, t) ==>
         u' == u && b' == b && o' == o && t' == t) <==>
      !HoldsBlock(u + "\0") && !HoldsBlock("\0" + b)
  {
    if HoldsBlock(u + "\0") || HoldsBlock("\0" + b) {
      var u', b', o', t' := ReadElsewhere(u, b, o, t);
    } else {
      forall u', b', o', t' | NulFree(o') && RequestPreimage(u', b', o', t') == RequestPreimage(u, b, o, t)
        ensures u' == u && b' == b && o' == o && t' == t
      {
        RequestBlock(u, b, o, t);
        RequestBlock(u', b', o', t');
        TagDropped("POST\0", u' + Block(o', t') + b', u + Block(o, t) + b);
        if |u'| != |u| {
          OtherBlock(u, b, o, t, |u'|, o', t');
        } else {
          assert u' == (u' + Block(o', t') + b')[..|u|] && u == (u + Block(o, t) + b)[..|u|];
          SameUrl(u, b, o, t, b', o', t');
        }
      }
    }
  }

  /** A request and another one with a longer url, whose body starts where the first one's headers end. */
  lemma {:induction false} HeadersInBodyAreAmbiguous(u: string, b: string, o: string)
    ensures
      var headers := HeaderBytes(Headers(o, true));
      RequestPreimage(u, headers + b, o, true) == RequestPreimage(u + "\0" + headers[..|headers| - 1], b, o, true)
  {
    var headers := HeaderBytes(Headers(o, true));
    assert headers[|headers| - 1] == '\0';
    assert headers == headers[..|headers| - 1] + "\0";
    assert u + "\0" + (headers + (headers + b))
        == (u + "\0" + headers[..|headers| - 1]) + "\0" + (headers + b);
  }
}
