/** The ETag middleware: what it sends for what the application sends. */
module ETag {
  import opened Options
  import opened ByteStrings
  import opened ETagMatch

  datatype Header = Header(name: Bytes, value: Bytes)

  datatype Message =
    | Start(status: int, headers: seq<Header>)
    | Body(body: Bytes, more: bool)
    | Other(kind: Bytes)

  function LowerLetter(c: char): char {
    if 'A' <= c <= 'Z' then (c as int + 32) as char else c
  }

  function Lower(s: Bytes): (r: Bytes)
    ensures |r| == |s|
  {
    seq(|s|, i requires 0 <= i < |s| => LowerLetter(s[i]))
  }

  /** Two letters that are one but for their case. */
  predicate SameLetter(a: char, b: char) {
    || a == b
    || ('A' <= a <= 'Z' && b as int == a as int + 32)
    || ('A' <= b <= 'Z' && a as int == b as int + 32)
  }

  predicate SameIgnoringCase(a: Bytes, b: Bytes) {
    |a| == |b| && forall i :: 0 <= i < |a| ==> SameLetter(a[i], b[i])
  }

  lemma LowerLetters(a: char, b: char)
    ensures LowerLetter(a) == LowerLetter(b) <==> SameLetter(a, b)
  {
  }

  /** Lower case ignores the case of letters and nothing else. */
  lemma LowerIgnoresCase(a: Bytes, b: Bytes)
    ensures Lower(a) == Lower(b) <==> SameIgnoringCase(a, b)
  {
    if |a| == |b| {
      forall i | 0 <= i < |a| ensures Lower(a)[i] == Lower(b)[i] <==> SameLetter(a[i], b[i]) {
        LowerLetters(a[i], b[i]);
      }
    } else {
      assert |Lower(a)| != |Lower(b)|;
    }
  }

  /** The value of the first header with this name, in any case. */
  function HeaderOf(headers: seq<Header>, name: Bytes): Option<Bytes> {
    if headers == [] then None
    else if Lower(headers[0].name) == Lower(name) then Some(headers[0].value)
    else HeaderOf(headers[1..], name)
  }

  predicate StartsAt(s: Bytes, part: Bytes, i: nat) {
    i + |part| <= |s| && s[i..i + |part|] == part
  }

  predicate Contains(s: Bytes, part: Bytes) {
    exists i :: 0 <= i <= |s| && StartsAt(s, part, i)
  }

  const DEFAULT_CACHE_CONTROL: Bytes := "private, no-cache"

  predicate IsCarried(name: Bytes) {
    || name == "cache-control" || name == "content-location" || name == "date"
    || name == "expires" || name == "vary"
  }

  /** Only a 2xx response that is neither tagged nor marked no-store is tagged. */
  predicate Taggable(status: int, headers: seq<Header>) {
    var cacheControl := HeaderOf(headers, "cache-control");
    && 200 <= status < 300
    && HeaderOf(headers, "etag").None?
    && !Contains(Lower(if cacheControl.Some? then cacheControl.value else ""), "no-store")
  }

  function WithPolicy(headers: seq<Header>): seq<Header> {
    if HeaderOf(headers, "cache-control").None?
    then headers + [Header("cache-control", DEFAULT_CACHE_CONTROL)]
    else headers
  }

  function Carried(headers: seq<Header>): seq<Header> {
    if headers == [] then []
    else (if IsCarried(Lower(headers[0].name)) then [headers[0]] else []) + Carried(headers[1..])
  }

  /** The tag of a body, given the hexadecimal digest of the body. */
  function TagHeader(digest: Bytes -> Bytes, body: Bytes): Header {
    Header("etag", Quoted(digest(body)))
  }

  function NotModified(headers: seq<Header>, tag: Header): Message {
    Start(304, Carried(WithPolicy(headers)) + [tag])
  }

  function Full(status: int, headers: seq<Header>, tag: Header): Message {
    Start(status, WithPolicy(headers) + [tag])
  }

  /** The start message and the body that answer a buffered response. */
  function Response(status: int, headers: seq<Header>, body: Bytes, ifNoneMatch: Option<Bytes>,
                    digest: Bytes -> Bytes): (Message, Bytes)
  {
    var tag := TagHeader(digest, body);
    if body == "" then (Start(status, headers), "")
    else if ifNoneMatch.Some? && Matches(ifNoneMatch.value, tag.value) then (NotModified(headers, tag), "")
    else (Full(status, headers, tag), body)
  }

  // ---------- the state machine ----------

  datatype State = State(start: Option<Message>, chunks: Bytes, passthrough: bool, sent: seq<Message>)

  const IDLE: State := State(None, "", false, [])

  function Finalize(s: State, ifNoneMatch: Option<Bytes>, digest: Bytes -> Bytes): State {
    if s.start.Some? && s.start.value.Start? then
      var (start, body) := Response(s.start.value.status, s.start.value.headers, s.chunks, ifNoneMatch, digest);
      s.(start := Some(start), sent := s.sent + [start, Body(body, false)])
    else s.(sent := s.sent + [Body(s.chunks, false)])
  }

  function Step(s: State, m: Message, ifNoneMatch: Option<Bytes>, digest: Bytes -> Bytes): State {
    if s.passthrough then s.(sent := s.sent + [m])
    else
      match m
      case Start(status, headers) =>
        if Taggable(status, headers) then s.(start := Some(m)) else s.(passthrough := true, sent := s.sent + [m])
      case Body(body, more) =>
        var s' := s.(chunks := s.chunks + body);
        if more then s' else Finalize(s', ifNoneMatch, digest)
      case Other(_) => s.(sent := s.sent + [m])
  }

  function Run(s: State, ms: seq<Message>, ifNoneMatch: Option<Bytes>, digest: Bytes -> Bytes): State
    decreases |ms|
  {
    if ms == [] then s
    else Run(Step(s, ms[0], ifNoneMatch, digest), ms[1..], ifNoneMatch, digest)
  }

  function Join(chunks: seq<Bytes>): Bytes {
    if chunks == [] then "" else chunks[0] + Join(chunks[1..])
  }

  lemma {:induction false} JoinSnoc(chunks: seq<Bytes>, last: Bytes)
    ensures Join(chunks + [last]) == Join(chunks) + last
  {
    if chunks == [] {
      assert chunks + [last] == [last] && Join([last][1..]) == "";
    } else {
      assert (chunks + [last])[1..] == chunks[1..] + [last];
      JoinSnoc(chunks[1..], last);
    }
  }

  /** One request through the middleware: the variables its send wrapper closes over. */
  class Exchange {
    var startMessage: Option<Message>
    var bodyChunks: seq<Bytes>
    var passthrough: bool
    var sent: seq<Message>
    const ifNoneMatch: Option<Bytes>
    const digest: Bytes -> Bytes

    ghost predicate Valid()
      reads this
    {
      startMessage.Some? ==> startMessage.value.Start?
    }

    ghost function View(): State
      reads this
    {
      State(startMessage, Join(bodyChunks), passthrough, sent)
    }

    constructor (requestHeaders: seq<Header>, digest: Bytes -> Bytes)
      ensures Valid() && View() == IDLE
      ensures ifNoneMatch == HeaderOf(requestHeaders, "if-none-match") && this.digest == digest
    {
      startMessage, bodyChunks, passthrough, sent := None, [], false, [];
      ifNoneMatch := HeaderOf(requestHeaders, "if-none-match");
      this.digest := digest;
    }

    method SendWrapper(m: Message)
      requires Valid()
      modifies this
      ensures Valid() && View() == Step(old(View()), m, ifNoneMatch, digest)
    {
      if passthrough {
        sent := sent + [m];
        return;
      }
      match m
      case Start(status, headers) =>
        if Taggable(status, headers) {
          startMessage := Some(m);
        } else {
          passthrough := true;
          sent := sent + [m];
        }
      case Body(body, more) =>
        JoinSnoc(bodyChunks, body);
        bodyChunks := bodyChunks + [body];
        if !more {
          FinalizeResponse(Join(bodyChunks));
        }
      case Other(_) =>
        sent := sent + [m];
    }

    method FinalizeResponse(body: Bytes)
      requires Valid() && body == Join(bodyChunks)
      modifies this`startMessage, this`sent
      ensures Valid() && View() == Finalize(old(View()), ifNoneMatch, digest)
    {
      if startMessage.None? || body == "" {
        if startMessage.Some? {
          sent := sent + [startMessage.value];
        }
        sent := sent + [Body(body, false)];
        return;
      }
      var etag := Quoted(digest(body));
      var headers := startMessage.value.headers;
      if HeaderOf(headers, "cache-control").None? {
        headers := headers + [Header("cache-control", DEFAULT_CACHE_CONTROL)];
      }
      var notModified := false;
      if ifNoneMatch.Some? {
        notModified := EtagMatches(ifNoneMatch.value, etag);
      }
      if notModified {
        startMessage := Some(Start(304, Carried(headers) + [Header("etag", etag)]));
        sent := sent + [startMessage.value];
        sent := sent + [Body("", false)];
        return;
      }
      startMessage := Some(Start(startMessage.value.status, headers + [Header("etag", etag)]));
      sent := sent + [startMessage.value];
      sent := sent + [Body(body, false)];
    }
  }

  // ---------- any chunking gives the same answer ----------

  /** What a handler sends after the start and before the last part of the body. */
  predicate Unfinished(ms: seq<Message>) {
    forall i :: 0 <= i < |ms| ==> ms[i].Other? || (ms[i].Body? && ms[i].more)
  }

  function BodyOf(ms: seq<Message>): Bytes {
    if ms == [] then "" else (if ms[0].Body? then ms[0].body else "") + BodyOf(ms[1..])
  }

  function OthersOf(ms: seq<Message>): seq<Message> {
    if ms == [] then [] else (if ms[0].Other? then [ms[0]] else []) + OthersOf(ms[1..])
  }

  lemma {:induction false} RunConcat(s: State, a: seq<Message>, b: seq<Message>, ifNoneMatch: Option<Bytes>, digest: Bytes -> Bytes)
    ensures Run(s, a + b, ifNoneMatch, digest) == Run(Run(s, a, ifNoneMatch, digest), b, ifNoneMatch, digest)
    decreases |a|
  {
    if a == [] {
      assert a + b == b;
    } else {
      assert (a + b)[1..] == a[1..] + b;
      RunConcat(Step(s, a[0], ifNoneMatch, digest), a[1..], b, ifNoneMatch, digest);
    }
  }

  lemma {:induction false} Buffering(s: State, ms: seq<Message>, ifNoneMatch: Option<Bytes>, digest: Bytes -> Bytes)
    requires Unfinished(ms) && !s.passthrough
    ensures Run(s, ms, ifNoneMatch, digest)
         == s.(chunks := s.chunks + BodyOf(ms), sent := s.sent + OthersOf(ms))
    decreases |ms|
  {
    if ms == [] {
      assert s.chunks + "" == s.chunks && s.sent + [] == s.sent;
    } else {
      Buffering(Step(s, ms[0], ifNoneMatch, digest), ms[1..], ifNoneMatch, digest);
      var m := ms[0];
      if m.Body? {
        assert (s.chunks + m.body) + BodyOf(ms[1..]) == s.chunks + (m.body + BodyOf(ms[1..]));
        assert [] + OthersOf(ms[1..]) == OthersOf(ms[1..]);
      } else {
        assert (s.sent + [m]) + OthersOf(ms[1..]) == s.sent + ([m] + OthersOf(ms[1..]));
        assert "" + BodyOf(ms[1..]) == BodyOf(ms[1..]);
      }
    }
  }

  /** The answer depends on the chunks only through the bytes they add up to. */
  lemma ChunkingDoesNotMatter(status: int, headers: seq<Header>, ms: seq<Message>, last: Bytes,
                              ifNoneMatch: Option<Bytes>, digest: Bytes -> Bytes)
    requires Taggable(status, headers) && Unfinished(ms)
    ensures var (start, body) := Response(status, headers, BodyOf(ms) + last, ifNoneMatch, digest);
            Run(IDLE, [Start(status, headers)] + ms + [Body(last, false)], ifNoneMatch, digest).sent
            == OthersOf(ms) + [start, Body(body, false)]
  {
    var first := [Start(status, headers)];
    var buffered := State(Some(Start(status, headers)), "", false, []);
    assert first[1..] == [];
    assert Run(IDLE, first, ifNoneMatch, digest) == buffered;
    RunConcat(IDLE, first, ms, ifNoneMatch, digest);
    Buffering(buffered, ms, ifNoneMatch, digest);
    RunConcat(IDLE, first + ms, [Body(last, false)], ifNoneMatch, digest);
    assert [Body(last, false)][1..] == [];
    assert "" + BodyOf(ms) == BodyOf(ms) && [] + OthersOf(ms) == OthersOf(ms);
  }

  /** A body that no start came before is passed on in one piece. */
  lemma BodyWithoutStart(ms: seq<Message>, last: Bytes, ifNoneMatch: Option<Bytes>, digest: Bytes -> Bytes)
    requires Unfinished(ms)
    ensures Run(IDLE, ms + [Body(last, false)], ifNoneMatch, digest).sent
         == OthersOf(ms) + [Body(BodyOf(ms) + last, false)]
  {
    Buffering(IDLE, ms, ifNoneMatch, digest);
    RunConcat(IDLE, ms, [Body(last, false)], ifNoneMatch, digest);
    assert [Body(last, false)][1..] == [];
    assert "" + BodyOf(ms) == BodyOf(ms) && [] + OthersOf(ms) == OthersOf(ms);
  }

  lemma {:induction false} PassesOn(s: State, ms: seq<Message>, ifNoneMatch: Option<Bytes>, digest: Bytes -> Bytes)
    requires s.passthrough
    ensures Run(s, ms, ifNoneMatch, digest) == s.(sent := s.sent + ms)
    decreases |ms|
  {
    if ms == [] {
      assert s.sent + [] == s.sent;
    } else {
      PassesOn(Step(s, ms[0], ifNoneMatch, digest), ms[1..], ifNoneMatch, digest);
      assert (s.sent + [ms[0]]) + ms[1..] == s.sent + ms;
    }
  }

  // ---------- what the answer says ----------

  /** The values of a field, in order (section 5.3 of RFC 9110). */
  function Values(headers: seq<Header>, name: Bytes): seq<Bytes> {
    if headers == [] then []
    else (if Lower(headers[0].name) == name then [headers[0].value] else []) + Values(headers[1..], name)
  }

  lemma {:induction false} ValuesConcat(a: seq<Header>, b: seq<Header>, name: Bytes)
    ensures Values(a + b, name) == Values(a, name) + Values(b, name)
  {
    if a == [] {
      assert a + b == b;
    } else {
      assert (a + b)[1..] == a[1..] + b;
      ValuesConcat(a[1..], b, name);
    }
  }

  lemma TwoValues(first: Header, second: Header, name: Bytes)
    ensures Values([first, second], name)
         == (if Lower(first.name) == name then [first.value] else [])
          + (if Lower(second.name) == name then [second.value] else [])
  {
    assert [first, second][1..] == [second] && [second][1..] == [];
    assert Values([second], name) == if Lower(second.name) == name then [second.value] else [];
  }

  lemma {:induction false} CarriedValues(headers: seq<Header>, name: Bytes)
    ensures Values(Carried(headers), name) == if IsCarried(name) then Values(headers, name) else []
  {
    if headers != [] {
      CarriedValues(headers[1..], name);
      var first := if IsCarried(Lower(headers[0].name)) then [headers[0]] else [];
      ValuesConcat(first, Carried(headers[1..]), name);
      assert [headers[0]][1..] == [];
    }
  }

  /** Only the first line of a field is read. */
  lemma {:induction false} FirstLineIsRead(headers: seq<Header>, name: Bytes)
    requires Lower(name) == name
    ensures HeaderOf(headers, name) == if Values(headers, name) == [] then None else Some(Values(headers, name)[0])
  {
    if headers != [] {
      FirstLineIsRead(headers[1..], name);
    }
  }

  lemma {:induction false} AbsentHasNoValues(headers: seq<Header>, name: Bytes)
    requires Lower(name) == name
    ensures HeaderOf(headers, name).None? <==> Values(headers, name) == []
  {
    if headers != [] {
      AbsentHasNoValues(headers[1..], name);
    }
  }

  lemma LowerNames()
    ensures Lower("cache-control") == "cache-control" && Lower("etag") == "etag"
  {
  }

  /** The tag both answers carry is one and the same. */
  lemma TagValues(headers: seq<Header>, tag: Header, name: Bytes)
    requires tag.name == "etag"
    ensures Values(headers + [tag], name) == Values(headers, name) + if name == "etag" then [tag.value] else []
  {
    LowerNames();
    ValuesConcat(headers, [tag], name);
    assert [tag][1..] == [];
  }

  /** Only a response that states no caching policy is given one; every other field is left alone. */
  lemma PolicyIsStated(headers: seq<Header>, name: Bytes)
    ensures Values(WithPolicy(headers), name)
         == if name == "cache-control" && Values(headers, name) == [] then ["private, no-cache"] else Values(headers, name)
  {
    LowerNames();
    AbsentHasNoValues(headers, "cache-control");
    var default := Header("cache-control", DEFAULT_CACHE_CONTROL);
    ValuesConcat(headers, [default], name);
    assert [default][1..] == [];
  }

  /** A 304 carries the cache fields and the tag that the 200 in its place would
      (section 15.4.5 of RFC 9110), no other field, and always a caching policy. */
  lemma NotModifiedCarries(status: int, headers: seq<Header>, tag: Header, name: Bytes)
    requires tag.name == "etag" && HeaderOf(headers, "etag").None?
    ensures var short, full := NotModified(headers, tag).headers, Full(status, headers, tag).headers;
            && Values(short, name) == (if IsCarried(name) || name == "etag" then Values(full, name) else [])
            && Values(short, "etag") == Values(full, "etag") == [tag.value]
            && Values(short, "cache-control") == Values(full, "cache-control") != []
  {
    LowerNames();
    var policy := WithPolicy(headers);
    AbsentHasNoValues(headers, "etag");
    PolicyIsStated(headers, "cache-control");
    PolicyIsStated(headers, "etag");
    forall field | field == name || field == "etag" || field == "cache-control"
      ensures Values(Carried(policy), field) == if IsCarried(field) then Values(policy, field) else []
      ensures Values(Carried(policy) + [tag], field)
           == Values(Carried(policy), field) + if field == "etag" then [tag.value] else []
      ensures Values(policy + [tag], field) == Values(policy, field) + if field == "etag" then [tag.value] else []
    {
      CarriedValues(policy, field);
      TagValues(Carried(policy), tag, field);
      TagValues(policy, tag, field);
    }
  }

  /** The fields of the answer: the tag, a caching policy, the fields a 304 repeats, and all the others only
      with a body. */
  ghost predicate HasFields(answer: seq<Header>, headers: seq<Header>, tag: Bytes, withheld: bool, name: Bytes) {
    Values(answer, name) ==
      if name == "etag" then [tag]
      else if name == "cache-control" && Values(headers, name) == [] then ["private, no-cache"]
      else if !withheld || name in {"cache-control", "content-location", "date", "expires", "vary"}
        then Values(headers, name)
      else []
  }

  /** What a tagged response with a body becomes, field by field. */
  lemma AnswerSays(status: int, headers: seq<Header>, body: Bytes, ifNoneMatch: Option<Bytes>,
                   digest: Bytes -> Bytes, name: Bytes)
    requires body != "" && Values(headers, "etag") == []
    ensures var tag := "\"" + digest(body) + "\"";
      var withheld := ifNoneMatch.Some? && Matches(ifNoneMatch.value, tag);
      var (start, sent) := Response(status, headers, body, ifNoneMatch, digest);
      && start.Start? && start.status == (if withheld then 304 else status)
      && sent == (if withheld then "" else body)
      && HasFields(start.headers, headers, tag, withheld, name)
  {
    var tag, policy := TagHeader(digest, body), WithPolicy(headers);
    PolicyIsStated(headers, name);
    CarriedValues(policy, name);
    TagValues(Carried(policy), tag, name);
    TagValues(policy, tag, name);
  }

  /** The answer to a request: other messages first, then a start of this status and these fields, then this
      body in one piece. */
  ghost predicate Answers(sent: seq<Message>, others: seq<Message>, status: int, headers: seq<Header>, body: Bytes,
                          tag: Bytes, withheld: bool, name: Bytes)
  {
    var n := |others|;
    && |sent| == n + 2 && sent[..n] == others
    && sent[n].Start? && sent[n].status == status && HasFields(sent[n].headers, headers, tag, withheld, name)
    && sent[n + 1] == Body(body, false)
  }

  lemma RunAnswers(status: int, headers: seq<Header>, ms: seq<Message>, last: Bytes, ifNoneMatch: Option<Bytes>,
                   digest: Bytes -> Bytes, name: Bytes)
    requires Taggable(status, headers) && Unfinished(ms) && BodyOf(ms) + last != ""
    ensures var body := BodyOf(ms) + last;
      var tag := "\"" + digest(body) + "\"";
      var sent := Run(IDLE, [Start(status, headers)] + ms + [Body(last, false)], ifNoneMatch, digest).sent;
      if ifNoneMatch.Some? && Matches(ifNoneMatch.value, tag)
      then Answers(sent, OthersOf(ms), 304, headers, "", tag, true, name)
      else Answers(sent, OthersOf(ms), status, headers, body, tag, false, name)
  {
    ChunkingDoesNotMatter(status, headers, ms, last, ifNoneMatch, digest);
    AbsentHasNoValues(headers, "etag");
    AnswerSays(status, headers, BodyOf(ms) + last, ifNoneMatch, digest, name);
  }

  /** For a well-formed list, a body is withheld exactly when the client holds it (section 13.1.2 of
      RFC 9110), however the body was sent: a 304 without a body then, and otherwise the application's own
      status with the whole body. Either way the answer carries the body's tag. */
  lemma ConditionalRequest(status: int, headers: seq<Header>, ms: seq<Message>, last: Bytes, items: seq<Item>,
                           digest: Bytes -> Bytes, name: Bytes)
    requires Taggable(status, headers) && Unfinished(ms) && BodyOf(ms) + last != ""
    requires items != [] && forall i :: 0 <= i < |items| ==> WellFormed(items[i])
    requires IsHex(digest(BodyOf(ms) + last))
    ensures var body := BodyOf(ms) + last;
      var tag := "\"" + digest(body) + "\"";
      var sent := Run(IDLE, [Start(status, headers)] + ms + [Body(last, false)], Some(Render(items)), digest).sent;
      if Lists(items, digest(body)) then Answers(sent, OthersOf(ms), 304, headers, "", tag, true, name)
      else Answers(sent, OthersOf(ms), status, headers, body, tag, false, name)
  {
    MatchesList(items, digest(BodyOf(ms) + last));
    RunAnswers(status, headers, ms, last, Some(Render(items)), digest, name);
  }

  /** A star withholds every body. */
  lemma StarWithholds(status: int, headers: seq<Header>, ms: seq<Message>, last: Bytes, before: Bytes, after: Bytes,
                      digest: Bytes -> Bytes, name: Bytes)
    requires Taggable(status, headers) && Unfinished(ms) && BodyOf(ms) + last != ""
    requires Spaces(before) && Spaces(after)
    ensures var tag := "\"" + digest(BodyOf(ms) + last) + "\"";
      var star := Some(before + "*" + after);
      Answers(Run(IDLE, [Start(status, headers)] + ms + [Body(last, false)], star, digest).sent,
              OthersOf(ms), 304, headers, "", tag, true, name)
  {
    MatchesStar(before, after, "\"" + digest(BodyOf(ms) + last) + "\"");
    RunAnswers(status, headers, ms, last, Some(before + "*" + after), digest, name);
  }

  /** No field at all withholds none, and an empty body is passed on as it is. */
  lemma NoFieldWithholdsNothing(status: int, headers: seq<Header>, ms: seq<Message>, last: Bytes,
                                ifNoneMatch: Option<Bytes>, digest: Bytes -> Bytes, name: Bytes)
    requires Taggable(status, headers) && Unfinished(ms)
    ensures var body := BodyOf(ms) + last;
      var sent := Run(IDLE, [Start(status, headers)] + ms + [Body(last, false)], ifNoneMatch, digest).sent;
      && (body == "" ==> sent == OthersOf(ms) + [Start(status, headers), Body("", false)])
      && (body != "" && ifNoneMatch.None? ==>
            Answers(sent, OthersOf(ms), status, headers, body, "\"" + digest(body) + "\"", false, name))
  {
    ChunkingDoesNotMatter(status, headers, ms, last, ifNoneMatch, digest);
    if BodyOf(ms) + last != "" {
      RunAnswers(status, headers, ms, last, ifNoneMatch, digest, name);
    }
  }

  // ---------- what is tagged at all ----------

  predicate NoStoreAt(value: Bytes, i: int) {
    0 <= i <= |value| - 8 && SameIgnoringCase(value[i..i + 8], "no-store")
  }

  predicate SaysNoStore(value: Bytes) {
    exists i :: 0 <= i < |value| && NoStoreAt(value, i)
  }

  lemma NoStoreIgnoresCase(value: Bytes)
    ensures Contains(Lower(value), "no-store") <==> SaysNoStore(value)
  {
    assert |"no-store"| == 8 && Lower("no-store") == "no-store";
    forall i | 0 <= i <= |value| ensures StartsAt(Lower(value), "no-store", i) <==> NoStoreAt(value, i) {
      if i + 8 <= |value| {
        assert Lower(value)[i..i + 8] == Lower(value[i..i + 8]);
        LowerIgnoresCase(value[i..i + 8], "no-store");
      }
    }
  }

  /** What is tagged: a 2xx response without a tag of its own whose first Cache-Control line, if there is
      one, does not say no-store in any case. */
  lemma TaggedExactly(status: int, headers: seq<Header>)
    ensures Taggable(status, headers) <==>
      && 200 <= status <= 299 && Values(headers, "etag") == []
      && (Values(headers, "cache-control") != [] ==> !SaysNoStore(Values(headers, "cache-control")[0]))
  {
    LowerNames();
    AbsentHasNoValues(headers, "etag");
    FirstLineIsRead(headers, "cache-control");
    if Values(headers, "cache-control") == [] {
      NoStoreIgnoresCase("");
    } else {
      NoStoreIgnoresCase(Values(headers, "cache-control")[0]);
    }
  }

  /** A response of another status, with a tag of its own or marked no-store goes through untouched,
      whatever follows its start. */
  lemma UntaggedIsUntouched(status: int, headers: seq<Header>, ms: seq<Message>, ifNoneMatch: Option<Bytes>,
                            digest: Bytes -> Bytes)
    requires || status < 200 || status > 299 || Values(headers, "etag") != []
             || (Values(headers, "cache-control") != [] && SaysNoStore(Values(headers, "cache-control")[0]))
    ensures Run(IDLE, [Start(status, headers)] + ms, ifNoneMatch, digest).sent == [Start(status, headers)] + ms
  {
    TaggedExactly(status, headers);
    var all := [Start(status, headers)] + ms;
    assert all[1..] == ms;
    PassesOn(Step(IDLE, all[0], ifNoneMatch, digest), ms, ifNoneMatch, digest);
  }

  /** Some line of the field says no-store. */
  predicate SomeNoStore(headers: seq<Header>) {
    var lines := Values(headers, "cache-control");
    exists i :: 0 <= i < |lines| && SaysNoStore(lines[i])
  }

  /** Of several Cache-Control lines too only the first counts: whether a response is tagged follows the whole
      field exactly when the first line says no-store or none does. */
  lemma NoStoreOfFirstLine(status: int, headers: seq<Header>)
    requires 200 <= status <= 299 && Values(headers, "etag") == []
    ensures (Taggable(status, headers) <==> !SomeNoStore(headers)) <==>
      var lines := Values(headers, "cache-control");
      !SomeNoStore(headers) || SaysNoStore(lines[0])
  {
    TaggedExactly(status, headers);
  }

  /** A response that says no-store on its second line is tagged. */
  lemma SecondNoStoreIsTagged() returns (headers: seq<Header>)
    ensures SomeNoStore(headers) && Taggable(200, headers)
  {
    var first, second := Header("cache-control", "private"), Header("cache-control", "no-store");
    headers := [first, second];
    LowerNames();
    TwoValues(first, second, "cache-control");
    TwoValues(first, second, "etag");
    assert NoStoreAt("no-store", 0) by {
      assert |"no-store"| == 8 && "no-store"[0..8] == "no-store";
    }
    assert SaysNoStore(Values(headers, "cache-control")[1]);
    assert |"private"| == 7;
    TaggedExactly(200, headers);
  }

  // ---------- several lines of the field ----------

  lemma FirstConditionIsRead(request: seq<Header>)
    requires Values(request, "if-none-match") != []
    ensures HeaderOf(request, "if-none-match") == Some(Values(request, "if-none-match")[0])
  {
    FirstLineIsRead(request, "if-none-match");
  }

  /** The value of a field with several lines (section 5.3 of RFC 9110). */
  function Combined(values: seq<Bytes>): Bytes
    requires values != []
  {
    if |values| == 1 then values[0] else values[0] + "," + Combined(values[1..])
  }

  function Together(lines: seq<seq<Item>>): seq<Item> {
    if lines == [] then [] else lines[0] + Together(lines[1..])
  }

  predicate IsList(items: seq<Item>) {
    items != [] && forall i :: 0 <= i < |items| ==> WellFormed(items[i])
  }

  /** Each value is a well-formed list. */
  predicate AreLists(values: seq<Bytes>, lines: seq<seq<Item>>) {
    |values| == |lines| && forall i :: 0 <= i < |lines| ==> IsList(lines[i]) && values[i] == Render(lines[i])
  }

  lemma Associates(a: Bytes, b: Bytes, c: Bytes, d: Bytes)
    ensures a + (b + c + d) == a + b + c + d
  {
  }

  lemma RenderCons(x: Item, rest: seq<Item>)
    requires rest != []
    ensures Render([x] + rest) == RenderItem(x) + "," + Render(rest)
  {
    assert ([x] + rest)[1..] == rest;
  }

  lemma {:induction false} RenderConcat(a: seq<Item>, b: seq<Item>)
    requires a != [] && b != []
    ensures Render(a + b) == Render(a) + "," + Render(b)
  {
    var x, rest := a[0], a[1..];
    if |a| == 1 {
      assert a + b == [x] + b;
      RenderCons(x, b);
    } else {
      assert a == [x] + rest && a + b == [x] + (rest + b);
      RenderCons(x, rest);
      RenderCons(x, rest + b);
      RenderConcat(rest, b);
      Associates(RenderItem(x) + ",", Render(rest), ",", Render(b));
    }
  }

  /** The combined value is the list of all the tags of all the lines. */
  lemma {:induction false} CombinedIsTogether(values: seq<Bytes>, lines: seq<seq<Item>>)
    requires values != [] && AreLists(values, lines)
    ensures IsList(Together(lines)) && Render(Together(lines)) == Combined(values)
  {
    if |values| == 1 {
      assert Together(lines) == lines[0];
    } else {
      CombinedIsTogether(values[1..], lines[1..]);
      RenderConcat(lines[0], Together(lines[1..]));
    }
  }

  lemma ListsConcat(a: seq<Item>, b: seq<Item>, text: Bytes)
    ensures Lists(a + b, text) <==> Lists(a, text) || Lists(b, text)
  {
    if Lists(a, text) {
      var i :| 0 <= i < |a| && a[i].tag.Some? && a[i].tag.value.text == text;
      assert (a + b)[i] == a[i];
    } else if Lists(b, text) {
      var i :| 0 <= i < |b| && b[i].tag.Some? && b[i].tag.value.text == text;
      assert (a + b)[|a| + i] == b[i];
    }
  }

  /** Some line holds the tag. */
  predicate SomeLists(lines: seq<seq<Item>>, text: Bytes) {
    exists i :: 0 <= i < |lines| && Lists(lines[i], text)
  }

  lemma {:induction false} ListsTogether(lines: seq<seq<Item>>, text: Bytes)
    ensures Lists(Together(lines), text) <==> SomeLists(lines, text)
  {
    if lines != [] {
      var rest := lines[1..];
      ListsTogether(rest, text);
      ListsConcat(lines[0], Together(rest), text);
      assert forall i :: 0 < i < |lines| ==> lines[i] == rest[i - 1];
    }
  }

  lemma LinesMatch(values: seq<Bytes>, lines: seq<seq<Item>>, text: Bytes)
    requires values != [] && AreLists(values, lines) && IsHex(text)
    ensures Matches(values[0], Quoted(text)) <==> Lists(lines[0], text)
    ensures Matches(Combined(values), Quoted(text)) <==> SomeLists(lines, text)
    ensures Lists(lines[0], text) ==> SomeLists(lines, text)
  {
    MatchesList(lines[0], text);
    CombinedIsTogether(values, lines);
    MatchesList(Together(lines), text);
    ListsTogether(lines, text);
  }

  lemma SameAnswer(status: int, headers: seq<Header>, body: Bytes, a: Bytes, b: Bytes, digest: Bytes -> Bytes)
    requires body != ""
    ensures Response(status, headers, body, Some(a), digest) == Response(status, headers, body, Some(b), digest)
            <==> (Matches(a, Quoted(digest(body))) <==> Matches(b, Quoted(digest(body))))
  {
  }

  /** A request whose field has several lines is answered as the combined list would be exactly when the
      first line holds the body's tag or no line does. */
  lemma FirstLineDecides(request: seq<Header>, lines: seq<seq<Item>>, status: int, headers: seq<Header>, body: Bytes,
                         digest: Bytes -> Bytes)
    requires body != "" && IsHex(digest(body))
    requires lines != [] && AreLists(Values(request, "if-none-match"), lines)
    ensures var values := Values(request, "if-none-match");
            Response(status, headers, body, HeaderOf(request, "if-none-match"), digest)
            == Response(status, headers, body, Some(Combined(values)), digest)
            <==> Lists(lines[0], digest(body)) || !SomeLists(lines, digest(body))
  {
    var values := Values(request, "if-none-match");
    FirstConditionIsRead(request);
    LinesMatch(values, lines, digest(body));
    SameAnswer(status, headers, body, values[0], Combined(values), digest);
  }

  /** A body whose tag the client gives on the second line is sent again. */
  lemma SecondLineIsNotRead(status: int, headers: seq<Header>, body: Bytes, digest: Bytes -> Bytes)
    returns (request: seq<Header>)
    requires body != "" && IsHex(digest(body))
    ensures Values(request, "if-none-match") == ["\"x\"", Quoted(digest(body))]
    ensures var (start, sent) := Response(status, headers, body, HeaderOf(request, "if-none-match"), digest);
      start.Start? && start.status == status && sent == body
  {
    var first, second := Header("if-none-match", "\"x\""), Header("if-none-match", Quoted(digest(body)));
    request := [first, second];
    assert Lower("if-none-match") == "if-none-match";
    TwoValues(first, second, "if-none-match");
    var items := [Item("", Some(Tag(false, "x")), "")];
    assert Render(items) == "\"x\"";
    assert digest(body) != "x" by {
      assert forall i :: 0 <= i < |digest(body)| ==> digest(body)[i] != 'x';
      assert "x"[0] == 'x';
    }
    MatchesList(items, digest(body));
  }
}
