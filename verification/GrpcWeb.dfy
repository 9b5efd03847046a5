/** The gRPC-Web response writer: headers first, then message frames, then trailers as a last frame. */
module GrpcWeb {
  import opened Collections

  newtype byte = x: int | 0 <= x < 256

  type Headers = map<string, seq<string>>

  const CONTENT_TYPE_GRPC := "application/grpc"
  const TRAILER_PREFIX := "Trailer:"
  const TRAILER_FLAG: byte := 0x80
  const LENGTH_RANGE := 0x1_0000_0000

  // ---------------------------------------------------------------- header keys

  function LowerChar(c: char): char {
    if 'A' <= c <= 'Z' then (c as int + 32) as char else c
  }

  function UpperChar(c: char): char {
    if 'a' <= c <= 'z' then (c as int - 32) as char else c
  }

  function ToLower(s: string): (t: string)
    ensures |t| == |s| && forall i :: 0 <= i < |s| ==> t[i] == LowerChar(s[i])
  {
    seq(|s|, i requires 0 <= i < |s| => LowerChar(s[i]))
  }

  /** The canonical form of a header key: upper case at the start and after each hyphen. */
  function Canonical(s: string, upper: bool): string {
    if s == [] then [] else [if upper then UpperChar(s[0]) else LowerChar(s[0])] + Canonical(s[1..], s[0] == '-')
  }

  ghost predicate IsCanonical(key: string) {
    key == Canonical(ToLower(key), true)
  }

  /** Lower-casing concerns the 26 letters, wherever they stand, and nothing else. */
  lemma LowersLetters(s: string, i: nat, k: nat)
    requires i < |s| && k < 26
    ensures |ToLower(s)| == |s|
    ensures s[i] == (65 + k) as char ==> ToLower(s)[i] == (97 + k) as char
    ensures (s[i] < 'A' || s[i] > 'Z') ==> ToLower(s)[i] == s[i]
  {
  }

  /** Which form of a key is the canonical one. */
  lemma CanonicalExamples()
    ensures IsCanonical("Te") && !IsCanonical("te") && !IsCanonical("TE") && IsCanonical("X-A") && !IsCanonical("X-a")
  {
    assert ToLower("Te") == ToLower("te") == ToLower("TE") == "te";
    assert Canonical("te", true) == "T" + Canonical("e", false) && Canonical("e", false) == "e" + Canonical("", false);
    assert ToLower("X-A") == ToLower("X-a") == "x-a";
    assert Canonical("x-a", true) == "X" + Canonical("-a", false);
    assert Canonical("-a", false) == "-" + Canonical("a", true) && Canonical("a", true) == "A" + Canonical("", false);
    assert "te"[1..] == "e" && "e"[1..] == "" && "x-a"[1..] == "-a" && "-a"[1..] == "a" && "a"[1..] == "";
  }

  lemma CanonicalKeysDiffer(a: string, b: string)
    requires IsCanonical(a) && IsCanonical(b) && ToLower(a) == ToLower(b)
    ensures a == b
  {
  }

  function TrimPrefix(s: string, prefix: string): string {
    if prefix <= s then s[|prefix|..] else s
  }

  /** Keys are lower-cased before the capitalised prefix is looked for, so it is never removed. */
  lemma PrefixNeverTrimmed(key: string)
    ensures TrimPrefix(ToLower(key), TRAILER_PREFIX) == ToLower(key)
  {
    assert TRAILER_PREFIX[0] == 'T';
    assert key != [] ==> ToLower(key)[0] == LowerChar(key[0]) != 'T';
  }

  // ---------------------------------------------------------------- specification

  function TranslateValue(value: string, base: string): string {
    if value == CONTENT_TYPE_GRPC || CONTENT_TYPE_GRPC + "+" <= value then base + value[|CONTENT_TYPE_GRPC|..] else value
  }

  function Translate(key: string, values: seq<string>, base: string): (r: seq<string>)
    ensures |r| == |values|
  {
    if ToLower(key) == "content-type"
    then seq(|values|, i requires 0 <= i < |values| => TranslateValue(values[i], base))
    else values
  }

  predicate IsTrailerKey(key: string) { ToLower(key) == "trailer" }

  /** The value is the gRPC content type with this message format, which may be left out. */
  predicate IsGrpcWith(value: string, s: string) {
    value == "application/grpc" + s && (s == "" || s[0] == '+')
  }

  /** A gRPC content type keeps its message format; any other value stays as it is. */
  lemma TranslatesContentType(value: string, s: string, base: string)
    ensures IsGrpcWith(value, s) ==> TranslateValue(value, base) == base + s
    ensures (exists t :: IsGrpcWith(value, t)) || TranslateValue(value, base) == value
  {
    var prefix := "application/grpc";
    if IsGrpcWith(value, s) {
      assert value[|prefix|..] == s;
      assert s == "" ==> value == prefix;
      assert s != "" ==> prefix + "+" <= value;
    }
    if value == prefix {
      assert IsGrpcWith(value, "");
    } else if prefix + "+" <= value {
      assert IsGrpcWith(value, value[|prefix|..]);
    }
  }

  /** What one commit copies, key by key and value by value. */
  lemma CommitCopiesValues(r: Run, base: string, k: string)
    requires k in r.headers
    ensures var d := Commit(r, base);
            if ToLower(k) == "trailer" then d.headers[k] == r.headers[k] && (k in d.inner <==> k in r.inner)
            else
              && k in d.inner && d.headers[k] == d.inner[k] && |d.inner[k]| == |r.headers[k]|
              && (ToLower(k) != "content-type" ==> d.inner[k] == r.headers[k])
              && (ToLower(k) == "content-type" ==> forall i :: 0 <= i < |r.headers[k]| ==> IsTranslated(r.headers[k][i], base, d.inner[k][i]))
  {
    if ToLower(k) == "content-type" {
      forall i | 0 <= i < |r.headers[k]| ensures IsTranslated(r.headers[k][i], base, TranslateValue(r.headers[k][i], base)) {
        forall s {
          TranslatesContentType(r.headers[k][i], s, base);
        }
      }
    }
  }

  ghost predicate IsTranslated(value: string, base: string, sent: string) {
    && (forall s :: IsGrpcWith(value, s) ==> sent == base + s)
    && ((exists s :: IsGrpcWith(value, s)) || sent == value)
  }

  /** The inner headers once the keys in `done` were copied: all but Trailer, with the content type translated. */
  ghost function CopiedKeys(headers: Headers, inner: Headers, base: string, done: set<string>): Headers {
    map k | k in headers.Keys * done + inner.Keys && (k in inner || !IsTrailerKey(k)) ::
      if k in headers && k in done && !IsTrailerKey(k) then Translate(k, headers[k], base) else inner[k]
  }

  ghost function Copied(headers: Headers, inner: Headers, base: string): Headers {
    CopiedKeys(headers, inner, base, headers.Keys)
  }

  /** Copying also translates the content type in place. */
  ghost function TranslatedKeys(headers: Headers, base: string, done: set<string>): Headers {
    map k | k in headers :: if k in done && !IsTrailerKey(k) then Translate(k, headers[k], base) else headers[k]
  }

  ghost function Translated(headers: Headers, base: string): Headers {
    TranslatedKeys(headers, base, headers.Keys)
  }

  lemma NothingCopied(headers: Headers, inner: Headers, base: string)
    ensures CopiedKeys(headers, inner, base, {}) == inner && TranslatedKeys(headers, base, {}) == headers
  {
  }

  lemma CopyStep(headers: Headers, inner: Headers, base: string, done: set<string>, key: string)
    requires key in headers && key !in done
    ensures CopiedKeys(headers, inner, base, done + {key})
         == if IsTrailerKey(key) then CopiedKeys(headers, inner, base, done)
            else CopiedKeys(headers, inner, base, done)[key := Translate(key, headers[key], base)]
    ensures TranslatedKeys(headers, base, done + {key})
         == if IsTrailerKey(key) then TranslatedKeys(headers, base, done)
            else TranslatedKeys(headers, base, done)[key := Translate(key, headers[key], base)]
    ensures key in TranslatedKeys(headers, base, done) && TranslatedKeys(headers, base, done)[key] == headers[key]
  {
    hide IsTrailerKey, Translate;
  }

  ghost predicate AlreadySent(inner: Headers, lower: string) {
    exists k :: k in inner && ToLower(k) == lower
  }

  /** Header `k` goes into the trailer frame. */
  ghost predicate IsLate(headers: Headers, inner: Headers, k: string) {
    k in headers && !IsTrailerKey(k) && !AlreadySent(inner, ToLower(k))
  }

  /** `trailers` holds exactly the late headers under their lower-case keys. */
  ghost predicate AreTrailers(trailers: Headers, headers: Headers, inner: Headers) {
    && (forall k :: IsLate(headers, inner, k) ==> ToLower(k) in trailers)
    && (forall t :: t in trailers ==> exists k :: IsLate(headers, inner, k) && ToLower(k) == t && trailers[t] == headers[k])
  }

  // ---------------------------------------------------------------- handler runs

  /** What a handler does with the writer; header keys are added or set, never deleted. */
  datatype Op =
    | Add(key: string, value: string)
    | Set(key: string, values: seq<string>)
    | WriteHeader(statusCode: int)
    | Write(data: seq<byte>)
    | Flush

  /** `wire` is the header block the inner writer has sent: its header map when it was first written to or flushed, or given a final status. */
  datatype Run = Run(headers: Headers, copied: bool, inner: Headers, wire: Option<Headers>, body: seq<byte>)

  ghost function Commit(r: Run, base: string): Run {
    Run(Translated(r.headers, base), true, Copied(r.headers, r.inner, base), r.wire, r.body)
  }

  /** Such a status announces that another one follows: it does not settle the headers. */
  predicate IsInformational(statusCode: int) { 100 <= statusCode <= 199 && statusCode != 101 }

  ghost function Send(r: Run): Run {
    if r.wire.None? then r.(wire := Some(r.inner)) else r
  }

  ghost function Step(r: Run, op: Op, base: string): Run {
    match op
    case Add(k, v) => r.(headers := r.headers[k := (if k in r.headers then r.headers[k] else []) + [v]])
    case Set(k, vs) => r.(headers := r.headers[k := vs])
    case WriteHeader(statusCode) => if IsInformational(statusCode) then Commit(r, base) else Send(Commit(r, base))
    case Write(data) =>
      var sent := Send(if r.copied then r else Commit(r, base));
      sent.(body := sent.body + data)
    case Flush => Send(r)
  }

  ghost function After(r: Run, ops: seq<Op>, base: string): Run {
    if ops == [] then r else Step(After(r, ops[..|ops| - 1], base), ops[|ops| - 1], base)
  }

  ghost function Start(headers: Headers): Run { Run(headers, false, map[], None, []) }

  // ---------------------------------------------------------------- the writer

  class ResponseWriter {
    var headers: Headers
    var headersCopied: bool
    const baseContentType: string
    /** The inner writer can be flushed. */
    const innerFlushes: bool
    var innerHeaders: Headers
    var wireHeaders: Option<Headers>
    var body: seq<byte>
    /** The library's serialisation of a header block. */
    const serialize: Headers -> seq<byte>

    ghost function State(): Run
      reads this
    {
      Run(headers, headersCopied, innerHeaders, wireHeaders, body)
    }

    constructor (headers: Headers, baseContentType: string, innerFlushes: bool, serialize: Headers -> seq<byte>)
      ensures State() == Start(headers)
      ensures this.baseContentType == baseContentType && this.innerFlushes == innerFlushes && this.serialize == serialize
    {
      this.headers, this.baseContentType := headers, baseContentType;
      this.innerFlushes, this.serialize := innerFlushes, serialize;
      headersCopied, innerHeaders, wireHeaders, body := false, map[], None, [];
    }

    /** `w.Header().Add`: the handler works on the writer's own header map. */
    method AddHeader(key: string, value: string)
      modifies this`headers
      ensures State() == Step(old(State()), Add(key, value), baseContentType)
    {
      headers := headers[key := (if key in headers then headers[key] else []) + [value]];
    }

    method SetHeader(key: string, values: seq<string>)
      modifies this`headers
      ensures State() == Step(old(State()), Set(key, values), baseContentType)
    {
      headers := headers[key := values];
    }

    method CopyHeaders()
      modifies this`headers, this`headersCopied, this`innerHeaders
      ensures State() == Commit(old(State()), baseContentType)
    {
      hide CopiedKeys, TranslatedKeys, Translate, IsTrailerKey;
      ghost var h, inner, done := headers, innerHeaders, {};
      NothingCopied(h, inner, baseContentType);
      var todo := headers.Keys;
      while todo != {}
        invariant todo + done == h.Keys && todo !! done
        invariant headers == TranslatedKeys(h, baseContentType, done)
        invariant innerHeaders == CopiedKeys(h, inner, baseContentType, done)
      {
        var key := Pick(todo);
        CopyStep(h, inner, baseContentType, done, key);
        todo, done := todo - {key}, done + {key};
        if IsTrailerKey(key) {
          continue;
        }
        headers := headers[key := Translate(key, headers[key], baseContentType)];
        innerHeaders := innerHeaders[key := headers[key]];
      }
      headersCopied := true;
    }

    method Write(data: seq<byte>)
      modifies this
      ensures State() == Step(old(State()), Op.Write(data), baseContentType)
    {
      if !headersCopied {
        CopyHeaders();
      }
      InnerWrite(data);
    }

    /** The first write to the inner writer sends its headers; later changes to them have no effect. */
    method InnerWrite(data: seq<byte>)
      modifies this`wireHeaders, this`body
      ensures State() == Send(old(State())).(body := old(body) + data)
    {
      if wireHeaders.None? {
        wireHeaders := Some(innerHeaders);
      }
      body := body + data;
    }

    method WriteHeader(statusCode: int)
      modifies this
      ensures State() == Step(old(State()), Op.WriteHeader(statusCode), baseContentType)
    {
      CopyHeaders();
      if wireHeaders.None? && !IsInformational(statusCode) {
        wireHeaders := Some(innerHeaders);
      }
    }

    method Finish() returns (trailers: Headers)
      modifies this`body, this`wireHeaders
      ensures AreTrailers(trailers, headers, innerHeaders)
      // the flag byte, the length in four bytes, most significant first, then the serialised block
      ensures trailers != map[] ==>
                var start, block := |old(body)|, serialize(trailers);
                && |body| == start + 5 + |block| && body[..start] == old(body) && body[start + 5..] == block
                && body[start] == 0x80
                && body[start + 1] as nat * 16777216 + body[start + 2] as nat * 65536 + body[start + 3] as nat * 256
                   + body[start + 4] as nat == |block| % 4294967296
      ensures wireHeaders == if trailers != map[] || innerFlushes then Send(old(State())).wire else old(wireHeaders)
      ensures body == old(body) + if trailers == map[] then [] else EncodeFrame(Frame(TRAILER_FLAG, serialize(trailers)))
    {
      trailers := FindTrailers();
      if |trailers| != 0 {
        var buf := serialize(trailers);
        var frameHeader := [TRAILER_FLAG] + BigEndian(|buf|);
        InnerWrite(frameHeader);
        InnerWrite(buf);
        assert old(body) + frameHeader + buf == old(body) + (frameHeader + buf);
        LengthRoundTrip(|buf|);
        FrameBytes(old(body), BigEndian(|buf|), buf);
      }
      Flush();
    }

    method Flush()
      modifies this`wireHeaders
      ensures State() == if innerFlushes then Step(old(State()), Op.Flush, baseContentType) else old(State())
    {
      if innerFlushes && wireHeaders.None? {
        wireHeaders := Some(innerHeaders);
      }
    }

    /** The two loops of Finish: note the keys sent, then collect all others. */
    method FindTrailers() returns (trailers: Headers)
      ensures AreTrailers(trailers, headers, innerHeaders)
    {
      var sentHeaders: set<string> := set k | k in innerHeaders :: ToLower(k);
      trailers := map[];
      var todo := headers.Keys;
      while todo != {}
        invariant todo <= headers.Keys
        invariant forall k :: IsLate(headers, innerHeaders, k) && k !in todo ==> ToLower(k) in trailers
        invariant forall t :: t in trailers ==>
                    exists k :: IsLate(headers, innerHeaders, k) && ToLower(k) == t && trailers[t] == headers[k]
      {
        var key := Pick(todo);
        todo := todo - {key};
        var lower := ToLower(key);
        if lower in sentHeaders || lower == "trailer" {
          continue;
        }
        PrefixNeverTrimmed(key);
        trailers := trailers[TrimPrefix(lower, TRAILER_PREFIX) := headers[key]];
      }
    }
  }

  // ---------------------------------------------------------------- what a response contains

  /** The operation sends the header block unless it has been sent. */
  predicate Sends(op: Op) {
    op.Write? || op.Flush? || (op.WriteHeader? && !IsInformational(op.statusCode))
  }

  predicate SomeSends(ops: seq<Op>) {
    ops != [] && (Sends(ops[|ops| - 1]) || SomeSends(ops[..|ops| - 1]))
  }

  /** The operation copies the headers: every WriteHeader, and a Write before anything was copied. */
  predicate Commits(r: Run, op: Op) {
    op.WriteHeader? || (op.Write? && !r.copied)
  }

  /** The header keys present when the run last committed; none if it never did. */
  ghost function LastCommitKeys(headers: Headers, ops: seq<Op>, base: string): set<string> {
    if ops == [] then {}
    else
      var front := After(Start(headers), ops[..|ops| - 1], base);
      if Commits(front, ops[|ops| - 1]) then front.headers.Keys else LastCommitKeys(headers, ops[..|ops| - 1], base)
  }

  /** The header keys that had been copied when the header block was sent; none if it was not sent. */
  ghost function SentKeys(headers: Headers, ops: seq<Op>, base: string): set<string> {
    if ops == [] then {}
    else if After(Start(headers), ops[..|ops| - 1], base).wire.None? && After(Start(headers), ops, base).wire.Some?
    then LastCommitKeys(headers, ops, base)
    else SentKeys(headers, ops[..|ops| - 1], base)
  }

  function HeaderKeys(keys: set<string>): set<string> {
    set k | k in keys && !IsTrailerKey(k)
  }

  /** How the last commit and the first sending determine what was copied and what was sent. */
  ghost predicate Accounted(r: Run, sent: set<string>, last: set<string>) {
    && sent <= last <= r.headers.Keys
    && r.inner.Keys == HeaderKeys(last)
    && (!r.copied ==> last == {})
    && (if r.wire.Some? then r.wire.value.Keys == HeaderKeys(sent) else sent == {})
  }

  lemma {:induction false} RunIsAccounted(headers: Headers, ops: seq<Op>, base: string)
    ensures Accounted(After(Start(headers), ops, base), SentKeys(headers, ops, base), LastCommitKeys(headers, ops, base))
  {
    hide Step, Accounted, Commits;
    if ops == [] {
      StartIsAccounted(headers);
    } else {
      var front, op := ops[..|ops| - 1], ops[|ops| - 1];
      RunIsAccounted(headers, front, base);
      StepIsAccounted(After(Start(headers), front, base), op, base,
                      SentKeys(headers, front, base), LastCommitKeys(headers, front, base));
    }
  }

  lemma StartIsAccounted(headers: Headers)
    ensures Accounted(Start(headers), {}, {})
  {
  }

  lemma StepIsAccounted(r: Run, op: Op, base: string, sent: set<string>, last: set<string>)
    requires Accounted(r, sent, last)
    ensures var now, next := if Commits(r, op) then r.headers.Keys else last, Step(r, op, base);
            Accounted(next, if r.wire.None? && next.wire.Some? then now else sent, now)
  {
    hide Copied, Translated;
    CommitKeys(r, base);
  }

  lemma CommitKeys(r: Run, base: string)
    requires r.inner.Keys <= HeaderKeys(r.headers.Keys)
    ensures Commit(r, base).inner.Keys == HeaderKeys(r.headers.Keys) && Commit(r, base).headers.Keys == r.headers.Keys
  {
    assert forall k :: k in HeaderKeys(r.headers.Keys) ==> k in Copied(r.headers, r.inner, base);
  }

  /** For any run, with any number of commits: a key is among the trailers, with its final values, exactly
      if it was first set after the last commit, and among the headers sent exactly if it was set when they were sent. */
  lemma HeadersAndTrailersExactly(headers: Headers, ops: seq<Op>, base: string, trailers: Headers, k: string)
    requires var end := After(Start(headers), ops, base);
             && (forall j :: j in end.headers ==> IsCanonical(j)) && AreTrailers(trailers, end.headers, end.inner)
             && k in end.headers && !IsTrailerKey(k)
    ensures var end := After(Start(headers), ops, base);
            && (ToLower(k) in trailers <==> k !in LastCommitKeys(headers, ops, base))
            && (ToLower(k) in trailers ==> trailers[ToLower(k)] == end.headers[k])
            && (end.wire.Some? ==> (k in end.wire.value <==> k in SentKeys(headers, ops, base)))
    ensures "trailer" !in trailers
  {
    hide IsCanonical, After, LastCommitKeys, SentKeys, ToLower;
    var end := After(Start(headers), ops, base);
    RunIsAccounted(headers, ops, base);
    forall a, b | a in end.headers && b in end.headers && ToLower(a) == ToLower(b) ensures a == b {
      CanonicalKeysDiffer(a, b);
    }
    assert AlreadySent(end.inner, ToLower(k)) <==> k in end.inner;
  }

  /** A key reaches the client neither as a header nor as a trailer exactly if it was first set
      after the headers were sent and before the last commit. */
  lemma HeaderLostExactly(headers: Headers, ops: seq<Op>, base: string, trailers: Headers, k: string)
    requires var end := After(Start(headers), ops, base);
             && (forall j :: j in end.headers ==> IsCanonical(j)) && AreTrailers(trailers, end.headers, end.inner)
             && end.wire.Some? && k in end.headers && !IsTrailerKey(k)
    ensures k !in After(Start(headers), ops, base).wire.value && ToLower(k) !in trailers
       <==> k in LastCommitKeys(headers, ops, base) - SentKeys(headers, ops, base)
  {
    hide IsCanonical, After, LastCommitKeys, SentKeys, ToLower;
    HeadersAndTrailersExactly(headers, ops, base, trailers, k);
  }

  /** The shortest such run: a key set between two WriteHeader calls. */
  lemma SecondCommitLosesTrailers(headers: Headers, k: string, v: string, base: string)
    requires k !in headers
    ensures var ops := [WriteHeader(200), Add(k, v), WriteHeader(200)];
            k in LastCommitKeys(headers, ops, base) - SentKeys(headers, ops, base)
  {
    hide Copied, Translated;
    var start, twice := Start(headers), [WriteHeader(200), Add(k, v)];
    var ops := twice + [WriteHeader(200)];
    assert ops == [WriteHeader(200), Add(k, v), WriteHeader(200)] && ops[..2] == twice;
    assert twice[..1] == [WriteHeader(200)] && [WriteHeader(200)][..0] == [];
    assert After(start, [WriteHeader(200)], base) == Step(start, WriteHeader(200), base);
    assert After(start, twice, base) == Step(Step(start, WriteHeader(200), base), Add(k, v), base);
    assert SentKeys(headers, [WriteHeader(200)], base) == headers.Keys;
    assert SentKeys(headers, twice, base) == headers.Keys;
  }

  lemma {:induction false} AfterAppend(r: Run, a: seq<Op>, b: seq<Op>, base: string)
    ensures After(r, a + b, base) == After(After(r, a, base), b, base)
  {
    if b == [] {
      assert a + b == a;
    } else {
      assert (a + b)[..|a + b| - 1] == a + b[..|b| - 1];
      AfterAppend(r, a, b[..|b| - 1], base);
    }
  }

  lemma {:induction false} CommittedHeadersStay(r: Run, ops: seq<Op>, base: string)
    requires r.copied && forall op :: op in ops ==> !op.WriteHeader?
    ensures var end := After(r, ops, base);
            && end.copied && end.inner == r.inner && r.headers.Keys <= end.headers.Keys
            && end.wire == if r.wire.None? && SomeSends(ops) then Some(r.inner) else r.wire
  {
    hide Copied, Translated, IsInformational;
    if ops != [] {
      assert ops == ops[..|ops| - 1] + [ops[|ops| - 1]];
      CommittedHeadersStay(r, ops[..|ops| - 1], base);
    }
  }

  /** The values copied by the last commit are those set at that time, translated; if nothing was
      sent before, they are what is sent. */
  lemma LastCommitCopies(headers: Headers, before: seq<Op>, commit: Op, after: seq<Op>, base: string)
    requires Commits(After(Start(headers), before, base), commit) && forall op :: op in after ==> !op.WriteHeader?
    ensures var r, end := After(Start(headers), before, base), After(Start(headers), before + [commit] + after, base);
            && end.inner == Copied(r.headers, map[], base) && r.headers.Keys <= end.headers.Keys
            && end.wire == if r.wire.None? && (Sends(commit) || SomeSends(after)) then Some(end.inner) else r.wire
  {
    var start := Start(headers);
    var r := After(start, before, base);
    RunIsAccounted(headers, before, base);
    AfterAppend(start, before, [commit], base);
    AfterAppend(start, before + [commit], after, base);
    assert [commit][..0] == [];
    CommitCopiesAll(r, base);
    assert After(start, before + [commit], base) == Step(r, commit, base);
    hide After, Copied, Translated, SomeSends, LastCommitKeys, SentKeys, Start, IsInformational;
    CommittedHeadersStay(Step(r, commit, base), after, base);
  }

  lemma CommitCopiesAll(r: Run, base: string)
    requires r.inner.Keys <= HeaderKeys(r.headers.Keys)
    ensures Commit(r, base).inner == Copied(r.headers, map[], base) && Commit(r, base).headers.Keys == r.headers.Keys
  {
    assert Copied(r.headers, r.inner, base) == Copied(r.headers, map[], base);
  }

  /** Headers set before the last commit are copied with their values at that time; keys first set
      afterwards end up in the trailer frame with their final values; no key is in both. */
  lemma HeadersAndTrailersSplit(headers: Headers, before: seq<Op>, commit: Op, after: seq<Op>, base: string, trailers: Headers)
    requires Commits(After(Start(headers), before, base), commit) && forall op :: op in after ==> !op.WriteHeader?
    requires var end := After(Start(headers), before + [commit] + after, base);
             (forall k :: k in end.headers ==> IsCanonical(k)) && AreTrailers(trailers, end.headers, end.inner)
    ensures var early, end := After(Start(headers), before, base).headers, After(Start(headers), before + [commit] + after, base);
            && end.inner == Copied(early, map[], base) && early.Keys <= end.headers.Keys
            && forall k :: k in end.headers && !IsTrailerKey(k) ==>
                 if k in early then k in end.inner && end.inner[k] == Translate(k, early[k], base) && ToLower(k) !in trailers
                 else k !in end.inner && ToLower(k) in trailers && trailers[ToLower(k)] == end.headers[k]
    ensures forall t :: t in trailers ==> t != "trailer"
  {
    var early := After(Start(headers), before, base).headers;
    var end := After(Start(headers), before + [commit] + after, base);
    hide IsCanonical, Translate, After, ToLower;
    LastCommitCopies(headers, before, commit, after, base);
    forall k, j | k in end.headers && j in end.headers && ToLower(k) == ToLower(j) ensures k == j {
      CanonicalKeysDiffer(k, j);
    }
    forall k | k in end.headers && !IsTrailerKey(k) ensures AlreadySent(end.inner, ToLower(k)) <==> k in early {
      assert k in early ==> k in end.inner;
    }
  }

  /** A status settles the headers unless it is 100 to 199, but 101 does. */
  lemma FinalStatusSends(r: Run, statusCode: int, base: string)
    ensures var d := Step(r, WriteHeader(statusCode), base);
            && d.wire == (if r.wire.None? && !(100 <= statusCode <= 199 && statusCode != 101) then Some(d.inner) else r.wire)
            && d.body == r.body && d.copied
  {
  }

  /** Setting a key replaces its values and concerns no other key. */
  lemma SetReplaces(r: Run, k: string, values: seq<string>, j: string, base: string)
    ensures var d := Step(r, Set(k, values), base);
            && d == r.(headers := d.headers) && k in d.headers && d.headers[k] == values
            && (j != k ==> (j in d.headers <==> j in r.headers) && (j in r.headers ==> d.headers[j] == r.headers[j]))
  {
  }

  /** The values a handler adds to key `k`, in order. */
  ghost function AddedTo(ops: seq<Op>, k: string): seq<string> {
    if ops == [] then []
    else AddedTo(ops[..|ops| - 1], k) + if ops[|ops| - 1].Add? && ops[|ops| - 1].key == k then [ops[|ops| - 1].value] else []
  }

  /** The values of key `k`, none if it is absent. */
  ghost function ValuesOf(headers: Headers, k: string): seq<string> {
    if k in headers then headers[k] else []
  }

  /** Added values follow those already there, each key on its own. */
  lemma {:induction false} AddsAppend(r: Run, ops: seq<Op>, base: string, k: string)
    requires forall op :: op in ops ==> op.Add?
    ensures var d := After(r, ops, base);
            && d == r.(headers := d.headers)
            && ValuesOf(d.headers, k) == ValuesOf(r.headers, k) + AddedTo(ops, k)
  {
    hide Step, ValuesOf;
    if ops != [] {
      var front, op := ops[..|ops| - 1], ops[|ops| - 1];
      assert op in ops && forall o :: o in front ==> o in ops;
      AddsAppend(r, front, base, k);
      AddAppends(After(r, front, base), op, base, k);
    }
  }

  lemma AddAppends(r: Run, op: Op, base: string, k: string)
    requires op.Add?
    ensures var d := Step(r, op, base);
            && d == r.(headers := d.headers)
            && ValuesOf(d.headers, k) == ValuesOf(r.headers, k) + if op.key == k then [op.value] else []
  {
  }

  /** All data written by the handler, in order. */
  ghost function Written(ops: seq<Op>): seq<byte> {
    if ops == [] then []
    else Written(ops[..|ops| - 1]) + if ops[|ops| - 1].Write? then ops[|ops| - 1].data else []
  }

  lemma {:induction false} BodyIsWhatWasWritten(r: Run, ops: seq<Op>, base: string)
    ensures After(r, ops, base).body == r.body + Written(ops)
  {
    hide Copied, Translated;
    if ops != [] {
      BodyIsWhatWasWritten(r, ops[..|ops| - 1], base);
    }
  }

  // ---------------------------------------------------------------- frames

  datatype Frame = Frame(flag: byte, payload: seq<byte>)

  /** The low 32 bits of a length, most significant byte first. */
  function BigEndian(n: nat): (b: seq<byte>)
    ensures |b| == 4
  {
    [(n / 0x100_0000 % 0x100) as byte, (n / 0x1_0000 % 0x100) as byte, (n / 0x100 % 0x100) as byte, (n % 0x100) as byte]
  }

  function LengthOf(b: seq<byte>): nat
    requires |b| == 4
  {
    b[0] as nat * 0x100_0000 + b[1] as nat * 0x1_0000 + b[2] as nat * 0x100 + b[3] as nat
  }

  function EncodeFrame(f: Frame): seq<byte> {
    [f.flag] + BigEndian(|f.payload|) + f.payload
  }

  function EncodeFrames(fs: seq<Frame>): seq<byte> {
    if fs == [] then [] else EncodeFrame(fs[0]) + EncodeFrames(fs[1..])
  }

  /** A client reading the body by length prefix. */
  function Parse(b: seq<byte>): Option<seq<Frame>>
    decreases |b|
  {
    if b == [] then Some([])
    else if |b| < 5 then None
    else
      var n := LengthOf(b[1..5]);
      if |b| < 5 + n then None
      else
        var rest := Parse(b[5 + n..]);
        if rest.None? then None else Some([Frame(b[0], b[5..5 + n])] + rest.value)
  }

  lemma LengthRoundTrip(n: nat)
    ensures LengthOf(BigEndian(n)) == n % 4294967296
  {
    var a, b, c := n / 0x100, n / 0x1_0000, n / 0x100_0000;
    Quotients(n);
    Digits(n, a, b, c, c / 0x100, n % 0x100, a % 0x100, b % 0x100, c % 0x100);
  }

  /** Dividing by 256 step by step. */
  lemma Quotients(n: nat)
    ensures n / 0x1_0000 == n / 0x100 / 0x100 && n / 0x100_0000 == n / 0x1_0000 / 0x100
  {
  }

  lemma Digits(n: nat, a: nat, b: nat, c: nat, h: nat, d0: nat, d1: nat, d2: nat, d3: nat)
    requires n == a * 0x100 + d0 && a == b * 0x100 + d1 && b == c * 0x100 + d2 && c == h * 0x100 + d3
    requires d0 < 0x100 && d1 < 0x100 && d2 < 0x100 && d3 < 0x100
    ensures n % 4294967296 == d3 * 0x100_0000 + d2 * 0x1_0000 + d1 * 0x100 + d0
  {
    var r := d3 * 0x100_0000 + d2 * 0x1_0000 + d1 * 0x100 + d0;
    DigitsSum(a, b, c, h, d0, d1, d2, d3);
    Remainder(n, h, r);
  }

  lemma DigitsSum(a: nat, b: nat, c: nat, h: nat, d0: nat, d1: nat, d2: nat, d3: nat)
    requires a == b * 0x100 + d1 && b == c * 0x100 + d2 && c == h * 0x100 + d3
    requires d0 < 0x100 && d1 < 0x100 && d2 < 0x100 && d3 < 0x100
    ensures a * 0x100 + d0 == h * 4294967296 + (d3 * 0x100_0000 + d2 * 0x1_0000 + d1 * 0x100 + d0)
    ensures d3 * 0x100_0000 + d2 * 0x1_0000 + d1 * 0x100 + d0 < 4294967296
  {
  }

  lemma Remainder(n: nat, h: nat, r: nat)
    requires n == h * 4294967296 + r && r < 4294967296
    ensures n % 4294967296 == r
  {
    var q, m := n / 4294967296, n % 4294967296;
    assert n == q * 4294967296 + m && m < 4294967296;
    SameQuotient(h, r, q, m);
  }

  lemma SameQuotient(h: nat, r: nat, q: nat, m: nat)
    requires h * 4294967296 + r == q * 4294967296 + m && r < 4294967296 && m < 4294967296
    ensures r == m
  {
  }

  lemma FrameBytes(before: seq<byte>, length: seq<byte>, block: seq<byte>)
    requires |length| == 4
    ensures var start, body := |before|, before + ([TRAILER_FLAG] + length) + block;
            && |body| == start + 5 + |block| && body[..start] == before && body[start + 5..] == block
            && body[start] == 0x80 && body[start + 1] == length[0] && body[start + 2] == length[1]
            && body[start + 3] == length[2] && body[start + 4] == length[3]
  {
  }

  lemma ParseUnfolds(b: seq<byte>, n: nat)
    requires |b| >= 5 + n && LengthOf(b[1..5]) == n
    ensures var rest := Parse(b[5 + n..]);
            Parse(b) == if rest.None? then None else Some([Frame(b[0], b[5..5 + n])] + rest.value)
  {
    hide LengthOf;
  }

  lemma ParseStep(f: Frame, rest: seq<byte>)
    requires |f.payload| < LENGTH_RANGE
    ensures Parse(EncodeFrame(f) + rest)
         == if Parse(rest).None? then None else Some([f] + Parse(rest).value)
  {
    hide BigEndian, LengthOf, Parse;
    LengthRoundTrip(|f.payload|);
    FrameSlices(f.flag, BigEndian(|f.payload|), f.payload, rest);
    ParseUnfolds(EncodeFrame(f) + rest, |f.payload|);
  }

  lemma FrameSlices(flag: byte, length: seq<byte>, payload: seq<byte>, rest: seq<byte>)
    requires |length| == 4
    ensures var b := [flag] + length + payload + rest;
            b[0] == flag && b[1..5] == length && b[5..5 + |payload|] == payload && b[5 + |payload|..] == rest
  {
  }

  /** Reading by length prefix recovers all frames shorter than 2^32 bytes. */
  lemma {:induction false} ParseRecoversFrames(fs: seq<Frame>)
    requires forall i :: 0 <= i < |fs| ==> |fs[i].payload| < LENGTH_RANGE
    ensures Parse(EncodeFrames(fs)) == Some(fs)
  {
    if fs != [] {
      ParseRecoversFrames(fs[1..]);
      ParseStep(fs[0], EncodeFrames(fs[1..]));
      assert fs == [fs[0]] + fs[1..];
    }
  }

  lemma {:induction false} EncodeAppend(fs: seq<Frame>, f: Frame)
    ensures EncodeFrames(fs + [f]) == EncodeFrames(fs) + EncodeFrame(f)
  {
    if fs == [] {
      assert fs + [f] == [f];
      assert EncodeFrames([f]) == EncodeFrame(f) + [];
    } else {
      assert (fs + [f])[1..] == fs[1..] + [f];
      EncodeAppend(fs[1..], f);
    }
  }

  /** A body of message frames followed by the trailer frame is recovered exactly when the block is shorter than 2^32 bytes. */
  lemma TrailerFrameRecovered(messages: seq<Frame>, block: seq<byte>)
    requires forall i :: 0 <= i < |messages| ==> |messages[i].payload| < LENGTH_RANGE
    ensures Parse(EncodeFrames(messages) + EncodeFrame(Frame(TRAILER_FLAG, block))) == Some(messages + [Frame(TRAILER_FLAG, block)])
       <==> |block| < LENGTH_RANGE
  {
    EncodeAppend(messages, Frame(TRAILER_FLAG, block));
    var all := messages + [Frame(TRAILER_FLAG, block)];
    if |block| < LENGTH_RANGE {
      ParseRecoversFrames(all);
    } else if Parse(EncodeFrames(all)) == Some(all) {
      ParsedPayloadsAreShort(EncodeFrames(all), |messages|);
      assert false;
    }
  }

  lemma {:induction false} ParsedPayloadsAreShort(b: seq<byte>, i: nat)
    requires Parse(b).Some? && i < |Parse(b).value|
    ensures |Parse(b).value[i].payload| < LENGTH_RANGE
    decreases |b|
  {
    var n := LengthOf(b[1..5]);
    if i > 0 {
      ParsedPayloadsAreShort(b[5 + n..], i - 1);
    }
  }

  /** If the handler writes well-formed message frames, the client reads back every message and the
      trailer block, exactly when that block is shorter than 2^32 bytes. */
  lemma ResponseRecovered(headers: Headers, ops: seq<Op>, base: string, messages: seq<Frame>, block: seq<byte>)
    requires Written(ops) == EncodeFrames(messages)
    requires forall i :: 0 <= i < |messages| ==> |messages[i].payload| < LENGTH_RANGE
    ensures Parse(After(Start(headers), ops, base).body + EncodeFrame(Frame(TRAILER_FLAG, block)))
            == Some(messages + [Frame(TRAILER_FLAG, block)])
       <==> |block| < 4294967296
  {
    hide Parse, EncodeFrame, EncodeFrames, After, Written;
    BodyIsWhatWasWritten(Start(headers), ops, base);
    TrailerFrameRecovered(messages, block);
    assert [] + EncodeFrames(messages) == EncodeFrames(messages);
  }
}
