/** The batch client of `scripts/security_upsert.py` (`ProwessDataFetcher`):
    classifying a `getbatch` response as the terminal zip archive or as a
    status message, the manifest check done after extraction, and the bounded
    poll loop of `fetch_data`.

    The network, the file system and `time.sleep` are not modelled as such:
    the replies of `sendbatch` and `getbatch` and the outcomes of saving and
    extracting the archive are parameters, and every side effect the loop
    performs is recorded, in order, in a list of `Event`s. The number of
    `Poll` events is the poll counter and the number of `Sleep` events the
    sleep counter. */
module Prowess {
  import opened Wrappers
  import opened Text

  type byte = b: int | 0 <= b < 256

  /** The parts of a `requests.Response` the classifier reads. */
  datatype HttpResponse = HttpResponse(contentType: Option<string>, body: seq<byte>)

  /** What one `getbatch` call gives: a response, or an exception. */
  datatype PollReply = TransportFailure | Reply(response: HttpResponse)

  /** What `sendbatch` gives: an exception, or a JSON object whose `token`
      entry may be missing (`None`) or empty. */
  datatype SendReply = SendError | Sent(token: Option<string>)

  // ---------------------------------------------------------------------
  // is_zip_response
  // ---------------------------------------------------------------------

  /** The whitespace `bytes.lstrip()` removes: space, tab, LF, VT, FF, CR. */
  predicate IsByteSpace(b: byte) {
    b == 0x20 || 9 <= b <= 13
  }

  function LStripBytes(s: seq<byte>): seq<byte>
    decreases |s|
  {
    if s != [] && IsByteSpace(s[0]) then LStripBytes(s[1..]) else s
  }

  const ZipMagic: seq<byte> := [0x50, 0x4B]   // "PK"
  const OpenBrace: byte := 0x7B               // "{"
  const OpenBracket: byte := 0x5B             // "["

  /** `ProwessDataFetcher.is_zip_response`: an ordered cascade over the body
      bytes and the lower-cased Content-Type header (absent reads as ""). */
  function IsZipResponse(response: Option<HttpResponse>): bool
  {
    match response
    case None => false
    case Some(r) =>
      var contentType := Lower(match r.contentType case Some(t) => t case None => "");
      var content := r.body;
      if |content| >= 2 && content[..2] == ZipMagic then true
      else if Contains(contentType, "application/zip") || Contains(contentType, "application/octet-stream") then true
      else
        var stripped := LStripBytes(content);
        var head := if stripped == [] then [] else stripped[..1];
        if head == [OpenBrace] || head == [OpenBracket] then false
        else if Contains(contentType, "json") || Contains(contentType, "text") then false
        else true
  }

  /** The classifier written as the decision table it is: ordered tests, each
      with its verdict; the first test that holds decides. */
  datatype Test = ZipSignature | ArchiveContentType | JsonLead | TextualContentType | Otherwise
  datatype Rule = Rule(test: Test, isZip: bool)

  const ClassificationRules: seq<Rule> := [
    Rule(ZipSignature, true),
    Rule(ArchiveContentType, true),
    Rule(JsonLead, false),
    Rule(TextualContentType, false),
    Rule(Otherwise, true)
  ]

  function HeaderText(r: HttpResponse): string {
    match r.contentType
    case Some(t) => Lower(t)
    case None => ""
  }

  /** Each test stated on its own, without reference to the cascade. */
  predicate Holds(t: Test, r: HttpResponse) {
    match t
    case ZipSignature => |r.body| >= 2 && r.body[0] == 0x50 && r.body[1] == 0x4B
    case ArchiveContentType =>
      Contains(HeaderText(r), "application/zip") || Contains(HeaderText(r), "application/octet-stream")
    case JsonLead =>
      exists i :: 0 <= i < |r.body| && LeadsWith(r.body, i)
    case TextualContentType => Contains(HeaderText(r), "json") || Contains(HeaderText(r), "text")
    case Otherwise => true
  }

  /** Byte `i` of `body` is `{` or `[` and only whitespace precedes it. */
  predicate LeadsWith(body: seq<byte>, i: int)
    requires 0 <= i < |body|
  {
    (body[i] == OpenBrace || body[i] == OpenBracket) &&
    forall j :: 0 <= j < i ==> IsByteSpace(body[j])
  }

  function FirstMatch(rules: seq<Rule>, r: HttpResponse): Option<bool>
  {
    if rules == [] then None
    else if Holds(rules[0].test, r) then Some(rules[0].isZip)
    else FirstMatch(rules[1..], r)
  }

  /** The first byte left by `lstrip()` is the first non-whitespace byte. */
  lemma {:induction false} LStripBytesHead(s: seq<byte>)
    ensures var t := LStripBytes(s);
      (t == [] <==> forall j :: 0 <= j < |s| ==> IsByteSpace(s[j])) &&
      (t != [] ==> exists i :: 0 <= i < |s| && t[0] == s[i] && !IsByteSpace(s[i]) &&
                              forall j :: 0 <= j < i ==> IsByteSpace(s[j]))
    decreases |s|
  {
    if s != [] && IsByteSpace(s[0]) {
      LStripBytesHead(s[1..]);
      var t := LStripBytes(s);
      if t != [] {
        var i :| 0 <= i < |s| - 1 && t[0] == s[1..][i] && !IsByteSpace(s[1..][i]) &&
                 forall j :: 0 <= j < i ==> IsByteSpace(s[1..][j]);
        assert forall j :: 0 <= j < i + 1 ==> IsByteSpace(s[j]) by {
          forall j | 0 <= j < i + 1 ensures IsByteSpace(s[j]) {
            if j > 0 { assert s[j] == s[1..][j - 1]; }
          }
        }
      } else {
        forall j | 0 <= j < |s| ensures IsByteSpace(s[j]) {
          if j > 0 { assert s[j] == s[1..][j - 1]; }
        }
      }
    } else if s != [] {
      assert LStripBytes(s)[0] == s[0];
    }
  }

  /** The leading-brace test, stated by position, agrees with looking at the
      first byte that `lstrip()` leaves. */
  lemma JsonLeadAgrees(r: HttpResponse)
    ensures var t := LStripBytes(r.body);
      Holds(JsonLead, r) <==> t != [] && (t[0] == OpenBrace || t[0] == OpenBracket)
  {
    var s := r.body;
    var t := LStripBytes(s);
    LStripBytesHead(s);
    if t != [] {
      var i :| 0 <= i < |s| && t[0] == s[i] && !IsByteSpace(s[i]) &&
               forall j :: 0 <= j < i ==> IsByteSpace(s[j]);
      forall i' | 0 <= i' < |s| && LeadsWith(s, i') ensures i' == i {
        assert !IsByteSpace(s[i']);
      }
      if t[0] == OpenBrace || t[0] == OpenBracket {
        assert LeadsWith(s, i);
      }
    } else {
      forall i' | 0 <= i' < |s| ensures !LeadsWith(s, i') {
        assert IsByteSpace(s[i']);
      }
    }
  }

  /** Each step of the cascade in `is_zip_response` tests what the
      corresponding rule states. */
  lemma CascadeTests(r: HttpResponse)
    ensures IsZipResponse(Some(r)) ==
      (Holds(ZipSignature, r) || Holds(ArchiveContentType, r) ||
       (!Holds(JsonLead, r) && !Holds(TextualContentType, r)))
  {
    JsonLeadAgrees(r);
    var t := LStripBytes(r.body);
    var head := if t == [] then [] else t[..1];
    assert head == [OpenBrace] || head == [OpenBracket] <==> Holds(JsonLead, r);
    assert |r.body| >= 2 ==> (r.body[..2] == ZipMagic <==> Holds(ZipSignature, r));
  }

  /** The cascade in `is_zip_response` decides exactly as its decision table
      does, rule by rule in order. */
  lemma ClassifierFollowsRules(r: HttpResponse)
    ensures FirstMatch(ClassificationRules, r) == Some(IsZipResponse(Some(r)))
  {
    CascadeTests(r);
    var rs := ClassificationRules;
    assert rs[1..] == [Rule(ArchiveContentType, true), Rule(JsonLead, false), Rule(TextualContentType, false), Rule(Otherwise, true)];
    assert rs[1..][1..] == [Rule(JsonLead, false), Rule(TextualContentType, false), Rule(Otherwise, true)];
    assert rs[1..][1..][1..] == [Rule(TextualContentType, false), Rule(Otherwise, true)];
    assert rs[1..][1..][1..][1..] == [Rule(Otherwise, true)];
    if Holds(ZipSignature, r) {
      assert FirstMatch(rs, r) == Some(true);
    } else if Holds(ArchiveContentType, r) {
      assert FirstMatch(rs[1..], r) == Some(true);
    } else if Holds(JsonLead, r) {
      assert FirstMatch(rs[1..][1..], r) == Some(false);
      assert FirstMatch(rs[1..], r) == Some(false);
    } else if Holds(TextualContentType, r) {
      assert FirstMatch(rs[1..][1..][1..], r) == Some(false);
      assert FirstMatch(rs[1..][1..], r) == Some(false);
      assert FirstMatch(rs[1..], r) == Some(false);
    } else {
      assert FirstMatch(rs[1..][1..][1..][1..], r) == Some(true);
      assert FirstMatch(rs[1..][1..][1..], r) == Some(true);
      assert FirstMatch(rs[1..][1..], r) == Some(true);
      assert FirstMatch(rs[1..], r) == Some(true);
    }
  }

  /** The orderings the cascade guarantees: the zip signature and an archive
      content type win over everything; a body led by `{` or `[` is a status
      message whatever textual header it carries; a json or text header marks a
      status message; anything else, an empty body with no header included, is
      taken for the archive. An absent response is never a zip. */
  lemma ClassificationOrder(r: HttpResponse)
    ensures !IsZipResponse(None)
    ensures Holds(ZipSignature, r) ==> IsZipResponse(Some(r))
    ensures Holds(ArchiveContentType, r) ==> IsZipResponse(Some(r))
    ensures !Holds(ZipSignature, r) && !Holds(ArchiveContentType, r) ==>
              (IsZipResponse(Some(r)) <==> !Holds(JsonLead, r) && !Holds(TextualContentType, r))
    ensures r.body == [] && r.contentType == None ==> IsZipResponse(Some(r))
  {
    CascadeTests(r);
    if r.body == [] && r.contentType == None {
      assert !Contains("", "json") && !Contains("", "text");
      assert !Contains("", "application/zip") && !Contains("", "application/octet-stream");
    }
  }

  // ---------------------------------------------------------------------
  // unzip_to_output: the manifest check
  // ---------------------------------------------------------------------

  /** What `unzip_to_output` returns after a successful extraction. */
  datatype ExtractionInfo = ExtractionInfo(extracted: seq<string>, expectedLst: Option<string>, hasLst: Option<bool>)

  /** The report built from the directory listing `extracted` and the token
      (`None` or an empty token means "no token given"). */
  function ExtractionReport(extracted: seq<string>, token: Option<string>): (info: ExtractionInfo)
    ensures info.extracted == extracted
    ensures token.None? || token.value == "" ==> info.expectedLst.None? && info.hasLst.None?
    ensures token.Some? && token.value != "" ==>
              info.expectedLst == Some(token.value + ".lst") &&
              info.hasLst == Some(exists i :: 0 <= i < |extracted| && extracted[i] == token.value + ".lst")
  {
    var expected := match token case Some(t) => if t != "" then Some(t + ".lst") else None case None => None;
    var hasLst := match expected case Some(name) => Some(name in extracted) case None => None;
    ExtractionInfo(extracted, expected, hasLst)
  }

  // ---------------------------------------------------------------------
  // fetch_data
  // ---------------------------------------------------------------------

  /** `poll_interval` (seconds) and `max_wait_minutes` of the fetcher. */
  datatype PollConfig = PollConfig(intervalSeconds: nat, maxWaitMinutes: nat)

  /** The values `ProwessDataFetcher.__init__` sets. */
  const DefaultConfig := PollConfig(30, 30)

  const OutputDir := "output"
  /** `os.path.join('output', '1.json')`: the file sent to long-term storage. */
  const RawFilePath := "output/1.json"

  /** `max(1, int(max_wait_minutes * 60 / poll_interval))`. */
  function MaxAttempts(c: PollConfig): nat
    requires c.intervalSeconds > 0
  {
    var q := (c.maxWaitMinutes * 60) / c.intervalSeconds;
    if q < 1 then 1 else q
  }

  /** The attempt bound is the floor (not the ceiling) of the waiting window
      over the interval: the largest number of whole intervals that fit in
      the window, and never less than one. */
  lemma MaxAttemptsIsFloor(c: PollConfig)
    requires c.intervalSeconds > 0
    ensures MaxAttempts(c) >= 1
    ensures MaxAttempts(c) == 1 || MaxAttempts(c) * c.intervalSeconds <= c.maxWaitMinutes * 60
    ensures c.maxWaitMinutes * 60 < (MaxAttempts(c) + 1) * c.intervalSeconds
  {
    var w, i := c.maxWaitMinutes * 60, c.intervalSeconds;
    var q := w / i;
    assert w == q * i + w % i;
    assert (q + 1) * i == q * i + i;
    if q < 1 {
      assert q == 0;
      assert w < i;
      assert 2 * i == i + i;
    }
  }

  /** With the fetcher's defaults the loop makes at most 60 attempts. */
  lemma DefaultMaxAttempts()
    ensures MaxAttempts(DefaultConfig) == 60
  {
  }

  /** The side effects of `fetch_data`, in the order it performs them. */
  datatype Event =
    | SendBatch                            // the sendbatch request
    | Poll(attempt: nat)                   // one getbatch request
    | Sleep(seconds: nat)                  // time.sleep(poll_interval)
    | SaveZip(path: string)                // save_zip
    | Extract(path: string, dir: string)   // unzip_to_output
    | StoreRaw(path: string, key: string)  // store_raw_prowess_file (failure only logged)
    | RemoveZip(path: string)              // os.remove (failure only logged)

  /** What happens once the archive has arrived: whether `save_zip` succeeds,
      what extraction lists (`None` when it raises), and whether
      `output/1.json` exists afterwards. */
  datatype Archive = Archive(saved: bool, listing: Option<seq<string>>, rawFileExists: bool)

  datatype FetchError = SendFailed | NoToken | SaveFailed | ExtractFailed | TimedOut

  /** The dictionary `fetch_data` returns (`success` is always `True`). */
  datatype Fetched = Fetched(token: string, extractedFiles: seq<string>, outputDir: string)

  datatype Run = Run(outcome: Result<Fetched, FetchError>, events: seq<Event>)

  predicate IsZipReply(reply: PollReply) {
    reply.Reply? && IsZipResponse(Some(reply.response))
  }

  /** Saving, extracting, storing the raw file, removing the zip. */
  function Finish(token: string, a: Archive): Run
  {
    var zip := token + ".zip";
    if !a.saved then Run(Failure(SaveFailed), [SaveZip(zip)])
    else match a.listing
      case None => Run(Failure(ExtractFailed), [SaveZip(zip), Extract(zip, OutputDir)])
      case Some(files) =>
        Run(Success(Fetched(token, ExtractionReport(files, Some(token)).extracted, OutputDir)),
            [SaveZip(zip), Extract(zip, OutputDir)]
            + (if a.rawFileExists then [StoreRaw(RawFilePath, token)] else [])
            + [RemoveZip(zip)])
  }

  /** The poll loop after `attempt` attempts, as a function. */
  function PollFrom(c: PollConfig, token: string, getBatch: nat -> PollReply, a: Archive, attempt: nat): Run
    requires c.intervalSeconds > 0
    decreases MaxAttempts(c) - attempt
  {
    var max := MaxAttempts(c);
    if attempt >= max then Run(Failure(TimedOut), [])
    else
      var k := attempt + 1;
      if IsZipReply(getBatch(k)) then
        var fin := Finish(token, a);
        Run(fin.outcome, [Poll(k)] + fin.events)
      else
        var rest := PollFrom(c, token, getBatch, a, k);
        Run(rest.outcome, [Poll(k)] + (if k < max then [Sleep(c.intervalSeconds)] else []) + rest.events)
  }

  predicate Truthy(token: Option<string>) {
    token.Some? && token.value != ""
  }

  /** `fetch_data` as a function of the replies it receives. */
  function Fetch(c: PollConfig, send: SendReply, getBatch: nat -> PollReply, a: Archive): Run
    requires c.intervalSeconds > 0
  {
    match send
    case SendError => Run(Failure(SendFailed), [SendBatch])
    case Sent(token) =>
      if !Truthy(token) then Run(Failure(NoToken), [SendBatch])
      else
        var polling := PollFrom(c, token.value, getBatch, a, 0);
        Run(polling.outcome, [SendBatch] + polling.events)
  }

  /** The branch of `fetch_data` taken when the zip has arrived: `save_zip`,
      `unzip_to_output`, storing `output/1.json` when it exists, and removing
      the zip. Storage and removal failures are only logged. */
  method Materialize(token: string, a: Archive) returns (outcome: Result<Fetched, FetchError>, events: seq<Event>)
    ensures Run(outcome, events) == Finish(token, a)
  {
    var zipName := token + ".zip";
    events := [SaveZip(zipName)];
    if !a.saved {
      outcome := Failure(SaveFailed);
      return;
    }
    events := events + [Extract(zipName, OutputDir)];
    if a.listing.None? {
      outcome := Failure(ExtractFailed);
      return;
    }
    var info := ExtractionReport(a.listing.value, Some(token));
    if a.rawFileExists {
      events := events + [StoreRaw(RawFilePath, token)];
    }
    events := events + [RemoveZip(zipName)];
    outcome := Success(Fetched(token, info.extracted, OutputDir));
  }

  /** Regrouping the event list around one loop step. */
  lemma Regroup(done: seq<Event>, step: seq<Event>, rest: seq<Event>)
    ensures done + (step + rest) == (done + step) + rest
  {
  }

  /** `ProwessDataFetcher.fetch_data`: submit, then poll until a zip arrives or
      the attempts run out. */
  method FetchData(c: PollConfig, send: SendReply, getBatch: nat -> PollReply, a: Archive)
    returns (outcome: Result<Fetched, FetchError>, events: seq<Event>)
    requires c.intervalSeconds > 0
    ensures Run(outcome, events) == Fetch(c, send, getBatch, a)
  {
    events := [SendBatch];
    if send.SendError? {
      outcome := Failure(SendFailed);
      return;
    }
    if !Truthy(send.token) {
      outcome := Failure(NoToken);
      return;
    }
    var token := send.token.value;
    var maxAttempts := MaxAttempts(c);
    var attempt := 0;
    while attempt < maxAttempts
      invariant attempt <= maxAttempts
      invariant Fetch(c, send, getBatch, a) ==
        Run(PollFrom(c, token, getBatch, a, attempt).outcome,
            events + PollFrom(c, token, getBatch, a, attempt).events)
      decreases maxAttempts - attempt
    {
      ghost var done := events;
      ghost var here := PollFrom(c, token, getBatch, a, attempt);
      attempt := attempt + 1;
      events := events + [Poll(attempt)];
      var reply := getBatch(attempt);
      var isZip := IsZipReply(reply);
      if !isZip {
        ghost var next := PollFrom(c, token, getBatch, a, attempt);
        ghost var step := [Poll(attempt)] + (if attempt < maxAttempts then [Sleep(c.intervalSeconds)] else []);
        assert here.events == step + next.events;
        if attempt < maxAttempts {
          events := events + [Sleep(c.intervalSeconds)];
        }
        assert events == done + step;
        Regroup(done, step, next.events);
        continue;
      }
      var tail;
      outcome, tail := Materialize(token, a);
      assert here.events == [Poll(attempt)] + tail;
      Regroup(done, [Poll(attempt)], tail);
      events := events + tail;
      return;
    }
    outcome := Failure(TimedOut);
  }
}

/** What the poll loop promises: how many requests and sleeps it makes, when it
    times out, and in which order it stores and cleans up. */
module PollProperties {
  import opened Wrappers
  import opened Text
  import opened Prowess

  /** The poll counter: the number of getbatch requests in a trace. */
  function Polls(ev: seq<Event>): nat {
    if ev == [] then 0 else (if ev[0].Poll? then 1 else 0) + Polls(ev[1..])
  }

  /** The sleep counter: the number of `time.sleep` calls in a trace. */
  function Sleeps(ev: seq<Event>): nat {
    if ev == [] then 0 else (if ev[0].Sleep? then 1 else 0) + Sleeps(ev[1..])
  }

  lemma {:induction false} Quiet(ev: seq<Event>)
    requires forall i :: 0 <= i < |ev| ==> !ev[i].Poll? && !ev[i].Sleep?
    ensures Polls(ev) == 0 && Sleeps(ev) == 0
  {
    if ev != [] {
      Quiet(ev[1..]);
    }
  }

  lemma FinishQuiet(token: string, a: Archive)
    ensures Polls(Finish(token, a).events) == 0 && Sleeps(Finish(token, a).events) == 0
  {
    Quiet(Finish(token, a).events);
  }

  /** One step of the loop, unfolded. */
  lemma PollFromStep(c: PollConfig, token: string, g: nat -> PollReply, a: Archive, attempt: nat)
    requires c.intervalSeconds > 0
    requires attempt < MaxAttempts(c)
    ensures var run := PollFrom(c, token, g, a, attempt); var k := attempt + 1;
      && (IsZipReply(g(k)) ==> run == Run(Finish(token, a).outcome, [Poll(k)] + Finish(token, a).events))
      && (!IsZipReply(g(k)) && k < MaxAttempts(c) ==>
            run == Run(PollFrom(c, token, g, a, k).outcome,
                       [Poll(k), Sleep(c.intervalSeconds)] + PollFrom(c, token, g, a, k).events))
      && (!IsZipReply(g(k)) && k == MaxAttempts(c) ==> run == Run(Failure(TimedOut), [Poll(k)]))
  {
    var k := attempt + 1;
    if !IsZipReply(g(k)) && k < MaxAttempts(c) {
      var rest := PollFrom(c, token, g, a, k);
      assert [Poll(k)] + [Sleep(c.intervalSeconds)] + rest.events == [Poll(k), Sleep(c.intervalSeconds)] + rest.events;
    }
  }

  /** A step that gets a zip polls once and then finishes. */
  lemma PollFromHit(c: PollConfig, token: string, g: nat -> PollReply, a: Archive, attempt: nat)
    requires c.intervalSeconds > 0
    requires attempt < MaxAttempts(c)
    requires IsZipReply(g(attempt + 1))
    ensures var run := PollFrom(c, token, g, a, attempt);
      run.outcome == Finish(token, a).outcome && Polls(run.events) == 1 && Sleeps(run.events) == 0
  {
    PollFromStep(c, token, g, a, attempt);
    var ev := PollFrom(c, token, g, a, attempt).events;
    FinishQuiet(token, a);
    assert ev[1..] == Finish(token, a).events;
  }

  /** A step that gets no zip with attempts left polls, sleeps and goes on. */
  lemma PollFromNext(c: PollConfig, token: string, g: nat -> PollReply, a: Archive, attempt: nat)
    requires c.intervalSeconds > 0
    requires attempt + 1 < MaxAttempts(c)
    requires !IsZipReply(g(attempt + 1))
    ensures var run := PollFrom(c, token, g, a, attempt); var rest := PollFrom(c, token, g, a, attempt + 1);
      && run.outcome == rest.outcome
      && Polls(run.events) == 1 + Polls(rest.events)
      && Sleeps(run.events) == 1 + Sleeps(rest.events)
  {
    PollFromStep(c, token, g, a, attempt);
    var ev := PollFrom(c, token, g, a, attempt).events;
    var rest := PollFrom(c, token, g, a, attempt + 1).events;
    assert ev[1..] == [Sleep(c.intervalSeconds)] + rest;
    assert ev[1..][1..] == rest;
  }

  /** The last attempt, getting no zip, polls once and times out. */
  lemma PollFromLast(c: PollConfig, token: string, g: nat -> PollReply, a: Archive, attempt: nat)
    requires c.intervalSeconds > 0
    requires attempt + 1 == MaxAttempts(c)
    requires !IsZipReply(g(attempt + 1))
    ensures var run := PollFrom(c, token, g, a, attempt);
      run.outcome == Failure(TimedOut) && Polls(run.events) == 1 && Sleeps(run.events) == 0
  {
    PollFromStep(c, token, g, a, attempt);
  }

  /** The loop entered after `attempt` attempts polls at most the remaining
      number of times, at least once when attempts remain, and sleeps after
      every poll but the last. */
  lemma {:induction false} PollFromCounts(c: PollConfig, token: string, g: nat -> PollReply, a: Archive, attempt: nat)
    requires c.intervalSeconds > 0
    requires attempt <= MaxAttempts(c)
    ensures var run := PollFrom(c, token, g, a, attempt); var n := Polls(run.events);
      && n <= MaxAttempts(c) - attempt
      && (attempt < MaxAttempts(c) ==> 1 <= n && Sleeps(run.events) == n - 1)
    decreases MaxAttempts(c) - attempt
  {
    var m := MaxAttempts(c);
    var k := attempt + 1;
    if attempt < m {
      if IsZipReply(g(k)) {
        PollFromHit(c, token, g, a, attempt);
      } else if k < m {
        PollFromNext(c, token, g, a, attempt);
        PollFromCounts(c, token, g, a, k);
      } else {
        PollFromLast(c, token, g, a, attempt);
      }
    }
  }

  /** The loop entered after `attempt` attempts times out exactly when none of
      the remaining replies is a zip. */
  lemma {:induction false} PollFromTimedOut(c: PollConfig, token: string, g: nat -> PollReply, a: Archive, attempt: nat)
    requires c.intervalSeconds > 0
    requires attempt <= MaxAttempts(c)
    ensures PollFrom(c, token, g, a, attempt).outcome == Failure(TimedOut) <==> NoZipAfter(c, g, attempt)
    decreases MaxAttempts(c) - attempt
  {
    var m := MaxAttempts(c);
    var k := attempt + 1;
    if attempt < m {
      if IsZipReply(g(k)) {
        PollFromHit(c, token, g, a, attempt);
        assert !NoZipAfter(c, g, attempt);
      } else if k < m {
        PollFromNext(c, token, g, a, attempt);
        PollFromTimedOut(c, token, g, a, k);
        assert NoZipAfter(c, g, attempt) <==> NoZipAfter(c, g, k);
      } else {
        PollFromLast(c, token, g, a, attempt);
        assert NoZipAfter(c, g, attempt);
      }
    }
  }

  /** A loop that times out has used every remaining attempt. */
  lemma {:induction false} PollFromTimeoutPolls(c: PollConfig, token: string, g: nat -> PollReply, a: Archive, attempt: nat)
    requires c.intervalSeconds > 0
    requires attempt <= MaxAttempts(c)
    requires PollFrom(c, token, g, a, attempt).outcome == Failure(TimedOut)
    ensures Polls(PollFrom(c, token, g, a, attempt).events) == MaxAttempts(c) - attempt
    decreases MaxAttempts(c) - attempt
  {
    var m := MaxAttempts(c);
    var k := attempt + 1;
    if attempt < m {
      if IsZipReply(g(k)) {
        PollFromHit(c, token, g, a, attempt);
        FinishNeverTimesOut(token, a);
      } else if k < m {
        PollFromNext(c, token, g, a, attempt);
        PollFromTimeoutPolls(c, token, g, a, k);
      } else {
        PollFromLast(c, token, g, a, attempt);
      }
    }
  }

  /** Materialising the archive never reports a timeout. */
  lemma FinishNeverTimesOut(token: string, a: Archive)
    ensures Finish(token, a).outcome != Failure(TimedOut)
  {
  }

  /** The loop entered after `attempt` attempts times out exactly when none of
      the remaining replies is a zip, and then it has used every attempt. */
  lemma PollFromTimeout(c: PollConfig, token: string, g: nat -> PollReply, a: Archive, attempt: nat)
    requires c.intervalSeconds > 0
    requires attempt <= MaxAttempts(c)
    ensures var run := PollFrom(c, token, g, a, attempt);
      && (run.outcome == Failure(TimedOut) <==> NoZipAfter(c, g, attempt))
      && (run.outcome == Failure(TimedOut) ==> Polls(run.events) == MaxAttempts(c) - attempt)
  {
    PollFromTimedOut(c, token, g, a, attempt);
    if PollFrom(c, token, g, a, attempt).outcome == Failure(TimedOut) {
      PollFromTimeoutPolls(c, token, g, a, attempt);
    }
  }

  /** None of the replies after attempt `attempt` is a zip. */
  predicate NoZipAfter(c: PollConfig, g: nat -> PollReply, attempt: nat)
    requires c.intervalSeconds > 0
  {
    forall j :: attempt < j <= MaxAttempts(c) ==> !IsZipReply(g(j))
  }

  /** When the loop entered after `attempt` attempts does not time out, it
      stopped at the first zip reply, after one poll per attempt up to it, and
      the result is what materialising the archive gives. */
  lemma {:induction false} PollFromFirstZip(c: PollConfig, token: string, g: nat -> PollReply, a: Archive, attempt: nat)
    requires c.intervalSeconds > 0
    requires attempt < MaxAttempts(c)
    requires PollFrom(c, token, g, a, attempt).outcome != Failure(TimedOut)
    ensures var run := PollFrom(c, token, g, a, attempt); var n := Polls(run.events);
      && IsZipReply(g(attempt + n))
      && (forall j :: attempt < j < attempt + n ==> !IsZipReply(g(j)))
      && run.outcome == Finish(token, a).outcome
    decreases MaxAttempts(c) - attempt
  {
    var m := MaxAttempts(c);
    var k := attempt + 1;
    if IsZipReply(g(k)) {
      PollFromHit(c, token, g, a, attempt);
    } else if k < m {
      PollFromNext(c, token, g, a, attempt);
      PollFromFirstZip(c, token, g, a, k);
    } else {
      PollFromLast(c, token, g, a, attempt);
    }
  }

  /** No getbatch request is made unless sendbatch returned a non-empty
      token; with a token the loop makes between one and `MaxAttempts`
      requests (60 with the defaults) and sleeps once fewer than it polls. A
      timeout happens exactly when none of the `MaxAttempts` replies is a zip,
      after all of them were made; otherwise the run ends at the first zip
      reply, after exactly as many polls as that reply's attempt number and one
      sleep fewer, and then reports what materialising the archive reports: a
      failed request or a status reply never ends the loop early. */
  lemma FetchPolling(c: PollConfig, send: SendReply, g: nat -> PollReply, a: Archive)
    requires c.intervalSeconds > 0
    ensures var run := Fetch(c, send, g, a); var n := Polls(run.events);
      && (send.SendError? ==> run.outcome == Failure(SendFailed) && n == 0)
      && (send.Sent? && !Truthy(send.token) ==> run.outcome == Failure(NoToken) && n == 0)
      && (send.Sent? && Truthy(send.token) ==>
            && 1 <= n <= MaxAttempts(c)
            && Sleeps(run.events) == n - 1
            && (run.outcome == Failure(TimedOut) <==> NoZipAfter(c, g, 0))
            && (run.outcome == Failure(TimedOut) ==> n == MaxAttempts(c))
            && (run.outcome != Failure(TimedOut) ==>
                  && IsZipReply(g(n))
                  && (forall j :: 1 <= j < n ==> !IsZipReply(g(j)))
                  && run.outcome == Finish(send.token.value, a).outcome))
  {
    var run := Fetch(c, send, g, a);
    if send.Sent? && Truthy(send.token) {
      var polling := PollFrom(c, send.token.value, g, a, 0);
      PollFromCounts(c, send.token.value, g, a, 0);
      PollFromTimeout(c, send.token.value, g, a, 0);
      if polling.outcome != Failure(TimedOut) {
        PollFromFirstZip(c, send.token.value, g, a, 0);
      }
      assert run.events[1..] == polling.events;
    }
  }

  /** What `Finish` reports and the order of its last two effects. */
  lemma FinishShape(token: string, a: Archive)
    ensures var fin := Finish(token, a);
      && (fin.outcome.Success? <==> a.saved && a.listing.Some?)
      && (fin.outcome.Success? ==>
            && fin.outcome.value == Fetched(token, a.listing.value, OutputDir)
            && |fin.events| >= 3
            && fin.events[|fin.events| - 1] == RemoveZip(token + ".zip")
            && (a.rawFileExists ==> fin.events[|fin.events| - 2] == StoreRaw(RawFilePath, token)))
      && (forall i :: 0 <= i < |fin.events| && fin.events[i].StoreRaw? ==> fin.events[i].path == RawFilePath)
  {
  }

  /** The last event of a successful run is the removal of the zip, and when
      `output/1.json` exists it is stored, under the token, just before that
      removal. A successful run reports the token and the extracted files. */
  lemma PersistThenCleanup(c: PollConfig, send: SendReply, g: nat -> PollReply, a: Archive)
    requires c.intervalSeconds > 0
    requires Fetch(c, send, g, a).outcome.Success?
    ensures var run := Fetch(c, send, g, a);
      && send.Sent? && Truthy(send.token) && a.listing.Some?
      && run.outcome.value == Fetched(send.token.value, a.listing.value, OutputDir)
      && |run.events| >= 2
      && run.events[|run.events| - 1] == RemoveZip(send.token.value + ".zip")
      && (a.rawFileExists ==> run.events[|run.events| - 2] == StoreRaw(RawFilePath, send.token.value))
  {
    FetchEndsWithFinish(c, send, g, a);
    var t := send.token.value;
    FinishShape(t, a);
    var fin := Finish(t, a).events;
    var ev := Fetch(c, send, g, a).events;
    assert ev[|ev| - 1] == fin[|fin| - 1] by {
      assert ev[|ev| - |fin|..][|fin| - 1] == ev[|ev| - 1];
    }
    assert ev[|ev| - 2] == fin[|fin| - 2] by {
      assert ev[|ev| - |fin|..][|fin| - 2] == ev[|ev| - 2];
    }
  }

  /** A fetch that got a token is the poll loop after the sendbatch request. */
  lemma FetchWithToken(c: PollConfig, send: SendReply, g: nat -> PollReply, a: Archive)
    requires c.intervalSeconds > 0
    requires send.Sent? && Truthy(send.token)
    ensures var polling := PollFrom(c, send.token.value, g, a, 0);
      Fetch(c, send, g, a) == Run(polling.outcome, [SendBatch] + polling.events)
  {
  }

  /** A successful fetch had a token. */
  lemma FetchSuccessHasToken(c: PollConfig, send: SendReply, g: nat -> PollReply, a: Archive)
    requires c.intervalSeconds > 0
    requires Fetch(c, send, g, a).outcome.Success?
    ensures send.Sent? && Truthy(send.token)
  {
  }

  /** A successful fetch reports what materialising the archive reports, and
      its trace ends with the events of that materialisation. */
  lemma FetchEndsWithFinish(c: PollConfig, send: SendReply, g: nat -> PollReply, a: Archive)
    requires c.intervalSeconds > 0
    requires Fetch(c, send, g, a).outcome.Success?
    ensures send.Sent? && Truthy(send.token)
    ensures Fetch(c, send, g, a).outcome == Finish(send.token.value, a).outcome
    ensures var ev := Fetch(c, send, g, a).events; var fin := Finish(send.token.value, a).events;
      |fin| <= |ev| && ev[|ev| - |fin|..] == fin
  {
    FetchSuccessHasToken(c, send, g, a);
    var t := send.token.value;
    FetchWithToken(c, send, g, a);
    PollFromFirstZip(c, t, g, a, 0);
    PollEndsWithFinish(c, t, g, a, 0);
    SuffixAfterPrefix([SendBatch], PollFrom(c, t, g, a, 0).events, Finish(t, a).events);
  }

  /** A suffix stays a suffix when an event is put in front. */
  lemma SuffixAfterPrefix(pre: seq<Event>, ev: seq<Event>, fin: seq<Event>)
    requires |fin| <= |ev| && ev[|ev| - |fin|..] == fin
    ensures var s := pre + ev; |fin| <= |s| && s[|s| - |fin|..] == fin
  {
    var s := pre + ev;
    assert s[|s| - |fin|..] == ev[|ev| - |fin|..];
  }

  /** Nothing but `output/1.json` is ever sent to long-term storage; the zip
      itself never is. */
  lemma StoresRawFileOnly(c: PollConfig, send: SendReply, g: nat -> PollReply, a: Archive)
    requires c.intervalSeconds > 0
    ensures StoresRawOnly(Fetch(c, send, g, a).events)
  {
    if send.Sent? && Truthy(send.token) {
      var t := send.token.value;
      PollStoresRawOnly(c, t, g, a, 0);
      var polling := PollFrom(c, t, g, a, 0);
      var ev := Fetch(c, send, g, a).events;
      assert ev == [SendBatch] + polling.events;
      assert StoresRawOnly(polling.events);
      forall i | 0 <= i < |ev| && ev[i].StoreRaw? ensures ev[i].path == RawFilePath {
        assert i > 0;
        assert ev[i] == polling.events[i - 1];
      }
    }
  }

  /** Every storage event of `ev` stores `output/1.json`. */
  predicate StoresRawOnly(ev: seq<Event>) {
    forall i :: 0 <= i < |ev| && ev[i].StoreRaw? ==> ev[i].path == RawFilePath
  }

  /** Storage events of a concatenation are those of its parts. */
  lemma StoresRawOnlyAppend(ev: seq<Event>, more: seq<Event>)
    requires StoresRawOnly(ev) && StoresRawOnly(more)
    ensures StoresRawOnly(ev + more)
  {
    forall i | 0 <= i < |ev + more| && (ev + more)[i].StoreRaw?
      ensures (ev + more)[i].path == RawFilePath
    {
      if i >= |ev| {
        assert (ev + more)[i] == more[i - |ev|];
      }
    }
  }

  lemma {:induction false} PollStoresRawOnly(c: PollConfig, token: string, g: nat -> PollReply, a: Archive, attempt: nat)
    requires c.intervalSeconds > 0
    ensures StoresRawOnly(PollFrom(c, token, g, a, attempt).events)
    decreases MaxAttempts(c) - attempt
  {
    var m := MaxAttempts(c);
    if attempt < m {
      var k := attempt + 1;
      PollFromStep(c, token, g, a, attempt);
      if IsZipReply(g(k)) {
        FinishShape(token, a);
        StoresRawOnlyAppend([Poll(k)], Finish(token, a).events);
      } else if k < m {
        PollStoresRawOnly(c, token, g, a, k);
        StoresRawOnlyAppend([Poll(k), Sleep(c.intervalSeconds)], PollFrom(c, token, g, a, k).events);
      }
    }
  }

  /** A run of the loop that does not time out ends with the events of
      `Finish`. */
  lemma {:induction false} PollEndsWithFinish(c: PollConfig, token: string, g: nat -> PollReply, a: Archive, attempt: nat)
    requires c.intervalSeconds > 0
    requires PollFrom(c, token, g, a, attempt).outcome != Failure(TimedOut)
    ensures var ev := PollFrom(c, token, g, a, attempt).events; var fin := Finish(token, a).events;
      |fin| <= |ev| && ev[|ev| - |fin|..] == fin
    decreases MaxAttempts(c) - attempt
  {
    var k := attempt + 1;
    PollFromStep(c, token, g, a, attempt);
    var fin := Finish(token, a).events;
    if IsZipReply(g(k)) {
      SuffixAfterPrefix([Poll(k)], fin, fin);
    } else {
      PollEndsWithFinish(c, token, g, a, k);
      SuffixAfterPrefix([Poll(k), Sleep(c.intervalSeconds)], PollFrom(c, token, g, a, k).events, fin);
    }
  }

  /** A JSON status object served as `application/json`. */
  const StatusReply := Reply(HttpResponse(Some("application/json"), [0x7B, 0x7D]))
  /** A body that starts with the zip signature `PK\x03\x04`, with no header. */
  const ZipReply := Reply(HttpResponse(None, [0x50, 0x4B, 0x03, 0x04]))

  /** A JSON status object is not taken for the archive. */
  lemma StatusReplyIsNotZip()
    ensures !IsZipReply(StatusReply)
  {
    var st := StatusReply.response;
    CascadeTests(st);
    JsonHeaderIsNotArchive(st);
    assert LeadsWith(st.body, 0);
  }

  /** A JSON content type names no archive type. */
  lemma JsonHeaderIsNotArchive(r: HttpResponse)
    requires r.contentType == Some("application/json")
    ensures !Holds(ArchiveContentType, r)
  {
    assert HeaderText(r) == Lower("application/json") == "application/json";
    NoArchiveMarker(HeaderText(r));
  }

  /** A header without a `z` or an `e` names neither archive type. */
  lemma NoArchiveMarker(h: string)
    requires 'z' !in h && 'e' !in h
    ensures !Contains(h, "application/zip") && !Contains(h, "application/octet-stream")
  {
    ContainedCharsOccur(h, "application/zip", 12);
    ContainedCharsOccur(h, "application/octet-stream", 15);
  }

  /** A body with the zip signature is taken for the archive. */
  lemma ZipReplyIsZip()
    ensures IsZipReply(ZipReply)
  {
    assert ZipReply.response.body[..2] == ZipMagic;
  }

  /** The end-to-end scenario: token "T1"; the first two getbatch calls answer
      with a JSON status object and the third with a body starting `PK\x03\x04`;
      the loop then polls three times, sleeps twice, and reports the files the
      archive held; the manifest check of that listing, which has no
      `T1.lst`, says the manifest is missing. */
  lemma ThreePollScenario(a: Archive)
    requires a == Archive(true, Some(["1.json"]), true)
    ensures var g := (k: nat) => if k < 3 then StatusReply else ZipReply;
      var run := Fetch(DefaultConfig, Sent(Some("T1")), g, a);
      && run.outcome == Success(Fetched("T1", ["1.json"], OutputDir))
      && Polls(run.events) == 3 && Sleeps(run.events) == 2
      && ExtractionReport(["1.json"], Some("T1")).hasLst == Some(false)
  {
    var g := (k: nat) => if k < 3 then StatusReply else ZipReply;
    DefaultMaxAttempts();
    StatusReplyIsNotZip();
    ZipReplyIsZip();
    assert !IsZipReply(g(1)) && !IsZipReply(g(2)) && IsZipReply(g(3));
    FetchPolling(DefaultConfig, Sent(Some("T1")), g, a);
    var run := Fetch(DefaultConfig, Sent(Some("T1")), g, a);
    var n := Polls(run.events);
    assert run.outcome != Failure(TimedOut);
    assert forall k: nat :: k < 3 ==> !IsZipReply(g(k));
    assert n == 3;
    assert "T1" + ".lst" == "T1.lst";
    assert "1.json" != "T1.lst";
  }
}
