/** The security service: identifier dispatch, the input guards of the name and
    industry lookups, the pagination flag, search de-duplication and record
    validation. The service's only state is its repository, which is passed to
    every operation; each repository query either answers or fails with the
    message of the exception it raises. */
module Securities {
  import opened Wrappers
  import opened Text
  import opened Dicts

  /** A repository row: a security's columns by name. The empty record stands
      for a lookup that found nothing (`None` and `{}` are both falsy). */
  type Record = Dict<string, Scalar>

  /** The queries the service makes of its repository. */
  datatype Repository = Repository(
    byIsin: string -> Result<Record, string>,
    byNseSymbol: string -> Result<Record, string>,
    byBseCode: string -> Result<Record, string>,
    byCompanyName: string -> Result<seq<Record>, string>,
    byIndustry: string -> Result<seq<Record>, string>,
    page: (int, int) -> Result<seq<Record>, string>,
    count: Result<int, string>)

  /** What the service raises. `ValidationFailed` is the `InvalidInputError`
      of the validator, whose message joins `errors` with `"; "`; `NotSized`
      is the `TypeError` of `len` on an ISIN that is not a string; `TooLarge`
      is the `OverflowError` of `float` on an integer beyond every double. */
  datatype ServiceError =
    | InvalidInput(message: string, field: string)
    | NotFound(value: string, field: string)
    | Raised(cause: string)
    | ValidationFailed(errors: seq<string>)
    | NotSized(field: string)
    | TooLarge(field: string)

  /** `not s or not s.strip()`. */
  predicate Blank(s: string) {
    s == [] || Strip(s) == []
  }

  /** A string is blank exactly when it is all whitespace, and stripping it
      does not change that. */
  lemma BlankSpaces(s: string)
    ensures Blank(s) <==> forall k :: 0 <= k < |s| ==> IsSpace(s[k])
    ensures Blank(s) <==> Strip(s) == []
    ensures Blank(Strip(s)) <==> Blank(s)
  {
    StripEmpty(s);
    StripShape(s, IsSpace);
  }

  // ---------------------------------------------------------------------
  // Lookup by identifier
  // ---------------------------------------------------------------------

  /** Twelve characters starting with `INE`. */
  predicate IsinShaped(id: string) {
    |id| == 12 && StartsWith(id, "INE")
  }

  /** Three to twenty letters and digits. */
  predicate NseShaped(id: string) {
    3 <= |id| <= 20 && AllAlnum(id)
  }

  /** Six digits. */
  predicate BseShaped(id: string) {
    AllDigits(id) && |id| == 6
  }

  /** One lookup of the dispatch: a non-empty record ends it, an empty one
      falls through to `next`, an exception propagates. */
  function Attempt(reply: Result<Record, string>, next: Result<Record, ServiceError>): Result<Record, ServiceError> {
    match reply
    case Failure(e) => Failure(Raised(e))
    case Success(rec) => if rec != [] then Success(rec) else next
  }

  /** `get_security_by_identifier`: the identifier is trimmed, then tried as an
      ISIN, an NSE symbol and a BSE code, each only when it has that shape. */
  function GetSecurityByIdentifier(repo: Repository, identifier: string): Result<Record, ServiceError> {
    if Blank(identifier) then Failure(InvalidInput("Identifier cannot be empty", "identifier"))
    else
      var id := Strip(identifier);
      var notFound := Failure(NotFound(id, "identifier"));
      var viaBse := if BseShaped(id) then Attempt(repo.byBseCode(id), notFound) else notFound;
      var viaNse := if NseShaped(id) then Attempt(repo.byNseSymbol(id), viaBse) else viaBse;
      if IsinShaped(id) then Attempt(repo.byIsin(id), viaNse) else viaNse
  }

  /** The three lookups. */
  datatype Route = ByIsin | ByNseSymbol | ByBseCode

  function Query(repo: Repository, route: Route, id: string): Result<Record, string> {
    match route
    case ByIsin => repo.byIsin(id)
    case ByNseSymbol => repo.byNseSymbol(id)
    case ByBseCode => repo.byBseCode(id)
  }

  /** The lookups an identifier qualifies for, in the order they are tried. */
  function Routes(id: string): (routes: seq<Route>)
    ensures ByIsin in routes <==> IsinShaped(id)
    ensures ByNseSymbol in routes <==> NseShaped(id)
    ensures ByBseCode in routes <==> BseShaped(id)
  {
    (if IsinShaped(id) then [ByIsin] else []) +
    (if NseShaped(id) then [ByNseSymbol] else []) +
    (if BseShaped(id) then [ByBseCode] else [])
  }

  /** Reference semantics of the dispatch: the first of `routes` to find a
      record wins. */
  function FirstHit(repo: Repository, routes: seq<Route>, id: string): Result<Record, ServiceError>
    decreases |routes|
  {
    if routes == [] then Failure(NotFound(id, "identifier"))
    else Attempt(Query(repo, routes[0], id), FirstHit(repo, routes[1..], id))
  }

  /** Every route before `k` came back empty. */
  predicate EmptyBefore(repo: Repository, routes: seq<Route>, id: string, k: int)
    requires 0 <= k <= |routes|
  {
    forall j :: 0 <= j < k ==> Query(repo, routes[j], id) == Success([])
  }

  /** An empty first reply hands over to the remaining routes. */
  lemma EmptyBeforeShift(repo: Repository, routes: seq<Route>, id: string, k: int)
    requires 0 <= k < |routes| && Query(repo, routes[0], id) == Success([])
    requires EmptyBefore(repo, routes[1..], id, k)
    ensures EmptyBefore(repo, routes, id, k + 1)
  {
    forall j | 0 <= j < k + 1 ensures Query(repo, routes[j], id) == Success([]) {
      if j > 0 {
        assert routes[j] == routes[1..][j - 1];
      }
    }
  }

  /** A hit is a non-empty record found by some route after every earlier
      route came back empty. */
  lemma {:induction false} FirstHitFound(repo: Repository, routes: seq<Route>, id: string)
    requires FirstHit(repo, routes, id).Success?
    ensures var r := FirstHit(repo, routes, id);
      r.value != [] &&
      exists k :: 0 <= k < |routes| && Query(repo, routes[k], id) == Success(r.value) && EmptyBefore(repo, routes, id, k)
    decreases |routes|
  {
    var r := FirstHit(repo, routes, id);
    var rest := routes[1..];
    if Query(repo, routes[0], id) == Success([]) {
      assert FirstHit(repo, rest, id) == r;
      FirstHitFound(repo, rest, id);
      var k :| 0 <= k < |rest| && Query(repo, rest[k], id) == Success(r.value) && EmptyBefore(repo, rest, id, k);
      assert rest[k] == routes[k + 1];
      EmptyBeforeShift(repo, routes, id, k);
    } else {
      assert EmptyBefore(repo, routes, id, 0);
    }
  }

  /** An exception is raised by some route after every earlier one came back
      empty. */
  lemma {:induction false} FirstHitRaised(repo: Repository, routes: seq<Route>, id: string)
    requires FirstHit(repo, routes, id).Failure? && FirstHit(repo, routes, id).error.Raised?
    ensures var r := FirstHit(repo, routes, id);
      exists k :: 0 <= k < |routes| && Query(repo, routes[k], id) == Failure(r.error.cause) && EmptyBefore(repo, routes, id, k)
    decreases |routes|
  {
    var r := FirstHit(repo, routes, id);
    var rest := routes[1..];
    if Query(repo, routes[0], id) == Success([]) {
      assert FirstHit(repo, rest, id) == r;
      FirstHitRaised(repo, rest, id);
      var k :| 0 <= k < |rest| && Query(repo, rest[k], id) == Failure(r.error.cause) && EmptyBefore(repo, rest, id, k);
      assert rest[k] == routes[k + 1];
      EmptyBeforeShift(repo, routes, id, k);
    } else {
      assert EmptyBefore(repo, routes, id, 0);
    }
  }

  /** Nothing is found exactly when every route comes back empty. */
  lemma {:induction false} FirstHitNotFound(repo: Repository, routes: seq<Route>, id: string)
    ensures FirstHit(repo, routes, id) == Failure(NotFound(id, "identifier")) <==> EmptyBefore(repo, routes, id, |routes|)
    decreases |routes|
  {
    if routes != [] {
      var rest := routes[1..];
      FirstHitNotFound(repo, rest, id);
      if Query(repo, routes[0], id) == Success([]) {
        assert FirstHit(repo, routes, id) == FirstHit(repo, rest, id);
        if EmptyBefore(repo, rest, id, |rest|) {
          EmptyBeforeShift(repo, routes, id, |rest|);
        }
      }
    }
  }

  /** The three outcomes of the dispatch together. */
  lemma FirstHitOutcome(repo: Repository, routes: seq<Route>, id: string)
    ensures var r := FirstHit(repo, routes, id);
      && (r.Success? ==>
            r.value != [] &&
            exists k :: 0 <= k < |routes| && Query(repo, routes[k], id) == Success(r.value) && EmptyBefore(repo, routes, id, k))
      && (r.Failure? && r.error.Raised? ==>
            exists k :: 0 <= k < |routes| && Query(repo, routes[k], id) == Failure(r.error.cause) && EmptyBefore(repo, routes, id, k))
      && (r == Failure(NotFound(id, "identifier")) <==> EmptyBefore(repo, routes, id, |routes|))
  {
    var r := FirstHit(repo, routes, id);
    if r.Success? {
      FirstHitFound(repo, routes, id);
    }
    if r.Failure? && r.error.Raised? {
      FirstHitRaised(repo, routes, id);
    }
    FirstHitNotFound(repo, routes, id);
  }

  /** The dispatch tries exactly the lookups the trimmed identifier qualifies
      for, ISIN first, then NSE symbol, then BSE code, and the first record
      found wins. */
  lemma IdentifierDispatch(repo: Repository, identifier: string)
    requires !Blank(identifier)
    ensures GetSecurityByIdentifier(repo, identifier) == FirstHit(repo, Routes(Strip(identifier)), Strip(identifier))
  {
    var id := Strip(identifier);
    var routes := Routes(id);
    var tail := (if NseShaped(id) then [ByNseSymbol] else []) + (if BseShaped(id) then [ByBseCode] else []);
    var last := if BseShaped(id) then [ByBseCode] else [];
    assert FirstHit(repo, last, id) == (if BseShaped(id) then Attempt(repo.byBseCode(id), Failure(NotFound(id, "identifier"))) else Failure(NotFound(id, "identifier")));
    if NseShaped(id) {
      assert tail[1..] == last;
    }
    if IsinShaped(id) {
      assert routes[1..] == tail;
    } else {
      assert routes == tail;
    }
  }

  /** An empty or all-whitespace identifier is rejected as invalid input, and
      any other identifier is never rejected as invalid. */
  lemma IdentifierInvalid(repo: Repository, identifier: string)
    ensures GetSecurityByIdentifier(repo, identifier).Failure? && GetSecurityByIdentifier(repo, identifier).error.InvalidInput?
            <==> forall k :: 0 <= k < |identifier| ==> IsSpace(identifier[k])
  {
    BlankSpaces(identifier);
    if !Blank(identifier) {
      var id := Strip(identifier);
      IdentifierDispatch(repo, identifier);
      FirstHitOutcome(repo, Routes(id), id);
    }
  }

  /** Surrounding whitespace never changes the outcome of the dispatch. */
  lemma IdentifierTrimmed(repo: Repository, identifier: string)
    ensures GetSecurityByIdentifier(repo, Strip(identifier)) == GetSecurityByIdentifier(repo, identifier)
  {
    BlankSpaces(identifier);
    StripShape(identifier, IsSpace);
  }

  /** A six-digit code qualifies as an NSE symbol and as a BSE code, and is
      tried as an NSE symbol first. */
  lemma SixDigitCodeRoutes(id: string)
    requires BseShaped(id)
    ensures Routes(id) == [ByNseSymbol, ByBseCode]
  {
  }

  /** So an NSE symbol hit on a six-digit code shadows the BSE code lookup. */
  lemma SixDigitCodeNseFirst(repo: Repository, identifier: string)
    requires BseShaped(Strip(identifier))
    requires repo.byNseSymbol(Strip(identifier)).Success? && repo.byNseSymbol(Strip(identifier)).value != []
    ensures GetSecurityByIdentifier(repo, identifier) == Success(repo.byNseSymbol(Strip(identifier)).value)
  {
  }

  // ---------------------------------------------------------------------
  // Lookup by company name and by industry
  // ---------------------------------------------------------------------

  /** A search's records, with an empty answer reported as not found. */
  function Found(reply: Result<seq<Record>, string>, value: string, field: string): (r: Result<seq<Record>, ServiceError>)
    ensures r.Success? <==> reply.Success? && reply.value != []
    ensures r.Success? ==> r.value == reply.value
  {
    match reply
    case Failure(e) => Failure(Raised(e))
    case Success(records) => if records == [] then Failure(NotFound(value, field)) else Success(records)
  }

  /** `get_security_by_company_name`: quote characters, but not whitespace,
      are removed before the length check and the search. */
  function GetSecurityByCompanyName(repo: Repository, companyName: string): Result<seq<Record>, ServiceError> {
    if Blank(companyName) then Failure(InvalidInput("Company name cannot be empty", "company_name"))
    else
      var name := StripQuotes(companyName);
      if |name| < 2 then Failure(InvalidInput("Company name must be at least 2 characters long", "company_name"))
      else Found(repo.byCompanyName(name), name, "company_name")
  }

  /** A company name is rejected exactly when it is all whitespace or shorter
      than two characters once quotes are removed; otherwise the repository is
      asked for the unquoted name and its non-empty answer is returned. */
  lemma CompanyNameGuards(repo: Repository, companyName: string)
    ensures var r := GetSecurityByCompanyName(repo, companyName);
      && (r.Failure? && r.error.InvalidInput? <==>
            (forall k :: 0 <= k < |companyName| ==> IsSpace(companyName[k])) || |StripQuotes(companyName)| < 2)
      && (r.Success? <==>
            && !Blank(companyName) && |StripQuotes(companyName)| >= 2
            && repo.byCompanyName(StripQuotes(companyName)).Success?
            && repo.byCompanyName(StripQuotes(companyName)).value != [])
      && (r.Success? ==> r.value == repo.byCompanyName(StripQuotes(companyName)).value)
  {
    BlankSpaces(companyName);
  }

  /** A quoted single letter is not blank, yet too short once unquoted. */
  lemma QuotedLetterRejected(repo: Repository)
    ensures GetSecurityByCompanyName(repo, "\"A\"") ==
            Failure(InvalidInput("Company name must be at least 2 characters long", "company_name"))
  {
    assert !Blank("\"A\"") by {
      BlankSpaces("\"A\"");
      assert !IsSpace("\"A\""[1]);
    }
    assert LStripBy("\"A\"", IsQuote) == "A\"";
    assert StripQuotes("\"A\"") == "A";
  }

  /** `get_securities_by_industry`: whitespace is trimmed before the length
      check and the search. */
  function GetSecuritiesByIndustry(repo: Repository, industry: string): Result<seq<Record>, ServiceError> {
    if Blank(industry) then Failure(InvalidInput("Industry cannot be empty", "industry"))
    else
      var name := Strip(industry);
      if |name| < 2 then Failure(InvalidInput("Industry must be at least 2 characters long", "industry"))
      else Found(repo.byIndustry(name), name, "industry")
  }

  /** An industry is rejected exactly when fewer than two characters remain
      after trimming; otherwise the repository is asked for the trimmed name
      and its non-empty answer is returned. */
  lemma IndustryGuards(repo: Repository, industry: string)
    ensures var r := GetSecuritiesByIndustry(repo, industry);
      && (r.Failure? && r.error.InvalidInput? <==> |Strip(industry)| < 2)
      && (r.Success? <==>
            && |Strip(industry)| >= 2
            && repo.byIndustry(Strip(industry)).Success?
            && repo.byIndustry(Strip(industry)).value != [])
      && (r.Success? ==> r.value == repo.byIndustry(Strip(industry)).value)
  {
    BlankSpaces(industry);
  }

  // ---------------------------------------------------------------------
  // Listing with pagination
  // ---------------------------------------------------------------------

  /** The dictionary `get_all_securities` returns. */
  datatype Listing = Listing(securities: seq<Record>, totalCount: int, limit: int, offset: int, hasMore: bool)

  /** `get_all_securities`: one page, the total count, the page bounds echoed
      back and whether records remain past the page. */
  function GetAllSecurities(repo: Repository, limit: int, offset: int): (r: Result<Listing, ServiceError>)
    ensures r.Success? <==> repo.page(limit, offset).Success? && repo.count.Success?
    ensures r.Success? ==>
              && r.value.securities == repo.page(limit, offset).value
              && r.value.totalCount == repo.count.value
              && r.value.limit == limit
              && r.value.offset == offset
  {
    match repo.page(limit, offset)
    case Failure(e) => Failure(Raised(e))
    case Success(securities) =>
      match repo.count
      case Failure(e) => Failure(Raised(e))
      case Success(total) => Success(Listing(securities, total, limit, offset, offset + limit < total))
  }

  /** The rows a table's `LIMIT limit OFFSET offset` query returns. */
  function Window(table: seq<Record>, limit: nat, offset: nat): (w: seq<Record>)
    ensures |w| <= limit
  {
    if offset >= |table| then []
    else if offset + limit >= |table| then table[offset..]
    else table[offset..offset + limit]
  }

  /** Over a repository that pages through one table, `has_more` says
      exactly whether the next page of the same size is non-empty. */
  lemma HasMoreMeansNextPage(repo: Repository, table: seq<Record>, limit: nat, offset: nat)
    requires limit > 0
    requires forall l: nat, o: nat :: repo.page(l, o) == Success(Window(table, l, o))
    requires repo.count == Success(|table|)
    ensures GetAllSecurities(repo, limit, offset).Success?
    ensures GetAllSecurities(repo, limit, offset).value.hasMore <==>
            GetAllSecurities(repo, limit, offset + limit).value.securities != []
  {
    assert repo.page(limit, offset) == Success(Window(table, limit, offset));
    assert repo.page(limit, offset + limit) == Success(Window(table, limit, offset + limit));
  }

  // ---------------------------------------------------------------------
  // Search
  // ---------------------------------------------------------------------

  /** `result.get('isin_code')`, with an absent ISIN read as `None`. */
  function IsinOf(rec: Record): Scalar {
    GetOr(rec, "isin_code", Null)
  }

  /** Whether position `i` holds the first record with its (truthy) ISIN. */
  predicate FirstOf(rs: seq<Record>, i: int)
    requires 0 <= i < |rs|
  {
    Truthy(IsinOf(rs[i])) && forall j :: 0 <= j < i ==> IsinOf(rs[j]) != IsinOf(rs[i])
  }

  /** The de-duplicated results: the first record of each truthy ISIN, in
      order. */
  function FirstPerIsin(rs: seq<Record>): seq<Record>
    decreases |rs|
  {
    if rs == [] then []
    else
      var n := |rs| - 1;
      FirstPerIsin(rs[..n]) + (if FirstOf(rs, n) then [rs[n]] else [])
  }

  /** The truthy ISINs occurring in `rs`. */
  ghost function TruthyIsins(rs: seq<Record>): set<Scalar> {
    set i | 0 <= i < |rs| && Truthy(IsinOf(rs[i])) :: IsinOf(rs[i])
  }

  /** One more record adds its ISIN when that is truthy. */
  lemma TruthyIsinsAppend(rs: seq<Record>, x: Record)
    ensures TruthyIsins(rs + [x]) == TruthyIsins(rs) + (if Truthy(IsinOf(x)) then {IsinOf(x)} else {})
  {
    var s := rs + [x];
    assert forall i :: 0 <= i < |rs| ==> s[i] == rs[i];
    assert s[|rs|] == x;
    forall v | v in TruthyIsins(s) ensures v in TruthyIsins(rs) + (if Truthy(IsinOf(x)) then {IsinOf(x)} else {}) {
      var i :| 0 <= i < |s| && Truthy(IsinOf(s[i])) && IsinOf(s[i]) == v;
      if i < |rs| {
        assert IsinOf(rs[i]) in TruthyIsins(rs);
      }
    }
  }

  /** A record is the first of its ISIN exactly when that ISIN is truthy and
      no earlier record carries it. */
  lemma FirstOfSeen(rs: seq<Record>, i: int)
    requires 0 <= i < |rs|
    ensures FirstOf(rs, i) <==> Truthy(IsinOf(rs[i])) && IsinOf(rs[i]) !in TruthyIsins(rs[..i])
  {
    if Truthy(IsinOf(rs[i])) && IsinOf(rs[i]) in TruthyIsins(rs[..i]) {
      var j :| 0 <= j < i && Truthy(IsinOf(rs[..i][j])) && IsinOf(rs[..i][j]) == IsinOf(rs[i]);
      assert rs[..i][j] == rs[j];
    }
    if !FirstOf(rs, i) && Truthy(IsinOf(rs[i])) {
      var j :| 0 <= j < i && IsinOf(rs[j]) == IsinOf(rs[i]);
      assert rs[..i][j] == rs[j];
      assert IsinOf(rs[..i][j]) in TruthyIsins(rs[..i]);
    }
  }

  /** The ISINs of the de-duplicated results are exactly the truthy ISINs of
      the input. */
  lemma {:induction false} FirstPerIsinIsins(rs: seq<Record>)
    ensures TruthyIsins(FirstPerIsin(rs)) == TruthyIsins(rs)
    ensures forall k :: 0 <= k < |FirstPerIsin(rs)| ==> Truthy(IsinOf(FirstPerIsin(rs)[k]))
    decreases |rs|
  {
    if rs != [] {
      var n := |rs| - 1;
      var init := rs[..n];
      FirstPerIsinIsins(init);
      assert rs == init + [rs[n]];
      TruthyIsinsAppend(init, rs[n]);
      FirstOfSeen(rs, n);
      var prev := FirstPerIsin(init);
      if FirstOf(rs, n) {
        assert FirstPerIsin(rs) == prev + [rs[n]];
        TruthyIsinsAppend(prev, rs[n]);
      } else {
        assert FirstPerIsin(rs) == prev;
      }
    }
  }

  /** No two de-duplicated results share an ISIN. */
  lemma {:induction false} FirstPerIsinDistinct(rs: seq<Record>)
    ensures forall k, l :: 0 <= k < l < |FirstPerIsin(rs)| ==> IsinOf(FirstPerIsin(rs)[k]) != IsinOf(FirstPerIsin(rs)[l])
    decreases |rs|
  {
    if rs != [] {
      var n := |rs| - 1;
      var init := rs[..n];
      FirstPerIsinDistinct(init);
      if FirstOf(rs, n) {
        var prev := FirstPerIsin(init);
        FirstPerIsinIsins(init);
        forall k | 0 <= k < |prev| ensures IsinOf(prev[k]) != IsinOf(rs[n]) {
          assert IsinOf(prev[k]) in TruthyIsins(prev);
          var j :| 0 <= j < |init| && Truthy(IsinOf(init[j])) && IsinOf(init[j]) == IsinOf(prev[k]);
          assert IsinOf(rs[j]) == IsinOf(init[j]);
        }
      }
    }
  }

  /** `idx` lists, in increasing order, exactly the positions of `rs` that hold
      the first record of their ISIN, and `out` holds the records there. */
  ghost predicate KeepsFirsts(rs: seq<Record>, idx: seq<int>, out: seq<Record>) {
    && |idx| == |out|
    && (forall k :: 0 <= k < |idx| ==> 0 <= idx[k] < |rs| && out[k] == rs[idx[k]] && FirstOf(rs, idx[k]))
    && (forall k, l :: 0 <= k < l < |idx| ==> idx[k] < idx[l])
    && (forall i :: 0 <= i < |rs| && FirstOf(rs, i) ==> i in idx)
  }

  /** One more record extends the kept positions by its own exactly when it is
      the first of its ISIN. */
  lemma KeepsFirstsExtend(rs: seq<Record>, idx: seq<int>, out: seq<Record>, x: Record)
    requires KeepsFirsts(rs, idx, out)
    ensures var s := rs + [x];
      KeepsFirsts(s, idx + (if FirstOf(s, |rs|) then [|rs|] else []), out + (if FirstOf(s, |rs|) then [x] else []))
  {
    var s := rs + [x];
    assert forall i :: 0 <= i < |rs| ==> s[i] == rs[i];
    assert forall i :: 0 <= i < |rs| ==> (FirstOf(s, i) <==> FirstOf(rs, i));
  }

  /** The de-duplicated results keep the input order and the first record of
      every truthy ISIN, and nothing else. */
  lemma {:induction false} FirstPerIsinKeepsFirsts(rs: seq<Record>)
    ensures exists idx :: KeepsFirsts(rs, idx, FirstPerIsin(rs))
    decreases |rs|
  {
    if rs == [] {
      assert KeepsFirsts(rs, [], FirstPerIsin(rs));
    } else {
      var n := |rs| - 1;
      var init := rs[..n];
      assert rs == init + [rs[n]];
      FirstPerIsinKeepsFirsts(init);
      var idx :| KeepsFirsts(init, idx, FirstPerIsin(init));
      KeepsFirstsExtend(init, idx, FirstPerIsin(init), rs[n]);
      assert KeepsFirsts(rs, idx + (if FirstOf(rs, n) then [n] else []), FirstPerIsin(rs));
    }
  }

  /** One step of the de-duplication loop: record `i` is kept exactly when its
      ISIN is truthy and not yet seen, and a truthy ISIN joins the seen set. */
  lemma FirstPerIsinStep(rs: seq<Record>, i: int)
    requires 0 <= i < |rs|
    ensures var keep := Truthy(IsinOf(rs[i])) && IsinOf(rs[i]) !in TruthyIsins(rs[..i]);
      FirstPerIsin(rs[..i + 1]) == FirstPerIsin(rs[..i]) + (if keep then [rs[i]] else [])
    ensures TruthyIsins(rs[..i + 1]) ==
      TruthyIsins(rs[..i]) + (if Truthy(IsinOf(rs[i])) then {IsinOf(rs[i])} else {})
  {
    var prefix := rs[..i + 1];
    assert prefix[..i] == rs[..i];
    assert prefix == rs[..i] + [rs[i]];
    TruthyIsinsAppend(rs[..i], rs[i]);
    FirstOfSeen(prefix, i);
  }

  /** The de-duplication loop of `search_securities`: the first record of
      each truthy ISIN, in order, tracked with the set of ISINs seen. */
  method KeepFirstPerIsin(results: seq<Record>) returns (uniqueResults: seq<Record>)
    ensures uniqueResults == FirstPerIsin(results)
  {
    var seenIsins: set<Scalar> := {};
    uniqueResults := [];
    for i := 0 to |results|
      invariant uniqueResults == FirstPerIsin(results[..i])
      invariant seenIsins == TruthyIsins(results[..i])
    {
      FirstPerIsinStep(results, i);
      var isin := GetOr(results[i], "isin_code", Null);
      if Truthy(isin) && isin !in seenIsins {
        seenIsins := seenIsins + {isin};
        uniqueResults := uniqueResults + [results[i]];
      }
    }
    assert results[..|results|] == results;
  }

  /** The records a search gathers: the company-name results, then the
      industry results, a failed search contributing none. */
  function Gathered(repo: Repository, term: string): (rs: seq<Record>)
    ensures repo.byCompanyName(term).Failure? && repo.byIndustry(term).Failure? ==> rs == []
  {
    (match repo.byCompanyName(term) case Success(l) => l case Failure(_) => []) +
    (match repo.byIndustry(term) case Success(l) => l case Failure(_) => [])
  }

  /** `search_securities`. */
  method SearchSecurities(repo: Repository, searchTerm: string) returns (r: Result<seq<Record>, ServiceError>)
    ensures Blank(searchTerm) ==> r == Failure(InvalidInput("Search term cannot be empty", "search_term"))
    ensures !Blank(searchTerm) ==> r == Success(FirstPerIsin(Gathered(repo, Strip(searchTerm))))
  {
    if searchTerm == [] || Strip(searchTerm) == [] {
      return Failure(InvalidInput("Search term cannot be empty", "search_term"));
    }
    var term := Strip(searchTerm);
    var results: seq<Record> := [];
    var companyResults := repo.byCompanyName(term);
    if companyResults.Success? {
      results := results + companyResults.value;
    }
    var industryResults := repo.byIndustry(term);
    if industryResults.Success? {
      results := results + industryResults.value;
    }
    assert results == Gathered(repo, term);
    var uniqueResults := KeepFirstPerIsin(results);
    return Success(uniqueResults);
  }

  // ---------------------------------------------------------------------
  // Validation
  // ---------------------------------------------------------------------

  const RequiredFields: seq<string> := ["isin_code"]

  const NumericFields: seq<string> := [
    "shares_outstanding_1", "market_capitalisation_1", "face_value_1",
    "shares_traded_1", "beta", "shares_outstanding_2",
    "market_capitalisation_2", "face_value_2", "shares_traded_2"
  ]

  const IsinMessage: string := "ISIN code must be 12 characters long and start with 'INE'"

  /** The reply of a successful validation. */
  datatype ValidationReply = ValidationReply(valid: bool, message: string)

  /** 2^970, half the gap between the largest finite double,
      (2^53 - 1) * 2^971, and 2^1024. */
  const TwoTo970: int := 0x400_0000_0000_0000_0000_0000_0000_0000_0000_0000_0000_0000_0000_0000_0000_0000_0000_0000_0000_0000_0000_0000_0000_0000_0000_0000_0000_0000_0000_0000_0000_0000_0000_0000_0000_0000_0000_0000_0000_0000_0000_0000_0000_0000_0000_0000_0000_0000_0000_0000_0000_0000_0000_0000_0000_0000_0000_0000_0000_0000_0000

  /** 2^1024 - 2^970: the smallest integer that `float` rounds to 2^1024
      rather than to the largest finite double (it lies half-way, and the
      largest double has an odd significand), so `float` raises
      `OverflowError` on it and on every integer of greater magnitude. */
  const FloatOverflow: int := 0x3F_FFFF_FFFF_FFFF * TwoTo970

  /** `float(v)` raises `OverflowError`: an integer too large for a double. */
  predicate Overflows(v: Scalar) {
    v.Num? && (v.n >= FloatOverflow || v.n <= -FloatOverflow)
  }

  /** `float(value)` succeeds: booleans always convert, integers within the
      double range, text when `numericText` accepts it. */
  predicate Converts(v: Scalar, numericText: string -> bool) {
    match v
    case Str(s) => numericText(s)
    case Num(n) => -FloatOverflow < n < FloatOverflow
    case _ => true
  }

  /** The value of `field` makes `float` overflow. */
  predicate OverflowsAt(data: Record, field: string) {
    Overflows(GetOr(data, field, Null))
  }

  /** A required field that is absent or falsy. */
  predicate Missing(data: Record, field: string) {
    !Truthy(GetOr(data, field, Null))
  }

  /** A present numeric field whose value does not convert and does not
      overflow either: the `ValueError` or `TypeError` the loop catches. */
  predicate NotNumeric(data: Record, field: string, numericText: string -> bool) {
    && GetOr(data, field, Null) != Null
    && !Converts(GetOr(data, field, Null), numericText)
    && !OverflowsAt(data, field)
  }

  /** The first of `fields` whose value makes `float` overflow: the field at
      which the numeric loop raises. */
  function FirstOverflow(data: Record, fields: seq<string>): Option<string>
    decreases |fields|
  {
    if fields == [] then None
    else if OverflowsAt(data, fields[0]) then Some(fields[0])
    else FirstOverflow(data, fields[1..])
  }

  /** Position `i` holds the first of `fields` whose value overflows. */
  predicate FirstOverflowing(data: Record, fields: seq<string>, i: int)
    requires 0 <= i < |fields|
  {
    OverflowsAt(data, fields[i]) && forall j :: 0 <= j < i ==> !OverflowsAt(data, fields[j])
  }

  /** `FirstOverflow` finds nothing exactly when no field overflows; what it
      finds is the field at the first overflowing position, and the first
      overflowing position is what it finds. */
  lemma {:induction false} FirstOverflowSpec(data: Record, fields: seq<string>)
    ensures FirstOverflow(data, fields).None? <==> forall i :: 0 <= i < |fields| ==> !OverflowsAt(data, fields[i])
    ensures FirstOverflow(data, fields).Some? ==>
              exists i :: 0 <= i < |fields| && fields[i] == FirstOverflow(data, fields).value && FirstOverflowing(data, fields, i)
    ensures forall i :: 0 <= i < |fields| && FirstOverflowing(data, fields, i) ==> FirstOverflow(data, fields) == Some(fields[i])
    decreases |fields|
  {
    if fields != [] && !OverflowsAt(data, fields[0]) {
      var tail := fields[1..];
      FirstOverflowSpec(data, tail);
      assert forall i :: 0 <= i < |tail| ==> tail[i] == fields[i + 1];
      if FirstOverflow(data, tail).Some? {
        var i :| 0 <= i < |tail| && tail[i] == FirstOverflow(data, tail).value && FirstOverflowing(data, tail, i);
        assert FirstOverflowing(data, fields, i + 1);
      }
      forall i | 0 <= i < |fields| && FirstOverflowing(data, fields, i)
        ensures FirstOverflow(data, fields) == Some(fields[i])
      {
        assert FirstOverflowing(data, tail, i - 1);
      }
    }
  }

  /** The messages of the required-field checks, in field order. */
  function RequiredErrors(data: Record, fields: seq<string>): seq<string>
    decreases |fields|
  {
    if fields == [] then []
    else
      var n := |fields| - 1;
      RequiredErrors(data, fields[..n]) +
        (if Missing(data, fields[n]) then ["Field '" + fields[n] + "' is required"] else [])
  }

  /** The messages of the numeric-field checks, in field order. */
  function NumericErrors(data: Record, fields: seq<string>, numericText: string -> bool): seq<string>
    decreases |fields|
  {
    if fields == [] then []
    else
      var n := |fields| - 1;
      NumericErrors(data, fields[..n], numericText) +
        (if NotNumeric(data, fields[n], numericText) then ["Field '" + fields[n] + "' must be a valid number"] else [])
  }

  /** The ISIN format check; `len` raises on a truthy ISIN that is not text. */
  function IsinErrors(isin: Scalar): Result<seq<string>, ServiceError> {
    if !Truthy(isin) then Success([])
    else
      match isin
      case Str(s) => Success(if |s| != 12 || !StartsWith(s, "INE") then [IsinMessage] else [])
      case _ => Failure(NotSized("isin_code"))
  }

  /** What `validate_security_data` returns or raises. */
  function Validation(data: Record, numericText: string -> bool): Result<ValidationReply, ServiceError> {
    match IsinErrors(IsinOf(data))
    case Failure(e) => Failure(e)
    case Success(isinErrors) =>
      match FirstOverflow(data, NumericFields)
      case Some(field) => Failure(TooLarge(field))
      case None =>
        var errors := RequiredErrors(data, RequiredFields) + isinErrors + NumericErrors(data, NumericFields, numericText);
        if errors == [] then Success(ValidationReply(true, "Security data is valid"))
        else Failure(ValidationFailed(errors))
  }

  /** One more field adds its required-field message after the others. */
  lemma RequiredErrorsStep(data: Record, fields: seq<string>, i: int)
    requires 0 <= i < |fields|
    ensures RequiredErrors(data, fields[..i + 1]) == RequiredErrors(data, fields[..i]) +
      (if Missing(data, fields[i]) then ["Field '" + fields[i] + "' is required"] else [])
  {
    assert fields[..i + 1][..i] == fields[..i];
  }

  /** One more field adds its numeric-field message after the others. */
  lemma NumericErrorsStep(data: Record, fields: seq<string>, numericText: string -> bool, i: int)
    requires 0 <= i < |fields|
    ensures NumericErrors(data, fields[..i + 1], numericText) == NumericErrors(data, fields[..i], numericText) +
      (if NotNumeric(data, fields[i], numericText) then ["Field '" + fields[i] + "' must be a valid number"] else [])
  {
    assert fields[..i + 1][..i] == fields[..i];
  }

  /** The required-field loop of `validate_security_data`: a message for
      each field in `fields` that is missing or falsy, appended in order. */
  method CheckRequired(data: Record, fields: seq<string>, errors: seq<string>) returns (r: seq<string>)
    ensures r == errors + RequiredErrors(data, fields)
  {
    r := errors;
    for i := 0 to |fields|
      invariant r == errors + RequiredErrors(data, fields[..i])
    {
      RequiredErrorsStep(data, fields, i);
      ghost var before := RequiredErrors(data, fields[..i]);
      var field := fields[i];
      if Missing(data, field) {
        var message := "Field '" + field + "' is required";
        r := r + [message];
        assert r == errors + (before + [message]);
      }
    }
    assert fields[..|fields|] == fields;
  }

  /** The numeric-field loop of `validate_security_data`: a message for each
      field in `fields` that is present and does not convert, appended in
      order; the `OverflowError` of the first field too large for a double
      escapes the loop and ends it. */
  method CheckNumeric(data: Record, fields: seq<string>, numericText: string -> bool, errors: seq<string>)
    returns (r: Result<seq<string>, ServiceError>)
    ensures FirstOverflow(data, fields).Some? ==> r == Failure(TooLarge(FirstOverflow(data, fields).value))
    ensures FirstOverflow(data, fields).None? ==> r == Success(errors + NumericErrors(data, fields, numericText))
  {
    var found := errors;
    for i := 0 to |fields|
      invariant found == errors + NumericErrors(data, fields[..i], numericText)
      invariant FirstOverflow(data, fields) == FirstOverflow(data, fields[i..])
    {
      NumericErrorsStep(data, fields, numericText, i);
      assert fields[i..][1..] == fields[i + 1..];
      ghost var before := NumericErrors(data, fields[..i], numericText);
      var field := fields[i];
      var value := GetOr(data, field, Null);
      if value != Null {
        if Overflows(value) {
          return Failure(TooLarge(field));
        }
        if !Converts(value, numericText) {
          var message := "Field '" + field + "' must be a valid number";
          found := found + [message];
          assert found == errors + (before + [message]);
        }
      }
    }
    assert fields[..|fields|] == fields;
    return Success(found);
  }

  /** `validate_security_data`: the required-field loop, the ISIN check and
      the numeric-field loop, collecting messages. */
  method ValidateSecurityData(data: Record, numericText: string -> bool) returns (r: Result<ValidationReply, ServiceError>)
    ensures r == Validation(data, numericText)
  {
    var errors := CheckRequired(data, RequiredFields, []);
    assert errors == RequiredErrors(data, RequiredFields);
    var isinCode := GetOr(data, "isin_code", Null);
    if Truthy(isinCode) {
      if !isinCode.Str? {
        return Failure(NotSized("isin_code"));
      }
      if |isinCode.s| != 12 || !StartsWith(isinCode.s, "INE") {
        errors := errors + [IsinMessage];
      }
    }
    assert errors == RequiredErrors(data, RequiredFields) + IsinErrors(isinCode).value;
    var checked := CheckNumeric(data, NumericFields, numericText, errors);
    if checked.Failure? {
      return Failure(checked.error);
    }
    errors := checked.value;
    if errors != [] {
      return Failure(ValidationFailed(errors));
    }
    return Success(ValidationReply(true, "Security data is valid"));
  }

  /** No required-field message exactly when every required field is truthy. */
  lemma {:induction false} RequiredErrorsEmpty(data: Record, fields: seq<string>)
    ensures RequiredErrors(data, fields) == [] <==> forall i :: 0 <= i < |fields| ==> !Missing(data, fields[i])
    decreases |fields|
  {
    if fields != [] {
      var n := |fields| - 1;
      var head := fields[..n];
      RequiredErrorsEmpty(data, head);
      assert forall i :: 0 <= i < n ==> head[i] == fields[i];
      assert (forall i :: 0 <= i < |fields| ==> !Missing(data, fields[i])) <==>
        (forall i :: 0 <= i < n ==> !Missing(data, head[i])) && !Missing(data, fields[n]);
    }
  }

  /** No numeric-field message exactly when every present numeric field
      converts. */
  lemma {:induction false} NumericErrorsEmpty(data: Record, fields: seq<string>, numericText: string -> bool)
    ensures NumericErrors(data, fields, numericText) == [] <==> forall i :: 0 <= i < |fields| ==> !NotNumeric(data, fields[i], numericText)
    decreases |fields|
  {
    if fields != [] {
      var n := |fields| - 1;
      var head := fields[..n];
      NumericErrorsEmpty(data, head, numericText);
      assert forall i :: 0 <= i < n ==> head[i] == fields[i];
      assert (forall i :: 0 <= i < |fields| ==> !NotNumeric(data, fields[i], numericText)) <==>
        (forall i :: 0 <= i < n ==> !NotNumeric(data, head[i], numericText)) && !NotNumeric(data, fields[n], numericText);
    }
  }

  /** A record is rejected exactly when its ISIN is missing or falsy, or is
      not twelve characters starting with `INE`, or some present numeric
      field does not convert; otherwise it is accepted as valid. An ISIN
      that is truthy but not text makes `len` raise instead, and so, failing
      that, does a numeric field too large for a double. */
  lemma ValidationVerdict(data: Record, numericText: string -> bool)
    ensures var isin := IsinOf(data);
      && (Validation(data, numericText) == Failure(NotSized("isin_code")) <==> Truthy(isin) && !isin.Str?)
      && (Validation(data, numericText).Failure? && Validation(data, numericText).error.ValidationFailed? <==>
            && (!Truthy(isin) || isin.Str?)
            && (forall i :: 0 <= i < |NumericFields| ==> !OverflowsAt(data, NumericFields[i]))
            && (|| !Truthy(isin)
                || |isin.s| != 12 || !StartsWith(isin.s, "INE")
                || exists i :: 0 <= i < |NumericFields| && NotNumeric(data, NumericFields[i], numericText)))
      && (Validation(data, numericText).Success? ==> Validation(data, numericText).value.valid)
  {
    FirstOverflowSpec(data, NumericFields);
    var isin := IsinOf(data);
    if IsinErrors(isin).Success? && FirstOverflow(data, NumericFields).None? {
      RequiredErrorsEmpty(data, RequiredFields);
      NumericErrorsEmpty(data, NumericFields, numericText);
      var errors := RequiredErrors(data, RequiredFields) + IsinErrors(isin).value + NumericErrors(data, NumericFields, numericText);
      assert Validation(data, numericText) ==
        if errors == [] then Success(ValidationReply(true, "Security data is valid")) else Failure(ValidationFailed(errors));
    }
  }

  /** Unless `len` raises first, `float` raises exactly when some numeric
      field holds an integer too large for a double, and it names the first
      such field. */
  lemma OverflowVerdict(data: Record, numericText: string -> bool)
    ensures var isin := IsinOf(data);
      && (Validation(data, numericText).Failure? && Validation(data, numericText).error.TooLarge? <==>
            && (!Truthy(isin) || isin.Str?)
            && exists i :: 0 <= i < |NumericFields| && OverflowsAt(data, NumericFields[i]))
      && (Validation(data, numericText).Failure? && Validation(data, numericText).error.TooLarge? ==>
            exists i :: 0 <= i < |NumericFields| && NumericFields[i] == Validation(data, numericText).error.field &&
              FirstOverflowing(data, NumericFields, i))
  {
    FirstOverflowSpec(data, NumericFields);
  }

  /** A numeric field absent from a record never fails to convert. */
  lemma AbsentNotNumeric(data: Record, field: string, numericText: string -> bool)
    requires forall j :: 0 <= j < |data| ==> data[j].0 != field
    ensures !NotNumeric(data, field, numericText)
  {
  }

  /** A record with none of the numeric fields passes the numeric checks. */
  lemma NoNumericFields(data: Record, numericText: string -> bool)
    requires forall i, j :: 0 <= i < |NumericFields| && 0 <= j < |data| ==> data[j].0 != NumericFields[i]
    ensures NumericErrors(data, NumericFields, numericText) == []
  {
    forall i | 0 <= i < |NumericFields| ensures !NotNumeric(data, NumericFields[i], numericText) {
      AbsentNotNumeric(data, NumericFields[i], numericText);
    }
    NumericErrorsEmpty(data, NumericFields, numericText);
  }

  const TestIsin: string := "INE009A01021"

  /** The test record with a well-formed ISIN and no numeric fields. */
  const ValidRecord: Record := [
    ("isin_code", Str(TestIsin)), ("company_name", Str("Test Company Ltd.")),
    ("nse_symbol", Str("TEST")), ("bse_scrip_code", Str("123456"))]

  /** The test record without an ISIN. */
  const MissingIsinRecord: Record := [("company_name", Str("Test Company Ltd.")), ("nse_symbol", Str("TEST"))]

  /** The test record with a ten-character ISIN. */
  const BadIsinRecord: Record := [("isin_code", Str("INVALID123")), ("company_name", Str("Test Company Ltd."))]

  /** The test record with a non-numeric share count. */
  const BadNumberRecord: Record := [
    ("isin_code", Str(TestIsin)), ("company_name", Str("Test Company Ltd.")),
    ("shares_outstanding_1", Str("not_a_number"))]

  /** The test ISIN is well formed. */
  lemma TestIsinWellFormed()
    ensures IsinErrors(Str(TestIsin)) == Success([])
  {
    assert TestIsin[..3] == "INE";
  }

  /** The valid test record is accepted, whatever text counts as numeric. */
  lemma ValidRecordAccepted(numericText: string -> bool)
    ensures Validation(ValidRecord, numericText) == Success(ValidationReply(true, "Security data is valid"))
  {
    NoIntegersNoOverflow(ValidRecord, NumericFields);
    assert IsinOf(ValidRecord) == Str(TestIsin);
    TestIsinWellFormed();
    RequiredErrorsEmpty(ValidRecord, RequiredFields);
    ValidRecordHasNoNumbers();
    NoNumericFields(ValidRecord, numericText);
  }

  /** No key of the valid test record is a numeric field: each differs from
      every numeric field in its first or second character. */
  lemma ValidRecordHasNoNumbers()
    ensures forall i, j :: 0 <= i < |NumericFields| && 0 <= j < |ValidRecord| ==> ValidRecord[j].0 != NumericFields[i]
  {
    forall i, j | 0 <= i < |NumericFields| && 0 <= j < |ValidRecord|
      ensures ValidRecord[j].0 != NumericFields[i]
    {
      var key, field := ValidRecord[j].0, NumericFields[i];
      assert |key| >= 2 && |field| >= 2;
      assert key[0] != field[0] || key[1] != field[1];
    }
  }

  lemma RequiredMessageText()
    ensures "Field '" + RequiredFields[0] + "' is required" == "Field 'isin_code' is required"
  {
  }

  /** The record without an ISIN is rejected, first for the missing field. */
  lemma MissingIsinRejected(numericText: string -> bool)
    ensures Validation(MissingIsinRecord, numericText).Failure?
    ensures Validation(MissingIsinRecord, numericText).error.ValidationFailed?
    ensures Validation(MissingIsinRecord, numericText).error.errors[0] == "Field 'isin_code' is required"
  {
    NoIntegersNoOverflow(MissingIsinRecord, NumericFields);
    assert !HasKey(MissingIsinRecord, "isin_code");
    assert IsinOf(MissingIsinRecord) == Null;
    assert RequiredFields[..0] == [];
    RequiredMessageText();
    assert RequiredErrors(MissingIsinRecord, RequiredFields) == ["Field 'isin_code' is required"];
  }

  /** The record with a ten-character ISIN is rejected for its format. */
  lemma BadIsinRejected(numericText: string -> bool)
    ensures Validation(BadIsinRecord, numericText).Failure?
    ensures Validation(BadIsinRecord, numericText).error.ValidationFailed?
    ensures IsinMessage in Validation(BadIsinRecord, numericText).error.errors
  {
    NoIntegersNoOverflow(BadIsinRecord, NumericFields);
    assert IsinOf(BadIsinRecord) == Str("INVALID123");
    assert IsinErrors(Str("INVALID123")) == Success([IsinMessage]);
  }

  /** The record with a share count that does not parse is rejected. */
  lemma BadNumberRejected(numericText: string -> bool)
    requires !numericText("not_a_number")
    ensures Validation(BadNumberRecord, numericText).Failure?
    ensures Validation(BadNumberRecord, numericText).error.ValidationFailed?
  {
    NoIntegersNoOverflow(BadNumberRecord, NumericFields);
    assert IsinOf(BadNumberRecord) == Str(TestIsin);
    TestIsinWellFormed();
    assert BadNumberRecord[2].0 == NumericFields[0];
    assert HasKey(BadNumberRecord, NumericFields[0]);
    assert GetOr(BadNumberRecord, NumericFields[0], Null) == Str("not_a_number");
    assert NotNumeric(BadNumberRecord, NumericFields[0], numericText);
    NumericErrorsEmpty(BadNumberRecord, NumericFields, numericText);
  }

  /** A record with the test ISIN and `beta` set to `v`. */
  function BetaRecord(v: Scalar): Record {
    [("isin_code", Str(TestIsin)), ("beta", v)]
  }

  /** Only `beta`, the fifth numeric field, is set in such a record. */
  lemma BetaRecordFields(v: Scalar)
    ensures IsinOf(BetaRecord(v)) == Str(TestIsin)
    ensures forall i :: 0 <= i < |NumericFields| ==>
              GetOr(BetaRecord(v), NumericFields[i], Null) == if i == 4 then v else Null
  {
    var data := BetaRecord(v);
    BetaLookup(v, "isin_code");
    forall i | 0 <= i < |NumericFields|
      ensures GetOr(data, NumericFields[i], Null) == if i == 4 then v else Null
    {
      var f := NumericFields[i];
      BetaLookup(v, f);
      assert f[0] != "isin_code"[0];
      if i != 4 {
        assert f[0] != "beta"[0];
      }
    }
  }

  lemma BetaLookup(v: Scalar, f: string)
    ensures GetOr(BetaRecord(v), f, Null) == if f == "isin_code" then Str(TestIsin) else if f == "beta" then v else Null
  {
    var data := BetaRecord(v);
    var rest := data[1..];
    assert rest == [("beta", v)];
    assert rest[1..] == [];
    assert Get(rest, f) == if f == "beta" then Some(v) else None;
    assert Get(data, f) == if f == "isin_code" then Some(Str(TestIsin)) else Get(rest, f);
  }

  /** A record holding no integer has no field that overflows. */
  lemma NoIntegersNoOverflow(data: Record, fields: seq<string>)
    requires forall j :: 0 <= j < |data| ==> !data[j].1.Num?
    ensures FirstOverflow(data, fields) == None
  {
    forall i | 0 <= i < |fields| ensures !OverflowsAt(data, fields[i]) {
      var g := Get(data, fields[i]);
    }
    FirstOverflowSpec(data, fields);
  }

  /** A `beta` of 2^1024 - 2^970 makes `float` raise `OverflowError`, which
      the validator does not catch. */
  lemma HugeBetaRaises(numericText: string -> bool)
    ensures Validation(BetaRecord(Num(FloatOverflow)), numericText) == Failure(TooLarge("beta"))
  {
    var data := BetaRecord(Num(FloatOverflow));
    BetaRecordFields(Num(FloatOverflow));
    TestIsinWellFormed();
    FirstOverflowSpec(data, NumericFields);
    assert FirstOverflowing(data, NumericFields, 4);
  }

  /** One less converts to the largest finite double: the record is valid. */
  lemma LargestBetaAccepted(numericText: string -> bool)
    ensures Validation(BetaRecord(Num(FloatOverflow - 1)), numericText) ==
              Success(ValidationReply(true, "Security data is valid"))
  {
    var data := BetaRecord(Num(FloatOverflow - 1));
    BetaRecordFields(Num(FloatOverflow - 1));
    TestIsinWellFormed();
    FirstOverflowSpec(data, NumericFields);
    RequiredErrorsEmpty(data, RequiredFields);
    NumericErrorsEmpty(data, NumericFields, numericText);
  }
}
