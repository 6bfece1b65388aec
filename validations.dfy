/** The request schemas of lib/validations/poll.ts: creating a poll, updating
    one, casting a vote and listing polls. Each schema is a parse from a JSON
    body to either the typed input, with defaults filled in, or the list of
    keys whose rule failed, in the schema's key order. The clock ("now", in
    milliseconds) and the ISO-8601 reader are parameters. */
module PollValidation {
  import opened Wrappers
  import opened JsonValues
  import opened SchemaRules

  // ---------------------------------------------------------------------
  // The rules, one per key, written out with the source's constants.

  predicate TitleOk(v: Option<Json>) {
    v.Some? && v.value.JString? && 1 <= |v.value.s| <= 200
  }

  predicate DescriptionOk(v: Option<Json>) {
    v.None? || (v.value.JString? && |v.value.s| <= 1000)
  }

  predicate OptionsOk(v: Option<Json>) {
    && v.Some? && v.value.JArray?
    && 2 <= |v.value.items| <= 10
    && forall i :: 0 <= i < |v.value.items| ==> v.value.items[i].JString? && |v.value.items[i].s| >= 1
  }

  predicate FlagOk(v: Option<Json>) {
    v.None? || v.value.JBool?
  }

  /** An absent date, or a datetime string strictly later than `now`. */
  predicate FutureExpiryOk(v: Option<Json>, parseTime: string -> Option<int>, now: int) {
    v.None? || (v.value.JString? && parseTime(v.value.s).Some? && parseTime(v.value.s).value > now)
  }

  /** The value a `.default(d)` boolean takes: `d` when the key is absent. */
  predicate FlagValue(v: Option<Json>, d: bool, value: bool) {
    if v.None? then value == d else v.value == JBool(value)
  }

  /** An optional string field holds `value` (`None` when absent). */
  predicate StringValue(v: Option<Json>, value: Option<string>) {
    if v.None? then value.None? else value.Some? && v.value == JString(value.value)
  }

  function IssuesOf<T>(r: Result<T, seq<Issue>>): seq<Issue> {
    if r.Failure? then r.error else []
  }

  // ---------------------------------------------------------------------
  // createPollSchema

  datatype CreatePollInput = CreatePollInput(
    title: string,
    description: Option<string>,
    options: seq<string>,
    allowMultipleVotes: bool,
    expiresAt: Option<string>,
    isPublic: bool)

  /** The object step of the creation schema: with the outcome of each
      key's rule in hand (`None` for a failed rule), the parse succeeds
      exactly when no rule failed, and otherwise lists the failed keys in
      the schema's order. */
  function CreateObject(title: Option<string>, description: Option<Option<string>>, options: Option<seq<string>>,
                        multiple: Option<bool>, expiresAt: Option<Option<string>>, isPublic: Option<bool>)
    : (r: Result<CreatePollInput, seq<Issue>>)
    ensures r.Success? <==>
      title.Some? && description.Some? && options.Some? && multiple.Some? && expiresAt.Some? && isPublic.Some?
    ensures r.Success? ==>
      r.value == CreatePollInput(title.value, description.value, options.value, multiple.value, expiresAt.value, isPublic.value)
    ensures r.Failure? ==> r.error != [] && NotAnObject !in r.error
    ensures InvalidField(Title) in IssuesOf(r) <==> title.None?
    ensures InvalidField(Description) in IssuesOf(r) <==> description.None?
    ensures InvalidField(Options) in IssuesOf(r) <==> options.None?
    ensures InvalidField(AllowMultipleVotes) in IssuesOf(r) <==> multiple.None?
    ensures InvalidField(ExpiresAt) in IssuesOf(r) <==> expiresAt.None?
    ensures InvalidField(IsPublic) in IssuesOf(r) <==> isPublic.None?
  {
    if title.Some? && description.Some? && options.Some? && multiple.Some? && expiresAt.Some? && isPublic.Some? then
      Success(CreatePollInput(title.value, description.value, options.value, multiple.value, expiresAt.value, isPublic.value))
    else
      Failure(IssueAt(title.None?, Title) + IssueAt(description.None?, Description)
        + IssueAt(options.None?, Options) + IssueAt(multiple.None?, AllowMultipleVotes)
        + IssueAt(expiresAt.None?, ExpiresAt) + IssueAt(isPublic.None?, IsPublic))
  }

  function ParseTitle(v: Option<Json>): (r: Option<string>)
    ensures r.Some? <==> TitleOk(v)
    ensures r.Some? ==> v == Some(JString(r.value))
  {
    RequiredString(v, 1, AtMost(200))
  }

  function ParseDescription(v: Option<Json>): (r: Option<Option<string>>)
    ensures r.Some? <==> DescriptionOk(v)
    ensures r.Some? ==> StringValue(v, r.value)
  {
    OptionalString(v, AtMost(1000))
  }

  function ParseOptions(v: Option<Json>): (r: Option<seq<string>>)
    ensures r.Some? <==> OptionsOk(v)
    ensures r.Some? ==> |v.value.items| == |r.value| && forall i :: 0 <= i < |r.value| ==> v.value.items[i] == JString(r.value[i])
  {
    StringArray(v, 2, AtMost(10), 1)
  }

  function ParseFlag(v: Option<Json>, d: bool): (r: Option<bool>)
    ensures r.Some? <==> FlagOk(v)
    ensures r.Some? ==> FlagValue(v, d, r.value)
  {
    BooleanOr(v, d)
  }

  function ParseFutureExpiry(v: Option<Json>, parseTime: string -> Option<int>, now: int): (r: Option<Option<string>>)
    ensures r.Some? <==> FutureExpiryOk(v, parseTime, now)
    ensures r.Some? ==> StringValue(v, r.value)
  {
    FutureDateTime(v, parseTime, now)
  }

  /** createPollSchema.safeParse. On success every value comes from the
      body, with allowMultipleVotes defaulting to false and isPublic to
      true. */
  function ParseCreatePoll(body: Json, parseTime: string -> Option<int>, now: int): (r: Result<CreatePollInput, seq<Issue>>)
    ensures !body.JObject? ==> r == Failure([NotAnObject])
    ensures r.Failure? ==> r.error != []
    ensures r.Success? ==> var f := body.fields; var c := r.value;
      && Get(f, Title) == Some(JString(c.title))
      && StringValue(Get(f, Description), c.description)
      && OptionsOk(Get(f, Options)) && |Get(f, Options).value.items| == |c.options|
      && (forall i :: 0 <= i < |c.options| ==> Get(f, Options).value.items[i] == JString(c.options[i]))
      && FlagValue(Get(f, AllowMultipleVotes), false, c.allowMultipleVotes)
      && StringValue(Get(f, ExpiresAt), c.expiresAt)
      && FlagValue(Get(f, IsPublic), true, c.isPublic)
  {
    match body
    case JObject(f) =>
      CreateObject(ParseTitle(Get(f, Title)), ParseDescription(Get(f, Description)), ParseOptions(Get(f, Options)),
        ParseFlag(Get(f, AllowMultipleVotes), false), ParseFutureExpiry(Get(f, ExpiresAt), parseTime, now),
        ParseFlag(Get(f, IsPublic), true))
    case _ => Failure([NotAnObject])
  }

  /** createPollSchema accepts exactly the bodies whose every key obeys its
      rule, and the issues of a rejected body name exactly the keys that
      broke theirs. */
  lemma CreatePollAcceptsExactly(f: map<string, Json>, parseTime: string -> Option<int>, now: int)
    ensures var r := ParseCreatePoll(JObject(f), parseTime, now);
      && (r.Success? <==>
            TitleOk(Get(f, Title)) && DescriptionOk(Get(f, Description)) && OptionsOk(Get(f, Options))
            && FlagOk(Get(f, AllowMultipleVotes)) && FutureExpiryOk(Get(f, ExpiresAt), parseTime, now)
            && FlagOk(Get(f, IsPublic)))
      && (InvalidField(Title) in IssuesOf(r) <==> !TitleOk(Get(f, Title)))
      && (InvalidField(Description) in IssuesOf(r) <==> !DescriptionOk(Get(f, Description)))
      && (InvalidField(Options) in IssuesOf(r) <==> !OptionsOk(Get(f, Options)))
      && (InvalidField(AllowMultipleVotes) in IssuesOf(r) <==> !FlagOk(Get(f, AllowMultipleVotes)))
      && (InvalidField(ExpiresAt) in IssuesOf(r) <==> !FutureExpiryOk(Get(f, ExpiresAt), parseTime, now))
      && (InvalidField(IsPublic) in IssuesOf(r) <==> !FlagOk(Get(f, IsPublic)))
  {
  }

  /** What an accepted creation promises, read off the parsed value alone:
      a title of 1 to 200 characters, a description of at most 1000, between
      2 and 10 non-empty options and an expiry, if any, after `now`. */
  lemma CreatePollBounds(body: Json, parseTime: string -> Option<int>, now: int)
    requires ParseCreatePoll(body, parseTime, now).Success?
    ensures var c := ParseCreatePoll(body, parseTime, now).value;
      && 1 <= |c.title| <= 200
      && (c.description.Some? ==> |c.description.value| <= 1000)
      && 2 <= |c.options| <= 10
      && (forall i :: 0 <= i < |c.options| ==> |c.options[i]| >= 1)
      && (c.expiresAt.Some? ==> parseTime(c.expiresAt.value).Some? && parseTime(c.expiresAt.value).value > now)
  {
    var c := ParseCreatePoll(body, parseTime, now).value;
    var items := Get(body.fields, Options).value.items;
    forall i | 0 <= i < |c.options| ensures |c.options[i]| >= 1 {
      assert items[i] == JString(c.options[i]);
    }
  }

  /** `description: null` is not "absent": the optional string rejects it. */
  lemma CreatePollRejectsNullDescription(f: map<string, Json>, parseTime: string -> Option<int>, now: int)
    requires Get(f, Description) == Some(JNull)
    ensures InvalidField(Description) in IssuesOf(ParseCreatePoll(JObject(f), parseTime, now))
  {
  }

  // ---------------------------------------------------------------------
  // updatePollSchema

  datatype UpdatePollInput = UpdatePollInput(
    title: Option<string>,
    description: Option<string>,
    expiresAt: Option<string>,
    isPublic: Option<bool>)

  predicate OptionalTitleOk(v: Option<Json>) {
    v.None? || TitleOk(v)
  }

  predicate OptionalFlagValue(v: Option<Json>, value: Option<bool>) {
    if v.None? then value.None? else value.Some? && v.value == JBool(value.value)
  }

  /** The object step of the update schema. */
  function UpdateObject(title: Option<Option<string>>, description: Option<Option<string>>,
                        expiresAt: Option<Option<string>>, isPublic: Option<Option<bool>>)
    : (r: Result<UpdatePollInput, seq<Issue>>)
    ensures r.Success? <==> title.Some? && description.Some? && expiresAt.Some? && isPublic.Some?
    ensures r.Success? ==> r.value == UpdatePollInput(title.value, description.value, expiresAt.value, isPublic.value)
    ensures r.Failure? ==> r.error != [] && NotAnObject !in r.error
    ensures InvalidField(Title) in IssuesOf(r) <==> title.None?
    ensures InvalidField(Description) in IssuesOf(r) <==> description.None?
    ensures InvalidField(ExpiresAt) in IssuesOf(r) <==> expiresAt.None?
    ensures InvalidField(IsPublic) in IssuesOf(r) <==> isPublic.None?
  {
    if title.Some? && description.Some? && expiresAt.Some? && isPublic.Some? then
      Success(UpdatePollInput(title.value, description.value, expiresAt.value, isPublic.value))
    else
      Failure(IssueAt(title.None?, Title) + IssueAt(description.None?, Description)
        + IssueAt(expiresAt.None?, ExpiresAt) + IssueAt(isPublic.None?, IsPublic))
  }

  /** The optional title: `.min(1).max(200).optional()`. */
  function ParseOptionalTitle(v: Option<Json>): (r: Option<Option<string>>)
    ensures r.Some? <==> OptionalTitleOk(v)
    ensures r.Some? ==> StringValue(v, r.value)
  {
    if v.None? then Some(None) else if TitleOk(v) then Some(Some(v.value.s)) else None
  }

  function ParseOptionalFlag(v: Option<Json>): (r: Option<Option<bool>>)
    ensures r.Some? <==> FlagOk(v)
    ensures r.Some? ==> OptionalFlagValue(v, r.value)
  {
    OptionalBoolean(v)
  }

  /** updatePollSchema.safeParse: every key is optional, and there are no
      defaults. */
  function ParseUpdatePoll(body: Json, parseTime: string -> Option<int>, now: int): (r: Result<UpdatePollInput, seq<Issue>>)
    ensures !body.JObject? ==> r == Failure([NotAnObject])
    ensures r.Failure? ==> r.error != []
    ensures r.Success? ==> var f := body.fields; var u := r.value;
      && StringValue(Get(f, Title), u.title)
      && StringValue(Get(f, Description), u.description)
      && StringValue(Get(f, ExpiresAt), u.expiresAt)
      && OptionalFlagValue(Get(f, IsPublic), u.isPublic)
  {
    match body
    case JObject(f) =>
      UpdateObject(ParseOptionalTitle(Get(f, Title)), ParseDescription(Get(f, Description)),
        ParseFutureExpiry(Get(f, ExpiresAt), parseTime, now), ParseOptionalFlag(Get(f, IsPublic)))
    case _ => Failure([NotAnObject])
  }

  /** A present key obeys the creation bounds (the same future-expiry
      refinement included); the issues name exactly the keys that do not. */
  lemma UpdatePollAcceptsExactly(f: map<string, Json>, parseTime: string -> Option<int>, now: int)
    ensures var r := ParseUpdatePoll(JObject(f), parseTime, now);
      && (r.Success? <==>
            OptionalTitleOk(Get(f, Title)) && DescriptionOk(Get(f, Description))
            && FutureExpiryOk(Get(f, ExpiresAt), parseTime, now) && FlagOk(Get(f, IsPublic)))
      && (InvalidField(Title) in IssuesOf(r) <==> !OptionalTitleOk(Get(f, Title)))
      && (InvalidField(Description) in IssuesOf(r) <==> !DescriptionOk(Get(f, Description)))
      && (InvalidField(ExpiresAt) in IssuesOf(r) <==> !FutureExpiryOk(Get(f, ExpiresAt), parseTime, now))
      && (InvalidField(IsPublic) in IssuesOf(r) <==> !FlagOk(Get(f, IsPublic)))
  {
  }

  /** The empty update is accepted and changes nothing. */
  lemma UpdatePollAcceptsEmpty(parseTime: string -> Option<int>, now: int)
    ensures ParseUpdatePoll(JObject(map[]), parseTime, now) == Success(UpdatePollInput(None, None, None, None))
  {
  }

  /** The update schema has no options key: the parse reads only its four
      keys, so two bodies that agree on those parse alike whatever else
      (options included) they carry. */
  lemma UpdatePollReadsOnlyItsKeys(f: map<string, Json>, g: map<string, Json>, parseTime: string -> Option<int>, now: int)
    requires forall k :: k in [Title, Description, ExpiresAt, IsPublic] ==> Get(f, k) == Get(g, k)
    ensures ParseUpdatePoll(JObject(f), parseTime, now) == ParseUpdatePoll(JObject(g), parseTime, now)
  {
    assert Get(f, Title) == Get(g, Title);
    assert Get(f, Description) == Get(g, Description);
    assert Get(f, ExpiresAt) == Get(g, ExpiresAt);
    assert Get(f, IsPublic) == Get(g, IsPublic);
  }

  // ---------------------------------------------------------------------
  // voteSchema

  predicate IsHexDigit(c: char) {
    '0' <= c <= '9' || 'a' <= c <= 'f' || 'A' <= c <= 'F'
  }

  predicate IsUuidHyphenPosition(i: int) {
    i == 8 || i == 13 || i == 18 || i == 23
  }

  /** The 8-4-4-4-12 hexadecimal shape of a UUID, either case. */
  predicate IsUuid(s: string) {
    |s| == 36 && forall i :: 0 <= i < 36 ==> if IsUuidHyphenPosition(i) then s[i] == '-' else IsHexDigit(s[i])
  }

  /** voteSchema.safeParse: the option id must be a UUID-shaped string. */
  function ParseVote(body: Json): (r: Result<string, seq<Issue>>)
    ensures !body.JObject? ==> r == Failure([NotAnObject])
    ensures body.JObject? ==>
      (r.Success? <==> Get(body.fields, OptionId).Some? && Get(body.fields, OptionId).value.JString?
                       && IsUuid(Get(body.fields, OptionId).value.s))
    ensures body.JObject? && r.Failure? ==> r.error == [InvalidField(OptionId)]
    ensures r.Success? ==> Get(body.fields, OptionId) == Some(JString(r.value)) && |r.value| == 36
  {
    match body
    case JObject(f) =>
      var v := Get(f, OptionId);
      if v.Some? && v.value.JString? && IsUuid(v.value.s) then Success(v.value.s)
      else Failure([InvalidField(OptionId)])
    case _ => Failure([NotAnObject])
  }

  // ---------------------------------------------------------------------
  // pollQuerySchema

  datatype StatusFilter = ActivePolls | ExpiredPolls | AllPolls
  datatype SortKey = ByCreatedAt | ByTitle | ByVoteCount
  datatype SortOrder = Ascending | Descending

  datatype PollQuery = PollQuery(
    page: real,
    limit: real,
    search: Option<string>,
    status: StatusFilter,
    sortBy: SortKey,
    sortOrder: SortOrder)

  /** The string that names each enum value in a query. */
  function StatusName(s: StatusFilter): string {
    match s
    case ActivePolls => "active"
    case ExpiredPolls => "expired"
    case AllPolls => "all"
  }

  function SortKeyName(k: SortKey): string {
    match k
    case ByCreatedAt => "created_at"
    case ByTitle => "title"
    case ByVoteCount => "vote_count"
  }

  function SortOrderName(o: SortOrder): string {
    match o
    case Ascending => "asc"
    case Descending => "desc"
  }

  /** `z.enum(['active', 'expired', 'all']).default('all')`: a present value
      yields the status it names, and nothing else is accepted. */
  function ParseStatus(v: Option<Json>): (r: Option<StatusFilter>)
    ensures v.None? ==> r == Some(AllPolls)
    ensures v.Some? ==> (r.Some? <==> v.value in [JString("active"), JString("expired"), JString("all")])
    ensures v.Some? && r.Some? ==> v.value == JString(StatusName(r.value))
    ensures forall s :: v == Some(JString(StatusName(s))) ==> r == Some(s)
  {
    if v.None? then Some(AllPolls)
    else if v.value == JString("active") then Some(ActivePolls)
    else if v.value == JString("expired") then Some(ExpiredPolls)
    else if v.value == JString("all") then Some(AllPolls)
    else None
  }

  /** `z.enum(['created_at', 'title', 'vote_count']).default('created_at')`. */
  function ParseSortKey(v: Option<Json>): (r: Option<SortKey>)
    ensures v.None? ==> r == Some(ByCreatedAt)
    ensures v.Some? ==> (r.Some? <==> v.value in [JString("created_at"), JString("title"), JString("vote_count")])
    ensures v.Some? && r.Some? ==> v.value == JString(SortKeyName(r.value))
    ensures forall k :: v == Some(JString(SortKeyName(k))) ==> r == Some(k)
  {
    if v.None? then Some(ByCreatedAt)
    else if v.value == JString("created_at") then Some(ByCreatedAt)
    else if v.value == JString("title") then Some(ByTitle)
    else if v.value == JString("vote_count") then Some(ByVoteCount)
    else None
  }

  /** `z.enum(['asc', 'desc']).default('desc')`. */
  function ParseSortOrder(v: Option<Json>): (r: Option<SortOrder>)
    ensures v.None? ==> r == Some(Descending)
    ensures v.Some? ==> (r.Some? <==> v.value in [JString("asc"), JString("desc")])
    ensures v.Some? && r.Some? ==> v.value == JString(SortOrderName(r.value))
    ensures forall o :: v == Some(JString(SortOrderName(o))) ==> r == Some(o)
  {
    if v.None? then Some(Descending)
    else if v.value == JString("asc") then Some(Ascending)
    else if v.value == JString("desc") then Some(Descending)
    else None
  }

  /** `z.coerce.number().min(lo).max(hi).default(d)`: an absent key takes the
      default; a present value goes through `toNumber` (JavaScript's
      `Number(...)`, `None` for NaN) and must lie in range. */
  function CoercedNumber(v: Option<Json>, d: real, lo: real, hi: Option<real>, toNumber: Json -> Option<real>): Option<real> {
    var n := if v.None? then Some(d) else toNumber(v.value);
    if n.Some? && lo <= n.value && (hi.None? || n.value <= hi.value) then n else None
  }

  /** pollQuerySchema.safeParse: page at least 1 (default 1), limit between 1
      and 100 (default 10), an optional search string, and the three enums
      with their defaults. */
  function ParsePollQuery(body: Json, toNumber: Json -> Option<real>): (r: Result<PollQuery, seq<Issue>>)
    ensures !body.JObject? ==> r == Failure([NotAnObject])
    ensures r.Failure? ==> r.error != []
    ensures r.Success? ==> var q := r.value;
      && 1.0 <= q.page && 1.0 <= q.limit <= 100.0
      && (Get(body.fields, Page).None? ==> q.page == 1.0)
      && (Get(body.fields, Limit).None? ==> q.limit == 10.0)
      && (Get(body.fields, Page).Some? ==> toNumber(Get(body.fields, Page).value) == Some(q.page))
      && (Get(body.fields, Limit).Some? ==> toNumber(Get(body.fields, Limit).value) == Some(q.limit))
      && StringValue(Get(body.fields, Search), q.search)
      && (Get(body.fields, Status).None? ==> q.status == AllPolls)
      && (Get(body.fields, SortBy).None? ==> q.sortBy == ByCreatedAt)
      && (Get(body.fields, SortOrderKey).None? ==> q.sortOrder == Descending)
      && (Get(body.fields, Status).Some? ==> Get(body.fields, Status).value == JString(StatusName(q.status)))
      && (Get(body.fields, SortBy).Some? ==> Get(body.fields, SortBy).value == JString(SortKeyName(q.sortBy)))
      && (Get(body.fields, SortOrderKey).Some? ==> Get(body.fields, SortOrderKey).value == JString(SortOrderName(q.sortOrder)))
  {
    match body
    case JObject(f) =>
      var page := CoercedNumber(Get(f, Page), 1.0, 1.0, None, toNumber);
      var limit := CoercedNumber(Get(f, Limit), 10.0, 1.0, Some(100.0), toNumber);
      var search := OptionalString(Get(f, Search), Unbounded);
      var status := ParseStatus(Get(f, Status));
      var sortBy := ParseSortKey(Get(f, SortBy));
      var sortOrder := ParseSortOrder(Get(f, SortOrderKey));
      if page.Some? && limit.Some? && search.Some? && status.Some? && sortBy.Some? && sortOrder.Some? then
        Success(PollQuery(page.value, limit.value, search.value, status.value, sortBy.value, sortOrder.value))
      else
        Failure(IssueAt(page.None?, Page) + IssueAt(limit.None?, Limit) + IssueAt(search.None?, Search)
          + IssueAt(status.None?, Status) + IssueAt(sortBy.None?, SortBy) + IssueAt(sortOrder.None?, SortOrderKey))
    case _ => Failure([NotAnObject])
  }

  // The query's rules, one per key, written out with the source's constants.

  predicate PageOk(v: Option<Json>, toNumber: Json -> Option<real>) {
    v.None? || (toNumber(v.value).Some? && 1.0 <= toNumber(v.value).value)
  }

  predicate LimitOk(v: Option<Json>, toNumber: Json -> Option<real>) {
    v.None? || (toNumber(v.value).Some? && 1.0 <= toNumber(v.value).value <= 100.0)
  }

  predicate SearchOk(v: Option<Json>) {
    v.None? || v.value.JString?
  }

  predicate StatusOk(v: Option<Json>) {
    v.None? || exists s :: v.value == JString(StatusName(s))
  }

  predicate SortKeyOk(v: Option<Json>) {
    v.None? || exists k :: v.value == JString(SortKeyName(k))
  }

  predicate SortOrderOk(v: Option<Json>) {
    v.None? || exists o :: v.value == JString(SortOrderName(o))
  }

  /** pollQuerySchema accepts exactly the queries whose every key obeys its
      rule, and the issues of a rejected query name exactly the keys that
      broke theirs. */
  lemma PollQueryAcceptsExactly(f: map<string, Json>, toNumber: Json -> Option<real>)
    ensures var r := ParsePollQuery(JObject(f), toNumber);
      && (r.Success? <==>
            PageOk(Get(f, Page), toNumber) && LimitOk(Get(f, Limit), toNumber) && SearchOk(Get(f, Search))
            && StatusOk(Get(f, Status)) && SortKeyOk(Get(f, SortBy)) && SortOrderOk(Get(f, SortOrderKey)))
      && (InvalidField(Page) in IssuesOf(r) <==> !PageOk(Get(f, Page), toNumber))
      && (InvalidField(Limit) in IssuesOf(r) <==> !LimitOk(Get(f, Limit), toNumber))
      && (InvalidField(Search) in IssuesOf(r) <==> !SearchOk(Get(f, Search)))
      && (InvalidField(Status) in IssuesOf(r) <==> !StatusOk(Get(f, Status)))
      && (InvalidField(SortBy) in IssuesOf(r) <==> !SortKeyOk(Get(f, SortBy)))
      && (InvalidField(SortOrderKey) in IssuesOf(r) <==> !SortOrderOk(Get(f, SortOrderKey)))
  {
    var page := CoercedNumber(Get(f, Page), 1.0, 1.0, None, toNumber);
    var limit := CoercedNumber(Get(f, Limit), 10.0, 1.0, Some(100.0), toNumber);
    var search := OptionalString(Get(f, Search), Unbounded);
    assert page.Some? <==> PageOk(Get(f, Page), toNumber);
    assert limit.Some? <==> LimitOk(Get(f, Limit), toNumber);
    assert search.Some? <==> SearchOk(Get(f, Search));
    var status := ParseStatus(Get(f, Status));
    var sortBy := ParseSortKey(Get(f, SortBy));
    var sortOrder := ParseSortOrder(Get(f, SortOrderKey));
    EnumRule(Get(f, Status), Get(f, SortBy), Get(f, SortOrderKey));
    var ok := page.Some? && limit.Some? && search.Some? && status.Some? && sortBy.Some? && sortOrder.Some?;
    var issues := IssueAt(page.None?, Page) + IssueAt(limit.None?, Limit) + IssueAt(search.None?, Search)
      + IssueAt(status.None?, Status) + IssueAt(sortBy.None?, SortBy) + IssueAt(sortOrder.None?, SortOrderKey);
    var r := ParsePollQuery(JObject(f), toNumber);
    assert r.Success? <==> ok;
    assert IssuesOf(r) == if ok then [] else issues;
    QueryIssues(page.None?, limit.None?, search.None?, status.None?, sortBy.None?, sortOrder.None?);
  }

  /** The query's issue list names exactly the keys whose flag is set. */
  lemma QueryIssues(page: bool, limit: bool, search: bool, status: bool, sortBy: bool, sortOrder: bool)
    ensures var issues := IssueAt(page, Page) + IssueAt(limit, Limit) + IssueAt(search, Search)
      + IssueAt(status, Status) + IssueAt(sortBy, SortBy) + IssueAt(sortOrder, SortOrderKey);
      && (InvalidField(Page) in issues <==> page)
      && (InvalidField(Limit) in issues <==> limit)
      && (InvalidField(Search) in issues <==> search)
      && (InvalidField(Status) in issues <==> status)
      && (InvalidField(SortBy) in issues <==> sortBy)
      && (InvalidField(SortOrderKey) in issues <==> sortOrder)
  {
  }

  /** Each enum accepts exactly the names of its values. */
  lemma EnumRule(status: Option<Json>, sortBy: Option<Json>, sortOrder: Option<Json>)
    ensures ParseStatus(status).Some? <==> StatusOk(status)
    ensures ParseSortKey(sortBy).Some? <==> SortKeyOk(sortBy)
    ensures ParseSortOrder(sortOrder).Some? <==> SortOrderOk(sortOrder)
  {
    if ParseStatus(status).Some? && status.Some? {
      assert status.value == JString(StatusName(ParseStatus(status).value));
    }
    if ParseSortKey(sortBy).Some? && sortBy.Some? {
      assert sortBy.value == JString(SortKeyName(ParseSortKey(sortBy).value));
    }
    if ParseSortOrder(sortOrder).Some? && sortOrder.Some? {
      assert sortOrder.value == JString(SortOrderName(ParseSortOrder(sortOrder).value));
    }
  }

  /** A page or limit that is present but not a number, or out of range, is
      reported at its key. */
  lemma PollQueryNumberIssues(f: map<string, Json>, toNumber: Json -> Option<real>)
    ensures var r := ParsePollQuery(JObject(f), toNumber);
      && (InvalidField(Page) in IssuesOf(r) <==>
            Get(f, Page).Some? && (toNumber(Get(f, Page).value).None? || toNumber(Get(f, Page).value).value < 1.0))
      && (InvalidField(Limit) in IssuesOf(r) <==>
            Get(f, Limit).Some? && (toNumber(Get(f, Limit).value).None?
                                    || toNumber(Get(f, Limit).value).value < 1.0
                                    || toNumber(Get(f, Limit).value).value > 100.0))
  {
  }

  /** An empty query string lists the first page of ten, every status,
      newest first. */
  lemma PollQueryDefaults(toNumber: Json -> Option<real>)
    ensures ParsePollQuery(JObject(map[]), toNumber) == Success(PollQuery(1.0, 10.0, None, AllPolls, ByCreatedAt, Descending))
  {
  }
}
