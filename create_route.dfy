/** The POST handler of app/api/polls/route.ts. It reads the JSON body, checks
    it against the route's own schema (looser than the library's: no cap on
    the number of options, no cap on the description, no future check on the
    expiry), and answers with a mock poll (201), the validation issues (400)
    or "Internal server error" (500). The clock is the parameter `now`
    (milliseconds since the epoch); a body that is not JSON is `None`. */
module CreatePollRoute {
  import opened Wrappers
  import opened JsonValues
  import opened Text
  import opened SchemaRules
  import opened PollValidation

  // ---------------------------------------------------------------------
  // The route's schema

  predicate RouteDescriptionOk(v: Option<Json>) {
    v.None? || v.value.JString?
  }

  predicate RouteOptionsOk(v: Option<Json>) {
    && v.Some? && v.value.JArray?
    && 2 <= |v.value.items|
    && forall i :: 0 <= i < |v.value.items| ==> v.value.items[i].JString? && |v.value.items[i].s| >= 1
  }

  predicate DateTimeOk(v: Option<Json>, parseTime: string -> Option<int>) {
    v.None? || (v.value.JString? && parseTime(v.value.s).Some?)
  }

  /** The route's createPollSchema.parse. Its output has the library
      schema's shape. */
  function ParseRouteBody(body: Json, parseTime: string -> Option<int>): (r: Result<CreatePollInput, seq<Issue>>)
    ensures !body.JObject? ==> r == Failure([NotAnObject])
    ensures r.Failure? ==> r.error != []
    ensures r.Success? ==> var f := body.fields; var c := r.value;
      && Get(f, Title) == Some(JString(c.title))
      && StringValue(Get(f, Description), c.description)
      && RouteOptionsOk(Get(f, Options)) && |Get(f, Options).value.items| == |c.options|
      && (forall i :: 0 <= i < |c.options| ==> Get(f, Options).value.items[i] == JString(c.options[i]))
      && FlagValue(Get(f, AllowMultipleVotes), false, c.allowMultipleVotes)
      && StringValue(Get(f, ExpiresAt), c.expiresAt)
      && FlagValue(Get(f, IsPublic), true, c.isPublic)
  {
    match body
    case JObject(f) =>
      CreateObject(ParseTitle(Get(f, Title)), ParseRouteDescription(Get(f, Description)),
        ParseRouteOptions(Get(f, Options)), ParseFlag(Get(f, AllowMultipleVotes), false),
        ParseDateTime(Get(f, ExpiresAt), parseTime), ParseFlag(Get(f, IsPublic), true))
    case _ => Failure([NotAnObject])
  }

  function ParseRouteDescription(v: Option<Json>): (r: Option<Option<string>>)
    ensures r.Some? <==> RouteDescriptionOk(v)
    ensures r.Some? ==> StringValue(v, r.value)
  {
    OptionalString(v, Unbounded)
  }

  function ParseRouteOptions(v: Option<Json>): (r: Option<seq<string>>)
    ensures r.Some? <==> RouteOptionsOk(v)
    ensures r.Some? ==> |v.value.items| == |r.value| && forall i :: 0 <= i < |r.value| ==> v.value.items[i] == JString(r.value[i])
  {
    StringArray(v, 2, Unbounded, 1)
  }

  function ParseDateTime(v: Option<Json>, parseTime: string -> Option<int>): (r: Option<Option<string>>)
    ensures r.Some? <==> DateTimeOk(v, parseTime)
    ensures r.Some? ==> StringValue(v, r.value)
  {
    OptionalDateTime(v, parseTime)
  }

  /** The route accepts exactly the bodies whose keys obey its rules, and
      reports exactly the keys that do not. */
  lemma RouteAcceptsExactly(f: map<string, Json>, parseTime: string -> Option<int>)
    ensures var r := ParseRouteBody(JObject(f), parseTime);
      && (r.Success? <==>
            TitleOk(Get(f, Title)) && RouteDescriptionOk(Get(f, Description)) && RouteOptionsOk(Get(f, Options))
            && FlagOk(Get(f, AllowMultipleVotes)) && DateTimeOk(Get(f, ExpiresAt), parseTime)
            && FlagOk(Get(f, IsPublic)))
      && (InvalidField(Title) in IssuesOf(r) <==> !TitleOk(Get(f, Title)))
      && (InvalidField(Description) in IssuesOf(r) <==> !RouteDescriptionOk(Get(f, Description)))
      && (InvalidField(Options) in IssuesOf(r) <==> !RouteOptionsOk(Get(f, Options)))
      && (InvalidField(AllowMultipleVotes) in IssuesOf(r) <==> !FlagOk(Get(f, AllowMultipleVotes)))
      && (InvalidField(ExpiresAt) in IssuesOf(r) <==> !DateTimeOk(Get(f, ExpiresAt), parseTime))
      && (InvalidField(IsPublic) in IssuesOf(r) <==> !FlagOk(Get(f, IsPublic)))
  {
  }

  /** The route is looser than the library schema: whatever the library
      accepts, the route accepts with the same value. */
  lemma RouteAcceptsLibraryInputs(body: Json, parseTime: string -> Option<int>, now: int)
    requires ParseCreatePoll(body, parseTime, now).Success?
    ensures ParseRouteBody(body, parseTime) == ParseCreatePoll(body, parseTime, now)
  {
  }

  /** ... and strictly looser: eleven options, a 1001-character description
      or an expiry in the past pass the route but not the library schema. */
  lemma RouteIsLooser(f: map<string, Json>, parseTime: string -> Option<int>, now: int)
    requires ParseRouteBody(JObject(f), parseTime).Success?
    requires || |Get(f, Options).value.items| > 10
             || (Get(f, Description).Some? && |Get(f, Description).value.s| > 1000)
             || (Get(f, ExpiresAt).Some? && parseTime(Get(f, ExpiresAt).value.s).value <= now)
    ensures ParseCreatePoll(JObject(f), parseTime, now).Failure?
  {
    CreatePollAcceptsExactly(f, parseTime, now);
  }

  // ---------------------------------------------------------------------
  // The mock poll and the response

  datatype CreatedOption = CreatedOption(id: string, text: string, orderIndex: nat, votes: nat)

  datatype CreatedPoll = CreatedPoll(
    id: string,
    title: string,
    description: Option<string>,
    creatorId: string,
    isPublic: bool,
    allowMultipleVotes: bool,
    expiresAt: Option<string>,
    createdAt: int,
    updatedAt: int,
    options: seq<CreatedOption>)

  datatype Response =
    | Created(poll: CreatedPoll)
    | BadRequest(issues: seq<Issue>)
    | ServerError(message: string)

  /** 201 for a created poll, 400 for a rejected body, 500 otherwise. */
  function StatusCode(r: Response): (code: int)
    ensures 200 <= code < 300 <==> r.Created?
    ensures 400 <= code < 500 <==> r.BadRequest?
    ensures 500 <= code < 600 <==> r.ServerError?
  {
    match r
    case Created(_) => 201
    case BadRequest(_) => 400
    case ServerError(_) => 500
  }

  const MockCreatorId := "mock-user-id"
  const InternalError := "Internal server error"

  /** The identifier of the option at `index`: "option-1" for the first. */
  function CreatedOptionId(index: nat): (id: string)
    ensures StartsWith(id, "option-")
    ensures id[7..] == NatToString(index + 1)
  {
    "option-" + NatToString(index + 1)
  }

  /** `options.map((option, index) => ...)`: one record per text, in order,
      numbered from 1, ordered from 0 and without votes. */
  function BuildOptions(texts: seq<string>): (r: seq<CreatedOption>)
    ensures |r| == |texts|
    ensures forall i :: 0 <= i < |r| ==>
      r[i] == CreatedOption("option-" + NatToString(i + 1), texts[i], i, 0)
  {
    seq(|texts|, i requires 0 <= i < |texts| => CreatedOption(CreatedOptionId(i), texts[i], i, 0))
  }

  /** No two created options share an identifier. */
  lemma CreatedOptionIdsDistinct(texts: seq<string>, i: nat, j: nat)
    requires i < |texts| && j < |texts| && i != j
    ensures BuildOptions(texts)[i].id != BuildOptions(texts)[j].id
  {
    var o := BuildOptions(texts);
    assert o[i].id == CreatedOptionId(i) && o[j].id == CreatedOptionId(j);
    if o[i].id == o[j].id {
      CreatedOptionIdInjective(i, j);
    }
  }

  lemma CreatedOptionIdInjective(i: nat, j: nat)
    requires CreatedOptionId(i) == CreatedOptionId(j)
    ensures i == j
  {
    NatToStringInjective(i + 1, j + 1);
  }

  /** The created identifiers are not UUIDs, so the vote schema, which
      demands one, rejects every one of them. */
  lemma CreatedOptionIdsAreNotUuids(index: nat)
    ensures !IsUuid(CreatedOptionId(index))
  {
    var s := CreatedOptionId(index);
    assert s[0] == 'o';
    assert !IsUuidHyphenPosition(0);
  }

  /** The POST handler. */
  function HandlePost(body: Option<Json>, parseTime: string -> Option<int>, now: nat): (r: Response)
    ensures body.None? ==> r == ServerError(InternalError)
    ensures body.Some? ==> (r.Created? <==> ParseRouteBody(body.value, parseTime).Success?)
    ensures body.Some? && ParseRouteBody(body.value, parseTime).Failure? ==>
      r == BadRequest(ParseRouteBody(body.value, parseTime).error)
    ensures r.Created? ==> var c := ParseRouteBody(body.value, parseTime).value; var p := r.poll;
      && p.id == NatToString(now) && p.creatorId == MockCreatorId
      && p.title == c.title && p.description == c.description && p.expiresAt == c.expiresAt
      && p.isPublic == c.isPublic && p.allowMultipleVotes == c.allowMultipleVotes
      && p.createdAt == now && p.updatedAt == now
      && |p.options| == |c.options|
      && forall i :: 0 <= i < |p.options| ==>
           p.options[i].text == c.options[i] && p.options[i].orderIndex == i && p.options[i].votes == 0
           && p.options[i].id == "option-" + NatToString(i + 1)
  {
    if body.None? then ServerError(InternalError)
    else
      match ParseRouteBody(body.value, parseTime)
      case Failure(issues) => BadRequest(issues)
      case Success(c) =>
        Created(CreatedPoll(NatToString(now), c.title, c.description, MockCreatorId, c.isPublic,
          c.allowMultipleVotes, c.expiresAt, now, now, BuildOptions(c.options)))
  }

  /** A created poll carries what the body held: its title, description,
      flags (false and true when absent) and expiry, and one option per
      entry of the body's options, in order. */
  lemma PostCarriesBody(body: Json, parseTime: string -> Option<int>, now: nat)
    requires ParseRouteBody(body, parseTime).Success?
    ensures var r := HandlePost(Some(body), parseTime, now); var f := body.fields;
      && r.Created?
      && Get(f, Title) == Some(JString(r.poll.title))
      && StringValue(Get(f, Description), r.poll.description)
      && FlagValue(Get(f, AllowMultipleVotes), false, r.poll.allowMultipleVotes)
      && StringValue(Get(f, ExpiresAt), r.poll.expiresAt)
      && FlagValue(Get(f, IsPublic), true, r.poll.isPublic)
      && RouteOptionsOk(Get(f, Options)) && |Get(f, Options).value.items| == |r.poll.options|
      && forall i :: 0 <= i < |r.poll.options| ==> Get(f, Options).value.items[i] == JString(r.poll.options[i].text)
  {
  }

  /** A body without the flags and the expiry yields, if anything, a public,
      single-vote poll without expiry. */
  lemma AbsentKeysTakeDefaults(body: Json, parseTime: string -> Option<int>, now: nat)
    requires body.JObject?
    requires Get(body.fields, AllowMultipleVotes).None? && Get(body.fields, ExpiresAt).None? && Get(body.fields, IsPublic).None?
    ensures var r := HandlePost(Some(body), parseTime, now);
      r.Created? ==> r.poll.isPublic && !r.poll.allowMultipleVotes && r.poll.expiresAt.None?
  {
    if ParseRouteBody(body, parseTime).Success? {
      PostCarriesBody(body, parseTime, now);
    }
  }

  /** A null description is a 400 with an issue at "description". */
  lemma NullDescriptionIsRejected(body: Json, parseTime: string -> Option<int>, now: nat)
    requires body.JObject? && Get(body.fields, Description) == Some(JNull)
    ensures var r := HandlePost(Some(body), parseTime, now);
      r.BadRequest? && InvalidField(Description) in r.issues
  {
    RouteAcceptsExactly(body.fields, parseTime);
  }

  /** Status codes: 201 for a created poll, 400 for a body the schema
      rejects (an empty or over-long title, fewer than two options, an empty
      option), 500 for a body that is not JSON. */
  lemma PostStatusCodes(body: Option<Json>, parseTime: string -> Option<int>, now: nat)
    ensures body.None? ==> StatusCode(HandlePost(body, parseTime, now)) == 500
    ensures body.Some? && body.value.JObject? ==> var f := body.value.fields;
      (StatusCode(HandlePost(body, parseTime, now)) == 400 <==>
         !(TitleOk(Get(f, Title)) && RouteDescriptionOk(Get(f, Description)) && RouteOptionsOk(Get(f, Options))
           && FlagOk(Get(f, AllowMultipleVotes)) && DateTimeOk(Get(f, ExpiresAt), parseTime)
           && FlagOk(Get(f, IsPublic))))
    ensures body.Some? && !body.value.JObject? ==> StatusCode(HandlePost(body, parseTime, now)) == 400
  {
    if body.Some? && body.value.JObject? {
      RouteAcceptsExactly(body.value.fields, parseTime);
    }
  }
}
