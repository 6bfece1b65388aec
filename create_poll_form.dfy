/** The poll-creation form of components/polls/create-poll-form.tsx: its
    editable option rows (never fewer than two), the check the form runs
    before submitting, and the JSON body it posts to the creation route.
    The form's values become the fields of `CreatePollForm`; the network
    request and the navigation after it are not part of this model. */
module CreatePollFormView {
  import opened Wrappers
  import opened JsonValues
  import opened Text
  import opened SchemaRules
  import opened PollValidation
  import opened CreatePollRoute

  // ---------------------------------------------------------------------
  // The client-side schema

  /** The form's own zod schema: a title of 1 to 200 characters and at least
      two option rows, none of them empty. */
  predicate ClientSchemaAccepts(title: string, rows: seq<string>): (ok: bool)
    ensures ok ==> TitleOk(Some(JString(title)))
    ensures ok ==> |rows| >= 2 && forall i :: 0 <= i < |rows| ==> rows[i] != ""
    ensures |title| == 0 || |title| > 200 || |rows| < 2 ==> !ok
  {
    1 <= |title| <= 200 && |rows| >= 2 && forall i :: 0 <= i < |rows| ==> |rows[i]| >= 1
  }

  // ---------------------------------------------------------------------
  // The submitted body

  /** `.filter((option) => option.trim() !== "")`: the rows in order, minus
      the blank ones; a kept row is sent as typed, untrimmed. */
  function NonBlankRows(rows: seq<string>): (r: seq<string>)
    ensures |r| <= |rows|
    ensures forall i :: 0 <= i < |r| ==> Trim(r[i]) != [] && r[i] in rows
    ensures forall i :: 0 <= i < |rows| && Trim(rows[i]) != [] ==> rows[i] in r
  {
    if rows == [] then []
    else (if Trim(rows[0]) != [] then [rows[0]] else []) + NonBlankRows(rows[1..])
  }

  /** The filter works row by row: the rows sent for `a + b` are those sent
      for `a` followed by those sent for `b`, and a single row is sent
      exactly when it is not blank. Together these fix the order and the
      number of copies of every row sent. */
  lemma {:induction false} NonBlankRowsAppend(a: seq<string>, b: seq<string>)
    ensures NonBlankRows(a + b) == NonBlankRows(a) + NonBlankRows(b)
  {
    if a == [] {
      assert a + b == b;
    } else {
      assert (a + b)[0] == a[0] && (a + b)[1..] == a[1..] + b;
      NonBlankRowsAppend(a[1..], b);
    }
  }

  lemma NonBlankRowsOfOne(x: string)
    ensures NonBlankRows([x]) == if Trim(x) != [] then [x] else []
  {
    assert [x][1..] == [];
  }

  /** Rows that are none of them blank are all sent, in order. */
  lemma {:induction false} NonBlankRowsKeepsAll(rows: seq<string>)
    requires forall i :: 0 <= i < |rows| ==> Trim(rows[i]) != []
    ensures NonBlankRows(rows) == rows
  {
    if rows != [] {
      NonBlankRowsKeepsAll(rows[1..]);
    }
  }

  /** `data.x || null`: an empty or absent string is sent as null. */
  function OrNull(s: Option<string>): (v: Json)
    ensures v == JNull <==> s.None? || s.value == ""
    ensures v != JNull ==> v == JString(s.value)
  {
    if s.Some? && s.value != "" then JString(s.value) else JNull
  }

  function JStrings(ss: seq<string>): (v: seq<Json>)
    ensures |v| == |ss|
    ensures forall i :: 0 <= i < |ss| ==> v[i] == JString(ss[i])
  {
    seq(|ss|, i requires 0 <= i < |ss| => JString(ss[i]))
  }

  /** The body onSubmit posts, as written: snake_case keys for the two flags
      and the expiry, null for an empty description or expiry, and the
      non-blank rows as options. */
  function SubmitPayload(title: string, description: string, rows: seq<string>,
                         allowMultipleVotes: bool, expiresAt: Option<string>, isPublic: bool): (body: Json)
    ensures body.JObject?
    ensures body.fields.Keys == {"title", "description", "options", "allow_multiple_votes", "expires_at", "is_public"}
  {
    JObject(map[
      "title" := JString(title),
      "description" := OrNull(Some(description)),
      "options" := JArray(JStrings(NonBlankRows(rows))),
      "allow_multiple_votes" := JBool(allowMultipleVotes),
      "expires_at" := OrNull(expiresAt),
      "is_public" := JBool(isPublic)])
  }

  /** What the route reads from the body as written: the title, the
      description (null when empty), the non-blank rows, and none of the
      three camelCase keys. */
  lemma SubmitPayloadAsRead(title: string, description: string, rows: seq<string>,
                            allowMultipleVotes: bool, expiresAt: Option<string>, isPublic: bool)
    ensures var body := SubmitPayload(title, description, rows, allowMultipleVotes, expiresAt, isPublic);
      && body.JObject?
      && Get(body.fields, Title) == Some(JString(title))
      && Get(body.fields, Description) == Some(OrNull(Some(description)))
      && Get(body.fields, Options) == Some(JArray(JStrings(NonBlankRows(rows))))
      && Get(body.fields, AllowMultipleVotes).None?
      && Get(body.fields, ExpiresAt).None?
      && Get(body.fields, IsPublic).None?
  {
    var f := SubmitPayload(title, description, rows, allowMultipleVotes, expiresAt, isPublic).fields;
    SnakeCaseKeys(f, JString(title), OrNull(Some(description)), JArray(JStrings(NonBlankRows(rows))),
      JBool(allowMultipleVotes), OrNull(expiresAt), JBool(isPublic));
  }

  lemma SnakeCaseKeys(f: map<string, Json>, t: Json, d: Json, o: Json, a: Json, e: Json, p: Json)
    requires f == map["title" := t, "description" := d, "options" := o,
                      "allow_multiple_votes" := a, "expires_at" := e, "is_public" := p]
    ensures Get(f, Title) == Some(t) && Get(f, Description) == Some(d) && Get(f, Options) == Some(o)
    ensures Get(f, AllowMultipleVotes).None? && Get(f, ExpiresAt).None? && Get(f, IsPublic).None?
  {
  }

  /** Where the form's flags and expiry actually go: under snake_case keys. */
  lemma SubmitPayloadSnakeCase(title: string, description: string, rows: seq<string>,
                               allowMultipleVotes: bool, expiresAt: Option<string>, isPublic: bool)
    ensures var f := SubmitPayload(title, description, rows, allowMultipleVotes, expiresAt, isPublic).fields;
      && f.Keys == {"title", "description", "options", "allow_multiple_votes", "expires_at", "is_public"}
      && f["allow_multiple_votes"] == JBool(allowMultipleVotes)
      && f["expires_at"] == OrNull(expiresAt)
      && f["is_public"] == JBool(isPublic)
  {
  }

  /** An empty description is sent as null, which the route's optional
      string rejects: every such submission gets a 400. */
  lemma EmptyDescriptionIsRejected(title: string, rows: seq<string>, allowMultipleVotes: bool,
                                   expiresAt: Option<string>, isPublic: bool,
                                   parseTime: string -> Option<int>, now: nat)
    ensures var r := HandlePost(Some(SubmitPayload(title, "", rows, allowMultipleVotes, expiresAt, isPublic)), parseTime, now);
      r.BadRequest? && InvalidField(Description) in r.issues
  {
    var body := SubmitPayload(title, "", rows, allowMultipleVotes, expiresAt, isPublic);
    SubmitPayloadAsRead(title, "", rows, allowMultipleVotes, expiresAt, isPublic);
    NullDescriptionIsRejected(body, parseTime, now);
  }

  /** The route reads camelCase keys, so the form's snake_case flags and
      expiry never reach the created poll: it is always public, single-vote
      and without expiry, whatever the form held. */
  lemma SubmittedFlagsAreIgnored(title: string, description: string, rows: seq<string>,
                                 allowMultipleVotes: bool, expiresAt: Option<string>, isPublic: bool,
                                 parseTime: string -> Option<int>, now: nat)
    ensures var r := HandlePost(Some(SubmitPayload(title, description, rows, allowMultipleVotes, expiresAt, isPublic)), parseTime, now);
      r.Created? ==> r.poll.isPublic && !r.poll.allowMultipleVotes && r.poll.expiresAt.None?
  {
    var body := SubmitPayload(title, description, rows, allowMultipleVotes, expiresAt, isPublic);
    SubmitPayloadAsRead(title, description, rows, allowMultipleVotes, expiresAt, isPublic);
    AbsentKeysTakeDefaults(body, parseTime, now);
  }

  /** `m` with `key` set when there is a value for it. */
  function WithOptional(m: map<string, Json>, key: string, v: Option<Json>): map<string, Json> {
    if v.Some? then m[key := v.value] else m
  }

  /** The body the route can read: camelCase keys, and an empty description
      or expiry left out rather than sent as null. */
  function CorrectedPayload(title: string, description: string, rows: seq<string>,
                            allowMultipleVotes: bool, expiresAt: Option<string>, isPublic: bool): (body: Json)
    ensures body.JObject?
    ensures {"title", "options", "allowMultipleVotes", "isPublic"} <= body.fields.Keys
    ensures "description" in body.fields <==> description != ""
    ensures "expiresAt" in body.fields <==> expiresAt.Some? && expiresAt.value != ""
  {
    var base := map[
      "title" := JString(title),
      "options" := JArray(JStrings(NonBlankRows(rows))),
      "allowMultipleVotes" := JBool(allowMultipleVotes),
      "isPublic" := JBool(isPublic)];
    JObject(WithOptional(WithOptional(base, "description", OptionalText(description)), "expiresAt", OptionalText(expiresAt.GetOr(""))))
  }

  /** A non-empty string, or nothing. */
  function OptionalText(s: string): (v: Option<Json>)
    ensures v.None? <==> s == ""
    ensures v.Some? ==> v.value == JString(s)
  {
    if s == "" then None else Some(JString(s))
  }

  /** What the route reads from the corrected body: every value under the
      key it looks for. */
  lemma CorrectedPayloadAsRead(title: string, description: string, rows: seq<string>,
                               allowMultipleVotes: bool, expiresAt: Option<string>, isPublic: bool)
    ensures var body := CorrectedPayload(title, description, rows, allowMultipleVotes, expiresAt, isPublic);
      && body.JObject?
      && Get(body.fields, Title) == Some(JString(title))
      && Get(body.fields, Description) == OptionalText(description)
      && Get(body.fields, Options) == Some(JArray(JStrings(NonBlankRows(rows))))
      && Get(body.fields, AllowMultipleVotes) == Some(JBool(allowMultipleVotes))
      && Get(body.fields, ExpiresAt) == OptionalText(expiresAt.GetOr(""))
      && Get(body.fields, IsPublic) == Some(JBool(isPublic))
  {
    var f := CorrectedPayload(title, description, rows, allowMultipleVotes, expiresAt, isPublic).fields;
    CamelCaseKeys(f, JString(title), JArray(JStrings(NonBlankRows(rows))), JBool(allowMultipleVotes), JBool(isPublic),
      OptionalText(description), OptionalText(expiresAt.GetOr("")));
  }

  lemma CamelCaseKeys(f: map<string, Json>, t: Json, o: Json, a: Json, p: Json, d: Option<Json>, e: Option<Json>)
    requires f == WithOptional(WithOptional(map["title" := t, "options" := o, "allowMultipleVotes" := a, "isPublic" := p],
                                            "description", d), "expiresAt", e)
    ensures Get(f, Title) == Some(t) && Get(f, Options) == Some(o)
    ensures Get(f, AllowMultipleVotes) == Some(a) && Get(f, IsPublic) == Some(p)
    ensures Get(f, Description) == d && Get(f, ExpiresAt) == e
  {
  }

  /** A form that passes the corrected client check, with a readable expiry,
      is created by the route from the corrected body, and the poll carries
      the form's flags, description, expiry and options. */
  lemma CorrectedPayloadIsAccepted(title: string, description: string, rows: seq<string>,
                                   allowMultipleVotes: bool, expiresAt: Option<string>, isPublic: bool,
                                   parseTime: string -> Option<int>, now: nat)
    requires CorrectedClientSchemaAccepts(title, rows)
    requires expiresAt.GetOr("") != "" ==> parseTime(expiresAt.GetOr("")).Some?
    ensures var r := HandlePost(Some(CorrectedPayload(title, description, rows, allowMultipleVotes, expiresAt, isPublic)), parseTime, now);
      && r.Created?
      && r.poll.title == title
      && r.poll.description == (if description == "" then None else Some(description))
      && r.poll.isPublic == isPublic && r.poll.allowMultipleVotes == allowMultipleVotes
      && r.poll.expiresAt == (if expiresAt.GetOr("") == "" then None else expiresAt)
      && |r.poll.options| == |rows|
      && forall i :: 0 <= i < |rows| ==> r.poll.options[i].text == rows[i]
  {
    var body := CorrectedPayload(title, description, rows, allowMultipleVotes, expiresAt, isPublic);
    CorrectedPayloadAsRead(title, description, rows, allowMultipleVotes, expiresAt, isPublic);
    CorrectedClientCheckKeepsRows(title, rows);
    AcceptedAsRead(body, title, description, rows, allowMultipleVotes, expiresAt, isPublic, parseTime, now);
  }

  /** The same, for any body under which the route finds the form's
      values. */
  lemma AcceptedAsRead(body: Json, title: string, description: string, rows: seq<string>,
                       allowMultipleVotes: bool, expiresAt: Option<string>, isPublic: bool,
                       parseTime: string -> Option<int>, now: nat)
    requires CorrectedClientSchemaAccepts(title, rows)
    requires expiresAt.GetOr("") != "" ==> parseTime(expiresAt.GetOr("")).Some?
    requires body.JObject?
    requires Get(body.fields, Title) == Some(JString(title))
    requires Get(body.fields, Description) == OptionalText(description)
    requires Get(body.fields, Options) == Some(JArray(JStrings(rows)))
    requires Get(body.fields, AllowMultipleVotes) == Some(JBool(allowMultipleVotes))
    requires Get(body.fields, ExpiresAt) == OptionalText(expiresAt.GetOr(""))
    requires Get(body.fields, IsPublic) == Some(JBool(isPublic))
    ensures var r := HandlePost(Some(body), parseTime, now);
      && r.Created?
      && r.poll.title == title
      && r.poll.description == (if description == "" then None else Some(description))
      && r.poll.isPublic == isPublic && r.poll.allowMultipleVotes == allowMultipleVotes
      && r.poll.expiresAt == (if expiresAt.GetOr("") == "" then None else expiresAt)
      && |r.poll.options| == |rows|
      && forall i :: 0 <= i < |rows| ==> r.poll.options[i].text == rows[i]
  {
    var f := body.fields;
    var items := JStrings(rows);
    assert RouteOptionsOk(Get(f, Options)) by {
      forall i | 0 <= i < |items| ensures items[i].JString? && |items[i].s| >= 1 {
        assert items[i] == JString(rows[i]);
        TrimEmptyIffBlank(rows[i]);
      }
    }
    RouteAcceptsExactly(f, parseTime);
    PostCarriesBody(body, parseTime, now);
    var p := HandlePost(Some(body), parseTime, now).poll;
    forall i | 0 <= i < |rows| ensures p.options[i].text == rows[i] {
      assert items[i] == JString(p.options[i].text);
    }
  }

  /** The client check lets a blank row through (it only asks for one
      character), but the body drops it: a filled row and a row of spaces,
      such as "a" and " ", pass the check and leave a single option, which
      the route rejects. */
  lemma BlankRowPassesClientCheck(title: string, filled: string, blank: string,
                                  parseTime: string -> Option<int>, now: nat)
    requires 1 <= |title| <= 200
    requires Trim(filled) != [] && blank != [] && IsBlank(blank)
    ensures ClientSchemaAccepts(title, [filled, blank])
    ensures NonBlankRows([filled, blank]) == [filled]
    ensures var r := HandlePost(Some(CorrectedPayload(title, "", [filled, blank], false, None, true)), parseTime, now);
      r.BadRequest? && InvalidField(Options) in r.issues
  {
    TrimEmptyIffBlank(blank);
    NonBlankRowsOfPair(filled, blank);
    var rows := [filled, blank];
    CorrectedPayloadAsRead(title, "", rows, false, None, true);
    TooFewOptionsRejected(CorrectedPayload(title, "", rows, false, None, true), parseTime, now);
  }

  lemma NonBlankRowsOfPair(filled: string, blank: string)
    requires Trim(filled) != [] && Trim(blank) == []
    ensures NonBlankRows([filled, blank]) == [filled]
  {
    var rows := [filled, blank];
    assert rows[1..] == [blank];
    assert NonBlankRows([blank]) == [] by { assert [blank][1..] == []; }
  }

  /** A body with fewer than two options is answered with a 400 that names
      the options. */
  lemma TooFewOptionsRejected(body: Json, parseTime: string -> Option<int>, now: nat)
    requires body.JObject? && Get(body.fields, Options).Some? && Get(body.fields, Options).value.JArray?
    requires |Get(body.fields, Options).value.items| < 2
    ensures var r := HandlePost(Some(body), parseTime, now);
      r.BadRequest? && InvalidField(Options) in r.issues
  {
    RouteAcceptsExactly(body.fields, parseTime);
  }

  /** The check the form evidently means: every row must hold something
      other than white space. */
  predicate CorrectedClientSchemaAccepts(title: string, rows: seq<string>) {
    1 <= |title| <= 200 && |rows| >= 2 && forall i :: 0 <= i < |rows| ==> Trim(rows[i]) != []
  }

  /** Under the corrected check no row is dropped, so the body carries every
      row and at least two options; and the corrected check is the stricter
      of the two. */
  lemma CorrectedClientCheckKeepsRows(title: string, rows: seq<string>)
    requires CorrectedClientSchemaAccepts(title, rows)
    ensures NonBlankRows(rows) == rows && |NonBlankRows(rows)| >= 2
    ensures ClientSchemaAccepts(title, rows)
  {
    NonBlankRowsKeepsAll(rows);
  }

  // ---------------------------------------------------------------------
  // The form

  class CreatePollForm {
    var title: string
    var description: string
    var rows: seq<string>
    var allowMultipleVotes: bool
    var expiresAt: Option<string>
    var isPublic: bool

    /** The option rows never drop below two. */
    ghost predicate Valid()
      reads this
    {
      |rows| >= 2
    }

    /** The form's default values. */
    constructor()
      ensures Valid()
      ensures rows == ["", ""]
      ensures title == "" && description == "" && !allowMultipleVotes && isPublic && expiresAt.None?
    {
      title := "";
      description := "";
      rows := ["", ""];
      allowMultipleVotes := false;
      expiresAt := None;
      isPublic := true;
    }

    /** addOption: one more empty row at the end. */
    method AddOption()
      requires Valid()
      modifies this
      ensures Valid()
      ensures rows == old(rows) + [""]
      ensures title == old(title) && description == old(description) && allowMultipleVotes == old(allowMultipleVotes)
      ensures expiresAt == old(expiresAt) && isPublic == old(isPublic)
    {
      rows := rows + [""];
    }

    /** removeOption: the row at `index` goes only while there are more than
        two. */
    method RemoveOption(index: nat)
      requires Valid() && index < |rows|
      modifies this
      ensures Valid()
      ensures old(|rows|) > 2 ==> rows == old(rows[..index] + rows[index + 1..])
      ensures old(|rows|) <= 2 ==> rows == old(rows)
      ensures title == old(title) && description == old(description) && allowMultipleVotes == old(allowMultipleVotes)
      ensures expiresAt == old(expiresAt) && isPublic == old(isPublic)
    {
      if |rows| > 2 {
        rows := rows[..index] + rows[index + 1..];
      }
    }

    /** Typing into the row at `index`. */
    method SetRow(index: nat, value: string)
      requires Valid() && index < |rows|
      modifies this
      ensures Valid()
      ensures rows == old(rows)[index := value]
      ensures title == old(title) && description == old(description) && allowMultipleVotes == old(allowMultipleVotes)
      ensures expiresAt == old(expiresAt) && isPublic == old(isPublic)
    {
      rows := rows[index := value];
    }

    method SetTitle(value: string)
      requires Valid()
      modifies this
      ensures Valid()
      ensures title == value && rows == old(rows) && description == old(description)
      ensures allowMultipleVotes == old(allowMultipleVotes) && expiresAt == old(expiresAt) && isPublic == old(isPublic)
    {
      title := value;
    }

    method SetDescription(value: string)
      requires Valid()
      modifies this
      ensures Valid()
      ensures description == value && rows == old(rows) && title == old(title)
      ensures allowMultipleVotes == old(allowMultipleVotes) && expiresAt == old(expiresAt) && isPublic == old(isPublic)
    {
      description := value;
    }

    /** What a submit posts: nothing when the client check fails, the body
        built from the current values otherwise. */
    method Submit() returns (body: Option<Json>)
      requires Valid()
      ensures body.Some? <==> ClientSchemaAccepts(title, rows)
      ensures body.Some? ==> body.value == SubmitPayload(title, description, rows, allowMultipleVotes, expiresAt, isPublic)
    {
      if ClientSchemaAccepts(title, rows) {
        body := Some(SubmitPayload(title, description, rows, allowMultipleVotes, expiresAt, isPublic));
      } else {
        body := None;
      }
    }
  }
}
