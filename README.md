# Polling app core, modelled in Dafny

This project models the core of a small Next.js polling application and
proves properties of that model:

- the poll helpers in `lib/utils/poll.ts`: vote totals and rounded
  percentages, expiry and status, who may vote, poll URLs and share text,
  cleaning and case-insensitive de-duplication of option labels, the stable
  sort by `order_index`, the analytics summary and the "time until expiry"
  text;
- the zod request schemas in `lib/validations/poll.ts`: creation, update,
  vote and list-query bodies;
- the `POST` handler of `app/api/polls/route.ts`, with its own looser
  creation schema and its mock 201 response;
- the redirect decision of `middleware.ts`;
- the poll page `components/polls/poll-details.tsx`: option selection,
  voting state, vote totals and shares;
- the poll-creation form `components/polls/create-poll-form.tsx`: its
  option rows, its client-side check and the JSON body it posts;
- the records of `types/index.ts` (`Poll`, `PollOption`, `Vote`).

Modules, one file each:

| module | file | what it holds |
|---|---|---|
| `Wrappers` | wrappers.dfy | `Option` and `Result` |
| `Text` | text.dfy | `trim`, `toLowerCase`, `startsWith` and number rendering, at the ASCII level |
| `JsonValues` | json.dfy | JSON values, which is what request bodies are |
| `PollTypes` | types.dfy | the database records |
| `PollUtils` | poll_utils.dfy | `lib/utils/poll.ts` |
| `PollUtilsExamples` | poll_utils_examples.dfy | the worked examples of `lib/utils/__tests__/poll.test.ts` |
| `SchemaRules` | schema_rules.dfy | the zod building blocks the schemas use |
| `PollValidation` | validations.dfy | `lib/validations/poll.ts` |
| `CreatePollRoute` | create_route.dfy | `POST` in `app/api/polls/route.ts` |
| `RouteGate` | middleware.dfy | `middleware.ts` |
| `PollDetailsView` | poll_details.dfy | `components/polls/poll-details.tsx` |
| `CreatePollFormView` | create_poll_form.dfy | `components/polls/create-poll-form.tsx` |

Pure code is modelled as functions and lemmas. The two React components
keep state that their handlers update, so each becomes a class
(`PollDetails`, `CreatePollForm`). Its fields are the component's state, and
each handler is a method that states the whole new state.

Parameters stand in for the environment:

- The clock is a parameter `now`, in integer milliseconds.
- `NEXT_PUBLIC_APP_URL` is the parameter `appUrl`.
- The ISO-8601 reader behind `z.string().datetime()` and `new Date(...)` is
  the parameter `parseTime`. It returns `None` for a string the format
  rejects.
- JavaScript's `Number(...)` behind `z.coerce.number()` is the parameter
  `toNumber`. It returns `None` for NaN.
- The answer to a vote request is the parameter `outcome`.
- A request body that is not JSON is `None`.

A zod object reads only the keys it lists, and the parse fails if any of
them breaks its rule. The model records, for a failed parse, the set of
keys with at least one issue: one issue per failing key, holding only that
key. How many issues zod raises under one key is not modelled (see below).

## Model

| member | source | states |
|---|---|---|
| PollUtils.VoteCountAtMostTotal | lib/utils/poll.ts:6 | every option's `vote_count \|\| 0` is at most the summed total |
| PollUtils.TotalVotesZeroIff | lib/utils/poll.ts:6 | the summed total is 0 exactly when every option's `vote_count \|\| 0` is 0 |
| PollUtils.RoundedPercentage | lib/utils/poll.ts:10-15 | the share in hundredths of a percent is the nearest hundredth to votes/total·100 (ties round up, as Math.round does); it is 0 when the total is 0 and at most 100.00 when votes ≤ total |
| PollUtils.CalculatePollResults | lib/utils/poll.ts:3-18 | no options gives []; otherwise one result per option, in order, carrying the option unchanged, its vote count and its rounded share, which lies in 0..100.00 and is 0 when nobody voted |
| PollUtils.PercentagesSumToHundred | lib/utils/poll.ts:8-17 | once anyone has voted, the rounded shares add up to 100.00 within half a hundredth per option |
| PollUtils.FiveTenFiveExample | lib/utils/poll.ts:3-18 | vote counts 5, 10 and 5 give 25, 50 and 25 percent |
| PollUtils.IsPollExpired | lib/utils/poll.ts:20-23 | never expired without an expiry; not yet expired at the expiry instant itself; expired from one millisecond after it on |
| PollUtils.IsPollActive | lib/utils/poll.ts:25-27 | active exactly when there is no expiry or now is not past it |
| PollUtils.GetPollStatus | lib/utils/poll.ts:20-31 | "expired" exactly when the poll has an expiry strictly before now, "active" exactly when isPollActive holds |
| PollUtils.ExpiryIsMonotone | lib/utils/poll.ts:20-23 | a poll without expiry is never expired; an expired poll stays expired at every later instant |
| PollUtils.CanUserVote | lib/utils/poll.ts:33-44 | false for an expired poll, false for a private poll with no user id (absent or empty), true otherwise |
| PollUtils.BaseUrl | lib/utils/poll.ts:47 | the configured app URL unless it is unset or empty, else http://localhost:3000 |
| PollUtils.FormatPollUrl | lib/utils/poll.ts:46-59 | every URL starts with the base URL |
| PollUtils.FormatPollUrlRoundTrip | lib/utils/poll.ts:46-59 | reading a formatted URL back gives its kind and poll id, for every id except a view URL whose id ends in "/results" |
| PollUtils.ParsePollUrlInverse | lib/utils/poll.ts:46-59 | the other direction: a URL that reads back as a kind and an id is exactly the formatted URL of that kind and id |
| PollUtils.ViewAndResultsUrlsCanCoincide | lib/utils/poll.ts:53-55 | the exception is real: the view URL of "x/results" equals the results URL of "x" |
| PollUtils.GeneratePollShareText | lib/utils/poll.ts:61-63 | the text is "Vote on: ", the title, " - ", then the vote URL of the poll |
| PollUtils.CleanOptions | lib/utils/poll.ts:67-69 | every cleaned label is non-empty and has no surrounding white space (order and number of copies: CleanOptionsAppend, CleanOptionsOfOne) |
| PollUtils.CleanOptionsAppend | lib/utils/poll.ts:67-69 | cleaning `a + b` gives the cleaned `a` followed by the cleaned `b`: labels keep their order and each occurrence is cleaned on its own |
| PollUtils.CleanOptionsOfOne | lib/utils/poll.ts:67-69 | one label gives exactly its trimmed form when that is not empty, and nothing when it is |
| PollUtils.CleanOptionsKeeps | lib/utils/poll.ts:67-69 | every input label that is not blank appears, trimmed, among the cleaned labels |
| PollUtils.CleanOptionsFrom | lib/utils/poll.ts:67-69 | every cleaned label is the trimmed form of some input label |
| PollUtils.CleanOptionsOfClean | lib/utils/poll.ts:67-69 | labels that are already clean pass through unchanged |
| PollUtils.FindIndexLower | lib/utils/poll.ts:73 | the first index whose lower-cased label equals the key, or -1 when there is none |
| PollUtils.Dedup | lib/utils/poll.ts:72-74 | the reference de-duplication: no two labels equal ignoring case, the same lower-cased labels as the input, and only input labels |
| PollUtils.KeepFirstOccurrencesIsDedup | lib/utils/poll.ts:72-74 | the findIndex filter computes exactly the reference de-duplication |
| PollUtils.DedupOfDistinct | lib/utils/poll.ts:72-74 | labels already distinct ignoring case are left as they are |
| PollUtils.ValidatePollOptions | lib/utils/poll.ts:65-77 | every returned label is trimmed and non-empty, and no two are equal ignoring case |
| PollUtils.ValidatePollOptionsSpec | lib/utils/poll.ts:65-77 | the result is trimmed and non-empty, distinct ignoring case, covers every cleaned label ignoring case, and keeps first occurrences from left to right |
| PollUtils.ValidatePollOptionsIdempotent | lib/utils/poll.ts:65-77 | validating twice gives the same as validating once |
| PollUtils.InsertIsPermutation | lib/utils/poll.ts:80 | inserting an option adds it and loses nothing (as multisets) |
| PollUtils.InsertKeepsSorted | lib/utils/poll.ts:80 | inserting into a sequence sorted by order_index keeps it sorted |
| PollUtils.SortPollOptions | lib/utils/poll.ts:79-81 | the result is a permutation of the input and is sorted by order_index |
| PollUtils.InsertKeepsKeyOrder | lib/utils/poll.ts:80 | insertion places the new option before the options with an equal order_index |
| PollUtils.SortPollOptionsIsStable | lib/utils/poll.ts:79-81 | options that share an order_index keep their relative order (the sort is stable) |
| PollUtils.MostPopularFrom | lib/utils/poll.ts:88-90 | the reduce picks the first option with the largest vote count |
| PollUtils.SharePercent | lib/utils/poll.ts:102 | the share lies in 0..100, is 0 when the total is 0, and share × total = 100 × votes when the total is positive |
| PollUtils.MostPopularOf | lib/utils/poll.ts:88-103 | none exactly when there are no options; otherwise the first most-voted option's text and count, a count at most the total, and the unrounded share SharePercent(count, total) in 0..100 (0 when the total is 0) |
| PollUtils.GetPollAnalytics | lib/utils/poll.ts:83-107 | a missing option list counts as empty; the most popular entry is null exactly when there are no options, never has more votes than the total, has share 0 when nobody voted and otherwise share × total = 100 × its votes |
| PollUtils.BreakdownAddsUp | lib/utils/poll.ts:118-120 | hours < 24 and minutes < 60, and days, hours and minutes add up to the remaining time rounded down to a whole minute |
| PollUtils.Breakdown | lib/utils/poll.ts:118-120 | days, hours < 24 and minutes < 60 that make up the remaining time rounded down to a whole minute |
| PollUtils.CountWithUnit | lib/utils/poll.ts:122-124 | the decimal count, a space and the unit, then "s" exactly when the count is above one (1 gives "1 unit") |
| PollUtils.GetTimeUntilExpiry | lib/utils/poll.ts:109-125 | null exactly without an expiry; "Expired" exactly when the expiry is not after now; otherwise the largest non-zero unit of days, hours and minutes |
| PollUtils.UnderAMinuteReadsZeroMinute | lib/utils/poll.ts:120-124 | under a minute left reads "0 minute" (singular, since the plural needs a count above one) |
| PollUtilsExamples.ValidatePollOptionsCaseExample | lib/utils/__tests__/poll.test.ts:78-81 | ["Option 1", "option 1"] gives ["Option 1"] |
| PollUtilsExamples.ValidatePollOptionsPaddingExample | lib/utils/__tests__/poll.test.ts:68-71 | two distinct clean labels, a padded copy of the first and a blank label give the two distinct labels |
| PollUtilsExamples.ValidatePollOptionsPaddingLiteral | lib/utils/__tests__/poll.test.ts:68-71 | ["Option 1", "Option 2", " Option 1 ", ""] gives ["Option 1", "Option 2"] |
| Text.TrimIsWhitespaceInfix | lib/utils/poll.ts:68 | trimming removes a blank prefix and a blank suffix and nothing else |
| Text.Trim | lib/utils/poll.ts:68 | the result has no white space at either end and is no longer than the input |
| Text.Lower | lib/utils/poll.ts:73 | the same length, with each of 'A'..'Z' folded to its lower-case letter and every other character unchanged |
| Text.TrimEmptyIffBlank | components/polls/create-poll-form.tsx:68 | a string trims to "" exactly when it is all white space |
| Text.NatToStringInjective | app/api/polls/route.ts:74 | different numbers render as different decimal strings |
| PollValidation.CreateObject | lib/validations/poll.ts:3-26 | the creation object succeeds exactly when every key passes, with the keys' values; otherwise it lists an issue at exactly the failed keys |
| PollValidation.ParseTitle | lib/validations/poll.ts:4-7 | accepts exactly a string of 1 to 200 characters, and yields it |
| PollValidation.ParseDescription | lib/validations/poll.ts:8-11 | accepts exactly an absent key or a string of at most 1000 characters (null is rejected) |
| PollValidation.ParseOptions | lib/validations/poll.ts:12-15 | accepts exactly an array of 2 to 10 strings, none empty, and yields them in order |
| PollValidation.ParseFlag | lib/validations/poll.ts:16 | accepts exactly an absent key (which takes the default) or a boolean |
| PollValidation.ParseFutureExpiry | lib/validations/poll.ts:17-24 | accepts exactly an absent key or a datetime string strictly after now |
| PollValidation.ParseCreatePoll | lib/validations/poll.ts:3-26 | a body that is not an object is rejected as such; on success every value comes from the body, with allowMultipleVotes defaulting to false and isPublic to true |
| PollValidation.CreatePollAcceptsExactly | lib/validations/poll.ts:3-26 | a body is accepted exactly when all six keys obey their rules, and the issues name exactly the keys that do not |
| PollValidation.CreatePollBounds | lib/validations/poll.ts:3-26 | an accepted input has a title of 1 to 200 characters, a description of at most 1000, 2 to 10 non-empty options and any expiry after now |
| PollValidation.CreatePollRejectsNullDescription | lib/validations/poll.ts:8-11 | a null description is reported at "description" |
| PollValidation.UpdateObject | lib/validations/poll.ts:28-47 | the update object succeeds exactly when its four keys pass; otherwise it lists an issue at exactly the failed keys |
| PollValidation.ParseOptionalTitle | lib/validations/poll.ts:29-33 | accepts exactly an absent key or a string of 1 to 200 characters |
| PollValidation.ParseOptionalFlag | lib/validations/poll.ts:46 | accepts exactly an absent key (which stays absent) or a boolean |
| PollValidation.ParseUpdatePoll | lib/validations/poll.ts:28-47 | a body that is not an object is rejected; on success each present key's value is taken and nothing gets a default |
| PollValidation.UpdatePollAcceptsExactly | lib/validations/poll.ts:28-47 | a body is accepted exactly when each present key obeys its creation bound (including the future expiry), and the issues name exactly the failing keys |
| PollValidation.UpdatePollAcceptsEmpty | lib/validations/poll.ts:28-47 | the empty body is accepted and changes nothing |
| PollValidation.UpdatePollReadsOnlyItsKeys | lib/validations/poll.ts:28-47 | two bodies that agree on the four update keys parse alike, whatever else (options included) they hold |
| PollValidation.ParseVote | lib/validations/poll.ts:49-51 | accepted exactly when optionId is a UUID-shaped string, which it yields; otherwise one issue at optionId |
| PollValidation.ParseStatus | lib/validations/poll.ts:57 | absent gives "all"; a present value is accepted exactly when it is "active", "expired" or "all", and each of these yields the filter of that name (StatusName) |
| PollValidation.ParseSortKey | lib/validations/poll.ts:58 | absent gives "created_at"; a present value is accepted exactly when it is "created_at", "title" or "vote_count", and each of these yields the key of that name (SortKeyName) |
| PollValidation.ParseSortOrder | lib/validations/poll.ts:59 | absent gives "desc"; a present value is accepted exactly when it is "asc" or "desc", and each yields the order of that name (SortOrderName) |
| PollValidation.ParsePollQuery | lib/validations/poll.ts:53-60 | an accepted query has page ≥ 1 and limit in 1..100, both from the coerced value or their defaults 1 and 10; search is the given string if any; status, sortBy and sortOrder are the values named by the present strings, or the defaults for absent keys (when a query is accepted: PollQueryAcceptsExactly) |
| PollValidation.PollQueryAcceptsExactly | lib/validations/poll.ts:53-60 | a query is accepted exactly when page coerces to a number ≥ 1, limit to one in 1..100, search is a string and each enum key names one of its values (each key may be absent), and the issues name exactly the keys that break their rule |
| PollValidation.PollQueryNumberIssues | lib/validations/poll.ts:54-55 | page and limit are reported exactly when present and not a number or out of range |
| PollValidation.PollQueryDefaults | lib/validations/poll.ts:53-60 | the empty query is page 1 of 10, every status, by created_at, descending |
| CreatePollRoute.ParseRouteBody | app/api/polls/route.ts:5-14 | a body that is not an object is rejected as such; on success every value comes from the body, with the flag defaults false and true |
| CreatePollRoute.ParseRouteDescription | app/api/polls/route.ts:7 | accepts exactly an absent key or any string (there is no length cap and null is rejected) |
| CreatePollRoute.ParseRouteOptions | app/api/polls/route.ts:8-10 | accepts exactly an array of at least 2 non-empty strings (there is no maximum) |
| CreatePollRoute.ParseDateTime | app/api/polls/route.ts:12 | accepts exactly an absent key or a datetime string, past ones included |
| CreatePollRoute.RouteAcceptsExactly | app/api/polls/route.ts:5-14 | a body is accepted exactly when all six keys obey the route's rules, and the issues name exactly the keys that do not |
| CreatePollRoute.RouteAcceptsLibraryInputs | app/api/polls/route.ts:5-14 | whatever the library schema accepts, the route accepts with the same value |
| CreatePollRoute.RouteIsLooser | app/api/polls/route.ts:5-14 | more than ten options, a description over 1000 characters or a past expiry pass the route but fail the library schema |
| CreatePollRoute.BuildOptions | app/api/polls/route.ts:73-78 | one created option per text, in order, with id "option-(i+1)", order_index i and no votes |
| CreatePollRoute.CreatedOptionIdsDistinct | app/api/polls/route.ts:74 | no two created options share an id |
| CreatePollRoute.CreatedOptionIdsAreNotUuids | app/api/polls/route.ts:74 | no created option id has the UUID shape the vote schema demands |
| CreatePollRoute.CreatedOptionId | app/api/polls/route.ts:74 | "option-" followed by the decimal rendering of index + 1 |
| CreatePollRoute.StatusCode | app/api/polls/route.ts:81-90 | a 2xx code exactly for a created poll, a 4xx exactly for a rejected body and a 5xx exactly for a server error |
| CreatePollRoute.HandlePost | app/api/polls/route.ts:55-92 | a non-JSON body gives 500 "Internal server error"; a rejected body gives 400 with the issues; an accepted one gives the mock poll with id `now`, creator "mock-user-id", the parsed values and the built options |
| CreatePollRoute.PostCarriesBody | app/api/polls/route.ts:63-79 | the created poll carries the body's title, description, flags (or their defaults), expiry and option texts in order |
| CreatePollRoute.AbsentKeysTakeDefaults | app/api/polls/route.ts:11-13 | without the flag and expiry keys, a created poll is public, single-vote and without expiry |
| CreatePollRoute.NullDescriptionIsRejected | app/api/polls/route.ts:7 | a null description is a 400 with an issue at "description" |
| CreatePollRoute.PostStatusCodes | app/api/polls/route.ts:81-91 | 500 exactly for a non-JSON body; for an object, 400 exactly when some key breaks its rule; 400 for JSON that is not an object |
| RouteGate.Decide | middleware.ts:39-60 | a protected path without a session redirects to login with redirectTo set to the path; an auth page with a session redirects to the dashboard; everything else passes, in both directions |
| RouteGate.ProtectedAndAuthDisjoint | middleware.ts:39-54 | no path is both protected and an auth page, so the order of the two checks is irrelevant |
| RouteGate.DashboardPrefixIsProtected | middleware.ts:40-43 | every extension of "/dashboard" (e.g. "/dashboardX") is protected, since the test is a prefix test |
| RouteGate.LoginWithoutSessionPasses | middleware.ts:52-60 | the login page is open to a visitor without a session |
| PollDetailsView.Without | components/polls/poll-details.tsx:97 | exactly the ids other than the given one are kept, and nothing changes when it is absent (order and number of copies: WithoutAppend, WithoutOfOne) |
| PollDetailsView.WithoutAppend | components/polls/poll-details.tsx:97 | filtering `a + b` gives the filtered `a` followed by the filtered `b`: ids keep their order and each occurrence is judged on its own |
| PollDetailsView.WithoutOfOne | components/polls/poll-details.tsx:97 | a single id is kept exactly when it is not the clicked one |
| PollDetailsView.WithoutKeepsNoDuplicates | components/polls/poll-details.tsx:97 | filtering a selection without duplicates leaves none |
| PollDetailsView.Toggle | components/polls/poll-details.tsx:95-99 | a selected id is filtered out (Without); an unselected one is appended at the end; so the clicked id is selected afterwards exactly when it was not before, and no other id changes |
| PollDetailsView.ToggleKeepsNoDuplicates | components/polls/poll-details.tsx:95-99 | toggling keeps the selection free of duplicates |
| PollDetailsView.ToggleTwiceRestores | components/polls/poll-details.tsx:95-99 | clicking an unselected option twice restores the selection |
| PollDetailsView.SelectionAfter | components/polls/poll-details.tsx:91-103 | once voted the selection is unchanged; on a single-vote poll a click selects exactly that option; on a multiple-vote poll the result is Toggle of the selection (remove if selected, else append), so that option flips and every other id stays as it was |
| PollDetailsView.SelectionAfterKeepsInvariant | components/polls/poll-details.tsx:91-103 | a selection stays duplicate-free and holds at most one id on a single-vote poll; a single-vote click selects exactly the option |
| PollDetailsView.TotalVotes | components/polls/poll-details.tsx:144-147 | the total bounds every option's votes and is 0 exactly when every option has 0 |
| PollDetailsView.Percentage | components/polls/poll-details.tsx:228-229 | 0 while nobody voted, otherwise within 0..100 |
| PollDetailsView.SumOfPercentagesIsShare | components/polls/poll-details.tsx:228-229 | the shares summed over the options are the summed votes over the total, times 100 |
| PollDetailsView.PercentagesAddUp | components/polls/poll-details.tsx:228-229 | once anyone has voted, the exact shares add up to 100 |
| PollDetailsView.IsExpired | components/polls/poll-details.tsx:148 | never expired without an expiry; not yet at the expiry instant; expired from one millisecond after it on |
| PollDetailsView.VoteError | components/polls/poll-details.tsx:118-127 | no message exactly on success; a rejection shows its error field when that is non-empty and "Failed to submit vote" otherwise; a thrown error shows its own message |
| PollDetailsView.PollDetails.constructor | components/polls/poll-details.tsx:41-45 | the initial poll, an empty selection, not voted, not submitting, no error |
| PollDetailsView.PollDetails.CanVote | components/polls/poll-details.tsx:231 | voting is open exactly while the poll is shown, no vote has gone through and the poll has no expiry or now is not past it |
| PollDetailsView.PollDetails.HandleOptionSelect | components/polls/poll-details.tsx:91-103 | the new selection is the old one after the click (unchanged once voted); nothing else changes; the selection invariant is kept |
| PollDetailsView.PollDetails.ClickOption | components/polls/poll-details.tsx:250 | a click reaches handleOptionSelect only while the poll is shown, not voted and not expired |
| PollDetailsView.PollDetails.HandleVote | components/polls/poll-details.tsx:105-130 | nothing happens without a selection or a poll; otherwise success marks the vote as cast, failure sets the message, and the submitting flag ends false |
| PollDetailsView.PollDetails.ClearSelection | components/polls/poll-details.tsx:273-289 | the visible button empties the selection; it is hidden once voted, on an expired poll or with nothing selected |
| PollDetailsView.VoteFreezesSelection | components/polls/poll-details.tsx:91-92 | after an accepted vote, clicks and the clear button leave the selection as it was |
| CreatePollFormView.NonBlankRows | components/polls/create-poll-form.tsx:68 | the sent options are input rows that are not blank, and every such row is sent (order and number of copies: NonBlankRowsAppend, NonBlankRowsOfOne) |
| CreatePollFormView.NonBlankRowsAppend | components/polls/create-poll-form.tsx:68 | the rows sent for `a + b` are those sent for `a` followed by those sent for `b`: rows keep their order and each occurrence is judged on its own |
| CreatePollFormView.NonBlankRowsOfOne | components/polls/create-poll-form.tsx:68 | one row is sent, untrimmed, exactly when it is not blank |
| CreatePollFormView.NonBlankRowsKeepsAll | components/polls/create-poll-form.tsx:68 | rows none of which is blank are all sent, in order |
| CreatePollFormView.OrNull | components/polls/create-poll-form.tsx:67 | an empty or absent string is sent as null, any other as itself |
| CreatePollFormView.ClientSchemaAccepts | components/polls/create-poll-form.tsx:23-32 | acceptance implies the library's title rule, at least two rows and no empty row; an empty or over-long title or fewer than two rows is refused |
| CreatePollFormView.SubmitPayload | components/polls/create-poll-form.tsx:65-72 | an object with exactly the six written keys (what sits under them: SubmitPayloadAsRead, SubmitPayloadSnakeCase) |
| CreatePollFormView.SubmitPayloadAsRead | components/polls/create-poll-form.tsx:65-72 | the route finds the title, the description (null when empty) and the non-blank rows, and none of its three camelCase keys |
| CreatePollFormView.SubmitPayloadSnakeCase | components/polls/create-poll-form.tsx:69-71 | the body's keys are the six written ones, and the flags and expiry sit under snake_case keys |
| CreatePollFormView.EmptyDescriptionIsRejected | components/polls/create-poll-form.tsx:67 | a form posted with an empty description gets a 400 at "description" |
| CreatePollFormView.SubmittedFlagsAreIgnored | components/polls/create-poll-form.tsx:69-71 | a poll created from the posted body is public, single-vote and without expiry, whatever the form held |
| CreatePollFormView.BlankRowPassesClientCheck | components/polls/create-poll-form.tsx:26-28 | a filled row plus a row of spaces passes the client check, but only one option is sent and the route answers 400 at "options" |
| CreatePollFormView.TooFewOptionsRejected | app/api/polls/route.ts:8-10 | a body with fewer than two options gets a 400 at "options" |
| CreatePollFormView.CorrectedPayloadAsRead | components/polls/create-poll-form.tsx:65-72 | the corrected body holds every form value under the key the route reads, with empty strings left out |
| CreatePollFormView.CorrectedPayload | components/polls/create-poll-form.tsx:65-72 | an object with title, options and both flags under the route's camelCase keys; "description" present exactly when the description is non-empty, "expiresAt" exactly when an expiry is given and non-empty |
| CreatePollFormView.CorrectedClientCheckKeepsRows | components/polls/create-poll-form.tsx:26-28 | under the non-blank check every row is sent (so at least two), and the check is stricter than the written one |
| CreatePollFormView.AcceptedAsRead | components/polls/create-poll-form.tsx:65-72 | a body holding the form's values under the route's keys is created with exactly those values |
| CreatePollFormView.CorrectedPayloadIsAccepted | components/polls/create-poll-form.tsx:65-72 | a form that passes the non-blank check (and has a readable expiry) is created from the corrected body with its own title, description, flags, expiry and rows |
| CreatePollFormView.CreatePollForm.constructor | components/polls/create-poll-form.tsx:43-50 | the default values: empty title and description, two empty rows, single-vote, public, no expiry |
| CreatePollFormView.CreatePollForm.AddOption | components/polls/create-poll-form.tsx:93-95 | one empty row is appended and nothing else changes |
| CreatePollFormView.CreatePollForm.RemoveOption | components/polls/create-poll-form.tsx:97-101 | the row goes only while there are more than two, so there are never fewer than two |
| CreatePollFormView.CreatePollForm.SetRow | components/polls/create-poll-form.tsx:149-153 | typing replaces exactly that row |
| CreatePollFormView.CreatePollForm.SetTitle | components/polls/create-poll-form.tsx:112-124 | only the title changes |
| CreatePollFormView.CreatePollForm.SetDescription | components/polls/create-poll-form.tsx:126-140 | only the description changes |
| CreatePollFormView.CreatePollForm.Submit | components/polls/create-poll-form.tsx:57-72 | a body is posted exactly when the client check passes, and it is the body built from the current values |

## Left out

- PollUtils.CalculatePollResults: percentages are exact shares rounded to whole hundredths of a percent, held as integers; the source computes them in IEEE doubles, whose representation error is not modelled.
- PollUtils.SharePercent and PollDetailsView.Percentage: these are exact rationals rather than doubles, and the `toFixed(1)` display of the page is not modelled.
- PollUtils.GetPollAnalytics: averageVotesPerOption and engagementRate are not modelled. They are floating-point (the average is NaN for a poll without options) and are marked as placeholders.
- Text.Trim and Text.Lower work on ASCII only: white space is the six ASCII white-space characters and only 'A'..'Z' are folded. JavaScript also trims and folds non-ASCII Unicode characters.
- Timestamps are integer milliseconds. Reading an ISO-8601 string (`new Date(...)`, zod's `datetime()`) is the parameter `parseTime`, and an unreadable expiry is not modelled in the helpers.
- The route answers with `created_at`/`updated_at` equal to `now` in milliseconds rather than as an ISO string.
- zod issue messages, codes and paths inside arrays are not modelled: an issue records only its key.
- Issue multiplicity is collapsed to one issue per failing key. zod can raise several under one key: the options array `[""]` raises the array-minimum issue and the empty-item issue, and an unreadable `expiresAt` raises the datetime issue and then the refine issue too. The model keeps the set of failing keys.
- PollValidation.TitleOk, PollValidation.OptionalTitleOk, PollValidation.DescriptionOk, CreatePollRoute.RouteDescriptionOk and CreatePollFormView.ClientSchemaAccepts (the route reuses TitleOk for its title) count characters as Unicode scalar values (Dafny's `|s|`). zod's `.min` and `.max` count UTF-16 code units, so a character outside the Basic Multilingual Plane counts 1 here and 2 in zod: a title of 150 emoji passes TitleOk but fails zod's 200 bound.
- `z.coerce.number()` is the parameter `toNumber`, so the treatment of Infinity and of empty strings is whatever that parameter gives.
- PollValidation.ParseVote checks the 8-4-4-4-12 hexadecimal shape only. zod's exact UUID pattern is not part of this model.
- The `GET` handler of `app/api/polls/route.ts` returns a fixed mock list and is not modelled.
- RouteGate.Decide: the middleware only runs on paths its matcher admits (middleware.ts:63-74). Paths under `_next/static` or `_next/image`, `favicon.ico`, and any path ending in .svg, .png, .jpg, .jpeg, .gif or .webp skip it, so `/dashboard/chart.png` is served without a session. The model applies the decision to every path and would redirect it.
- Middleware: the session lookup and cookie refresh are reduced to a boolean, and the redirect URL is reduced to its path and `redirectTo`.
- Poll page: fetching the poll, the 5-second refresh, the loading flag and the vote request itself are left out; the request's answer is the parameter `outcome`.
- The page posts `optionIds`, while `app/api/polls/[id]/vote/route.ts` reads `optionId`. That route is not part of this model.
- Creation form: the network request, the handling of its response (including how a 400's issue list would be shown as a message), the navigation afterwards and the loading flag are left out.
- Creation form: it has no inputs for allowMultipleVotes, isPublic or expiresAt, so those fields keep their defaults. The class still holds them, because the posted body includes them.
- The nested relations of `types/index.ts` (`creator`, `analytics`, `votes`, `user`, `option`) and the `User` and `PollAnalytics` records are not carried.

## Findings

| source | as written | input that shows it | evidently intended | confidence | as-written member | corrected member |
|---|---|---|---|---|---|---|
| components/polls/create-poll-form.tsx:67 | an empty description is posted as null, and the route's optional string rejects null | any form posted with the description left empty (its default) | leave the key out when the description is empty | high; not executed | CreatePollFormView.EmptyDescriptionIsRejected | CreatePollFormView.CorrectedPayloadIsAccepted |
| components/polls/create-poll-form.tsx:69-71 | the flags and the expiry are posted under snake_case keys, while the route reads camelCase keys, so it ignores them | a form holding allowMultipleVotes = true creates a single-vote poll | post allowMultipleVotes, expiresAt and isPublic under the route's keys | high that the keys are ignored, and latent while the form has no inputs for them; not executed | CreatePollFormView.SubmittedFlagsAreIgnored | CreatePollFormView.CorrectedPayloadIsAccepted |
| components/polls/create-poll-form.tsx:26-28 | the client check accepts a row of spaces, but the body drops it, so two rows can leave one option and a 400 | title "t", rows "a" and " " | the client check requires each row to be non-blank | medium; not executed | CreatePollFormView.BlankRowPassesClientCheck | CreatePollFormView.CorrectedClientCheckKeepsRows |

The corrected body (`CorrectedPayload`) fixes the first two rows together.
`BlankRowPassesClientCheck` posts through the corrected body, so the 400 it
shows is the one about options, not the one about the description.
