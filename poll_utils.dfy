/** The poll domain functions of lib/utils/poll.ts. Every function is pure;
    the wall clock ("now", in milliseconds) and the configured application
    URL are passed in. */
module PollUtils {
  import opened Wrappers
  import opened Text
  import opened PollTypes

  // ---------------------------------------------------------------------
  // calculatePollResults
  // ---------------------------------------------------------------------

  /** `option.vote_count || 0` */
  function VoteCount(o: PollOption): nat {
    o.voteCount.GetOr(0)
  }

  /** The `reduce` that sums the vote counts, folding from the left. */
  function TotalVotes(options: seq<PollOption>): nat {
    if options == [] then 0
    else TotalVotes(options[..|options| - 1]) + VoteCount(options[|options| - 1])
  }

  /** The total is zero exactly when no option has a vote. */
  lemma {:induction false} TotalVotesZeroIff(options: seq<PollOption>)
    ensures TotalVotes(options) == 0 <==> forall i :: 0 <= i < |options| ==> VoteCount(options[i]) == 0
  {
    if options != [] {
      var init := options[..|options| - 1];
      TotalVotesZeroIff(init);
      assert forall i :: 0 <= i < |init| ==> init[i] == options[i];
    }
  }

  lemma {:induction false} VoteCountAtMostTotal(options: seq<PollOption>, i: nat)
    requires i < |options|
    ensures VoteCount(options[i]) <= TotalVotes(options)
  {
    if i < |options| - 1 {
      VoteCountAtMostTotal(options[..|options| - 1], i);
    }
  }

  /** An option augmented with its vote count and its share of the total in
      hundredths of a percent (2500 stands for 25.00). */
  datatype OptionResult = OptionResult(option: PollOption, votes: nat, percentage: nat)

  /** `h` hundredths of a percent is the nearest hundredth to the exact share
      `votes / total * 100`, a tie going to the larger value (Math.round):
      `h - 1/2 <= 10000 * votes / total < h + 1/2`, scaled by `2 * total`. */
  predicate IsNearestHundredth(h: int, votes: int, total: int) {
    -total < 2 * total * h - 20000 * votes <= total
  }

  /** `Math.round(votes / total * 100 * 100)` for a positive total, 0 otherwise. */
  function RoundedPercentage(votes: nat, total: nat): (h: nat)
    ensures total == 0 ==> h == 0
    ensures total > 0 ==> IsNearestHundredth(h, votes, total)
    ensures votes <= total ==> h <= 10000
  {
    if total == 0 then 0
    else
      var h := (20000 * votes + total) / (2 * total);
      assert 2 * total * h + (20000 * votes + total) % (2 * total) == 20000 * votes + total;
      assert votes <= total ==> h <= 10000 by {
        if votes <= total && h > 10000 {
          assert 2 * total * h >= 2 * total * 10001 by { MulLe(2 * total, 10001, h); }
        }
      }
      h
  }

  lemma MulLe(c: nat, a: int, b: int)
    requires a <= b
    ensures c * a <= c * b
  {
  }

  lemma MulLt(c: nat, a: int, b: int)
    requires c > 0 && a < b
    ensures c * a < c * b
  {
  }

  /** One element of calculatePollResults: the option, `votes` and the
      rounded `percentage`. */
  function ResultFor(o: PollOption, total: nat): (x: OptionResult)
    requires VoteCount(o) <= total
    ensures x.option == o && x.votes == VoteCount(o)
    ensures x.percentage <= 10000
    ensures total == 0 ==> x.percentage == 0
    ensures total > 0 ==> IsNearestHundredth(x.percentage, x.votes, total)
  {
    OptionResult(o, VoteCount(o), RoundedPercentage(VoteCount(o), total))
  }

  /** calculatePollResults: one result per option, in the same order, each
      carrying the option unchanged, its vote count and its rounded share,
      which lies between 0 and 100.00 and is 0 when nobody has voted. */
  function CalculatePollResults(poll: Poll): (r: seq<OptionResult>)
    ensures poll.options.None? ==> r == []
    ensures poll.options.Some? ==> |r| == |poll.options.value|
    ensures poll.options.Some? ==> forall i :: 0 <= i < |r| ==>
      && r[i].option == poll.options.value[i]
      && r[i].votes == VoteCount(poll.options.value[i])
      && r[i].percentage <= 10000
      && (TotalVotes(poll.options.value) == 0 ==> r[i].percentage == 0)
      && (TotalVotes(poll.options.value) > 0 ==>
            IsNearestHundredth(r[i].percentage, r[i].votes, TotalVotes(poll.options.value)))
  {
    match poll.options
    case None => []
    case Some(options) =>
      var total := TotalVotes(options);
      seq(|options|, i requires 0 <= i < |options| =>
        VoteCountAtMostTotal(options, i);
        ResultFor(options[i], total))
  }

  function SumPercentages(r: seq<OptionResult>): int {
    if r == [] then 0 else SumPercentages(r[..|r| - 1]) + r[|r| - 1].percentage
  }

  function SumVotes(r: seq<OptionResult>): int {
    if r == [] then 0 else SumVotes(r[..|r| - 1]) + r[|r| - 1].votes
  }

  /** The sum, over the results, of `2 * total * percentage - 20000 * votes`. */
  function SumRoundingErrors(r: seq<OptionResult>, total: int): int {
    if r == [] then 0
    else SumRoundingErrors(r[..|r| - 1], total) + (2 * total * r[|r| - 1].percentage - 20000 * r[|r| - 1].votes)
  }

  lemma Distribute(c: int, a: int, b: int)
    ensures c * (a + b) == c * a + c * b
  {
  }

  lemma {:induction false} SumRoundingErrorsIsDifference(r: seq<OptionResult>, total: int)
    ensures SumRoundingErrors(r, total) == 2 * total * SumPercentages(r) - 20000 * SumVotes(r)
  {
    if r != [] {
      var p := r[..|r| - 1];
      SumRoundingErrorsIsDifference(p, total);
      Distribute(2 * total, SumPercentages(p), r[|r| - 1].percentage);
      Distribute(20000, SumVotes(p), r[|r| - 1].votes);
    }
  }

  /** Rounding errors accumulate by at most half a hundredth per option. */
  lemma {:induction false} RoundingErrorAccumulates(r: seq<OptionResult>, total: int)
    requires total > 0
    requires forall i :: 0 <= i < |r| ==> IsNearestHundredth(r[i].percentage, r[i].votes, total)
    ensures -(|r| as int * total) <= SumRoundingErrors(r, total) <= |r| as int * total
  {
    if r != [] {
      var p := r[..|r| - 1];
      assert IsNearestHundredth(r[|r| - 1].percentage, r[|r| - 1].votes, total);
      RoundingErrorAccumulates(p, total);
      var e := 2 * total * r[|r| - 1].percentage - 20000 * r[|r| - 1].votes;
      assert -total < e <= total;
      assert SumRoundingErrors(r, total) == SumRoundingErrors(p, total) + e;
      Distribute(total, |p|, 1);
      assert |r| as int * total == |p| as int * total + total;
    }
  }

  lemma ScaleDown(t: int, d: int, n: int)
    requires t > 0 && -(n * t) <= t * d <= n * t
    ensures -n <= d <= n
  {
    if d > n {
      MulLt(t, n, d);
    }
  }

  lemma {:induction false} SumVotesOfResults(options: seq<PollOption>, r: seq<OptionResult>)
    requires |r| == |options|
    requires forall i :: 0 <= i < |r| ==> r[i].votes == VoteCount(options[i])
    ensures SumVotes(r) == TotalVotes(options)
  {
    if r != [] {
      SumVotesOfResults(options[..|options| - 1], r[..|r| - 1]);
    }
  }

  /** The rounded percentages of a poll with votes add up to 100 within half
      a hundredth of a percent per option: |sum - 100.00| <= n / 2. */
  lemma PercentagesSumToHundred(poll: Poll)
    requires poll.options.Some? && TotalVotes(poll.options.value) > 0
    ensures var r := CalculatePollResults(poll);
      -|r| <= 2 * SumPercentages(r) - 20000 <= |r|
  {
    var options := poll.options.value;
    var total := TotalVotes(options);
    var r := CalculatePollResults(poll);
    assert forall i :: 0 <= i < |r| ==> IsNearestHundredth(r[i].percentage, r[i].votes, total);
    SumVotesOfResults(options, r);
    RoundingErrorAccumulates(r, total);
    SumRoundingErrorsIsDifference(r, total);
    var sum := SumPercentages(r);
    Factor(total, sum);
    ScaleDown(total, 2 * sum - 20000, |r|);
  }

  lemma Factor(t: int, s: int)
    ensures 2 * t * s - 20000 * t == t * (2 * s - 20000)
  {
  }

  function OptionWithVotes(id: string, n: nat): PollOption {
    PollOption(id, "", "", 0, 0, Some(n))
  }

  /** Vote counts 5, 10 and 5 give 25%, 50% and 25%. */
  lemma FiveTenFiveExample(poll: Poll)
    requires poll.options == Some([OptionWithVotes("1", 5), OptionWithVotes("2", 10), OptionWithVotes("3", 5)])
    ensures var r := CalculatePollResults(poll);
      |r| == 3 && r[0].percentage == 2500 && r[1].percentage == 5000 && r[2].percentage == 2500
  {
    var o := poll.options.value;
    assert TotalVotes(o[..1]) == 5 by { assert o[..1][..0] == []; }
    assert TotalVotes(o[..2]) == 15 by { assert o[..2][..1] == o[..1]; }
    assert TotalVotes(o) == 20 by { assert o[..2] == o[..|o| - 1]; }
  }

  // ---------------------------------------------------------------------
  // isPollExpired, isPollActive, getPollStatus, canUserVote
  // ---------------------------------------------------------------------

  /** A poll is expired exactly when it has an expiry strictly before now. */
  /** A poll without expiry never expires; one with an expiry is not yet
      expired at that very millisecond, and is expired from the next one on. */
  predicate IsPollExpired(poll: Poll, now: int): (expired: bool)
    ensures poll.expiresAt.None? ==> !expired
    ensures poll.expiresAt == Some(now) ==> !expired
    ensures poll.expiresAt.Some? ==> (expired <==> poll.expiresAt.value + 1 <= now)
  {
    poll.expiresAt.Some? && poll.expiresAt.value < now
  }

  /** Active means not expired: no expiry, or an expiry not before now. */
  predicate IsPollActive(poll: Poll, now: int): (active: bool)
    ensures active <==> poll.expiresAt.None? || now <= poll.expiresAt.value
  {
    !IsPollExpired(poll, now)
  }

  datatype PollStatus = Active | Expired

  function GetPollStatus(poll: Poll, now: int): (s: PollStatus)
    ensures s == Expired <==> IsPollExpired(poll, now)
    ensures s == Active <==> IsPollActive(poll, now)
  {
    if IsPollExpired(poll, now) then Expired else Active
  }

  /** Expiry is monotone in time: a poll without expiry is never expired, and
      an expired poll stays expired at every later instant. */
  lemma ExpiryIsMonotone(poll: Poll, now: int, later: int)
    requires now <= later
    ensures poll.expiresAt.None? ==> !IsPollExpired(poll, later)
    ensures IsPollExpired(poll, now) ==> IsPollExpired(poll, later)
    ensures GetPollStatus(poll, now) == Expired ==> GetPollStatus(poll, later) == Expired
  {
  }

  /** `userId` as a JavaScript truthiness test: absent or empty is no user. */
  predicate HasUserId(userId: Option<string>) {
    userId.Some? && userId.value != ""
  }

  /** canUserVote: false for an expired poll, false for a private poll without
      a user, true otherwise (prior votes are not consulted). */
  function CanUserVote(poll: Poll, userId: Option<string>, now: int): (ok: bool)
    ensures IsPollExpired(poll, now) ==> !ok
    ensures !poll.isPublic && !HasUserId(userId) ==> !ok
    ensures !IsPollExpired(poll, now) && (poll.isPublic || HasUserId(userId)) ==> ok
  {
    if IsPollExpired(poll, now) then false
    else if !poll.isPublic && !HasUserId(userId) then false
    else true
  }

  // ---------------------------------------------------------------------
  // formatPollUrl, generatePollShareText
  // ---------------------------------------------------------------------

  datatype UrlKind = VoteUrl | ViewUrl | ResultsUrl

  const DefaultAppUrl: string := "http://localhost:3000"

  /** `process.env.NEXT_PUBLIC_APP_URL || 'http://localhost:3000'`: the
      configured value unless it is unset or empty. */
  function BaseUrl(appUrl: Option<string>): (base: string)
    ensures appUrl.Some? && appUrl.value != "" ==> base == appUrl.value
    ensures appUrl.None? || appUrl.value == "" ==> base == DefaultAppUrl
  {
    if appUrl.Some? && appUrl.value != "" then appUrl.value else DefaultAppUrl
  }

  function FormatPollUrl(appUrl: Option<string>, pollId: string, kind: UrlKind := VoteUrl): (url: string)
    ensures StartsWith(url, BaseUrl(appUrl))
  {
    var base := BaseUrl(appUrl);
    match kind
    case VoteUrl => base + "/vote/" + pollId
    case ViewUrl => base + "/polls/" + pollId
    case ResultsUrl => base + "/polls/" + pollId + "/results"
  }

  /** Reads a URL produced by FormatPollUrl back into its kind and poll id. */
  function ParsePollUrl(base: string, url: string): (r: Option<(UrlKind, string)>)
  {
    if !StartsWith(url, base) then None
    else
      var path := url[|base|..];
      if StartsWith(path, "/vote/") then Some((VoteUrl, path[6..]))
      else if StartsWith(path, "/polls/") then
        var rest := path[7..];
        if |rest| >= 8 && rest[|rest| - 8..] == "/results" then Some((ResultsUrl, rest[..|rest| - 8]))
        else Some((ViewUrl, rest))
      else None
  }

  /** Parsing then formatting gives back the URL: a parse result is always
      the URL of that kind for that poll. */
  lemma ParsePollUrlInverse(base: string, url: string)
    requires base != "" && ParsePollUrl(base, url).Some?
    ensures var r := ParsePollUrl(base, url).value;
      FormatPollUrl(Some(base), r.1, r.0) == url
  {
    var path := url[|base|..];
    PrefixSplit(url, base);
    if StartsWith(path, "/vote/") {
      PathInverse(base, path, "/vote/", VoteUrl);
    } else {
      var rest := path[7..];
      if |rest| >= 8 && rest[|rest| - 8..] == "/results" {
        PrefixSplit(path, "/polls/");
        ResultsPathInverse(base, rest);
      } else {
        PathInverse(base, path, "/polls/", ViewUrl);
      }
    }
  }

  /** A vote or view path is its prefix followed by the poll id. */
  lemma PathInverse(base: string, path: string, prefix: string, kind: UrlKind)
    requires base != "" && StartsWith(path, prefix)
    requires (kind == VoteUrl && prefix == "/vote/") || (kind == ViewUrl && prefix == "/polls/")
    ensures FormatPollUrl(Some(base), path[|prefix|..], kind) == base + path
  {
    PrefixSplit(path, prefix);
    assert BaseUrl(Some(base)) == base;
  }

  /** A results path is "/polls/", the poll id and "/results". */
  lemma ResultsPathInverse(base: string, rest: string)
    requires base != "" && |rest| >= 8 && rest[|rest| - 8..] == "/results"
    ensures FormatPollUrl(Some(base), rest[..|rest| - 8], ResultsUrl) == base + ("/polls/" + rest)
  {
    var id := rest[..|rest| - 8];
    SuffixSplit(rest, "/results");
    assert BaseUrl(Some(base)) == base;
    assert base + ("/polls/" + rest) == base + "/polls/" + id + "/results";
  }

  lemma PrefixSplit(s: string, p: string)
    requires StartsWith(s, p)
    ensures s == p + s[|p|..]
  {
    assert s == s[..|p|] + s[|p|..];
  }

  lemma SuffixSplit(s: string, q: string)
    requires |q| <= |s| && s[|s| - |q|..] == q
    ensures s == s[..|s| - |q|] + q
  {
  }

  /** Every URL names its poll and kind unambiguously, except a view URL for
      an id that itself ends in "/results". */
  lemma {:induction false} FormatPollUrlRoundTrip(appUrl: Option<string>, pollId: string, kind: UrlKind)
    requires kind == ViewUrl ==> !(|pollId| >= 8 && pollId[|pollId| - 8..] == "/results")
    ensures ParsePollUrl(BaseUrl(appUrl), FormatPollUrl(appUrl, pollId, kind)) == Some((kind, pollId))
  {
    var base := BaseUrl(appUrl);
    var url := FormatPollUrl(appUrl, pollId, kind);
    var path := url[|base|..];
    match kind
    case VoteUrl =>
      assert path == "/vote/" + pollId;
      assert path[6..] == pollId;
    case ViewUrl =>
      assert path == "/polls/" + pollId;
      assert path[..6] == "/polls";
      assert path[7..] == pollId;
    case ResultsUrl =>
      assert path == "/polls/" + pollId + "/results";
      assert path[..6] == "/polls";
      var rest := path[7..];
      assert rest == pollId + "/results";
      assert rest[|rest| - 8..] == "/results";
      assert rest[..|rest| - 8] == pollId;
  }

  /** The exception: the view URL of "x/results" is the results URL of "x". */
  lemma ViewAndResultsUrlsCanCoincide(appUrl: Option<string>)
    ensures FormatPollUrl(appUrl, "x/results", ViewUrl) == FormatPollUrl(appUrl, "x", ResultsUrl)
  {
    assert "x/results" == "x" + "/results";
  }

  /** generatePollShareText: "Vote on: <title> - <vote URL>". */
  function GeneratePollShareText(poll: Poll, appUrl: Option<string>): (text: string)
    ensures StartsWith(text, "Vote on: " + poll.title + " - ")
    ensures text[|"Vote on: " + poll.title + " - "|..] == FormatPollUrl(appUrl, poll.id, VoteUrl)
  {
    "Vote on: " + poll.title + " - " + FormatPollUrl(appUrl, poll.id, VoteUrl)
  }

  // ---------------------------------------------------------------------
  // validatePollOptions
  // ---------------------------------------------------------------------

  /** `options.map(o => o.trim()).filter(o => o.length > 0)` */
  function CleanOptions(options: seq<string>): (r: seq<string>)
    ensures forall i :: 0 <= i < |r| ==> r[i] != [] && IsTrimmed(r[i])
  {
    if options == [] then []
    else
      var t := Trim(options[0]);
      (if |t| > 0 then [t] else []) + CleanOptions(options[1..])
  }

  /** Cleaning works label by label: cleaning `a + b` gives the cleaned `a`
      followed by the cleaned `b`, and a single label gives its trimmed form
      exactly when that is not empty. Together these fix the order and the
      number of copies of every cleaned label. */
  lemma {:induction false} CleanOptionsAppend(a: seq<string>, b: seq<string>)
    ensures CleanOptions(a + b) == CleanOptions(a) + CleanOptions(b)
  {
    if a == [] {
      assert a + b == b;
    } else {
      var t := Trim(a[0]);
      assert (a + b)[0] == a[0] && (a + b)[1..] == a[1..] + b;
      assert CleanOptions(a + b) == (if |t| > 0 then [t] else []) + CleanOptions(a[1..] + b);
      CleanOptionsAppend(a[1..], b);
    }
  }

  lemma CleanOptionsOfOne(x: string)
    ensures CleanOptions([x]) == if Trim(x) != [] then [Trim(x)] else []
  {
    assert [x][1..] == [];
  }

  /** Every input label that is not blank survives cleaning, trimmed. */
  lemma {:induction false} CleanOptionsKeeps(options: seq<string>, i: nat)
    requires i < |options| && Trim(options[i]) != []
    ensures Trim(options[i]) in CleanOptions(options)
  {
    if i > 0 {
      CleanOptionsKeeps(options[1..], i - 1);
    }
  }

  /** Every cleaned label is the trimmed form of some input label. */
  lemma {:induction false} CleanOptionsFrom(options: seq<string>, x: string)
    requires x in CleanOptions(options)
    ensures exists i :: 0 <= i < |options| && x == Trim(options[i])
  {
    if x != Trim(options[0]) {
      CleanOptionsFrom(options[1..], x);
      var i :| 0 <= i < |options[1..]| && x == Trim(options[1..][i]);
      assert x == Trim(options[i + 1]);
    }
  }

  /** Already clean input passes through unchanged. */
  lemma {:induction false} CleanOptionsOfClean(options: seq<string>)
    requires forall i :: 0 <= i < |options| ==> options[i] != [] && IsTrimmed(options[i])
    ensures CleanOptions(options) == options
  {
    if options != [] {
      TrimOfTrimmed(options[0]);
      CleanOptionsOfClean(options[1..]);
    }
  }

  /** `arr.findIndex(o => o.toLowerCase() === key)`: the first index whose
      lower-cased element is `key`, or -1 when there is none. */
  function FindIndexLower(arr: seq<string>, key: string): (j: int)
    ensures -1 <= j < |arr|
    ensures 0 <= j ==> Lower(arr[j]) == key && forall i :: 0 <= i < j ==> Lower(arr[i]) != key
    ensures j == -1 ==> forall i :: 0 <= i < |arr| ==> Lower(arr[i]) != key
  {
    if arr == [] then -1
    else if Lower(arr[0]) == key then 0
    else
      var j := FindIndexLower(arr[1..], key);
      if j == -1 then -1 else j + 1
  }

  /** `arr.filter((o, index, arr) => arr.findIndex(...) === index)` restricted
      to the first `n` elements. */
  function KeepFirstOccurrences(arr: seq<string>, n: nat): seq<string>
    requires n <= |arr|
  {
    if n == 0 then []
    else
      KeepFirstOccurrences(arr, n - 1)
        + (if FindIndexLower(arr, Lower(arr[n - 1])) == n - 1 then [arr[n - 1]] else [])
  }

  /** validatePollOptions: trim, drop empty labels, then drop every label that
      equals an earlier one ignoring case. */
  function ValidatePollOptions(options: seq<string>): (r: seq<string>)
    ensures forall i :: 0 <= i < |r| ==> r[i] != [] && IsTrimmed(r[i])
    ensures DistinctIgnoringCase(r)
  {
    var clean := CleanOptions(options);
    var r := KeepFirstOccurrences(clean, |clean|);
    KeepFirstOccurrencesIsDedup(clean, |clean|);
    assert clean[..|clean|] == clean;
    CleanLabelsStayClean(clean, r);
    r
  }

  /** Labels drawn from trimmed, non-empty labels are trimmed and non-empty. */
  lemma CleanLabelsStayClean(clean: seq<string>, r: seq<string>)
    requires forall i :: 0 <= i < |clean| ==> clean[i] != [] && IsTrimmed(clean[i])
    requires forall x :: x in r ==> x in clean
    ensures forall i :: 0 <= i < |r| ==> r[i] != [] && IsTrimmed(r[i])
  {
    forall i | 0 <= i < |r| ensures r[i] != [] && IsTrimmed(r[i]) {
      assert r[i] in clean;
    }
  }

  /** The lower-cased labels of `s`. */
  function LowerSet(s: seq<string>): set<string> {
    set x | x in s :: Lower(x)
  }

  predicate DistinctIgnoringCase(s: seq<string>) {
    forall i, j :: 0 <= i < j < |s| ==> Lower(s[i]) != Lower(s[j])
  }

  /** Reference definition of case-insensitive de-duplication: scan from left
      to right and append a label unless one equal to it ignoring case has
      already been kept. */
  function Dedup(s: seq<string>): (r: seq<string>)
    ensures DistinctIgnoringCase(r)
    ensures LowerSet(r) == LowerSet(s)
    ensures forall x :: x in r ==> x in s
  {
    if s == [] then []
    else
      var p := Dedup(s[..|s| - 1]);
      var last := s[|s| - 1];
      assert s == s[..|s| - 1] + [last];
      assert LowerSet(s) == LowerSet(s[..|s| - 1]) + {Lower(last)};
      if Lower(last) in LowerSet(p) then p
      else
        assert LowerSet(p + [last]) == LowerSet(p) + {Lower(last)};
        p + [last]
  }

  /** The findIndex filter computes the reference de-duplication. */
  lemma {:induction false} KeepFirstOccurrencesIsDedup(arr: seq<string>, n: nat)
    requires n <= |arr|
    ensures KeepFirstOccurrences(arr, n) == Dedup(arr[..n])
  {
    if n > 0 {
      KeepFirstOccurrencesIsDedup(arr, n - 1);
      var s := arr[..n];
      var key := Lower(arr[n - 1]);
      var p := Dedup(arr[..n - 1]);
      assert s[..|s| - 1] == arr[..n - 1] && s[|s| - 1] == arr[n - 1];
      assert Dedup(s) == if key in LowerSet(p) then p else p + [arr[n - 1]];
      var kept := if FindIndexLower(arr, key) == n - 1 then [arr[n - 1]] else [];
      assert KeepFirstOccurrences(arr, n) == p + kept;
      FirstOccurrenceIsNew(arr, n);
      if FindIndexLower(arr, key) == n - 1 {
        assert Dedup(s) == p + [arr[n - 1]];
      } else {
        assert p + kept == p;
      }
    }
  }

  /** The label at `n - 1` is the first of its kind exactly when no earlier
      label lower-cases to the same key. */
  lemma FirstOccurrenceIsNew(arr: seq<string>, n: nat)
    requires 0 < n <= |arr|
    ensures FindIndexLower(arr, Lower(arr[n - 1])) == n - 1
        <==> Lower(arr[n - 1]) !in LowerSet(Dedup(arr[..n - 1]))
  {
    var key := Lower(arr[n - 1]);
    var prefix := arr[..n - 1];
    var j := FindIndexLower(arr, key);
    assert LowerSet(Dedup(prefix)) == LowerSet(prefix);
    if j == n - 1 {
      forall x | x in prefix ensures Lower(x) != key {
        var i :| 0 <= i < |prefix| && prefix[i] == x;
        assert arr[i] == x;
      }
    }
    if j != n - 1 {
      assert 0 <= j < n - 1;
      assert prefix[j] == arr[j];
      assert key in LowerSet(prefix);
    }
  }

  /** A sequence whose labels are already distinct ignoring case is its own
      de-duplication. */
  lemma {:induction false} DedupOfDistinct(s: seq<string>)
    requires DistinctIgnoringCase(s)
    ensures Dedup(s) == s
  {
    if s != [] {
      var p := s[..|s| - 1];
      DedupOfDistinct(p);
      assert p + [s[|s| - 1]] == s;
    }
  }

  /** What validatePollOptions promises: every label is trimmed and non-empty,
      no two are equal ignoring case, every trimmed input label is represented
      ignoring case, and the result is the left-to-right first-occurrence
      de-duplication of the cleaned input. */
  lemma ValidatePollOptionsSpec(options: seq<string>)
    ensures var r := ValidatePollOptions(options);
      && (forall i :: 0 <= i < |r| ==> r[i] != [] && IsTrimmed(r[i]))
      && DistinctIgnoringCase(r)
      && LowerSet(r) == LowerSet(CleanOptions(options))
      && r == Dedup(CleanOptions(options))
  {
    var clean := CleanOptions(options);
    KeepFirstOccurrencesIsDedup(clean, |clean|);
    assert clean[..|clean|] == clean;
    var r := Dedup(clean);
    forall i | 0 <= i < |r| ensures r[i] != [] && IsTrimmed(r[i]) {
      assert r[i] in clean;
    }
  }

  /** Applying validatePollOptions twice gives the same result as once. */
  lemma ValidatePollOptionsIdempotent(options: seq<string>)
    ensures ValidatePollOptions(ValidatePollOptions(options)) == ValidatePollOptions(options)
  {
    var r := ValidatePollOptions(options);
    ValidatePollOptionsSpec(options);
    CleanOptionsOfClean(r);
    KeepFirstOccurrencesIsDedup(r, |r|);
    assert r[..|r|] == r;
    DedupOfDistinct(r);
  }

  // ---------------------------------------------------------------------
  // sortPollOptions
  // ---------------------------------------------------------------------

  /** Non-decreasing in `order_index`. */
  predicate SortedByOrderIndex(s: seq<PollOption>) {
    forall i :: 0 < i < |s| ==> s[i - 1].orderIndex <= s[i].orderIndex
  }

  /** The options of `s` whose `order_index` is `k`, in their order in `s`. */
  function WithOrderIndex(s: seq<PollOption>, k: int): seq<PollOption> {
    if s == [] then []
    else (if s[0].orderIndex == k then [s[0]] else []) + WithOrderIndex(s[1..], k)
  }

  /** Puts `x` before the first element whose `order_index` is not smaller,
      so that `x` precedes the elements with an equal key. */
  function InsertByOrderIndex(x: PollOption, t: seq<PollOption>): (r: seq<PollOption>)
    ensures |r| == |t| + 1 && (r[0] == x || (t != [] && r[0] == t[0]))
  {
    if t == [] || x.orderIndex <= t[0].orderIndex then [x] + t
    else [t[0]] + InsertByOrderIndex(x, t[1..])
  }

  /** Insertion adds `x` and loses nothing. */
  lemma {:induction false} InsertIsPermutation(x: PollOption, t: seq<PollOption>)
    ensures multiset(InsertByOrderIndex(x, t)) == multiset(t) + multiset{x}
  {
    if t != [] && x.orderIndex > t[0].orderIndex {
      InsertIsPermutation(x, t[1..]);
      assert t == [t[0]] + t[1..];
    }
  }

  /** Insertion into a sorted sequence keeps it sorted. */
  lemma {:induction false} InsertKeepsSorted(x: PollOption, t: seq<PollOption>)
    requires SortedByOrderIndex(t)
    ensures SortedByOrderIndex(InsertByOrderIndex(x, t))
  {
    if t == [] || x.orderIndex <= t[0].orderIndex {
      SortedCons(x, t);
    } else {
      var rest := InsertByOrderIndex(x, t[1..]);
      assert SortedByOrderIndex(t[1..]);
      InsertKeepsSorted(x, t[1..]);
      assert rest[0] == x || rest[0] == t[1];
      SortedCons(t[0], rest);
    }
  }

  lemma SortedCons(h: PollOption, s: seq<PollOption>)
    requires SortedByOrderIndex(s) && (s == [] || h.orderIndex <= s[0].orderIndex)
    ensures SortedByOrderIndex([h] + s)
  {
    forall i | 1 < i < |[h] + s| ensures ([h] + s)[i - 1].orderIndex <= ([h] + s)[i].orderIndex {
      assert ([h] + s)[i - 1] == s[i - 2];
    }
  }

  /** sortPollOptions: a copy of the options, sorted by `order_index` with
      a stable sort; the input sequence is a value and is left as it was. */
  function SortPollOptions(options: seq<PollOption>): (r: seq<PollOption>)
    ensures multiset(r) == multiset(options)
    ensures SortedByOrderIndex(r)
  {
    if options == [] then []
    else
      var rest := SortPollOptions(options[1..]);
      InsertIsPermutation(options[0], rest);
      InsertKeepsSorted(options[0], rest);
      assert options == [options[0]] + options[1..];
      InsertByOrderIndex(options[0], rest)
  }

  lemma {:induction false} InsertKeepsKeyOrder(x: PollOption, t: seq<PollOption>, k: int)
    ensures WithOrderIndex(InsertByOrderIndex(x, t), k)
         == (if x.orderIndex == k then [x] else []) + WithOrderIndex(t, k)
  {
    if t == [] || x.orderIndex <= t[0].orderIndex {
      assert ([x] + t)[1..] == t;
    } else {
      InsertKeepsKeyOrder(x, t[1..], k);
      assert ([t[0]] + InsertByOrderIndex(x, t[1..]))[1..] == InsertByOrderIndex(x, t[1..]);
    }
  }

  /** Stability: the options sharing any one `order_index` keep their
      relative order. */
  lemma {:induction false} SortPollOptionsIsStable(options: seq<PollOption>, k: int)
    ensures WithOrderIndex(SortPollOptions(options), k) == WithOrderIndex(options, k)
  {
    if options != [] {
      SortPollOptionsIsStable(options[1..], k);
      InsertKeepsKeyOrder(options[0], SortPollOptions(options[1..]), k);
    }
  }

  // ---------------------------------------------------------------------
  // getPollAnalytics
  // ---------------------------------------------------------------------

  /** `k` is the first index holding the largest vote count. */
  predicate IsFirstMostVoted(options: seq<PollOption>, k: int) {
    && 0 <= k < |options|
    && (forall j :: 0 <= j < |options| ==> VoteCount(options[j]) <= VoteCount(options[k]))
    && (forall j :: 0 <= j < k ==> VoteCount(options[j]) < VoteCount(options[k]))
  }

  /** The `reduce` that keeps the previous option unless the current one has
      strictly more votes, continued from index `i` with `best` kept so far. */
  function MostPopularFrom(options: seq<PollOption>, best: nat, i: nat): (k: nat)
    requires best < |options| && best <= i <= |options|
    requires forall j :: 0 <= j < i ==> VoteCount(options[j]) <= VoteCount(options[best])
    requires forall j :: 0 <= j < best ==> VoteCount(options[j]) < VoteCount(options[best])
    ensures IsFirstMostVoted(options, k)
    decreases |options| - i
  {
    if i == |options| then best
    else MostPopularFrom(options, if VoteCount(options[i]) > VoteCount(options[best]) then i else best, i + 1)
  }

  /** `votes / total * 100`, unrounded; 0 when nobody has voted. */
  function SharePercent(votes: nat, total: nat): (p: real)
    requires votes <= total
    ensures 0.0 <= p <= 100.0
    ensures total > 0 ==> p * total as real == 100.0 * votes as real
    ensures total == 0 ==> p == 0.0
  {
    if total > 0 then (votes as real / total as real) * 100.0 else 0.0
  }

  datatype MostPopular = MostPopular(text: string, votes: nat, percentage: real)

  datatype AnalyticsSummary = AnalyticsSummary(
    totalVotes: nat,
    totalOptions: nat,
    mostPopular: Option<MostPopular>)

  /** The `mostPopular` entry: the first most-voted option's text, count and
      share, or none when there are no options. */
  function MostPopularOf(options: seq<PollOption>): (m: Option<MostPopular>)
    ensures m.None? <==> options == []
    ensures m.Some? ==>
      exists k :: (&& IsFirstMostVoted(options, k)
                   && m.value.text == options[k].text
                   && m.value.votes == VoteCount(options[k])
                   && 0.0 <= m.value.percentage <= 100.0)
    ensures m.Some? ==> m.value.votes <= TotalVotes(options)
    ensures m.Some? ==> m.value.percentage == SharePercent(m.value.votes, TotalVotes(options))
  {
    if options == [] then None
    else
      var k := MostPopularFrom(options, 0, 0);
      VoteCountAtMostTotal(options, k);
      Some(MostPopular(options[k].text, VoteCount(options[k]), SharePercent(VoteCount(options[k]), TotalVotes(options))))
  }

  /** getPollAnalytics: the vote total, the number of options and the most
      popular option; a poll without options counts as having none. */
  function GetPollAnalytics(poll: Poll): (a: AnalyticsSummary)
    ensures a.totalVotes == TotalVotes(poll.options.GetOr([]))
    ensures a.totalOptions == |poll.options.GetOr([])|
    ensures a.mostPopular == MostPopularOf(poll.options.GetOr([]))
    ensures a.mostPopular.None? <==> a.totalOptions == 0
    ensures a.mostPopular.Some? ==> a.mostPopular.value.votes <= a.totalVotes
    ensures a.totalVotes == 0 && a.mostPopular.Some? ==> a.mostPopular.value.percentage == 0.0
    ensures a.totalVotes > 0 && a.mostPopular.Some? ==>
      a.mostPopular.value.percentage * a.totalVotes as real == 100.0 * a.mostPopular.value.votes as real
  {
    var options := poll.options.GetOr([]);
    AnalyticsSummary(TotalVotes(options), |options|, MostPopularOf(options))
  }

  // ---------------------------------------------------------------------
  // getTimeUntilExpiry
  // ---------------------------------------------------------------------

  const MsPerMinute: nat := 60000
  const MsPerHour: nat := 3600000
  const MsPerDay: nat := 86400000

  /** The whole days, hours and minutes of `diff` milliseconds, computed as
      the source does with floor division and remainders: together they are
      `diff` rounded down to a whole minute. */
  function Breakdown(diff: nat): (dhm: (nat, nat, nat))
    ensures dhm.1 < 24 && dhm.2 < 60
    ensures var whole := dhm.0 * MsPerDay + dhm.1 * MsPerHour + dhm.2 * MsPerMinute;
      whole <= diff < whole + MsPerMinute
  {
    var days := diff / MsPerDay;
    var hours := (diff % MsPerDay) / MsPerHour;
    var minutes := (diff % MsPerHour) / MsPerMinute;
    BreakdownAddsUp(diff);
    (days, hours, minutes)
  }

  lemma BreakdownAddsUp(diff: nat)
    ensures (diff % MsPerDay) / MsPerHour < 24 && (diff % MsPerHour) / MsPerMinute < 60
    ensures var whole := (diff / MsPerDay) * MsPerDay + ((diff % MsPerDay) / MsPerHour) * MsPerHour
                         + ((diff % MsPerHour) / MsPerMinute) * MsPerMinute;
      whole <= diff < whole + MsPerMinute
  {
    assert MsPerHour * 24 == MsPerDay && MsPerMinute * 60 == MsPerHour;
    SplitRemainder(diff, MsPerHour, 24);
    var hourRest := diff % MsPerHour;
    QuotientBound(hourRest, MsPerMinute, 60);
    assert hourRest == (hourRest / MsPerMinute) * MsPerMinute + hourRest % MsPerMinute;
  }

  /** Dividing a remainder modulo `a * b` by `a` leaves a quotient below `b`,
      a remainder equal to `x % a`, and the pieces add back up to `x`. */
  lemma SplitRemainder(x: nat, a: nat, b: nat)
    requires a > 0 && b > 0
    ensures (x % (a * b)) / a < b
    ensures (x % (a * b)) % a == x % a
    ensures x == (x / (a * b)) * (a * b) + ((x % (a * b)) / a) * a + x % a
  {
    var q := x / (a * b);
    var y := x % (a * b);
    assert x == q * (a * b) + y;
    QuotientBound(y, a, b);
    assert y == (y / a) * a + y % a;
    assert q * (a * b) == (q * b) * a;
    DivModUnique(x, a, q * b + y / a, y % a);
  }

  lemma QuotientBound(y: nat, a: nat, b: nat)
    requires a > 0 && y < a * b
    ensures y / a < b
  {
    assert a * (y / a) <= y;
    MulCancelLt(a, y / a, b);
  }

  lemma DivModUnique(x: int, c: int, q: int, r: int)
    requires c > 0 && 0 <= r < c && x == q * c + r
    ensures x % c == r
  {
    var q' := x / c;
    var r' := x % c;
    assert c * (q - q') == r' - r;
    MulCancelLt(c, q - q', 1);
    MulCancelLt(c, q' - q, 1);
  }

  lemma MulCancelLt(c: int, u: int, v: int)
    requires c > 0 && c * u < c * v
    ensures u < v
  {
  }

  /** "<n> <unit>", with an "s" when n is greater than one. */
  function CountWithUnit(n: nat, unit: string): (r: string)
    ensures StartsWith(r, NatToString(n) + " " + unit)
    ensures |r| == |NatToString(n)| + 1 + |unit| + (if n > 1 then 1 else 0)
    ensures n > 1 ==> r[|r| - 1] == 's'
    ensures n == 1 ==> r == "1 " + unit
  {
    NatToString(n) + " " + unit + (if n > 1 then "s" else "")
  }

  /** getTimeUntilExpiry: nothing without an expiry, "Expired" once the expiry
      is not in the future, else the largest non-zero unit of the remaining
      time (minutes when both days and hours are zero). */
  function GetTimeUntilExpiry(poll: Poll, now: int): (r: Option<string>)
    ensures r.None? <==> poll.expiresAt.None?
    ensures r == Some("Expired") <==> poll.expiresAt.Some? && poll.expiresAt.value <= now
    ensures poll.expiresAt.Some? && poll.expiresAt.value > now ==>
      var dhm := Breakdown(poll.expiresAt.value - now);
      r == Some(if dhm.0 > 0 then CountWithUnit(dhm.0, "day")
                else if dhm.1 > 0 then CountWithUnit(dhm.1, "hour")
                else CountWithUnit(dhm.2, "minute"))
  {
    match poll.expiresAt
    case None => None
    case Some(expiry) =>
      var diff := expiry - now;
      if diff <= 0 then Some("Expired")
      else
        var dhm := Breakdown(diff);
        var text := if dhm.0 > 0 then CountWithUnit(dhm.0, "day")
                    else if dhm.1 > 0 then CountWithUnit(dhm.1, "hour")
                    else CountWithUnit(dhm.2, "minute");
        assert '0' <= text[0] <= '9';
        Some(text)
  }

  /** Under a minute left reads "0 minute": the plural is used only above one. */
  lemma UnderAMinuteReadsZeroMinute(poll: Poll, now: int)
    requires poll.expiresAt.Some? && now < poll.expiresAt.value < now + MsPerMinute
    ensures GetTimeUntilExpiry(poll, now) == Some("0 minute")
  {
    var diff := poll.expiresAt.value - now;
    assert diff / MsPerDay == 0 && (diff % MsPerDay) / MsPerHour == 0;
    assert (diff % MsPerHour) / MsPerMinute == 0;
    assert Breakdown(diff) == (0, 0, 0);
    assert NatToString(0) == "0";
    assert CountWithUnit(0, "minute") == "0 minute";
  }
}
