/** The poll page of components/polls/poll-details.tsx: the options a visitor
    has picked, whether the vote went through, and what the page derives
    from the poll (total votes, each option's share, whether voting is still
    open). The component's state becomes the fields of `PollDetails`; the
    vote request's answer and the clock are parameters. */
module PollDetailsView {
  import opened Wrappers

  /** The component's own view of a poll, as the page fetches it. */
  datatype DetailOption = DetailOption(id: string, text: string, votes: nat)

  datatype DetailPoll = DetailPoll(
    id: string,
    title: string,
    description: Option<string>,
    createdAt: int,
    expiresAt: Option<int>,
    isPublic: bool,
    allowMultipleVotes: bool,
    options: seq<DetailOption>)

  // ---------------------------------------------------------------------
  // Selection

  predicate NoDuplicates(s: seq<string>) {
    forall i, j :: 0 <= i < j < |s| ==> s[i] != s[j]
  }

  /** `prev.filter((id) => id !== x)`: `s` in order, without `x`. */
  function Without(s: seq<string>, x: string): (r: seq<string>)
    ensures |r| <= |s|
    ensures forall y :: y in r <==> y in s && y != x
    ensures x !in s ==> r == s
  {
    if s == [] then []
    else (if s[0] == x then [] else [s[0]]) + Without(s[1..], x)
  }

  /** The filter works id by id: filtering `a + b` gives the filtered `a`
      followed by the filtered `b`, and a single id is kept exactly when it
      is not `x`. Together these fix the order and the number of copies of
      every id kept. */
  lemma {:induction false} WithoutAppend(a: seq<string>, b: seq<string>, x: string)
    ensures Without(a + b, x) == Without(a, x) + Without(b, x)
  {
    if a == [] {
      assert a + b == b;
    } else {
      assert (a + b)[0] == a[0] && (a + b)[1..] == a[1..] + b;
      assert Without(a + b, x) == (if a[0] == x then [] else [a[0]]) + Without(a[1..] + b, x);
      WithoutAppend(a[1..], b, x);
    }
  }

  lemma WithoutOfOne(y: string, x: string)
    ensures Without([y], x) == if y == x then [] else [y]
  {
    assert [y][1..] == [];
  }

  lemma {:induction false} WithoutKeepsNoDuplicates(s: seq<string>, x: string)
    requires NoDuplicates(s)
    ensures NoDuplicates(Without(s, x))
  {
    if s != [] {
      var t := Without(s[1..], x);
      assert NoDuplicates(s[1..]);
      WithoutKeepsNoDuplicates(s[1..], x);
      if s[0] != x {
        assert s[0] !in s[1..];
        assert Without(s, x) == [s[0]] + t;
        forall i, j | 0 <= i < j < |[s[0]] + t| ensures ([s[0]] + t)[i] != ([s[0]] + t)[j] {
          if i == 0 {
            assert ([s[0]] + t)[j] == t[j - 1];
          }
        }
      }
    }
  }

  /** The multiple-vote click: remove `x` when it is selected, append it
      otherwise. */
  function Toggle(s: seq<string>, x: string): (r: seq<string>)
    ensures x in r <==> x !in s
    ensures forall y :: y != x ==> (y in r <==> y in s)
    ensures x in s ==> r == Without(s, x)
    ensures x !in s ==> r == s + [x]
  {
    if x in s then Without(s, x) else s + [x]
  }

  lemma ToggleKeepsNoDuplicates(s: seq<string>, x: string)
    requires NoDuplicates(s)
    ensures NoDuplicates(Toggle(s, x))
  {
    if x in s {
      WithoutKeepsNoDuplicates(s, x);
    } else {
      forall i, j | 0 <= i < j < |s + [x]| ensures (s + [x])[i] != (s + [x])[j] {
        if j == |s| {
          assert (s + [x])[i] == s[i];
        }
      }
    }
  }

  /** Clicking an unselected option and then clicking it again restores the
      selection. */
  lemma ToggleTwiceRestores(s: seq<string>, x: string)
    requires x !in s
    ensures Toggle(Toggle(s, x), x) == s
  {
    assert x in s + [x];
    WithoutAppended(s, x);
  }

  lemma {:induction false} WithoutAppended(s: seq<string>, x: string)
    requires x !in s
    ensures Without(s + [x], x) == s
  {
    if s != [] {
      assert (s + [x])[1..] == s[1..] + [x];
      WithoutAppended(s[1..], x);
    } else {
      var single: seq<string> := [x];
      assert single[1..] == [];
    }
  }

  /** handleOptionSelect as a function of the state it reads: once the vote
      is in, nothing changes; a multiple-vote poll toggles the option; any
      other click replaces the selection by the option alone. */
  function SelectionAfter(selected: seq<string>, hasVoted: bool, multiple: bool, id: string): (s: seq<string>)
    ensures hasVoted ==> s == selected
    ensures !hasVoted && !multiple ==> s == [id]
    ensures !hasVoted && multiple ==> (id in s <==> id !in selected)
    ensures !hasVoted && multiple ==> forall y :: y != id ==> (y in s <==> y in selected)
    ensures !hasVoted && multiple ==> s == Toggle(selected, id)
  {
    if hasVoted then selected
    else if multiple then Toggle(selected, id)
    else [id]
  }

  /** The selection never holds an option twice, and holds at most one
      option unless the poll allows several. */
  predicate SelectionInvariant(selected: seq<string>, multiple: bool) {
    NoDuplicates(selected) && (!multiple ==> |selected| <= 1)
  }

  lemma SelectionAfterKeepsInvariant(selected: seq<string>, hasVoted: bool, multiple: bool, id: string)
    requires SelectionInvariant(selected, multiple)
    ensures SelectionInvariant(SelectionAfter(selected, hasVoted, multiple, id), multiple)
    ensures !hasVoted && !multiple ==> SelectionAfter(selected, hasVoted, multiple, id) == [id]
    ensures !hasVoted ==> (id in SelectionAfter(selected, hasVoted, multiple, id) <==> !multiple || id !in selected)
  {
    if !hasVoted && multiple {
      ToggleKeepsNoDuplicates(selected, id);
    }
  }

  // ---------------------------------------------------------------------
  // Derived values

  /** `poll.options.reduce((sum, option) => sum + option.votes, 0)`. */
  function TotalVotes(options: seq<DetailOption>): (total: nat)
    ensures forall i :: 0 <= i < |options| ==> options[i].votes <= total
    ensures total == 0 <==> forall i :: 0 <= i < |options| ==> options[i].votes == 0
  {
    if options == [] then 0 else options[0].votes + TotalVotes(options[1..])
  }

  /** The share of one option, in percent; 0 while nobody has voted. */
  function Percentage(votes: nat, total: nat): (p: real)
    ensures total == 0 ==> p == 0.0
    ensures votes <= total ==> 0.0 <= p <= 100.0
  {
    if total > 0 then (votes as real / total as real) * 100.0 else 0.0
  }

  function SumOfPercentages(options: seq<DetailOption>, total: nat): real {
    if options == [] then 0.0 else Percentage(options[0].votes, total) + SumOfPercentages(options[1..], total)
  }

  /** Summed over the options, the shares add up to 100% once anyone has
      voted. */
  lemma PercentagesAddUp(options: seq<DetailOption>)
    requires TotalVotes(options) > 0
    ensures SumOfPercentages(options, TotalVotes(options)) == 100.0
  {
    var total := TotalVotes(options);
    SumOfPercentagesIsShare(options, total);
    WholeShare(total as real);
  }

  lemma {:induction false} SumOfPercentagesIsShare(options: seq<DetailOption>, total: nat)
    requires total > 0
    ensures SumOfPercentages(options, total) == (TotalVotes(options) as real / total as real) * 100.0
  {
    if options != [] {
      SumOfPercentagesIsShare(options[1..], total);
      SharesAdd(options[0].votes as real, TotalVotes(options[1..]) as real, total as real);
    }
  }

  lemma WholeShare(t: real)
    requires t > 0.0
    ensures (t / t) * 100.0 == 100.0
  {
  }

  lemma SharesAdd(a: real, b: real, t: real)
    requires t > 0.0
    ensures (a / t) * 100.0 + (b / t) * 100.0 == ((a + b) / t) * 100.0
  {
    assert a / t + b / t == (a + b) / t;
  }

  /** `expires_at && new Date(expires_at) < new Date()`. */
  predicate IsExpired(poll: DetailPoll, now: int): (expired: bool)
    ensures poll.expiresAt.None? ==> !expired
    ensures poll.expiresAt == Some(now) ==> !expired
    ensures poll.expiresAt.Some? ==> (expired <==> poll.expiresAt.value + 1 <= now)
  {
    poll.expiresAt.Some? && poll.expiresAt.value < now
  }

  /** What the vote request answered: success, an error status with the
      body's `error` field (if any), or an exception with its message. */
  datatype VoteOutcome = Accepted | Rejected(errorField: Option<string>) | Thrown(message: string)

  const DefaultVoteError := "Failed to submit vote"

  /** The message handleVote shows: `errorData.error || "Failed to submit
      vote"` for an error status, the exception's message otherwise. */
  function VoteError(outcome: VoteOutcome): (e: Option<string>)
    ensures e.None? <==> outcome.Accepted?
    ensures e.Some? ==> e.value != "" || outcome.Thrown?
    ensures outcome.Rejected? && outcome.errorField.Some? && outcome.errorField.value != "" ==>
      e == outcome.errorField
    ensures outcome.Rejected? && (outcome.errorField.None? || outcome.errorField.value == "") ==>
      e == Some(DefaultVoteError)
    ensures outcome.Thrown? ==> e == Some(outcome.message)
  {
    match outcome
    case Accepted => None
    case Rejected(field) => if field.Some? && field.value != "" then field else Some(DefaultVoteError)
    case Thrown(message) => Some(message)
  }

  // ---------------------------------------------------------------------
  // The component

  class PollDetails {
    var poll: Option<DetailPoll>
    var selectedOptions: seq<string>
    var hasVoted: bool
    var isVoting: bool
    var error: Option<string>

    /** `poll?.allow_multiple_votes`: false while there is no poll. */
    predicate MultipleAllowed()
      reads this
    {
      poll.Some? && poll.value.allowMultipleVotes
    }

    ghost predicate Valid()
      reads this
    {
      SelectionInvariant(selectedOptions, MultipleAllowed())
    }

    /** `!hasVoted && !isExpired`, on a page that shows a poll. */
    predicate CanVote(now: int): (ok: bool)
      reads this
      ensures ok <==> poll.Some? && !hasVoted && (poll.value.expiresAt.None? || now <= poll.value.expiresAt.value)
    {
      poll.Some? && !hasVoted && !IsExpired(poll.value, now)
    }

    constructor(initialPoll: Option<DetailPoll>)
      ensures Valid()
      ensures poll == initialPoll && selectedOptions == [] && !hasVoted && !isVoting && error.None?
    {
      poll := initialPoll;
      selectedOptions := [];
      hasVoted := false;
      isVoting := false;
      error := None;
    }

    method HandleOptionSelect(optionId: string)
      requires Valid()
      modifies this
      ensures Valid()
      ensures selectedOptions == SelectionAfter(old(selectedOptions), old(hasVoted), old(MultipleAllowed()), optionId)
      ensures poll == old(poll) && hasVoted == old(hasVoted) && isVoting == old(isVoting) && error == old(error)
    {
      if hasVoted {
        return;
      }
      if MultipleAllowed() {
        ToggleKeepsNoDuplicates(selectedOptions, optionId);
        selectedOptions := Toggle(selectedOptions, optionId);
      } else {
        selectedOptions := [optionId];
      }
    }

    /** A click on an option: it reaches handleOptionSelect only while
        voting is open. */
    method ClickOption(optionId: string, now: int)
      requires Valid()
      modifies this
      ensures Valid()
      ensures old(CanVote(now)) ==>
        selectedOptions == SelectionAfter(old(selectedOptions), false, old(MultipleAllowed()), optionId)
      ensures !old(CanVote(now)) ==> selectedOptions == old(selectedOptions)
      ensures poll == old(poll) && hasVoted == old(hasVoted) && isVoting == old(isVoting) && error == old(error)
    {
      if CanVote(now) {
        HandleOptionSelect(optionId);
      }
    }

    /** handleVote, from the click to the end of its `finally`: nothing
        happens without a selection or a poll; otherwise the error is
        cleared, a successful request marks the vote as cast, a failed one
        sets the message, and the submitting flag ends up false. */
    method HandleVote(outcome: VoteOutcome)
      requires Valid()
      modifies this
      ensures Valid()
      ensures old(|selectedOptions| == 0 || poll.None?) ==>
        && poll == old(poll) && selectedOptions == old(selectedOptions) && hasVoted == old(hasVoted)
        && isVoting == old(isVoting) && error == old(error)
      ensures old(|selectedOptions| > 0 && poll.Some?) ==>
        && poll == old(poll) && selectedOptions == old(selectedOptions)
        && hasVoted == (old(hasVoted) || outcome.Accepted?)
        && !isVoting && error == VoteError(outcome)
    {
      if |selectedOptions| == 0 || poll.None? {
        return;
      }
      isVoting := true;
      error := None;
      match outcome {
        case Accepted =>
          hasVoted := true;
        case Rejected(_) =>
          error := VoteError(outcome);
        case Thrown(_) =>
          error := VoteError(outcome);
      }
      isVoting := false;
    }

    /** The "Clear Selection" button, shown only while voting is open and
        something is selected: it empties the selection. */
    method ClearSelection(now: int)
      requires Valid()
      modifies this
      ensures Valid()
      ensures old(CanVote(now) && |selectedOptions| > 0) ==> selectedOptions == []
      ensures !old(CanVote(now) && |selectedOptions| > 0) ==> selectedOptions == old(selectedOptions)
      ensures poll == old(poll) && hasVoted == old(hasVoted) && isVoting == old(isVoting) && error == old(error)
    {
      if CanVote(now) && |selectedOptions| > 0 {
        selectedOptions := [];
      }
    }
  }

  /** Once a vote has been accepted, neither an option click nor the clear
      button changes the selection. */
  method VoteFreezesSelection(page: PollDetails, optionId: string, now: int)
    requires page.Valid() && |page.selectedOptions| > 0 && page.poll.Some?
    modifies page
    ensures page.hasVoted
    ensures page.selectedOptions == old(page.selectedOptions)
  {
    page.HandleVote(Accepted);
    page.ClickOption(optionId, now);
    page.HandleOptionSelect(optionId);
    page.ClearSelection(now);
  }
}
