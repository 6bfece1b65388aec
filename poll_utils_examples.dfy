/** The worked examples of the validatePollOptions unit test
    (lib/utils/__tests__/poll.test.ts), stated over the model. */
module PollUtilsExamples {
  import opened Text
  import opened PollUtils

  lemma KeepFirstOfTwo(x: string, y: string)
    requires Lower(x) == Lower(y)
    ensures KeepFirstOccurrences([x, y], 2) == [x]
  {
    assert FindIndexLower([x, y], Lower(x)) == 0;
    assert KeepFirstOccurrences([x, y], 1) == [x];
  }

  lemma KeepFirstOfThree(x: string, y: string)
    requires Lower(x) != Lower(y)
    ensures KeepFirstOccurrences([x, y, x], 3) == [x, y]
  {
    var c := [x, y, x];
    assert FindIndexLower(c, Lower(x)) == 0;
    assert FindIndexLower(c[1..], Lower(y)) == 0;
    assert FindIndexLower(c, Lower(y)) == 1;
    assert KeepFirstOccurrences(c, 1) == [x];
    assert KeepFirstOccurrences(c, 2) == [x, y];
  }

  /** The unit test's example with differently-cased duplicates:
      ["Option 1", "option 1"] gives ["Option 1"]. */
  lemma ValidatePollOptionsCaseExample(x: string, y: string)
    requires x == "Option 1" && y == "option 1"
    ensures ValidatePollOptions([x, y]) == [x]
  {
    assert IsTrimmed(x) && IsTrimmed(y);
    CleanOptionsOfClean([x, y]);
    assert Lower(x) == Lower(y);
    KeepFirstOfTwo(x, y);
    assert ValidatePollOptions([x, y]) == KeepFirstOccurrences([x, y], 2);
  }

  lemma PaddedLabelTrims(p: string, o1: string)
    requires p == " Option 1 " && o1 == "Option 1"
    ensures Trim(p) == o1
  {
    assert LeadingSpace(p) == 1 by { assert p[1..][0] == 'O'; }
    assert TrailingSpace(p) == 1 by { assert p[..9][8] == '1'; }
    assert p[1..9] == o1;
  }

  lemma {:induction false} CleanOptionsOfPaddedExample(o1: string, o2: string, p: string, e: string)
    requires Trim(o1) == o1 && Trim(o2) == o2 && Trim(p) == o1 && Trim(e) == [] && o1 != [] && o2 != []
    ensures CleanOptions([o1, o2, p, e]) == [o1, o2, o1]
  {
    assert CleanOptions([e]) == [] by { assert [e][1..] == []; }
    assert CleanOptions([p, e]) == [o1] by { assert [p, e][1..] == [e]; }
    assert CleanOptions([o2, p, e]) == [o2, o1] by { assert [o2, p, e][1..] == [p, e]; }
    assert [o1, o2, p, e][1..] == [o2, p, e];
  }

  /** The unit test's example with padding and an empty label,
      ["Option 1", "Option 2", " Option 1 ", ""] gives ["Option 1", "Option 2"],
      stated over what the example's labels satisfy (PaddedExampleFacts). */
  lemma {:induction false} ValidatePollOptionsPaddingExample(o1: string, o2: string, p: string, e: string)
    requires Trim(o1) == o1 && Trim(o2) == o2 && Trim(p) == o1 && Trim(e) == [] && o1 != [] && o2 != []
    requires Lower(o1) != Lower(o2)
    ensures ValidatePollOptions([o1, o2, p, e]) == [o1, o2]
  {
    CleanOptionsOfPaddedExample(o1, o2, p, e);
    KeepFirstOfThree(o1, o2);
  }

  /** The example's labels meet the premises of ValidatePollOptionsPaddingExample. */
  lemma PaddedExampleFacts(o1: string, o2: string, p: string, e: string)
    requires o1 == "Option 1" && o2 == "Option 2" && p == " Option 1 " && e == ""
    ensures Trim(o1) == o1 && Trim(o2) == o2 && Trim(p) == o1 && Trim(e) == []
    ensures Lower(o1) != Lower(o2)
  {
    TrimOfTrimmed(o1);
    TrimOfTrimmed(o2);
    PaddedLabelTrims(p, o1);
    assert Lower(o1)[7] != Lower(o2)[7];
  }

  /** The example itself, on its literal labels. */
  lemma ValidatePollOptionsPaddingLiteral()
    ensures ValidatePollOptions(["Option 1", "Option 2", " Option 1 ", ""]) == ["Option 1", "Option 2"]
  {
    PaddedExampleFacts("Option 1", "Option 2", " Option 1 ", "");
    ValidatePollOptionsPaddingExample("Option 1", "Option 2", " Option 1 ", "");
  }
}
