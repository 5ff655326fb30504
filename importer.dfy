/**
 * The row-level normalisation of the olympiad question importer: turning a
 * multiple-choice correct answer given as a letter or as option text into
 * the option's index, which is what the MCQ scoring compares against.  The
 * options arrive already split into a list; reading spreadsheets and Word
 * files is not part of this model.
 */
module Importer {
  import opened Text
  import opened Models

  /** The characters whose `upper()` is one of the option letters A-E. */
  predicate IsOptionLetter(c: char)
  {
    'A' <= c <= 'E' || 'a' <= c <= 'e'
  }

  /** `ord(c.upper()) - ord('A')` for an option letter. */
  function LetterIndex(c: char): (i: nat)
    requires IsOptionLetter(c)
    ensures i < 5
  {
    if 'a' <= c then (c as int) - ('a' as int) else (c as int) - ('A' as int)
  }

  /** The first index of `x` in `options`, as `options.index(x)` gives it. */
  function IndexOfOption(options: seq<string>, x: string): (i: nat)
    requires x in options
    ensures i < |options| && options[i] == x && x !in options[..i]
  {
    if options[0] == x then 0
    else
      var j := IndexOfOption(options[1..], x);
      assert options[1..][..j] == options[1..j + 1];
      assert options[..j + 1] == [options[0]] + options[1..j + 1];
      j + 1
  }

  /**
   * The loop of the third rule: the first option equal to the answer once
   * both are lower-cased and stripped.
   */
  method FirstLooseMatch(options: seq<string>, correct: string) returns (found: Option<nat>)
    ensures found.Some? ==> found.value < |options| && Folded(options[found.value]) == Folded(correct)
    ensures found.Some? ==> forall j :: 0 <= j < found.value ==> Folded(options[j]) != Folded(correct)
    ensures found.None? ==> forall j :: 0 <= j < |options| ==> Folded(options[j]) != Folded(correct)
  {
    var target := Folded(correct);
    var idx := 0;
    while idx < |options|
      invariant 0 <= idx <= |options|
      invariant forall j :: 0 <= j < idx ==> Folded(options[j]) != target
    {
      if Folded(options[idx]) == target {
        return Some(idx);
      }
      idx := idx + 1;
    }
    return None;
  }

  /** Which rule turned the answer into an index, if any. */
  datatype Rule = Letter | ExactText | LooseText | Unchanged

  /**
   * The MCQ answer fix of `import_questions` for one row (`correct` is the
   * stripped cell).  A single letter A-E (either case) becomes its index
   * when there is such an option, and otherwise stays as it is without
   * trying the text rules; an answer equal to an option becomes that
   * option's first index; else the first option equal up to case and
   * surrounding spaces.  Non-MCQ rows and rows without options are left
   * alone.  An answer that changes always becomes the decimal form of an
   * option index, which `int()` reads back as that index.
   */
  method NormaliseCorrectAnswer(qtype: QuestionType, options: seq<string>, correct: string)
    returns (answer: string, rule: Rule)
    ensures qtype != Mcq || options == [] ==> rule == Unchanged
    ensures rule == Unchanged ==> answer == correct
    ensures rule != Unchanged ==> exists i :: 0 <= i < |options| && answer == IntToString(i) && ParseInt(answer) == Some(i)
    ensures rule == Letter <==>
      qtype == Mcq && options != [] && |correct| == 1 && IsOptionLetter(correct[0]) && LetterIndex(correct[0]) < |options|
    ensures rule == Letter ==> answer == IntToString(LetterIndex(correct[0]))
    ensures rule == ExactText <==>
      qtype == Mcq && options != [] && !(|correct| == 1 && IsOptionLetter(correct[0])) && correct in options
    ensures rule == ExactText ==> answer == IntToString(IndexOfOption(options, correct))
    ensures rule == LooseText ==> exists i :: 0 <= i < |options| && answer == IntToString(i)
                                     && Folded(options[i]) == Folded(correct) && forall j :: 0 <= j < i ==> Folded(options[j]) != Folded(correct)
    ensures qtype == Mcq && options != [] && !(|correct| == 1 && IsOptionLetter(correct[0])) && correct !in options ==>
      (rule == Unchanged <==> forall j :: 0 <= j < |options| ==> Folded(options[j]) != Folded(correct))
  {
    answer, rule := correct, Unchanged;
    if qtype == Mcq && options != [] {
      if |correct| == 1 && IsOptionLetter(correct[0]) {
        var idx := LetterIndex(correct[0]);
        if idx < |options| {
          answer, rule := IntToString(idx), Letter;
          IntRoundTrip(idx);
        }
      } else if correct in options {
        answer, rule := IntToString(IndexOfOption(options, correct)), ExactText;
        IntRoundTrip(IndexOfOption(options, correct));
      } else {
        var found := FirstLooseMatch(options, correct);
        if found.Some? {
          answer, rule := IntToString(found.value), LooseText;
          IntRoundTrip(found.value);
        }
      }
    }
  }
}
