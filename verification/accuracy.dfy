/** The accuracy resolver: `checkResult` in both scene scripts.

    The stopped time and the target time are compared as `toFixed(3)` strings,
    character by character from the left. A character counts as matched only while
    every character before it matched as well, so the matched characters always form
    a prefix: a later character that happens to coincide after a mismatch is still
    shown unmatched. The `stage` is the index of the last matched character, or 0
    when nothing matched. Reading past the end of the target string yields
    `undefined` in the script, which never equals a character. */
module Accuracy {
  import opened TimeFormat

  /** The displayed stopped time: each character with whether it is shown as matched. */
  type Annotation = seq<(char, bool)>

  datatype Resolution = Resolution(annotation: Annotation, stage: nat)

  /** `targetStr[i] === currentStr[i]`, where an index past either end never matches. */
  predicate SameAt(target: string, current: string, i: nat) {
    i < |target| && i < |current| && target[i] == current[i]
  }

  /** Every position from 0 up to and including `i` matches. */
  predicate MatchedThrough(target: string, current: string, i: nat) {
    forall j: nat :: j <= i ==> SameAt(target, current, j)
  }

  /** Length of the longest common prefix of the two strings. */
  function PrefixLen(target: string, current: string): (k: nat)
    ensures k <= |target| && k <= |current|
    ensures forall i: nat :: i < k ==> SameAt(target, current, i)
    ensures !SameAt(target, current, k)
    decreases |current|
  {
    if |target| == 0 || |current| == 0 || target[0] != current[0] then 0
    else
      var rest := PrefixLen(target[1..], current[1..]);
      assert forall i: nat :: 0 < i <= rest ==> SameAt(target, current, i) by {
        forall i: nat | 0 < i <= rest ensures SameAt(target, current, i) {
          assert SameAt(target[1..], current[1..], i - 1);
        }
      }
      assert !SameAt(target[1..], current[1..], rest);
      1 + rest
  }

  /** A position is matched through exactly when it lies inside the common prefix. */
  lemma PrefixLenMeaning(target: string, current: string)
    ensures forall i: nat :: MatchedThrough(target, current, i) <==> i < PrefixLen(target, current)
  {
    var k := PrefixLen(target, current);
    forall i: nat ensures MatchedThrough(target, current, i) <==> i < k {
      if i >= k {
        assert !SameAt(target, current, k);
      }
    }
  }

  /** The outcome of `checkResult`: the annotated stopped time and the stage. */
  function Resolve(target: string, current: string): (r: Resolution)
    ensures |r.annotation| == |current|
    ensures forall i :: 0 <= i < |current| ==> r.annotation[i].0 == current[i]
    ensures forall i: nat :: i < |current| ==> (r.annotation[i].1 <==> MatchedThrough(target, current, i))
    ensures |current| == 0 || !r.annotation[0].1 ==> r.stage == 0
    ensures |current| > 0 && r.annotation[0].1 ==>
              && r.stage < |current|
              && r.annotation[r.stage].1
              && (r.stage + 1 == |current| || !r.annotation[r.stage + 1].1)
    ensures r.stage == 0 || r.stage < |target|
  {
    var k := PrefixLen(target, current);
    PrefixLenMeaning(target, current);
    Resolution(seq(|current|, i requires 0 <= i < |current| => (current[i], i < k)),
               if k == 0 then 0 else k - 1)
  }

  /** The script's loop: a `correct` flag that drops for good at the first mismatch,
      and `stage` overwritten by the index of every matched character. */
  method CheckResult(targetStr: string, currentStr: string) returns (annotation: Annotation, stage: nat)
    ensures Resolution(annotation, stage) == Resolve(targetStr, currentStr)
  {
    ghost var k := PrefixLen(targetStr, currentStr);
    annotation := [];
    var correct := true;
    stage := 0;
    var i := 0;
    while i < |currentStr|
      invariant 0 <= i <= |currentStr|
      invariant |annotation| == i
      invariant forall j :: 0 <= j < i ==> annotation[j] == (currentStr[j], j < k)
      invariant correct <==> i <= k
      invariant stage == if i == 0 || k == 0 then 0 else if i <= k then i - 1 else k - 1
    {
      assert (correct && i < |targetStr| && targetStr[i] == currentStr[i]) <==> i < k by {
        if i < k {
          assert SameAt(targetStr, currentStr, i);
        } else if i == k {
          assert !SameAt(targetStr, currentStr, k);
        }
      }
      if correct && i < |targetStr| && targetStr[i] == currentStr[i] {
        annotation := annotation + [(currentStr[i], true)];
        stage := i;
      } else {
        annotation := annotation + [(currentStr[i], false)];
        correct := false;
      }
      i := i + 1;
    }
  }

  /** Matched characters form a prefix: nothing after a mismatch is matched again,
      even where the two strings coincide. */
  lemma {:induction false} MatchedIsPrefix(target: string, current: string, i: nat, j: nat)
    requires i <= j < |current|
    ensures var a := Resolve(target, current).annotation;
            a[j].1 ==> a[i].1
  {
    var a := Resolve(target, current).annotation;
    if a[j].1 {
      assert MatchedThrough(target, current, j);
      assert MatchedThrough(target, current, i);
    }
  }

  /** A mismatch at a position other than the first bounds the stage from above. */
  lemma {:induction false} MismatchBoundsStage(target: string, current: string, i: nat)
    requires 0 < i < |current|
    requires !Resolve(target, current).annotation[i].1
    ensures Resolve(target, current).stage < i
  {
    var r := Resolve(target, current);
    if r.annotation[0].1 {
      if r.stage >= i {
        MatchedIsPrefix(target, current, i, r.stage);
      }
    }
  }

  /** The stage never passes the last index of the target string; with the usual
      five-character target it is one of 0 to 4, the rows of the reward table. */
  lemma StageBound(target: string, current: string)
    requires |target| == 5
    ensures Resolve(target, current).stage <= 4
  {
  }

  /** The target 5.123 stopped at 5.129: the first four characters match, stage 3. */
  lemma ExampleLastDigitOff()
    ensures Resolve("5.123", "5.129") == Resolution([('5', true), ('.', true), ('1', true), ('2', true), ('9', false)], 3)
  {
    var k := PrefixLen("5.123", "5.129");
    assert !SameAt("5.123", "5.129", 4);
    assert forall i: nat :: i < 4 ==> SameAt("5.123", "5.129", i);
    assert k == 4;
  }

  /** The target 5.123 stopped at 6.123: the first digit already differs, so stage 0
      and the coinciding ".123" stays unmatched. */
  lemma ExampleFirstDigitOff()
    ensures Resolve("5.123", "6.123") == Resolution([('6', false), ('.', false), ('1', false), ('2', false), ('3', false)], 0)
  {
    assert PrefixLen("5.123", "6.123") == 0;
  }

  /** A stopped time of "10.000" against a five-character target: the extra sixth
      character reads past the target and is unmatched. */
  lemma ExampleLongStop()
    ensures Resolve("9.999", "10.000").stage == 0
    ensures |Resolve("9.999", "10.000").annotation| == 6
  {
    assert PrefixLen("9.999", "10.000") == 0;
  }

  /** For clock values below ten seconds the stage measures how close the stop was:
      it reaches 1 when the whole seconds agree, 2 when the tenths agree, 3 when the
      hundredths agree and 4 exactly when the stop hit the target to the millisecond. */
  lemma StageMeasuresCloseness(targetMs: nat, currentMs: nat)
    requires targetMs < 10000 && currentMs < 10000
    ensures var s := Resolve(FormatMillis(targetMs), FormatMillis(currentMs)).stage;
            && (s >= 1 <==> targetMs / 1000 == currentMs / 1000)
            && (s >= 2 <==> targetMs / 100 == currentMs / 100)
            && (s >= 3 <==> targetMs / 10 == currentMs / 10)
            && (s == 4 <==> targetMs == currentMs)
  {
    var t, c := FormatMillis(targetMs), FormatMillis(currentMs);
    ShortForm(targetMs);
    ShortForm(currentMs);
    var k := PrefixLen(t, c);
    PrefixLenMeaning(t, c);
    var s := Resolve(t, c).stage;
    assert s == if k == 0 then 0 else k - 1;
    assert SameAt(t, c, 0) <==> targetMs / 1000 == currentMs / 1000;
    assert SameAt(t, c, 1);
    assert SameAt(t, c, 2) <==> targetMs / 100 % 10 == currentMs / 100 % 10;
    assert SameAt(t, c, 3) <==> targetMs / 10 % 10 == currentMs / 10 % 10;
    assert SameAt(t, c, 4) <==> targetMs % 10 == currentMs % 10;
    assert k >= 1 <==> MatchedThrough(t, c, 0);
    assert k >= 2 <==> MatchedThrough(t, c, 1);
    assert k >= 3 <==> MatchedThrough(t, c, 2);
    assert k >= 4 <==> MatchedThrough(t, c, 3);
    assert k >= 5 <==> MatchedThrough(t, c, 4);
    assert MatchedThrough(t, c, 0) <==> MatchedThrough(t, c, 1);
    DigitSplit(targetMs);
    DigitSplit(currentMs);
  }
}
