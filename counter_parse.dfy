/** The text parse at the top of `initCounters` in motion.js: a stat counter's
    text is searched for its first run of digits (`/(\d+)/`), the run is read as
    a decimal number (the count-up target), the first occurrence of the run is
    removed from the text (the suffix), and the counter starts out showing
    "0" followed by that suffix. Texts without a digit are skipped. */
module CounterParse {
  import opened Optional
  import opened Decimal

  /** The first position at or after i holding a digit, or |s| if none does. */
  function FirstDigitFrom(s: string, i: nat): (j: nat)
    requires i <= |s|
    ensures i <= j <= |s|
    ensures forall k :: i <= k < j ==> !IsDigit(s[k])
    ensures j < |s| ==> IsDigit(s[j])
    decreases |s| - i
  {
    if i == |s| || IsDigit(s[i]) then i else FirstDigitFrom(s, i + 1)
  }

  /** The end of the digit run starting at i: the regex `\d+` is greedy. */
  function RunEnd(s: string, i: nat): (j: nat)
    requires i <= |s|
    ensures i <= j <= |s|
    ensures forall k :: i <= k < j ==> IsDigit(s[k])
    ensures j < |s| ==> !IsDigit(s[j])
    decreases |s| - i
  {
    if i == |s| || !IsDigit(s[i]) then i else RunEnd(s, i + 1)
  }

  predicate OccursAt(s: string, pat: string, k: nat) {
    k + |pat| <= |s| && s[k..k + |pat|] == pat
  }

  /** The first position at or after `from` where `pat` occurs in s. */
  function IndexOf(s: string, pat: string, from: nat): (r: Option<nat>)
    requires from <= |s|
    ensures r.Some? ==> from <= r.value && OccursAt(s, pat, r.value)
    decreases |s| - from
  {
    if from + |pat| > |s| then None
    else if OccursAt(s, pat, from) then Some(from)
    else IndexOf(s, pat, from + 1)
  }

  /** `s.replace(pat, '')` with a string pattern: only the first occurrence
      is removed. */
  function RemoveFirst(s: string, pat: string): string {
    match IndexOf(s, pat, 0)
    case None => s
    case Some(k) => s[..k] + s[k + |pat|..]
  }

  /** A parsed counter: the number to count up to and the text around it. */
  datatype Counter = Counter(target: nat, suffix: string)

  /** The parse of one counter's text; None when the text has no digit (the
      counter is then left alone). */
  function ParseCounter(text: string): (r: Option<Counter>)
    ensures r.None? <==> NoDigits(text)
  {
    var start := FirstDigitFrom(text, 0);
    if start == |text| then None
    else
      var run := text[start..RunEnd(text, start)];
      Some(Counter(DigitsValue(run), RemoveFirst(text, run)))
  }

  /** What the counter shows before it starts counting. */
  function InitialDisplay(c: Counter): string {
    "0" + c.suffix
  }

  /** What the counter shows when the count-up is complete (progress 1). */
  function FinalDisplay(c: Counter): string {
    NatToString(c.target) + c.suffix
  }

  lemma {:induction false} IndexOfFindsFirst(s: string, pat: string, from: nat, p: nat)
    requires from <= p && OccursAt(s, pat, p)
    requires forall k :: from <= k < p ==> !OccursAt(s, pat, k)
    ensures IndexOf(s, pat, from) == Some(p)
    decreases p - from
  {
    if from < p {
      IndexOfFindsFirst(s, pat, from + 1, p);
    }
  }

  lemma {:induction false} FirstDigitSkipsPrefix(pre: string, rest: string, i: nat)
    requires NoDigits(pre) && i <= |pre|
    requires |rest| >= 1 && IsDigit(rest[0])
    ensures FirstDigitFrom(pre + rest, i) == |pre|
    decreases |pre| - i
  {
    var text := pre + rest;
    if i < |pre| {
      assert text[i] == pre[i];
      FirstDigitSkipsPrefix(pre, rest, i + 1);
    } else {
      assert text[i] == rest[0];
    }
  }

  lemma {:induction false} RunEndsAtRun(pre: string, run: string, post: string, i: nat)
    requires |pre| <= i <= |pre| + |run|
    requires AllDigits(run)
    requires post == [] || !IsDigit(post[0])
    ensures RunEnd(pre + run + post, i) == |pre| + |run|
    decreases |pre| + |run| - i
  {
    var text := pre + run + post;
    if i < |pre| + |run| {
      assert text[i] == run[i - |pre|];
      RunEndsAtRun(pre, run, post, i + 1);
    } else if i < |text| {
      assert text[i] == post[0];
    }
  }

  /** The parse of a text made of a digit-free prefix, a maximal digit run
      and the rest: the target is the run's value and the suffix is the text
      without the run. */
  lemma ParseFirstRun(pre: string, run: string, post: string)
    requires NoDigits(pre)
    requires |run| >= 1 && AllDigits(run)
    requires post == [] || !IsDigit(post[0])
    ensures ParseCounter(pre + run + post) == Some(Counter(DigitsValue(run), pre + post))
  {
    var text := pre + run + post;
    assert text == pre + (run + post);
    FirstDigitSkipsPrefix(pre, run + post, 0);
    RunEndsAtRun(pre, run, post, |pre|);
    assert text[|pre|..|pre| + |run|] == run;
    assert OccursAt(text, run, |pre|);
    forall k | 0 <= k < |pre|
      ensures !OccursAt(text, run, k)
    {
      if k + |run| <= |text| {
        assert text[k..k + |run|][0] == text[k] == pre[k];
      }
    }
    IndexOfFindsFirst(text, run, 0, |pre|);
    assert text[..|pre|] + text[|pre| + |run|..] == pre + post;
  }

  /** Before counting, the counter shows "0" in front of the text with its
      number taken out: a "0" goes before any prefix, not where the number
      stood. */
  lemma InitialDisplayLeadsWithZero(pre: string, run: string, post: string)
    requires NoDigits(pre)
    requires |run| >= 1 && AllDigits(run)
    requires post == [] || !IsDigit(post[0])
    ensures ParseCounter(pre + run + post).Some?
    ensures InitialDisplay(ParseCounter(pre + run + post).value) == "0" + pre + post
  {
    ParseFirstRun(pre, run, post);
  }

  /** A counter whose text begins with its number, written without leading
      zeros, ends the count-up showing exactly the text it started with. */
  lemma FinalDisplayRestoresText(run: string, post: string)
    requires Canonical(run)
    requires post == [] || !IsDigit(post[0])
    ensures ParseCounter(run + post).Some?
    ensures FinalDisplay(ParseCounter(run + post).value) == run + post
  {
    var empty: string := [];
    ParseFirstRun(empty, run, post);
    assert empty + run + post == run + post && empty + post == post;
    var c := Counter(DigitsValue(run), post);
    assert ParseCounter(run + post) == Some(c);
    NatToStringOfValue(run);
    assert FinalDisplay(c) == run + post;
  }
}
