/** The few `java.lang.String` operations the assigner relies on, over `seq<char>`. */
module Strings {
  import opened Common

  /** `pat` occurs in `s` starting at index `i`. */
  predicate OccursAt(s: string, pat: string, i: nat)
  {
    i + |pat| <= |s| && s[i..i + |pat|] == pat
  }

  /** The first index at or after `from` where `pat` occurs in `s` (`indexOf(pat, from)`). */
  function IndexOfFrom(s: string, pat: string, from: nat): (r: Option<nat>)
    decreases |s| - from
    ensures r.Some? ==> from <= r.value && OccursAt(s, pat, r.value)
    ensures r.Some? ==> forall j :: from <= j < r.value ==> !OccursAt(s, pat, j)
    ensures r.None? ==> forall j :: from <= j ==> !OccursAt(s, pat, j)
  {
    if from + |pat| > |s| then None
    else if s[from..from + |pat|] == pat then Some(from)
    else IndexOfFrom(s, pat, from + 1)
  }

  function IndexOf(s: string, pat: string): (r: Option<nat>)
    ensures r.Some? ==> OccursAt(s, pat, r.value) && forall j :: 0 <= j < r.value ==> !OccursAt(s, pat, j)
    ensures r.None? <==> forall j :: 0 <= j ==> !OccursAt(s, pat, j)
  {
    IndexOfFrom(s, pat, 0)
  }

  /** An occurrence with none before it is the one `IndexOf` finds. */
  lemma IndexOfIsFirstOccurrence(s: string, pat: string, i: nat)
    requires OccursAt(s, pat, i)
    requires forall j :: 0 <= j < i ==> !OccursAt(s, pat, j)
    ensures IndexOf(s, pat) == Some(i)
  {
  }

  /**
   * When `pat` does not occur in `head` and no later character of `pat` repeats its first one (so
   * no occurrence can start in `head` and run into `pat`), `pat` itself is the one replaced.
   */
  lemma {:induction false} ReplaceFirstAfterHead(head: string, pat: string, tail: string, rep: string)
    requires |pat| > 0
    requires forall k :: 0 < k < |pat| ==> pat[k] != pat[0]
    requires !Contains(head, pat)
    ensures ReplaceFirst(head + pat + tail, pat, rep) == head + rep + tail
  {
    var s := head + pat + tail;
    var at := |head|;
    assert s[at..at + |pat|] == pat;
    forall j | 0 <= j < at
      ensures !OccursAt(s, pat, j)
    {
      if j + |pat| <= at {
        if OccursAt(s, pat, j) {
          assert s[j..j + |pat|] == head[j..j + |pat|];
          ContainsAt(head, pat, j);
        }
      } else if j + |pat| <= |s| {
        assert s[j..j + |pat|][at - j] == s[at] == pat[0] != pat[at - j];
      }
    }
    IndexOfIsFirstOccurrence(s, pat, at);
    assert s[..at] == head;
    assert s[at + |pat|..] == tail;
  }

  /** Appending a character other than the last one of `pat` creates no occurrence of `pat`. */
  lemma NotContainsSnoc(s: string, c: char, pat: string)
    requires |pat| > 0 && pat[|pat| - 1] != c
    requires !Contains(s, pat)
    ensures !Contains(s + [c], pat)
  {
    var t := s + [c];
    if Contains(t, pat) {
      var j := IndexOf(t, pat).value;
      if j + |pat| <= |s| {
        assert t[j..j + |pat|] == s[j..j + |pat|];
        ContainsAt(s, pat, j);
      }
    }
  }

  /** An occurrence inside a slice of `s` is an occurrence in `s`. */
  lemma OccursWithin(s: string, k: nat, t: string, pat: string, i: nat)
    requires k + |t| <= |s| && t == s[k..k + |t|]
    requires OccursAt(t, pat, i)
    ensures OccursAt(s, pat, k + i)
  {
    forall m | 0 <= m < |pat|
      ensures s[k + i..k + i + |pat|][m] == pat[m]
    {
      assert pat[m] == t[i + m] == s[k..k + |t|][i + m];
    }
    assert s[k + i..k + i + |pat|] == pat;
  }

  /** Two adjacent occurrences form an occurrence of the concatenation. */
  lemma OccursConcat(s: string, a: string, b: string, i: nat)
    requires OccursAt(s, a, i) && OccursAt(s, b, i + |a|)
    ensures OccursAt(s, a + b, i)
  {
    assert s[i..i + |a + b|] == s[i..i + |a|] + s[i + |a|..i + |a| + |b|];
  }

  /** `s.contains(pat)`; the empty pattern is contained in every string. */
  predicate Contains(s: string, pat: string)
  {
    IndexOf(s, pat).Some?
  }

  lemma ContainsAt(s: string, pat: string, i: nat)
    requires OccursAt(s, pat, i)
    ensures Contains(s, pat)
  {
  }

  /** A string contains each of its infixes. */
  lemma ContainsInfix(a: string, b: string, c: string)
    ensures Contains(a + b + c, b)
  {
    assert (a + b + c)[|a|..|a| + |b|] == b;
    ContainsAt(a + b + c, b, |a|);
  }

  /** Appending text keeps what a string contains. */
  lemma ContainsExtends(s: string, c: string, pat: string)
    requires Contains(s, pat)
    ensures Contains(s + c, pat)
  {
    var i := IndexOf(s, pat).value;
    assert (s + c)[i..i + |pat|] == s[i..i + |pat|];
    ContainsAt(s + c, pat, i);
  }

  /** Containment is transitive: a pattern inside a substring of `s` is inside `s`. */
  lemma {:induction false} ContainsTransitive(s: string, mid: string, pat: string)
    requires Contains(s, mid) && Contains(mid, pat)
    ensures Contains(s, pat)
  {
    var i := IndexOf(s, mid).value;
    var j := IndexOf(mid, pat).value;
    OccursWithin(s, i, mid, pat, j);
    ContainsAt(s, pat, i + j);
  }

  /**
   * `s.replaceFirst(pat, rep)` for a pattern without regular-expression metacharacters
   * and a replacement without `$` or `\`: the first occurrence is replaced, nothing else changes.
   */
  function ReplaceFirst(s: string, pat: string, rep: string): (r: string)
    ensures IndexOf(s, pat).None? ==> r == s
    ensures IndexOf(s, pat).Some? ==>
      var i := IndexOf(s, pat).value;
      |r| == |s| - |pat| + |rep| &&
      r[..i] == s[..i] && r[i..i + |rep|] == rep && r[i + |rep|..] == s[i + |pat|..]
  {
    match IndexOf(s, pat)
    case None => s
    case Some(i) => s[..i] + rep + s[i + |pat|..]
  }

  /** The last index of `s` whose character is in `cs` (`lastIndexOf` over a set of characters). */
  function LastIndexIn(s: string, cs: set<char>): (r: Option<nat>)
    ensures r.Some? ==> r.value < |s|
  {
    if |s| == 0 then None
    else if s[|s| - 1] in cs then Some(|s| - 1)
    else LastIndexIn(s[..|s| - 1], cs)
  }

  /** `LastIndexIn` finds nothing exactly when no character is in `cs`, and otherwise the last one that is. */
  lemma {:induction false} LastIndexInIsLast(s: string, cs: set<char>)
    ensures var r := LastIndexIn(s, cs);
      && (r.None? <==> forall i :: 0 <= i < |s| ==> s[i] !in cs)
      && (r.Some? ==> r.value < |s| && s[r.value] in cs)
      && (r.Some? ==> forall i :: r.value < i < |s| ==> s[i] !in cs)
  {
    if |s| > 0 && s[|s| - 1] !in cs {
      var t := s[..|s| - 1];
      LastIndexInIsLast(t, cs);
      assert forall i :: 0 <= i < |t| ==> t[i] == s[i];
    }
  }

  /** `StringUtil.join(parts, sep)`. */
  function Join(parts: seq<string>, sep: string): string
  {
    if |parts| == 0 then ""
    else if |parts| == 1 then parts[0]
    else parts[0] + sep + Join(parts[1..], sep)
  }

  /** The text a `StringBuilder` holds after appending every message followed by one space. */
  function AppendEach(messages: seq<string>): string
  {
    if |messages| == 0 then "" else AppendEach(messages[..|messages| - 1]) + messages[|messages| - 1] + " "
  }

  /** The appended text contains every message. */
  lemma {:induction false} AppendEachContainsEach(messages: seq<string>)
    ensures forall i :: 0 <= i < |messages| ==> Contains(AppendEach(messages), messages[i])
  {
    if |messages| > 0 {
      var init := messages[..|messages| - 1];
      var last := messages[|messages| - 1];
      AppendEachContainsEach(init);
      ContainsInfix(AppendEach(init), last, " ");
      forall i | 0 <= i < |init|
        ensures Contains(AppendEach(messages), messages[i])
      {
        assert messages[i] == init[i];
        ContainsExtends(AppendEach(init), last + " ", init[i]);
        assert AppendEach(init) + (last + " ") == AppendEach(messages);
      }
    }
  }
}
