/** Removal of Discord user mentions, the `<@\d+>` regular expression replaced by
    the empty string throughout a message. The regular expression engine is
    replaced by a scanner: at each position it either removes the mention that
    starts there or keeps the character and moves on, which is what a
    left-to-right, non-overlapping `replace_all` does for this pattern. */
module Mentions {

  predicate IsDigit(c: char) {
    '0' <= c <= '9'
  }

  /** A whole mention token: `<@`, one or more digits, `>`. */
  predicate IsMention(t: string) {
    |t| >= 4 && t[0] == '<' && t[1] == '@' && t[|t| - 1] == '>'
    && forall j :: 2 <= j < |t| - 1 ==> IsDigit(t[j])
  }

  /** The number of consecutive digits of s from index k on. */
  function DigitRun(s: string, k: nat): (n: nat)
    requires k <= |s|
    ensures k + n <= |s|
    ensures forall j :: k <= j < k + n ==> IsDigit(s[j])
    ensures k + n == |s| || !IsDigit(s[k + n])
    decreases |s| - k
  {
    if k < |s| && IsDigit(s[k]) then 1 + DigitRun(s, k + 1) else 0
  }

  /** The length of the mention token that starts at s[i], 0 when none does.
      Because a token ends at its first non-digit, at most one starts at i. */
  function MentionLen(s: string, i: nat): (n: nat)
    requires i <= |s|
    ensures i + n <= |s|
    ensures n > 0 ==> IsMention(s[i..i + n])
  {
    if i + 1 < |s| && s[i] == '<' && s[i + 1] == '@' then
      var d := DigitRun(s, i + 2);
      if d > 0 && i + 2 + d < |s| && s[i + 2 + d] == '>' then d + 3 else 0
    else 0
  }

  /** MentionLen finds the regular expression's match: a token starts at i
      exactly when MentionLen says so, and it has exactly that length. */
  lemma MentionLenExact(s: string, i: nat, m: nat)
    requires i < m <= |s|
    ensures IsMention(s[i..m]) <==> m == i + MentionLen(s, i)
  {
    var t := s[i..m];
    if IsMention(t) {
      assert s[i] == t[0] && s[i + 1] == t[1];
      var d := DigitRun(s, i + 2);
      forall j | i + 2 <= j < m - 1
        ensures IsDigit(s[j])
      {
        assert s[j] == t[j - i];
      }
      assert s[m - 1] == t[|t| - 1];
    }
  }

  /** The scanner, from index i on. */
  function StripFrom(s: string, i: nat): string
    requires i <= |s|
    decreases |s| - i
  {
    if i == |s| then []
    else
      var n := MentionLen(s, i);
      if n > 0 then StripFrom(s, i + n) else [s[i]] + StripFrom(s, i + 1)
  }

  /** `regex_replace_all!(r"<@\d+>"i, content, |_| String::new())`. */
  function StripMentions(s: string): string
  {
    StripFrom(s, 0)
  }

  /** Character k of s belongs to some mention token of s. */
  ghost predicate Covered(s: string, k: nat)
    requires k < |s|
  {
    exists j :: 0 <= j <= k && k < j + MentionLen(s, j)
  }

  /** The characters of s from index k on that belong to no mention token, in order. */
  ghost function Uncovered(s: string, k: nat): string
    requires k <= |s|
    decreases |s| - k
  {
    if k == |s| then [] else (if Covered(s, k) then [] else [s[k]]) + Uncovered(s, k + 1)
  }

  /** Some mention token of s starts before i and ends after it. */
  ghost predicate Straddles(s: string, i: nat)
    requires i <= |s|
  {
    exists j :: 0 <= j < i && i < j + MentionLen(s, j)
  }

  /** Stripping removes exactly the characters of the mention tokens of s (of
      every user, not only the bot) and keeps every other character, in order. */
  lemma StripMentionsKeepsUncovered(s: string)
    ensures StripMentions(s) == Uncovered(s, 0)
  {
    StripFromUncovered(s, 0);
  }

  lemma {:induction false} StripFromUncovered(s: string, i: nat)
    requires i <= |s| && !Straddles(s, i)
    ensures StripFrom(s, i) == Uncovered(s, i)
    decreases |s| - i
  {
    if i < |s| {
      var n := MentionLen(s, i);
      if n > 0 {
        assert StripFrom(s, i) == StripFrom(s, i + n);
        SkipToken(s, i, i);
        AfterToken(s, i);
        StripFromUncovered(s, i + n);
      } else {
        assert StripFrom(s, i) == [s[i]] + StripFrom(s, i + 1);
        AfterChar(s, i);
        assert Uncovered(s, i) == [s[i]] + Uncovered(s, i + 1);
        StripFromUncovered(s, i + 1);
      }
    }
  }

  /** No token starts inside another one: its inner characters are `@`, digits and `>`. */
  lemma TokenInterior(s: string, i: nat, j: nat)
    requires i <= |s| && i < j < i + MentionLen(s, i)
    ensures MentionLen(s, j) == 0
  {
    assert s[i..i + MentionLen(s, i)][j - i] == s[j];
  }

  lemma AfterToken(s: string, i: nat)
    requires i < |s| && !Straddles(s, i) && MentionLen(s, i) > 0
    ensures !Straddles(s, i + MentionLen(s, i))
  {
    var n := MentionLen(s, i);
    forall j | 0 <= j < i + n && i + n < j + MentionLen(s, j)
      ensures false
    {
      if i < j {
        TokenInterior(s, i, j);
      }
    }
  }

  lemma AfterChar(s: string, i: nat)
    requires i < |s| && !Straddles(s, i) && MentionLen(s, i) == 0
    ensures !Covered(s, i) && !Straddles(s, i + 1)
  {
  }

  /** Inside a token every character is covered, so none of them is kept. */
  lemma {:induction false} SkipToken(s: string, i: nat, k: nat)
    requires i <= |s| && i <= k <= i + MentionLen(s, i)
    ensures Uncovered(s, k) == Uncovered(s, i + MentionLen(s, i))
    decreases i + MentionLen(s, i) - k
  {
    if k < i + MentionLen(s, i) {
      assert Covered(s, k);
      SkipToken(s, i, k + 1);
    }
  }

  /** Text without `<` is left as it is. */
  lemma {:induction false} StripWithoutOpening(s: string, i: nat)
    requires i <= |s|
    requires forall k :: i <= k < |s| ==> s[k] != '<'
    ensures StripFrom(s, i) == s[i..]
    decreases |s| - i
  {
    if i < |s| {
      StripWithoutOpening(s, i + 1);
      assert s[i..] == [s[i]] + s[i + 1..];
    }
  }

  /** One pass only: removing a token can bring a new one together, and that
      one stays. */
  lemma NotIdempotent()
    ensures StripMentions("<@<@1>2>") == "<@2>"
    ensures StripMentions("<@2>") == ""
  {
    var s := "<@<@1>2>";
    assert MentionLen(s, 0) == 0 by {
      assert DigitRun(s, 2) == 0;
    }
    assert MentionLen(s, 1) == 0;
    assert MentionLen(s, 2) == 4 by {
      assert DigitRun(s, 5) == 0;
      assert DigitRun(s, 4) == 1;
    }
    assert MentionLen(s, 7) == 0;
    assert MentionLen(s, 6) == 0;
    assert StripFrom(s, 8) == [];
    assert StripFrom(s, 6) == "2>";
    assert StripFrom(s, 1) == "@2>";
    var t := "<@2>";
    assert MentionLen(t, 0) == 4 by {
      assert DigitRun(t, 3) == 0;
      assert DigitRun(t, 2) == 1;
    }
    assert StripFrom(t, 4) == [];
  }
}
