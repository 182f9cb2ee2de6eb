/**
 * Character scans over one line of text, each the specification of one of the
 * pointer loops or C library calls of the tokenizer. Indices play the role of
 * the C char pointers into the line buffer.
 */
module Text {
  import opened TiniTypes

  /** Characters skipped at the head of a line. */
  predicate IsBlank(c: char) { c == ' ' || c == '\t' }

  /** Characters removed from the tail of a value. */
  predicate IsTrailing(c: char) { c == ' ' || c == '\t' || c == '\n' }

  /** The key/value separator: space, equals sign, space. */
  const Sep: string := " = "

  predicate AllBlank(s: string) { forall i :: 0 <= i < |s| ==> IsBlank(s[i]) }

  predicate AllTrailing(s: string) { forall i :: 0 <= i < |s| ==> IsTrailing(s[i]) }

  /** The separator starts at index i of s, compared character by character. */
  predicate SepAt(s: string, i: int)
  {
    0 <= i && i + |Sep| <= |s| && s[i] == Sep[0] && s[i + 1] == Sep[1] && s[i + 2] == Sep[2]
  }

  /** No separator starts before index k of s. */
  predicate NoSepBefore(s: string, k: int) { forall j :: 0 <= j < k ==> !SepAt(s, j) }

  /** Index of the first non-blank character of s at or after i, or |s| if there is none. */
  function SkipBlanks(s: string, i: nat): (j: nat)
    requires i <= |s|
    ensures i <= j <= |s|
    ensures j == |s| || !IsBlank(s[j])
    decreases |s| - i
  {
    if i < |s| && IsBlank(s[i]) then SkipBlanks(s, i + 1) else i
  }

  /** Everything SkipBlanks skips is blank. */
  lemma {:induction false} SkipBlanksSpec(s: string, i: nat)
    requires i <= |s|
    ensures forall m :: i <= m < SkipBlanks(s, i) ==> IsBlank(s[m])
    decreases |s| - i
  {
    if i < |s| && IsBlank(s[i]) {
      SkipBlanksSpec(s, i + 1);
    }
  }

  /** SkipBlanks stops at the first character after i that is not blank. */
  lemma {:induction false} SkipBlanksUnique(s: string, i: nat, j: nat)
    requires i <= j <= |s|
    requires forall m :: i <= m < j ==> IsBlank(s[m])
    requires j == |s| || !IsBlank(s[j])
    ensures SkipBlanks(s, i) == j
    decreases j - i
  {
    if i < j {
      SkipBlanksUnique(s, i + 1, j);
    }
  }

  /** Index of the first c in s at or after i (strchr-like scan). */
  function IndexOf(s: string, c: char, i: nat): (r: Option<nat>)
    requires i <= |s|
    ensures r.Some? ==> i <= r.value < |s| && s[r.value] == c
    decreases |s| - i
  {
    if i == |s| then None
    else if s[i] == c then Some(i)
    else IndexOf(s, c, i + 1)
  }

  /** IndexOf finds the first c: none lies before the index it returns, and
      none at all when it returns nothing. */
  lemma {:induction false} IndexOfSpec(s: string, c: char, i: nat)
    requires i <= |s|
    ensures IndexOf(s, c, i).Some? ==> forall m :: i <= m < IndexOf(s, c, i).value ==> s[m] != c
    ensures IndexOf(s, c, i).None? ==> forall m :: i <= m < |s| ==> s[m] != c
    decreases |s| - i
  {
    if i < |s| && s[i] != c {
      IndexOfSpec(s, c, i + 1);
    }
  }

  /** IndexOf returns the first c after i when there is one. */
  lemma {:induction false} IndexOfFirst(s: string, c: char, i: nat, v: nat)
    requires i <= v < |s| && s[v] == c
    requires forall m :: i <= m < v ==> s[m] != c
    ensures IndexOf(s, c, i) == Some(v)
    decreases v - i
  {
    if i < v {
      IndexOfFirst(s, c, i + 1, v);
    }
  }

  /** Index of the first separator in s at or after i (strstr(s + i, " = ")). */
  function FindSep(s: string, i: nat): (r: Option<nat>)
    requires i <= |s|
    ensures r.Some? ==> i <= r.value && SepAt(s, r.value)
    decreases |s| - i
  {
    if i + |Sep| > |s| then None
    else if SepAt(s, i) then Some(i)
    else FindSep(s, i + 1)
  }

  /** FindSep finds the first separator: none starts before the index it
      returns, and none at all when it returns nothing. */
  lemma {:induction false} FindSepSpec(s: string, i: nat)
    requires i <= |s|
    ensures FindSep(s, i).Some? ==> forall m :: i <= m < FindSep(s, i).value ==> !SepAt(s, m)
    ensures FindSep(s, i).None? ==> forall m :: i <= m ==> !SepAt(s, m)
    decreases |s| - i
  {
    if i + |Sep| <= |s| && !SepAt(s, i) {
      FindSepSpec(s, i + 1);
    }
  }

  /** The tail scan: walking back from index e over trailing characters, the
      index just past the last character before e that is not one (0 if none). */
  function TrimEnd(s: string, e: nat): (r: nat)
    requires e <= |s|
    ensures r <= e
    ensures r == 0 || !IsTrailing(s[r - 1])
    decreases e
  {
    if e > 0 && IsTrailing(s[e - 1]) then TrimEnd(s, e - 1) else e
  }

  /** Everything the tail scan walks over is trailing. */
  lemma {:induction false} TrimEndSpec(s: string, e: nat)
    requires e <= |s|
    ensures forall m :: TrimEnd(s, e) <= m < e ==> IsTrailing(s[m])
    decreases e
  {
    if e > 0 && IsTrailing(s[e - 1]) {
      TrimEndSpec(s, e - 1);
    }
  }

  /** Reference definition: s without its trailing spaces, tabs and newlines,
      dropped one at a time from the end. */
  function TrimRight(s: string): string
  {
    if s != [] && IsTrailing(s[|s| - 1]) then TrimRight(s[..|s| - 1]) else s
  }

  /** What TrimRight keeps: a prefix of s that is empty or ends in a character
      that is not trailing, followed in s only by trailing characters. */
  lemma {:induction false} TrimRightSpec(s: string)
    ensures var t := TrimRight(s);
      && |t| <= |s| && t == s[..|t|]
      && (t == [] || !IsTrailing(t[|t| - 1]))
      && AllTrailing(s[|t|..])
  {
    if s != [] && IsTrailing(s[|s| - 1]) {
      var s' := s[..|s| - 1];
      TrimRightSpec(s');
      var t := TrimRight(s');
      assert s'[..|t|] == s[..|t|];
      forall m | 0 <= m < |s| - |t| ensures IsTrailing(s[|t|..][m]) {
        if |t| + m < |s| - 1 {
          assert s[|t|..][m] == s'[|t|..][m];
        }
      }
    }
  }

  /** TrimRight is the only cut of s that leaves a tail of trailing characters
      and ends in a character that is not one. */
  lemma {:induction false} TrimRightUnique(s: string, k: nat)
    requires k <= |s| && AllTrailing(s[k..])
    requires k == 0 || !IsTrailing(s[k - 1])
    ensures TrimRight(s) == s[..k]
  {
    TrimRightSpec(s);
  }

  /** A value made only of blanks trims to the empty string. */
  lemma {:induction false} AllTrailingTrimsToEmpty(s: string)
    requires AllTrailing(s)
    ensures TrimRight(s) == []
  {
    TrimRightUnique(s, 0);
  }

  /** The first separator at or after k is the one at v when none starts between. */
  lemma {:induction false} FindSepFirst(s: string, k: nat, v: nat)
    requires k <= v && SepAt(s, v)
    requires forall j :: k <= j < v ==> !SepAt(s, j)
    ensures FindSep(s, k) == Some(v)
    decreases v - k
  {
    if k < v {
      FindSepFirst(s, k + 1, v);
    }
  }

  /** The tail scan from j, cut from index i on, is TrimRight of s[i..j]: both
      drop the same trailing characters one at a time. */
  lemma {:induction false} TrimEndSlice(s: string, i: nat, j: nat)
    requires i <= j <= |s|
    ensures var e := TrimEnd(s, j);
      (if e <= i then [] else s[i..e]) == TrimRight(s[i..j])
    decreases j
  {
    if i < j && IsTrailing(s[j - 1]) {
      assert s[i..j][..j - i - 1] == s[i..j - 1];
      TrimEndSlice(s, i, j - 1);
    }
  }

  /** The tail scan is determined by what it leaves: an index r up to which
      the characters before e are trailing and before which one is not. */
  lemma {:induction false} TrimEndUnique(s: string, e: nat, r: nat)
    requires r <= e <= |s|
    requires forall m :: r <= m < e ==> IsTrailing(s[m])
    requires r == 0 || !IsTrailing(s[r - 1])
    ensures TrimEnd(s, e) == r
    decreases e
  {
    if r < e {
      TrimEndUnique(s, e - 1, r);
    }
  }

  /** The reference trim of the suffix from i is the slice up to j when only
      trailing characters follow j and the slice is empty or ends in one that is not. */
  lemma {:induction false} TrimRightAt(s: string, i: nat, j: nat)
    requires i <= j <= |s|
    requires forall m :: j <= m < |s| ==> IsTrailing(s[m])
    requires j == i || !IsTrailing(s[j - 1])
    ensures TrimRight(s[i..]) == s[i..j]
  {
    var raw := s[i..];
    assert forall m :: 0 <= m < |raw| ==> raw[m] == s[i + m];
    TrimRightUnique(raw, j - i);
    assert raw[..j - i] == s[i..j];
  }
}
