/** Python's str.strip. */
module Text {
  /** The characters that stripping removes. */
  predicate IsSpace(c: char) {
    || '\t' <= c <= '\r' || '\U{1c}' <= c <= ' ' || c == '\U{85}' || c == '\U{a0}' || c == '\U{1680}'
    || '\U{2000}' <= c <= '\U{200a}' || c == '\U{2028}' || c == '\U{2029}' || c == '\U{202f}'
    || c == '\U{205f}' || c == '\U{3000}'
  }

  /** Among them tab, line feed, the unit separator and the wide space; letters and the zero-width space are not. */
  lemma KnownSpaces()
    ensures IsSpace('\t') && IsSpace('\n') && IsSpace('\r') && IsSpace(' ') && IsSpace('\U{1f}') && IsSpace('\U{3000}')
    ensures !IsSpace('a') && !IsSpace('_') && !IsSpace('\U{8}') && !IsSpace('\U{1b}') && !IsSpace('\U{200b}')
  {
  }

  function StripLeft(s: string, drop: char -> bool): string {
    if s != "" && drop(s[0]) then StripLeft(s[1..], drop) else s
  }

  function StripRight(s: string, drop: char -> bool): string {
    if s != "" && drop(s[|s| - 1]) then StripRight(s[..|s| - 1], drop) else s
  }

  function Strip(s: string, drop: char -> bool): string {
    StripRight(StripLeft(s, drop), drop)
  }

  predicate IsBlank(s: string) {
    Strip(s, IsSpace) == ""
  }

  lemma {:induction false} StripLeftEnds(s: string, drop: char -> bool)
    ensures var t := StripLeft(s, drop); |t| <= |s| && t == s[|s| - |t|..] && (t != "" ==> !drop(t[0]))
    ensures forall k :: 0 <= k < |s| - |StripLeft(s, drop)| ==> drop(s[k])
  {
    if s != "" && drop(s[0]) {
      StripLeftEnds(s[1..], drop);
      var t := StripLeft(s[1..], drop);
      forall k | 0 <= k < |s| - |t| ensures drop(s[k]) {
        if k > 0 { assert s[1..][k - 1] == s[k]; }
      }
    }
  }

  lemma {:induction false} StripRightEnds(s: string, drop: char -> bool)
    ensures var t := StripRight(s, drop); t <= s && (t != "" ==> !drop(t[|t| - 1]))
    ensures forall k :: |StripRight(s, drop)| <= k < |s| ==> drop(s[k])
  {
    if s != "" && drop(s[|s| - 1]) { StripRightEnds(s[..|s| - 1], drop); }
  }

  lemma StripEnds(s: string, drop: char -> bool)
    ensures var t := Strip(s, drop);
            (t != "" ==> !drop(t[0]) && !drop(t[|t| - 1])) && forall c :: c in t ==> c in s
  {
    StripLeftEnds(s, drop);
    StripRightEnds(StripLeft(s, drop), drop);
  }

  /** Stripping cuts off the droppable characters at both ends, and no others. */
  lemma StripExactly(s: string, drop: char -> bool) returns (i: nat, j: nat)
    ensures i <= j <= |s| && Strip(s, drop) == s[i..j]
    ensures forall k :: 0 <= k < i || j <= k < |s| ==> drop(s[k])
    ensures i < j ==> !drop(s[i]) && !drop(s[j - 1])
  {
    var t := StripLeft(s, drop);
    StripLeftEnds(s, drop);
    StripRightEnds(t, drop);
    i := |s| - |t|;
    j := i + |StripRight(t, drop)|;
    forall k | j <= k < |s| ensures drop(s[k]) { assert t[k - i] == s[k]; }
  }

  /** A text is blank exactly if it holds nothing but space. */
  lemma BlankExactly(s: string)
    ensures IsBlank(s) <==> forall c :: c in s ==> IsSpace(c)
  {
    var i, j := StripExactly(s, IsSpace);
    if i < j { assert s[i] in s; }
  }
}
