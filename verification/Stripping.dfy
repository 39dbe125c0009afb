/** Python's `str.strip`: text without the unwanted characters at its two ends. */
module Stripping {

  function Strip(drop: char -> bool, s: string): string
  {
    if s == [] then s
    else if drop(s[0]) then Strip(drop, s[1..])
    else if drop(s[|s| - 1]) then Strip(drop, s[..|s| - 1])
    else s
  }

  /** All of `s` outside the positions from `i` up to `j` is unwanted. */
  predicate DropsAround(drop: char -> bool, s: string, i: int, j: int)
  {
    0 <= i <= j <= |s| && forall k :: 0 <= k < |s| && !(i <= k < j) ==> drop(s[k])
  }

  /** `core` neither begins nor ends with an unwanted character. */
  predicate Clean(drop: char -> bool, core: string)
  {
    core != [] ==> !drop(core[0]) && !drop(core[|core| - 1])
  }

  ghost predicate StrippedTo(drop: char -> bool, s: string, core: string)
  {
    Clean(drop, core) && exists i, j :: DropsAround(drop, s, i, j) && core == s[i..j]
  }

  lemma {:induction false} StripKeepsCore(drop: char -> bool, s: string) returns (i: nat, j: nat)
    ensures DropsAround(drop, s, i, j) && Strip(drop, s) == s[i..j] && Clean(drop, Strip(drop, s))
    decreases |s|
  {
    if s == [] {
      i, j := 0, 0;
    } else if drop(s[0]) {
      i, j := StripKeepsCore(drop, s[1..]);
      i, j := i + 1, j + 1;
      assert s[i..j] == s[1..][i - 1..j - 1];
      forall k | 0 <= k < |s| && !(i <= k < j) ensures drop(s[k]) {
        if k > 0 { assert s[1..][k - 1] == s[k]; }
      }
    } else if drop(s[|s| - 1]) {
      i, j := StripKeepsCore(drop, s[..|s| - 1]);
      assert s[i..j] == s[..|s| - 1][i..j];
      forall k | 0 <= k < |s| && !(i <= k < j) ensures drop(s[k]) {
        if k < |s| - 1 { assert s[..|s| - 1][k] == s[k]; }
      }
    } else {
      i, j := 0, |s|;
    }
  }

  /** Only one piece of the text is clean with nothing but unwanted characters around it. */
  lemma CoreIsUnique(drop: char -> bool, s: string, a: int, b: int, i: int, j: int)
    requires DropsAround(drop, s, a, b) && Clean(drop, s[a..b])
    requires DropsAround(drop, s, i, j) && Clean(drop, s[i..j])
    ensures s[a..b] == s[i..j]
  {
    if a < b {
      assert !drop(s[a]) && !drop(s[b - 1]) by { assert s[a..b][0] == s[a] && s[a..b][b - a - 1] == s[b - 1]; }
    }
    if i < j {
      assert !drop(s[i]) && !drop(s[j - 1]) by { assert s[i..j][0] == s[i] && s[i..j][j - i - 1] == s[j - 1]; }
    }
  }

  lemma StripIff(drop: char -> bool, s: string, core: string)
    ensures core == Strip(drop, s) <==> StrippedTo(drop, s, core)
  {
    var a, b := StripKeepsCore(drop, s);
    if StrippedTo(drop, s, core) {
      var i, j :| DropsAround(drop, s, i, j) && core == s[i..j];
      CoreIsUnique(drop, s, a, b, i, j);
    }
  }
}
