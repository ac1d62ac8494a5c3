/** White space and trimming as JavaScript defines them: the characters a regular
    expression's `\s` matches are exactly those `String.prototype.trim` removes. */
module Text {

  /** ECMAScript WhiteSpace (tab, vertical tab, form feed, space, no-break space,
      byte-order mark and the Unicode space separators) plus LineTerminator
      (line feed, carriage return, line and paragraph separators). */
  predicate IsSpace(c: char) {
    var n := c as int;
    || n == 0x09 || n == 0x0A || n == 0x0B || n == 0x0C || n == 0x0D
    || n == 0x20 || n == 0xA0 || n == 0x1680 || (0x2000 <= n <= 0x200A)
    || n == 0x2028 || n == 0x2029 || n == 0x202F || n == 0x205F
    || n == 0x3000 || n == 0xFEFF
  }

  predicate AllSpace(s: string) {
    forall i :: 0 <= i < |s| ==> IsSpace(s[i])
  }

  predicate NoSpace(s: string) {
    forall i :: 0 <= i < |s| ==> !IsSpace(s[i])
  }

  /** Neither the first nor the last character is white space. */
  predicate IsTrimmed(s: string) {
    |s| == 0 || (!IsSpace(s[0]) && !IsSpace(s[|s| - 1]))
  }

  /** The index of the first character at or after `i` that is not white space
      (or `|s|` if there is none). */
  function SkipSpace(s: string, i: nat): (k: nat)
    requires i <= |s|
    ensures i <= k <= |s|
    ensures forall j :: i <= j < k ==> IsSpace(s[j])
    ensures k < |s| ==> !IsSpace(s[k])
    decreases |s| - i
  {
    if i < |s| && IsSpace(s[i]) then SkipSpace(s, i + 1) else i
  }

  /** Moving back from `j`, but not below `lo`: the index just after the last
      character that is not white space (or `lo` if there is none). */
  function SkipSpaceBack(s: string, lo: nat, j: nat): (k: nat)
    requires lo <= j <= |s|
    ensures lo <= k <= j
    ensures forall m :: k <= m < j ==> IsSpace(s[m])
    ensures k > lo ==> !IsSpace(s[k - 1])
    decreases j
  {
    if j > lo && IsSpace(s[j - 1]) then SkipSpaceBack(s, lo, j - 1) else j
  }

  /** `String.prototype.trim`: the result is a contiguous piece of the input, with
      only white space around it, that neither starts nor ends with white space. */
  function Trim(s: string): (r: string)
    ensures IsTrimmed(r)
    ensures exists lo :: CutAt(s, lo, r)
  {
    var lo := SkipSpace(s, 0);
    var hi := SkipSpaceBack(s, lo, |s|);
    assert lo < |s| ==> lo < hi;
    assert CutAt(s, lo, s[lo..hi]);
    s[lo..hi]
  }

  /** `r` sits in `s` at index `lo`, with only white space before and after it. */
  predicate CutAt(s: string, lo: nat, r: string) {
    && lo + |r| <= |s| && s[lo..lo + |r|] == r
    && (forall j :: 0 <= j < lo ==> IsSpace(s[j]))
    && (forall j :: lo + |r| <= j < |s| ==> IsSpace(s[j]))
  }

  /** `Trim` is characterised uniquely: a trimmed core surrounded by white space
      is exactly what `Trim` returns. */
  lemma TrimUnique(a: string, m: string, b: string)
    requires AllSpace(a) && AllSpace(b) && IsTrimmed(m)
    ensures Trim(a + m + b) == m
  {
    var s := a + m + b;
    assert forall j :: 0 <= j < |a| ==> IsSpace(s[j]) by {
      forall j | 0 <= j < |a| ensures IsSpace(s[j]) { assert s[j] == a[j]; }
    }
    assert forall j :: |a| + |m| <= j < |s| ==> IsSpace(s[j]) by {
      forall j | |a| + |m| <= j < |s| ensures IsSpace(s[j]) { assert s[j] == b[j - |a| - |m|]; }
    }
    if |m| == 0 {
      TrimAllSpace(s);
    } else {
      assert s[|a|] == m[0];
      assert s[|a| + |m| - 1] == m[|m| - 1];
      assert s[|a|..|a| + |m|] == m;
      TrimAround(s, |a|, |a| + |m|);
    }
  }

  /** Text that is all white space trims to nothing. */
  lemma TrimAllSpace(s: string)
    requires forall j :: 0 <= j < |s| ==> IsSpace(s[j])
    ensures Trim(s) == ""
  {
    assert SkipSpace(s, 0) == |s|;
  }

  /** Around a piece that starts and ends with non-space characters, with only
      white space outside it, `Trim` cuts exactly that piece. */
  lemma TrimAround(s: string, lo: nat, hi: nat)
    requires lo < hi <= |s|
    requires !IsSpace(s[lo]) && !IsSpace(s[hi - 1])
    requires forall j :: 0 <= j < lo ==> IsSpace(s[j])
    requires forall j :: hi <= j < |s| ==> IsSpace(s[j])
    ensures Trim(s) == s[lo..hi]
  {
    assert SkipSpace(s, 0) == lo;
    assert SkipSpaceBack(s, lo, |s|) == hi;
  }

  /** Trimming twice is trimming once. */
  lemma TrimIdempotent(s: string)
    ensures Trim(Trim(s)) == Trim(s)
  {
    TrimKeepsTrimmed(Trim(s));
  }

  /** A string that is already trimmed is left alone. */
  lemma TrimKeepsTrimmed(s: string)
    requires IsTrimmed(s)
    ensures Trim(s) == s
  {
    assert "" + s + "" == s;
    TrimUnique("", s, "");
  }
}
