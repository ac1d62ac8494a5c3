/** The channel-specific contact checks (`isEmail`, js/app.js:47-50, and
    `isTelegramUsername`, js/app.js:52-56), written as character-level predicates,
    each paired with a reference definition that follows its regular expression. */
module Validators {
  import opened Text

  /** `[^\s@]`: any character except white space and `@`. */
  predicate IsEmailChar(c: char) {
    !IsSpace(c) && c != '@'
  }

  predicate AllEmailChars(s: string) {
    forall i :: 0 <= i < |s| ==> IsEmailChar(s[i])
  }

  /** The index of the first `c` in `s`. */
  function IndexOf(s: string, c: char): (k: nat)
    requires c in s
    ensures k < |s| && s[k] == c && c !in s[..k]
  {
    if s[0] == c then 0
    else
      assert c in s[1..] by { assert s == [s[0]] + s[1..]; }
      var k := 1 + IndexOf(s[1..], c);
      assert s[..k] == [s[0]] + s[1..][..k - 1];
      k
  }

  /** `d` contains a `.` that is neither its first nor its last character. */
  predicate HasInnerDot(d: string) {
    exists k :: 0 < k < |d| - 1 && d[k] == '.'
  }

  /** `isEmail`, character by character: no white space, exactly one `@`, something
      before it, and after it a `.` that is neither first nor last. */
  predicate IsEmail(v: string) {
    && NoSpace(v)
    && multiset(v)['@'] == 1
    && var at := IndexOf(v, '@');
       at > 0 && HasInnerDot(v[at + 1..])
  }

  /** The regular expression `^[^\s@]+@[^\s@]+\.[^\s@]+$` read as a shape: a
      local part, `@`, a domain label, a literal `.`, and a last part, the three
      parts non-empty and free of white space and `@`. */
  ghost predicate MatchesEmailPattern(v: string) {
    exists at, dot ::
      && 0 < at && at + 1 < dot && dot + 1 < |v|
      && v[at] == '@' && v[dot] == '.'
      && AllEmailChars(v[..at]) && AllEmailChars(v[at + 1..dot]) && AllEmailChars(v[dot + 1..])
  }

  /** If `c` occurs once in `v`, at `k`, it occurs nowhere else. */
  lemma SingleOccurrence(v: string, c: char, k: nat)
    requires k < |v| && v[k] == c && multiset(v)[c] == 1
    ensures c !in v[..k] && c !in v[k + 1..]
  {
    assert v == v[..k] + [v[k]] + v[k + 1..];
    assert multiset(v) == multiset(v[..k]) + multiset([v[k]]) + multiset(v[k + 1..]);
  }

  lemma EmailImpliesPattern(v: string)
    requires IsEmail(v)
    ensures MatchesEmailPattern(v)
  {
    var at := IndexOf(v, '@');
    var d := v[at + 1..];
    var k :| 0 < k < |d| - 1 && d[k] == '.';
    var dot := at + 1 + k;
    assert v[dot] == '.';
    SingleOccurrence(v, '@', at);
    assert AllEmailChars(v[..at]);
    assert v[at + 1..dot] == d[..k];
    assert v[dot + 1..] == d[k + 1..];
    assert AllEmailChars(v[at + 1..dot]);
    assert AllEmailChars(v[dot + 1..]);
  }

  /** The three parts of the pattern carry no white space, and neither do `@` and `.`. */
  lemma PatternNoSpace(v: string, at: nat, dot: nat)
    requires at < dot < |v| && v[at] == '@' && v[dot] == '.'
    requires AllEmailChars(v[..at]) && AllEmailChars(v[at + 1..dot]) && AllEmailChars(v[dot + 1..])
    ensures NoSpace(v)
  {
    forall i | 0 <= i < |v|
      ensures !IsSpace(v[i])
    {
      if i < at {
        assert v[i] == v[..at][i];
      } else if at < i < dot {
        assert v[i] == v[at + 1..dot][i - at - 1];
      } else if dot < i {
        assert v[i] == v[dot + 1..][i - dot - 1];
      }
    }
  }

  /** The `@` of the pattern is the only one. */
  lemma PatternSingleAt(v: string, at: nat, dot: nat)
    requires at < dot < |v| && v[at] == '@' && v[dot] == '.'
    requires AllEmailChars(v[..at]) && AllEmailChars(v[at + 1..dot]) && AllEmailChars(v[dot + 1..])
    ensures forall i :: 0 <= i < |v| && i != at ==> v[i] != '@'
  {
    forall i | 0 <= i < |v| && i != at
      ensures v[i] != '@'
    {
      if i < at {
        assert v[i] == v[..at][i];
      } else if at < i < dot {
        assert v[i] == v[at + 1..dot][i - at - 1];
      } else if dot < i {
        assert v[i] == v[dot + 1..][i - dot - 1];
      }
    }
  }

  /** A character found at `k` and nowhere else occurs once, first at `k`. */
  lemma OnlyAt(v: string, c: char, k: nat)
    requires k < |v| && v[k] == c
    requires forall i :: 0 <= i < |v| && i != k ==> v[i] != c
    ensures multiset(v)[c] == 1 && IndexOf(v, c) == k
  {
    assert c !in v[..k];
    assert c !in v[k + 1..];
    assert v == v[..k] + [v[k]] + v[k + 1..];
    assert multiset(v) == multiset(v[..k]) + multiset([v[k]]) + multiset(v[k + 1..]);
  }

  lemma PatternImpliesEmail(v: string)
    requires MatchesEmailPattern(v)
    ensures IsEmail(v)
  {
    var at, dot :|
      && 0 < at && at + 1 < dot && dot + 1 < |v|
      && v[at] == '@' && v[dot] == '.'
      && AllEmailChars(v[..at]) && AllEmailChars(v[at + 1..dot]) && AllEmailChars(v[dot + 1..]);
    PatternNoSpace(v, at, dot);
    PatternSingleAt(v, at, dot);
    OnlyAt(v, '@', at);
    assert v[at + 1..][dot - at - 1] == '.';
  }

  /** `isEmail` accepts exactly the strings its regular expression matches. */
  lemma EmailMatchesPattern(v: string)
    ensures IsEmail(v) <==> MatchesEmailPattern(v)
  {
    if IsEmail(v) {
      EmailImpliesPattern(v);
    }
    if MatchesEmailPattern(v) {
      PatternImpliesEmail(v);
    }
  }

  /** `[a-zA-Z0-9_]`. */
  predicate IsWordChar(c: char) {
    ('a' <= c <= 'z') || ('A' <= c <= 'Z') || ('0' <= c <= '9') || c == '_'
  }

  /** `^[a-zA-Z0-9_]{5,32}$`. */
  predicate IsHandleBody(s: string) {
    5 <= |s| <= 32 && forall i :: 0 <= i < |s| ==> IsWordChar(s[i])
  }

  /** `value.startsWith("@") ? value.slice(1) : value`. */
  function StripAt(v: string): (r: string)
    ensures |v| > 0 && v[0] == '@' ==> v == "@" + r
    ensures !(|v| > 0 && v[0] == '@') ==> r == v
  {
    if |v| > 0 && v[0] == '@' then v[1..] else v
  }

  /** `isTelegramUsername`: one optional leading `@`, then 5 to 32 word characters. */
  predicate IsTelegramUsername(v: string) {
    IsHandleBody(StripAt(v))
  }

  /** Accepted handles are exactly a valid body, bare or behind a single `@`. */
  lemma TelegramShape(v: string)
    ensures IsTelegramUsername(v) <==>
              IsHandleBody(v) || (|v| > 0 && v[0] == '@' && IsHandleBody(v[1..]))
  {
    if |v| > 0 && v[0] == '@' {
      assert !IsWordChar(v[0]);
    }
  }

  /** The accepted contacts never carry white space, so trimming does not change them. */
  lemma TelegramUsernameTrimmed(v: string)
    requires IsTelegramUsername(v)
    ensures NoSpace(v) && IsTrimmed(v)
  {
    var b := StripAt(v);
    assert forall i :: 0 <= i < |b| ==> !IsSpace(b[i]) by {
      forall i | 0 <= i < |b| ensures !IsSpace(b[i]) {
        assert IsWordChar(b[i]);
      }
    }
    if |v| > 0 && v[0] == '@' {
      forall i | 0 <= i < |v| ensures !IsSpace(v[i]) {
        if i > 0 { assert v[i] == b[i - 1]; }
      }
    }
  }

  lemma EmailTrimmed(v: string)
    requires IsEmail(v)
    ensures IsTrimmed(v)
  {
  }

  /** Usernames on either side of the rule the hint at js/app.js:113 states:
      `@abcde`, `abcde` and `@joe_99` pass; `ab` (too short), `abcde!` (bad
      character) and `@@abcde` (second `@`) do not. */
  lemma TelegramExamplesAccepted()
    ensures IsTelegramUsername("@abcde") && IsTelegramUsername("abcde")
    ensures IsTelegramUsername("@joe_99")
  {
  }

  lemma TelegramExamplesRejected()
    ensures !IsTelegramUsername("ab") && !IsTelegramUsername("abcde!")
    ensures !IsTelegramUsername("@@abcde")
  {
    assert !IsWordChar('!');
    assert "abcde!"[5] == '!';
    assert StripAt("@@abcde")[0] == '@';
  }

  lemma EmailExampleShape(v: string)
    requires v == "name@example.com"
    ensures MatchesEmailPattern(v)
  {
    assert v[4] == '@' && v[12] == '.';
    assert v[..4] == "name";
    LowerCaseWord(v[..4]);
    assert v[5..12] == "example";
    LowerCaseWord(v[5..12]);
    assert v[13..] == "com";
    LowerCaseWord(v[13..]);
  }

  lemma LowerCaseWord(p: string)
    requires forall i :: 0 <= i < |p| ==> 'a' <= p[i] <= 'z'
    ensures AllEmailChars(p)
  {
  }

  /** `name@example.com`, the address of the placeholder (js/app.js:85) and of
      the hint (js/app.js:120), passes. */
  lemma EmailExampleAccepted(v: string)
    requires v == "name@example.com"
    ensures IsEmail(v)
  {
    EmailExampleShape(v);
    PatternImpliesEmail(v);
  }

  /** `bad` and `not-an-email`, which have no `@`, are rejected. */
  lemma EmailExamplesRejected()
    ensures !IsEmail("bad") && !IsEmail("not-an-email")
  {
    NoAtNoEmail("bad");
    NoAtNoEmail("not-an-email");
  }

  /** `a@b`, a host without a dot, is rejected, although the browser's own
      email-input validation accepts it. */
  lemma DotlessHostRejected(v: string)
    requires v == "a@b"
    ensures IsTrimmed(v) && !IsEmail(v)
  {
    OnlyAt(v, '@', 1);
    assert v[2..] == "b";
  }

  lemma NoAtNoEmail(v: string)
    requires forall i :: 0 <= i < |v| ==> v[i] != '@'
    ensures !IsEmail(v)
  {
    assert '@' !in v;
  }
}
