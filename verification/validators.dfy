/** Credential format rules: the email pattern `\S+@\S+\.\S+` the pages use,
    the server's password policy, and the pages' password pattern
    `(?=.*[a-z])(?=.*[A-Z])(?=.*\d)`. */
module Validators {
  import opened Text

  /** `@` at `p` and `.` at `q`, with a non-space character before the `@`,
      only non-space characters (at least one) between them, and a non-space
      character after the `.`: one match of `\S+@\S+\.\S+`. */
  predicate EmailMatchAt(s: string, p: int, q: int)
    requires 1 <= p && p + 2 <= q && q + 2 <= |s|
  {
    && s[p] == '@' && s[q] == '.'
    && !IsSpace(s[p - 1]) && !IsSpace(s[q + 1])
    && forall k | p < k < q :: !IsSpace(s[k])
  }

  /** `/\S+@\S+\.\S+/.test(s)`: the unanchored pattern matches somewhere in `s`. */
  predicate IsValidEmail(s: string) {
    exists p, q | 1 <= p && p + 2 <= q && q + 2 <= |s| :: EmailMatchAt(s, p, q)
  }

  /** A matching email has a non-space character, so it never trims to nothing. */
  lemma ValidEmailNotBlank(s: string)
    requires IsValidEmail(s)
    ensures !IsBlank(s)
  {
    var p, q :| 1 <= p && p + 2 <= q && q + 2 <= |s| && EmailMatchAt(s, p, q);
    assert !IsSpace(s[p]);
  }

  predicate HasLower(s: string) { exists i | 0 <= i < |s| :: IsAsciiLower(s[i]) }
  predicate HasUpper(s: string) { exists i | 0 <= i < |s| :: IsAsciiUpper(s[i]) }
  predicate HasDigit(s: string) { exists i | 0 <= i < |s| :: IsDigit(s[i]) }

  const PasswordPolicyMessage := "Password must be at least 8 characters with uppercase, lowercase, and number"

  /** The server's password policy: at least 8 characters with a lower-case
      letter, an upper-case letter and a digit. */
  predicate IsStrongPassword(s: string) {
    |s| >= 8 && HasLower(s) && HasUpper(s) && HasDigit(s)
  }

  /** The longest prefix of `s` that contains no line terminator: what `.*`
      can reach from the start of `s`. */
  function RestOfLine(s: string): (r: string)
    ensures r <= s
    ensures forall i | 0 <= i < |r| :: !IsLineTerminator(r[i])
    ensures |r| < |s| ==> IsLineTerminator(s[|r|])
  {
    if |s| == 0 || IsLineTerminator(s[0]) then [] else [s[0]] + RestOfLine(s[1..])
  }

  /** `/(?=.*[a-z])(?=.*[A-Z])(?=.*\d)/.test(s)`: from some position, the rest
      of that line holds a lower-case letter, an upper-case letter and a digit. */
  predicate HasAllClassesOnOneLine(s: string) {
    exists i | 0 <= i <= |s| :: ClassesAhead(RestOfLine(s[i..]))
  }

  predicate ClassesAhead(line: string) {
    HasLower(line) && HasUpper(line) && HasDigit(line)
  }

  /** Whatever the pages' password pattern accepts has all three classes. */
  lemma OneLineClassesHaveAll(s: string)
    requires HasAllClassesOnOneLine(s)
    ensures HasLower(s) && HasUpper(s) && HasDigit(s)
  {
    var i :| 0 <= i <= |s| && ClassesAhead(RestOfLine(s[i..]));
    var line := RestOfLine(s[i..]);
    var a :| 0 <= a < |line| && IsAsciiLower(line[a]);
    var b :| 0 <= b < |line| && IsAsciiUpper(line[b]);
    var c :| 0 <= c < |line| && IsDigit(line[c]);
    var tail := s[i..];
    assert line <= tail;
    assert line[a] == tail[a] && line[b] == tail[b] && line[c] == tail[c];
    assert tail[a] == s[i + a] && tail[b] == s[i + b] && tail[c] == s[i + c];
  }

  /** For a single-line password the pages' pattern is exactly the class test. */
  lemma {:induction false} OneLineClassesOnSingleLine(s: string)
    requires forall i | 0 <= i < |s| :: !IsLineTerminator(s[i])
    ensures HasAllClassesOnOneLine(s) <==> HasLower(s) && HasUpper(s) && HasDigit(s)
  {
    RestOfLineWhole(s);
    assert s[0..] == s;
    if HasAllClassesOnOneLine(s) {
      OneLineClassesHaveAll(s);
    }
  }

  lemma {:induction false} RestOfLineWhole(s: string)
    requires forall i | 0 <= i < |s| :: !IsLineTerminator(s[i])
    ensures RestOfLine(s) == s
    decreases |s|
  {
    if |s| > 0 {
      RestOfLineWhole(s[1..]);
    }
  }

  /** Concrete cases of the password policy. */
  lemma PasswordPolicyExamples()
    ensures IsStrongPassword("Test@123")
    ensures !IsStrongPassword("weak")
    ensures !IsStrongPassword("alllowercase1")
    ensures !IsStrongPassword("ALLUPPER1")
    ensures !IsStrongPassword("NoDigitsHere")
  {
    assert IsAsciiUpper("Test@123"[0]) && IsAsciiLower("Test@123"[1]) && IsDigit("Test@123"[5]);
    var a := "alllowercase1";
    assert forall i | 0 <= i < |a| :: !IsAsciiUpper(a[i]);
    var b := "ALLUPPER1";
    assert forall i | 0 <= i < |b| :: !IsAsciiLower(b[i]);
    var c := "NoDigitsHere";
    assert forall i | 0 <= i < |c| :: !IsDigit(c[i]);
  }

  /** Concrete cases of the email pattern. */
  lemma EmailPatternExamples()
    ensures IsValidEmail("test@example.com")
    ensures !IsValidEmail("invalid-email")
  {
    assert EmailMatchAt("test@example.com", 4, 12);
    var s := "invalid-email";
    assert forall p | 0 <= p < |s| :: s[p] != '@';
  }
}
