/**
 * The field-format rules of the authentication controller
 * (server/controllers/authController.js): e-mail, Indian mobile number,
 * employee id and password strength, as the regular expressions define them,
 * and the fixed lists of highways and roles.
 */
module Validation {
  import opened Text

  /** `[^\s@]`: any character but white space and '@'. */
  predicate EmailChar(c: char) { !IsSpace(c) && c != '@' }

  predicate AllEmailChars(s: string) { forall k :: 0 <= k < |s| ==> EmailChar(s[k]) }

  /** `/^[^\s@]+@[^\s@]+\.[^\s@]+$/`: a non-empty local part, '@', then a domain with a '.'
      that has at least one character on each side, and no white space and no other '@' anywhere. */
  predicate IsValidEmail(s: string)
  {
    exists i, j :: 0 < i && i + 1 < j && j + 1 < |s| && s[i] == '@' && s[j] == '.'
                   && AllEmailChars(s[..i]) && AllEmailChars(s[i + 1..])
  }

  /** `/^[6-9]\d{9}$/`: ten ASCII digits, the first one 6, 7, 8 or 9. */
  predicate IsValidPhone(s: string)
  {
    |s| == 10 && '6' <= s[0] <= '9' && forall k :: 0 <= k < |s| ==> IsDigit(s[k])
  }

  /** The length of the longest prefix of `A`..`Z` letters. */
  function LeadingUpper(s: string): (n: nat)
    ensures n <= |s|
    ensures forall k :: 0 <= k < n ==> IsUpper(s[k])
    ensures n < |s| ==> !IsUpper(s[n])
  {
    if s != [] && IsUpper(s[0]) then 1 + LeadingUpper(s[1..]) else 0
  }

  /** `/^[A-Z]{2,5}\d{3,6}$/`, matched greedily: the run of capitals, then only digits. */
  predicate IsValidEmployeeId(s: string)
  {
    var n := LeadingUpper(s);
    2 <= n <= 5 && 3 <= |s| - n <= 6 && forall k :: n <= k < |s| ==> IsDigit(s[k])
  }

  /** The pattern read as "some split point": 2 to 5 capitals followed by 3 to 6 digits and nothing else. */
  ghost predicate EmployeeIdShape(s: string)
  {
    exists n :: 2 <= n <= 5 && 3 <= |s| - n <= 6 && AllUpper(s[..n]) && AllDigits(s[n..])
  }

  predicate AllUpper(s: string) { forall k :: 0 <= k < |s| ==> IsUpper(s[k]) }
  predicate AllDigits(s: string) { forall k :: 0 <= k < |s| ==> IsDigit(s[k]) }

  /** The greedy check accepts exactly the strings of the pattern. */
  lemma EmployeeIdPattern(s: string)
    ensures IsValidEmployeeId(s) <==> EmployeeIdShape(s)
  {
    if EmployeeIdShape(s) {
      var n :| 2 <= n <= 5 && 3 <= |s| - n <= 6 && AllUpper(s[..n]) && AllDigits(s[n..]);
      assert forall k :: 0 <= k < n ==> s[..n][k] == s[k];
      assert forall k :: n <= k < |s| ==> s[n..][k - n] == s[k];
      LeadingUpperAt(s, n);
    }
    if IsValidEmployeeId(s) {
      var n := LeadingUpper(s);
      assert AllUpper(s[..n]) && AllDigits(s[n..]);
    }
  }

  lemma {:induction false} LeadingUpperAt(s: string, n: nat)
    requires n < |s| && !IsUpper(s[n]) && forall k :: 0 <= k < n ==> IsUpper(s[k])
    ensures LeadingUpper(s) == n
  {
    if n > 0 {
      LeadingUpperAt(s[1..], n - 1);
    }
  }

  /** The characters `[A-Za-z\d@$!%*?&]` a strong password may use. */
  predicate PasswordChar(c: char)
  {
    IsLetter(c) || IsDigit(c) || IsSpecial(c)
  }

  /** The special characters `@$!%*?&`. */
  predicate IsSpecial(c: char)
  {
    c == '@' || c == '$' || c == '!' || c == '%' || c == '*' || c == '?' || c == '&'
  }

  /** `/^(?=.*[a-z])(?=.*[A-Z])(?=.*\d)(?=.*[@$!%*?&])[A-Za-z\d@$!%*?&]{8,}$/`. */
  predicate IsStrongPassword(p: string)
  {
    |p| >= 8
    && (forall k :: 0 <= k < |p| ==> PasswordChar(p[k]))
    && (exists k :: 0 <= k < |p| && IsLower(p[k]))
    && (exists k :: 0 <= k < |p| && IsUpper(p[k]))
    && (exists k :: 0 <= k < |p| && IsDigit(p[k]))
    && (exists k :: 0 <= k < |p| && IsSpecial(p[k]))
  }

  const ValidHighways: seq<string> := [
    "NH-1", "NH-2", "NH-4", "NH-5", "NH-6", "NH-7", "NH-8",
    "NH-10", "NH-19", "NH-24", "NH-27", "NH-44", "NH-48",
    "NH-52", "NH-58", "NH-66", "NH-71", "NH-76", "NH-92",
    "NH-104", "NH-148", "Other"
  ]

  lemma EmailCharsLowerCase(s: string)
    requires AllEmailChars(s)
    ensures AllEmailChars(ToLower(s))
  {
    forall k | 0 <= k < |s| ensures EmailChar(ToLower(s)[k]) {
      ToLowerKeepsMarks(s, k);
    }
  }

  /** Lower-casing a valid address keeps it valid: the '@', the '.' and the absence of white space survive. */
  lemma EmailLowerCase(s: string)
    requires IsValidEmail(s)
    ensures IsValidEmail(ToLower(s))
  {
    var i, j :| 0 < i && i + 1 < j && j + 1 < |s| && s[i] == '@' && s[j] == '.'
                && AllEmailChars(s[..i]) && AllEmailChars(s[i + 1..]);
    var t := ToLower(s);
    ToLowerKeepsMarks(s, i);
    ToLowerKeepsMarks(s, j);
    assert t[..i] == ToLower(s[..i]);
    assert t[i + 1..] == ToLower(s[i + 1..]);
    EmailCharsLowerCase(s[..i]);
    EmailCharsLowerCase(s[i + 1..]);
    assert t[i] == '@' && t[j] == '.';
  }
}
