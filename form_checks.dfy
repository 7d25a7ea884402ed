/** The field checks the signup and login pages share: the e-mail pattern
    `\S+@\S+\.\S+`, unanchored, as `test` applies it, and the password length rule. */
module FormChecks {
  import opened Wrappers
  import opened JsValues

  /** The match that puts the `@` at `at` and the escaped dot at `dot`: a
      non-space character before the `@`, only non-space characters (at least
      one) between the `@` and the dot, and a non-space character after it. */
  predicate EmailAt(s: string, at: int, dot: int) {
    && 0 < at && at + 1 < dot && dot + 1 < |s|
    && s[at] == '@' && s[dot] == '.'
    && !IsSpace(s[at - 1]) && !IsSpace(s[dot + 1])
    && forall i :: at < i < dot ==> !IsSpace(s[i])
  }

  /** `/\S+@\S+\.\S+/.test(s)`: some substring matches. */
  predicate MatchesEmail(s: string)
    ensures MatchesEmail(s) ==> '@' in s && '.' in s && |s| >= 5
  {
    exists at, dot | 0 <= at < |s| && 0 <= dot < |s| :: EmailAt(s, at, dot)
  }

  /** A match needs at least five characters, so the empty string never matches. */
  lemma ShortNeverMatches(s: string)
    requires |s| < 5
    ensures !MatchesEmail(s)
  {
  }

  /** A string with no `@` never matches. */
  lemma NoAtNeverMatches(s: string)
    requires '@' !in s
    ensures !MatchesEmail(s)
  {
  }

  /** `local@domain.tld` matches when its three parts are non-empty and free of white space. */
  lemma AddressMatches(local: string, domain: string, tld: string)
    requires local != [] && domain != [] && tld != []
    requires forall i :: 0 <= i < |local| ==> !IsSpace(local[i])
    requires forall i :: 0 <= i < |domain| ==> !IsSpace(domain[i])
    requires !IsSpace(tld[0])
    ensures MatchesEmail(local + "@" + domain + "." + tld)
  {
    var s := local + "@" + domain + "." + tld;
    var at, dot := |local|, |local| + 1 + |domain|;
    assert s[at - 1] == local[|local| - 1];
    assert s[dot + 1] == tld[0];
    forall i | at < i < dot ensures !IsSpace(s[i]) {
      assert s[i] == domain[i - at - 1];
    }
    assert EmailAt(s, at, dot);
  }

  /** The expression is not anchored: text around a match does not undo it. */
  lemma MatchSurvivesContext(before: string, s: string, after: string)
    requires MatchesEmail(s)
    ensures MatchesEmail(before + s + after)
  {
    var at, dot :| 0 <= at < |s| && 0 <= dot < |s| && EmailAt(s, at, dot);
    var t := before + s + after;
    var k := |before|;
    assert t[k + at] == s[at] && t[k + dot] == s[dot];
    assert t[k + at - 1] == s[at - 1] && t[k + dot + 1] == s[dot + 1];
    forall i | k + at < i < k + dot ensures !IsSpace(t[i]) {
      assert t[i] == s[i - k];
    }
    assert EmailAt(t, k + at, k + dot);
  }

  /** A space next to the `@` breaks the match there: `a @b.c` has no match. */
  lemma SpacedAddressFails()
    ensures !MatchesEmail("a @b.c")
  {
  }

  /** The e-mail field: required, then the pattern. `None` means no error. */
  function EmailError(email: string): (r: Option<string>)
    ensures r.None? <==> MatchesEmail(email)
    ensures r == Some("Email is required") <==> email == ""
    ensures r.Some? && email != "" ==> r.value == "Please enter a valid email address"
  {
    if email == "" then
      ShortNeverMatches(email);
      Some("Email is required")
    else if !MatchesEmail(email) then Some("Please enter a valid email address")
    else None
  }

  /** The password field: required, then at least eight characters. */
  function PasswordError(password: string): (r: Option<string>)
    ensures r.None? <==> |password| >= 8
    ensures r == Some("Password is required") <==> password == ""
    ensures r.Some? && password != "" ==> r.value == "Password must be at least 8 characters"
  {
    if password == "" then Some("Password is required")
    else if |password| < 8 then Some("Password must be at least 8 characters")
    else None
  }

  /** A well-formed address with a long enough password passes both checks. */
  lemma WellFormedPasses(local: string, domain: string, tld: string, password: string)
    requires local != [] && domain != [] && tld != []
    requires forall i :: 0 <= i < |local| ==> !IsSpace(local[i])
    requires forall i :: 0 <= i < |domain| ==> !IsSpace(domain[i])
    requires !IsSpace(tld[0])
    requires |password| >= 8
    ensures EmailError(local + "@" + domain + "." + tld).None?
    ensures PasswordError(password).None?
  {
    AddressMatches(local, domain, tld);
  }
}
