/** The schema checks the route handlers run on request bodies: each failed
    check becomes one issue, and a body is accepted only when no issue is
    reported. Format checks for e-mail addresses and URLs belong to the
    validation library and are kept abstract. */
module Validation {
  import opened Common

  datatype Problem =
    | Required
    | WrongType
    | TooShort(min: nat)
    | TooLong(max: nat)
    | TooSmall(least: int)
    | TooBig(most: int)
    | PatternMismatch
    | NotEmail
    | NotUrl

  datatype Issue = Issue(path: string, problem: Problem)

  /** The library's e-mail and URL recognisers. */
  datatype Formats = Formats(isEmail: string -> bool, isUrl: string -> bool)

  /** For schemas whose rules use neither recogniser. */
  const NoFormats := Formats((s: string) => true, (s: string) => true)

  /** One check on a string member, in the order the schema lists them. */
  datatype TextRule =
    | MinLength(n: nat)    // `.min(n)`, counted in UTF-16 code units
    | MaxLength(n: nat)    // `.max(n)`
    | SlugPattern          // `.regex(/^[a-z0-9-]+$/)`
    | FiveDigits           // `.regex(/^\d{5}$/)`
    | Email                // `.email()`
    | Url                  // `.url()`

  predicate IsSlugChar(c: char) {
    IsAsciiLower(c) || IsAsciiDigit(c) || c == '-'
  }

  /** `/^[a-z0-9-]+$/.test(s)` */
  predicate MatchesSlugPattern(s: string) {
    |s| >= 1 && forall i :: 0 <= i < |s| ==> IsSlugChar(s[i])
  }

  /** `/^\d{5}$/.test(s)` */
  predicate MatchesFiveDigits(s: string) {
    |s| == 5 && forall i :: 0 <= i < |s| ==> IsAsciiDigit(s[i])
  }

  predicate Passes(rule: TextRule, s: string, fmt: Formats) {
    match rule
    case MinLength(n) => Utf16Length(s) >= n
    case MaxLength(n) => Utf16Length(s) <= n
    case SlugPattern => MatchesSlugPattern(s)
    case FiveDigits => MatchesFiveDigits(s)
    case Email => fmt.isEmail(s)
    case Url => fmt.isUrl(s)
  }

  function ProblemOf(rule: TextRule): Problem {
    match rule
    case MinLength(n) => TooShort(n)
    case MaxLength(n) => TooLong(n)
    case SlugPattern => PatternMismatch
    case FiveDigits => PatternMismatch
    case Email => NotEmail
    case Url => NotUrl
  }

  /** Every check runs, so one string can fail several of them. */
  function RuleIssues(path: string, s: string, rules: seq<TextRule>, fmt: Formats): (r: seq<Issue>)
    ensures r == [] <==> forall i :: 0 <= i < |rules| ==> Passes(rules[i], s, fmt)
    ensures |r| <= |rules|
    ensures forall i :: 0 <= i < |r| ==> r[i].path == path
  {
    if rules == [] then []
    else
      (if Passes(rules[0], s, fmt) then [] else [Issue(path, ProblemOf(rules[0]))])
      + RuleIssues(path, s, rules[1..], fmt)
  }

  /** A string member; `required` is false for `.optional()` members. */
  function TextIssues(path: string, f: Field<string>, required: bool, rules: seq<TextRule>, fmt: Formats): (r: seq<Issue>)
    ensures r == [] <==>
      (f.Missing? && !required) || (f.Given? && forall i :: 0 <= i < |rules| ==> Passes(rules[i], f.value, fmt))
    ensures forall i :: 0 <= i < |r| ==> r[i].path == path
  {
    match f
    case Missing => if required then [Issue(path, Required)] else []
    case Malformed => [Issue(path, WrongType)]
    case Given(s) => RuleIssues(path, s, rules, fmt)
  }

  /** A number member with `.min(lo).max(hi)`; `required` is false for
      members with a `.default(...)`. */
  function NumberIssues(path: string, f: Field<int>, required: bool, lo: int, hi: int): (r: seq<Issue>)
    ensures r == [] <==> (f.Missing? && !required) || (f.Given? && lo <= f.value <= hi)
    ensures forall i :: 0 <= i < |r| ==> r[i].path == path
  {
    match f
    case Missing => if required then [Issue(path, Required)] else []
    case Malformed => [Issue(path, WrongType)]
    case Given(n) =>
      (if n < lo then [Issue(path, TooSmall(lo))] else [])
      + (if n > hi then [Issue(path, TooBig(hi))] else [])
  }

  /** A boolean member with a `.default(...)`. */
  function FlagIssues(path: string, f: Field<bool>): (r: seq<Issue>)
    ensures r == [] <==> !f.Malformed?
    ensures forall i :: 0 <= i < |r| ==> r[i].path == path
  {
    if f.Malformed? then [Issue(path, WrongType)] else []
  }

  /** `.default(d)`: the member's value, or d when it is absent. */
  function WithDefault<T>(f: Field<T>, d: T): (r: T)
    requires !f.Malformed?
    ensures f.Missing? ==> r == d
    ensures f.Given? ==> r == f.value
  {
    if f.Given? then f.value else d
  }

  /** `.optional()`: the member's value, if present. */
  function Optional<T>(f: Field<T>): (r: Option<T>)
    requires !f.Malformed?
    ensures r.Some? <==> f.Given?
    ensures r.Some? ==> r.value == f.value
  {
    if f.Given? then Some(f.value) else None
  }
}
