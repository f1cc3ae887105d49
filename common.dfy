/** Values and string helpers shared by the route handlers and the client pages. */
module Common {

  datatype Option<+T> = None | Some(value: T)

  datatype Result<+T, +E> = Ok(value: T) | Err(error: E)

  /** One member of a JSON request body: absent, present with the expected
      JSON type, or present with any other type (including null). */
  datatype Field<+T> = Missing | Given(value: T) | Malformed

  /** `xs.filter(keep)` */
  function Filter<T(==)>(s: seq<T>, keep: T -> bool): (r: seq<T>)
    ensures |r| <= |s|
    ensures forall i :: 0 <= i < |r| ==> r[i] in s && keep(r[i])
    ensures forall i :: 0 <= i < |s| && keep(s[i]) ==> s[i] in r
    ensures multiset(r) <= multiset(s)
  {
    if s == [] then []
    else
      assert s == [s[0]] + s[1..];
      if keep(s[0]) then [s[0]] + Filter(s[1..], keep)
      else Filter(s[1..], keep)
  }

  /** Filtering keeps every element exactly as often as it occurs, when it passes. */
  lemma {:induction false} FilterCount<T>(s: seq<T>, keep: T -> bool, x: T)
    ensures multiset(Filter(s, keep))[x] == if keep(x) then multiset(s)[x] else 0
  {
    if s != [] {
      FilterCount(s[1..], keep, x);
      assert s == [s[0]] + s[1..];
      assert multiset(s) == multiset([s[0]]) + multiset(s[1..]);
      if keep(s[0]) {
        assert Filter(s, keep) == [s[0]] + Filter(s[1..], keep);
        assert multiset(Filter(s, keep)) == multiset([s[0]]) + multiset(Filter(s[1..], keep));
      } else {
        assert Filter(s, keep) == Filter(s[1..], keep);
      }
    }
  }

  /** Filtering with a predicate that holds everywhere changes nothing. */
  lemma {:induction false} FilterAll<T>(s: seq<T>, keep: T -> bool)
    requires forall x :: x in s ==> keep(x)
    ensures Filter(s, keep) == s
  {
    if s != [] {
      FilterAll(s[1..], keep);
    }
  }

  /** Filters whose predicates agree on the elements give the same result. */
  lemma {:induction false} FilterCongruent<T>(s: seq<T>, keep1: T -> bool, keep2: T -> bool)
    requires forall i :: 0 <= i < |s| ==> keep1(s[i]) == keep2(s[i])
    ensures Filter(s, keep1) == Filter(s, keep2)
  {
    if s != [] {
      FilterCongruent(s[1..], keep1, keep2);
    }
  }

  /** r is s with some elements left out, the rest in their order. */
  predicate Subsequence<T(==)>(r: seq<T>, s: seq<T>) {
    if r == [] then true
    else if s == [] then false
    else if r[0] == s[0] then Subsequence(r[1..], s[1..])
    else Subsequence(r, s[1..])
  }

  /** Filtering keeps the order of what it keeps. */
  lemma {:induction false} FilterIsSubsequence<T>(s: seq<T>, keep: T -> bool)
    ensures Subsequence(Filter(s, keep), s)
  {
    if s != [] {
      FilterIsSubsequence(s[1..], keep);
    }
  }

  /** Filtering a concatenation filters each part. */
  lemma {:induction false} FilterAppend<T>(a: seq<T>, b: seq<T>, keep: T -> bool)
    ensures Filter(a + b, keep) == Filter(a, keep) + Filter(b, keep)
  {
    if a == [] {
      assert a + b == b;
    } else {
      assert (a + b)[0] == a[0] && (a + b)[1..] == a[1..] + b;
      FilterAppend(a[1..], b, keep);
    }
  }

  /** Filtering a sequence that starts with x. */
  lemma FilterCons<T>(x: T, t: seq<T>, keep: T -> bool)
    ensures Filter([x] + t, keep) == if keep(x) then [x] + Filter(t, keep) else Filter(t, keep)
  {
    assert ([x] + t)[1..] == t;
  }

  /** Filtering with nothing to keep gives the empty sequence. */
  lemma {:induction false} FilterNone<T>(s: seq<T>, keep: T -> bool)
    requires forall i :: 0 <= i < |s| ==> !keep(s[i])
    ensures Filter(s, keep) == []
  {
    if s != [] {
      FilterNone(s[1..], keep);
    }
  }

  /** Filtering a prefix gives a prefix of the filtered whole. */
  lemma FilterOfPrefix<T>(s: seq<T>, n: nat, keep: T -> bool)
    requires n <= |s|
    ensures var whole := Filter(s, keep); var part := Filter(s[..n], keep);
      |part| <= |whole| && whole[..|part|] == part
  {
    assert s == s[..n] + s[n..];
    FilterAppend(s[..n], s[n..], keep);
  }

  /** Filtering by a stricter predicate after a looser one is filtering by the stricter one. */
  lemma {:induction false} FilterNested<T>(s: seq<T>, strict: T -> bool, loose: T -> bool)
    requires forall i :: 0 <= i < |s| && strict(s[i]) ==> loose(s[i])
    ensures Filter(Filter(s, loose), strict) == Filter(s, strict)
  {
    if s != [] {
      FilterNested(s[1..], strict, loose);
      if loose(s[0]) {
        assert Filter(s, loose) == [s[0]] + Filter(s[1..], loose);
        assert ([s[0]] + Filter(s[1..], loose))[1..] == Filter(s[1..], loose);
      }
    }
  }

  /** Elements whose keys are pairwise distinct keep them distinct after filtering. */
  predicate KeysUnique<T, K(==)>(s: seq<T>, key: T -> K) {
    forall i, j :: 0 <= i < j < |s| ==> key(s[i]) != key(s[j])
  }

  lemma {:induction false} FilterKeepsKeysUnique<T, K>(s: seq<T>, keep: T -> bool, key: T -> K)
    requires KeysUnique(s, key)
    ensures KeysUnique(Filter(s, keep), key)
  {
    if s != [] {
      FilterKeepsKeysUnique(s[1..], keep, key);
      var rest := Filter(s[1..], keep);
      assert forall i :: 0 <= i < |rest| ==> key(rest[i]) != key(s[0]) by {
        forall i | 0 <= i < |rest|
          ensures key(rest[i]) != key(s[0])
        {
          var j :| 0 <= j < |s[1..]| && s[1..][j] == rest[i];
          assert s[j + 1] == rest[i];
        }
      }
    }
  }

  /** `s.includes(x)` on arrays, as a count. */
  function Count<T(==)>(s: seq<T>, x: T): (n: nat)
    ensures n <= |s|
    ensures n == 0 <==> x !in s
  {
    if s == [] then 0 else (if s[0] == x then 1 else 0) + Count(s[1..], x)
  }

  predicate NoDuplicates<T(==)>(s: seq<T>) {
    forall i, j :: 0 <= i < j < |s| ==> s[i] != s[j]
  }

  /** `parts.join(sep)` */
  function Join(parts: seq<string>, sep: string): (r: string)
  {
    if parts == [] then ""
    else if |parts| == 1 then parts[0]
    else parts[0] + sep + Join(parts[1..], sep)
  }

  /** Occurrences of a character in a string. */
  function Occurrences(s: string, c: char): nat {
    Count(s, c)
  }

  lemma {:induction false} OccurrencesAppend(a: string, b: string, c: char)
    ensures Occurrences(a + b, c) == Occurrences(a, c) + Occurrences(b, c)
  {
    if a != [] {
      assert (a + b)[0] == a[0] && (a + b)[1..] == a[1..] + b;
      OccurrencesAppend(a[1..], b, c);
    } else {
      assert a + b == b;
    }
  }

  /** Joining parts that do not contain c with the one-character separator c
      yields exactly |parts| - 1 occurrences of c. */
  lemma {:induction false} JoinSeparatorCount(parts: seq<string>, c: char)
    requires parts != []
    requires forall i :: 0 <= i < |parts| ==> c !in parts[i]
    ensures Occurrences(Join(parts, [c]), c) == |parts| - 1
  {
    if |parts| > 1 {
      JoinSeparatorCount(parts[1..], c);
      OccurrencesAppend(parts[0] + [c], Join(parts[1..], [c]), c);
      OccurrencesAppend(parts[0], [c], c);
    }
  }

  /** A join starts with its first part. */
  lemma JoinStartsWithFirst(parts: seq<string>, sep: string)
    requires parts != []
    ensures IsPrefix(parts[0], Join(parts, sep))
  {
    if |parts| > 1 {
      var rest := sep + Join(parts[1..], sep);
      assert Join(parts, sep) == parts[0] + rest;
      assert (parts[0] + rest)[..|parts[0]|] == parts[0];
    }
  }

  /** Joining never introduces a character absent from the parts and the separator. */
  lemma {:induction false} JoinAvoids(parts: seq<string>, sep: string, c: char)
    requires c !in sep
    requires forall i :: 0 <= i < |parts| ==> c !in parts[i]
    ensures c !in Join(parts, sep)
  {
    if |parts| > 1 {
      JoinAvoids(parts[1..], sep, c);
    }
  }

  /** String length as JavaScript counts it: UTF-16 code units. */
  function Utf16Length(s: string): (n: nat)
    ensures |s| <= n <= 2 * |s|
  {
    if s == [] then 0 else (if s[0] as int > 0xFFFF then 2 else 1) + Utf16Length(s[1..])
  }

  /** The characters matched by `\s` in a JavaScript regular expression and
      removed by `String.prototype.trim`. */
  predicate IsJsSpace(c: char) {
    c == '\t' || c == '\n' || c == '\U{000B}' || c == '\U{000C}' || c == '\r' || c == ' '
    || c == '\U{00A0}' || c == '\U{1680}' || ('\U{2000}' <= c <= '\U{200A}')
    || c == '\U{2028}' || c == '\U{2029}' || c == '\U{202F}' || c == '\U{205F}'
    || c == '\U{3000}' || c == '\U{FEFF}'
  }

  /** s without its longest prefix of characters satisfying p. */
  function DropWhile(s: string, p: char -> bool): (r: string)
    ensures |r| <= |s| && r == s[|s| - |r|..]
    ensures forall i :: 0 <= i < |s| - |r| ==> p(s[i])
    ensures r != [] ==> !p(r[0])
  {
    if s != [] && p(s[0]) then DropWhile(s[1..], p) else s
  }

  predicate IsAsciiDigit(c: char) { '0' <= c <= '9' }

  predicate IsAsciiLower(c: char) { 'a' <= c <= 'z' }

  predicate IsAsciiUpper(c: char) { 'A' <= c <= 'Z' }

  /** `toLowerCase` of one character. Covers ASCII, the Latin-1 capitals and
      the two non-ASCII capitals whose lower case contains an ASCII letter
      (U+0130 becomes "i" followed by U+0307, the Kelvin sign becomes "k");
      every other character is kept as it is. */
  function LowerChar(c: char): (r: string)
    ensures |r| >= 1
    ensures IsAsciiUpper(c) ==> r == [(c as int + 32) as char] && IsAsciiLower(r[0])
    ensures IsAsciiLower(c) || IsAsciiDigit(c) || IsJsSpace(c) || c == '-' ==> r == [c]
    ensures forall i :: 0 <= i < |r| ==> !IsAsciiUpper(r[i])
  {
    if IsAsciiUpper(c) then [(c as int + 32) as char]
    else if '\U{00C0}' <= c <= '\U{00DE}' && c != '\U{00D7}' then [(c as int + 32) as char]
    else if c == '\U{0130}' then ['i', '\U{0307}']
    else if c == '\U{212A}' then ['k']
    else [c]
  }

  /** `s.toLowerCase()` */
  function Lower(s: string): (r: string)
    ensures |r| >= |s|
    ensures forall i :: 0 <= i < |r| ==> !IsAsciiUpper(r[i])
  {
    if s == [] then []
    else
      var head, tail := LowerChar(s[0]), Lower(s[1..]);
      assert forall i :: |head| <= i < |head| + |tail| ==> (head + tail)[i] == tail[i - |head|];
      head + tail
  }

  /** Lower-casing leaves a string of lower-case letters, digits, spaces and hyphens alone. */
  lemma {:induction false} LowerFixes(s: string)
    requires forall i :: 0 <= i < |s| ==> IsAsciiLower(s[i]) || IsAsciiDigit(s[i]) || IsJsSpace(s[i]) || s[i] == '-'
    ensures Lower(s) == s
  {
    if s != [] {
      LowerFixes(s[1..]);
    }
  }

  predicate IsPrefix(p: string, s: string) {
    |p| <= |s| && s[..|p|] == p
  }

  /** `s.includes(sub)` on strings. */
  predicate Includes(s: string, sub: string) {
    exists i :: 0 <= i <= |s| - |sub| && IsPrefix(sub, s[i..])
  }

  lemma IncludesEmpty(s: string)
    ensures Includes(s, "")
  {
    assert IsPrefix("", s[0..]);
  }

  /** A truthy JavaScript string: present and non-empty. */
  predicate Truthy(s: Option<string>) {
    s.Some? && s.value != ""
  }

  /** `x || null` for an optional string; also how the session checks read
      the `admin_token` cookie, whose token is used only when non-empty. */
  function NullIfFalsy(s: Option<string>): (r: Option<string>)
    ensures r.Some? <==> Truthy(s)
    ensures r.Some? ==> r == s
  {
    if Truthy(s) then s else None
  }

  function Min(a: int, b: int): int { if a <= b then a else b }

  function Max(a: int, b: int): int { if a >= b then a else b }
}
