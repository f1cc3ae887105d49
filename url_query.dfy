/** Query strings as the route handlers read them (`URLSearchParams.get`)
    and as the admin page writes them, with JavaScript's `parseInt` and
    number-to-string conversion. */
module UrlQuery {
  import opened Common

  /** The name/value pairs of a query string, in order. */
  type Params = seq<(string, string)>

  /** `searchParams.get(name)`: the first value given for name, or null. */
  function Get(ps: Params, name: string): (r: Option<string>)
    ensures r.None? <==> forall i :: 0 <= i < |ps| ==> ps[i].0 != name
    ensures r.Some? ==> exists i :: 0 <= i < |ps| && ps[i] == (name, r.value)
                                  && forall j :: 0 <= j < i ==> ps[j].0 != name
  {
    if ps == [] then None
    else if ps[0].0 == name then Some(ps[0].1)
    else
      var r := Get(ps[1..], name);
      if r.Some? then
        var k :| 0 <= k < |ps[1..]| && ps[1..][k] == (name, r.value)
                 && forall j :: 0 <= j < k ==> ps[1..][j].0 != name;
        assert ps[k + 1] == (name, r.value);
        assert forall j :: 0 <= j < k + 1 ==> ps[j].0 != name by {
          forall j | 0 <= j < k + 1 ensures ps[j].0 != name {
            if j > 0 { assert ps[j] == ps[1..][j - 1]; }
          }
        }
        r
      else r
  }

  /** `searchParams.get(name) || fallback` */
  function GetOr(ps: Params, name: string, fallback: string): (r: string)
    ensures Truthy(Get(ps, name)) ==> r == Get(ps, name).value
    ensures !Truthy(Get(ps, name)) ==> r == fallback
  {
    var v := Get(ps, name);
    if Truthy(v) then v.value else fallback
  }

  function DigitValue(c: char): nat
    requires IsAsciiDigit(c)
  {
    c as int - '0' as int
  }

  predicate IsHexDigit(c: char) {
    IsAsciiDigit(c) || ('a' <= c <= 'f') || ('A' <= c <= 'F')
  }

  function HexDigitValue(c: char): nat
    requires IsHexDigit(c)
  {
    if IsAsciiDigit(c) then DigitValue(c)
    else if 'a' <= c <= 'f' then c as int - 'a' as int + 10
    else c as int - 'A' as int + 10
  }

  /** The longest prefix of s whose characters all satisfy `digit`. */
  function Run(s: string, digit: char -> bool): (r: string)
    ensures |r| <= |s| && r == s[..|r|]
    ensures forall i :: 0 <= i < |r| ==> digit(r[i])
    ensures |r| < |s| ==> !digit(s[|r|])
  {
    if s == [] || !digit(s[0]) then [] else [s[0]] + Run(s[1..], digit)
  }

  function DecimalValue(d: string): nat
    requires forall i :: 0 <= i < |d| ==> IsAsciiDigit(d[i])
  {
    if d == [] then 0 else 10 * DecimalValue(d[..|d| - 1]) + DigitValue(d[|d| - 1])
  }

  function HexValue(d: string): nat
    requires forall i :: 0 <= i < |d| ==> IsHexDigit(d[i])
  {
    if d == [] then 0 else 16 * HexValue(d[..|d| - 1]) + HexDigitValue(d[|d| - 1])
  }

  /** `parseInt(s)` with no radix; None stands for NaN. Leading white space
      and one sign are skipped, a "0x"/"0X" prefix selects base 16, and the
      longest run of digits that follows is read. */
  function ParseInt(s: string): (r: Option<int>)
    ensures (forall i :: 0 <= i < |s| ==> !IsAsciiDigit(s[i])) ==> r.None?
  {
    var t := DropWhile(s, IsJsSpace);
    var m := Magnitude(Unsigned(t));
    if m.None? then None
    else if t != [] && t[0] == '-' then Some(0 - m.value as int)
    else Some(m.value)
  }

  function Unsigned(t: string): string {
    if t != [] && (t[0] == '-' || t[0] == '+') then t[1..] else t
  }

  predicate HasHexPrefix(u: string) {
    |u| >= 2 && u[0] == '0' && (u[1] == 'x' || u[1] == 'X')
  }

  function Magnitude(u: string): Option<nat> {
    if HasHexPrefix(u) then
      var d := Run(u[2..], IsHexDigit);
      if d == [] then None else Some(HexValue(d))
    else
      var d := Run(u, IsAsciiDigit);
      if d == [] then None else Some(DecimalValue(d))
  }

  /** `n.toString()` for a natural number. */
  function Decimal(n: nat): (r: string)
    ensures r != [] && forall i :: 0 <= i < |r| ==> IsAsciiDigit(r[i])
    ensures |r| >= 2 ==> r[0] != '0'
  {
    var last := ['0' + (n % 10) as char];
    if n < 10 then last else Decimal(n / 10) + last
  }

  lemma {:induction false} DecimalValueOfDecimal(n: nat)
    ensures DecimalValue(Decimal(n)) == n
  {
    var d := Decimal(n);
    if n >= 10 {
      DecimalValueOfDecimal(n / 10);
      assert d[..|d| - 1] == Decimal(n / 10);
    }
  }

  /** The server reads back exactly the number the page wrote. */
  lemma ParseIntOfDecimal(n: nat)
    ensures ParseInt(Decimal(n)) == Some(n)
  {
    var d := Decimal(n);
    SkipSpacesOfDigits(d);
    assert Unsigned(d) == d;
    assert !HasHexPrefix(d);
    RunOfDigits(d);
    DecimalValueOfDecimal(n);
    assert Magnitude(d) == Some(n);
  }

  lemma SkipSpacesOfDigits(d: string)
    requires d != [] && IsAsciiDigit(d[0])
    ensures DropWhile(d, IsJsSpace) == d
  {}

  lemma RunOfDigits(d: string)
    requires forall i :: 0 <= i < |d| ==> IsAsciiDigit(d[i])
    ensures Run(d, IsAsciiDigit) == d
  {}
}
