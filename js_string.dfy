/** The few pieces of ECMAScript string behaviour the client relies on:
    `String.prototype.trim`, `parseInt(s, 10)`, `String(n)` for a natural
    number, and the `||` operator applied to an optional string. */
module JsString {
  import opened Optional

  /** ECMAScript WhiteSpace and LineTerminator code points (sections 12.2
      and 12.3 of ECMA-262): the characters `trim` removes and `parseInt`
      skips. */
  predicate IsSpace(c: char) {
    || c == '\t' || c == '\U{B}' || c == '\U{C}' || c == ' ' || c == '\U{A0}' || c == '\U{FEFF}'
    || c == '\U{1680}' || ('\U{2000}' <= c <= '\U{200A}') || c == '\U{202F}' || c == '\U{205F}'
    || c == '\U{3000}'
    || c == '\n' || c == '\r' || c == '\U{2028}' || c == '\U{2029}'
  }

  predicate IsBlank(s: string) {
    forall i :: 0 <= i < |s| ==> IsSpace(s[i])
  }

  predicate IsDigit(c: char) {
    '0' <= c <= '9'
  }

  predicate AllDigits(s: string) {
    forall i :: 0 <= i < |s| ==> IsDigit(s[i])
  }

  /** The string with its leading white space removed. */
  function TrimStart(s: string): (r: string)
    ensures |r| <= |s| && r == s[|s| - |r|..]
    ensures IsBlank(s[..|s| - |r|])
    ensures r == [] || !IsSpace(r[0])
  {
    if s != [] && IsSpace(s[0]) then
      var r := TrimStart(s[1..]);
      assert s[..|s| - |r|] == [s[0]] + s[1..][..|s| - 1 - |r|];
      r
    else
      s
  }

  /** The string with its trailing white space removed. */
  function TrimEnd(s: string): (r: string)
    ensures |r| <= |s| && r == s[..|r|]
    ensures IsBlank(s[|r|..])
    ensures r == [] || !IsSpace(r[|r| - 1])
  {
    if s != [] && IsSpace(s[|s| - 1]) then
      var r := TrimEnd(s[..|s| - 1]);
      assert s[|r|..] == s[..|s| - 1][|r|..] + [s[|s| - 1]];
      r
    else
      s
  }

  /** `String.prototype.trim`. */
  function Trim(s: string): string {
    TrimEnd(TrimStart(s))
  }

  /** Trimming leaves nothing exactly when the string is all white space. */
  lemma TrimEmptyIffBlank(s: string)
    ensures Trim(s) == "" <==> IsBlank(s)
  {
    if Trim(s) == "" {
      EmptyTrimIsBlank(s);
    }
    if IsBlank(s) {
      BlankTrimsEmpty(s);
    }
  }

  lemma EmptyTrimIsBlank(s: string)
    requires Trim(s) == ""
    ensures IsBlank(s)
  {
    var t := TrimStart(s);
    var i := |s| - |t|;
    assert t[0..] == t;
    BlankConcat(s[..i], t);
    assert s == s[..i] + t;
  }

  lemma BlankTrimsEmpty(s: string)
    requires IsBlank(s)
    ensures Trim(s) == ""
  {
    BlankSuffix(s, |s| - |TrimStart(s)|);
  }

  lemma BlankSuffix(s: string, i: nat)
    requires IsBlank(s) && i <= |s|
    ensures IsBlank(s[i..])
  {
    assert forall k :: 0 <= k < |s| - i ==> s[i..][k] == s[i + k];
  }

  lemma BlankConcat(a: string, b: string)
    requires IsBlank(a) && IsBlank(b)
    ensures IsBlank(a + b)
  {
    assert forall k :: 0 <= k < |a + b| ==> (a + b)[k] == if k < |a| then a[k] else b[k - |a|];
  }

  /** The result of `trim` neither starts nor ends with white space. */
  lemma TrimEnds(s: string)
    ensures Trim(s) != "" ==> !IsSpace(Trim(s)[0]) && !IsSpace(Trim(s)[|Trim(s)| - 1])
  {
    var t := TrimStart(s);
    var r := TrimEnd(t);
    if r != "" {
      assert r[0] == t[0];
    }
  }

  /** The result of `trim` is a contiguous piece of the input with only
      white space before and after it. */
  lemma TrimFramed(s: string)
    ensures exists i :: 0 <= i <= |s| - |Trim(s)| && s[i..i + |Trim(s)|] == Trim(s)
                        && IsBlank(s[..i]) && IsBlank(s[i + |Trim(s)|..])
  {
    var r := Trim(s);
    var i := |s| - |TrimStart(s)|;
    TrimFramedAt(s, TrimStart(s), r);
    assert 0 <= i <= |s| - |r| && s[i..i + |r|] == r && IsBlank(s[..i]) && IsBlank(s[i + |r|..]);
  }

  lemma TrimFramedAt(s: string, t: string, r: string)
    requires |t| <= |s| && t == s[|s| - |t|..]
    requires |r| <= |t| && r == t[..|r|] && IsBlank(t[|r|..])
    ensures s[|s| - |t|..|s| - |t| + |r|] == r
    ensures IsBlank(s[|s| - |t| + |r|..])
  {
    var i := |s| - |t|;
    assert s[i..i + |r|] == t[..|r|];
    assert s[i + |r|..] == t[|r|..];
  }

  /** Trimming twice is trimming once. */
  lemma TrimIdempotent(s: string)
    ensures Trim(Trim(s)) == Trim(s)
  {
    var r := Trim(s);
    TrimEnds(s);
    if r != [] {
      assert TrimStart(r) == r;
      assert TrimEnd(r) == r;
    }
  }

  /** JavaScript `v || fallback` for a value that is a string, `undefined`
      or `null`: the empty string is falsy like the missing value. */
  function Or(v: Option<string>, fallback: string): (r: string)
    ensures v.Some? && v.value != "" ==> r == v.value
    ensures !(v.Some? && v.value != "") ==> r == fallback
    ensures fallback != "" ==> r != ""
  {
    if v.Some? && v.value != "" then v.value else fallback
  }

  function DigitChar(d: nat): (c: char)
    requires d < 10
    ensures IsDigit(c)
  {
    (48 + d) as char
  }

  function DigitValue(c: char): (d: nat)
    requires IsDigit(c)
    ensures d < 10 && DigitChar(d) == c
  {
    (c as int - 48) as nat
  }

  /** `String(n)` for a natural number: its decimal digits. */
  function ShowNat(n: nat): (r: string)
    ensures r != [] && AllDigits(r)
    ensures |r| > 1 ==> r[0] != '0'
    decreases n
  {
    if n < 10 then [DigitChar(n)] else ShowNat(n / 10) + [DigitChar(n % 10)]
  }

  /** The number a run of decimal digits denotes. */
  function DigitsValue(ds: string): nat
    requires AllDigits(ds)
  {
    if ds == [] then 0 else DigitsValue(ds[..|ds| - 1]) * 10 + DigitValue(ds[|ds| - 1])
  }

  /** The longest prefix made of decimal digits. */
  function LeadingDigits(s: string): (r: string)
    ensures AllDigits(r) && |r| <= |s| && r == s[..|r|]
    ensures |r| == |s| || !IsDigit(s[|r|])
  {
    if s != [] && IsDigit(s[0]) then [s[0]] + LeadingDigits(s[1..]) else []
  }

  /** `parseInt(s, 10)`: skip leading white space, take an optional sign,
      then the longest run of decimal digits; `None` stands for `NaN`,
      returned when there is no digit. */
  function ParseInt(s: string): Option<int> {
    var t := TrimStart(s);
    var negative := t != [] && t[0] == '-';
    var unsigned := if t != [] && (t[0] == '-' || t[0] == '+') then t[1..] else t;
    var ds := LeadingDigits(unsigned);
    if ds == [] then None
    else
      var magnitude: int := DigitsValue(ds);
      Some(if negative then -magnitude else magnitude)
  }

  lemma {:induction false} ShowNatValue(n: nat)
    ensures DigitsValue(ShowNat(n)) == n
    decreases n
  {
    if n >= 10 {
      ShowNatValue(n / 10);
      var s := ShowNat(n);
      assert s[..|s| - 1] == ShowNat(n / 10);
    }
  }

  lemma {:induction false} LeadingDigitsOf(ds: string, rest: string)
    requires AllDigits(ds)
    requires rest == [] || !IsDigit(rest[0])
    ensures LeadingDigits(ds + rest) == ds
  {
    if ds != [] {
      assert (ds + rest)[1..] == ds[1..] + rest;
      LeadingDigitsOf(ds[1..], rest);
    } else if rest != [] {
      assert (ds + rest)[0] == rest[0];
    }
  }

  lemma {:induction false} TrimStartSkipsBlank(ws: string, t: string)
    requires IsBlank(ws)
    requires t == [] || !IsSpace(t[0])
    ensures TrimStart(ws + t) == t
  {
    if ws != [] {
      assert (ws + t)[1..] == ws[1..] + t;
      TrimStartSkipsBlank(ws[1..], t);
    } else if t != [] {
      assert (ws + t)[0] == t[0];
    }
  }

  /** `parseInt` reads back the number `String(n)` wrote, whatever white
      space precedes it and whatever non-digit text follows it: this is how
      a year range such as "2001–2006" yields its first year. */
  lemma ParseIntShowNat(ws: string, n: nat, rest: string)
    requires IsBlank(ws)
    requires rest == [] || !IsDigit(rest[0])
    ensures ParseInt(ws + ShowNat(n) + rest) == Some(n)
  {
    var ds := ShowNat(n);
    var t := ds + rest;
    assert ws + ds + rest == ws + t;
    assert t[0] == ds[0] && IsDigit(ds[0]);
    TrimStartSkipsBlank(ws, t);
    assert TrimStart(ws + t) == t;
    LeadingDigitsOf(ds, rest);
    ShowNatValue(n);
    assert !(t[0] == '-' || t[0] == '+');
  }

  /** The leading integer of a year range such as "2001–2006" is its
      first year. */
  lemma ParseIntYearRange(first: nat, last: nat)
    ensures ParseInt(ShowNat(first) + "–" + ShowNat(last)) == Some(first)
  {
    var digits := ShowNat(first);
    var rest := "–" + ShowNat(last);
    assert rest[0] == '–';
    assert digits + "–" + ShowNat(last) == digits + rest;
    assert "" + digits + rest == digits + rest;
    ParseIntShowNat("", first, rest);
  }

  /** `parseInt` yields `NaN` exactly when no digit follows the leading
      white space and the optional sign, as for the sentinel "N/A". */
  lemma ParseIntNaN(s: string)
    ensures ParseInt(s) == None <==>
      var t := TrimStart(s);
      (t == [] || !IsDigit(t[0])) &&
      (|t| < 2 || !(t[0] == '-' || t[0] == '+') || !IsDigit(t[1]))
  {
    var t := TrimStart(s);
    var unsigned := if t != [] && (t[0] == '-' || t[0] == '+') then t[1..] else t;
    assert LeadingDigits(unsigned) == [] <==> unsigned == [] || !IsDigit(unsigned[0]);
  }
}
