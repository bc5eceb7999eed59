/**
  The java.lang.String and java.lang.Integer behaviour the core relies on:
  `trim`, `indexOf`, `split` with a literal separator, `replace` of one
  character, decimal printing and parsing of `int`, and fixed-width
  upper-case hexadecimal formatting (`%06X`).
 */
module Text {
  import opened Lang

  /** `String.trim` strips every character whose code is at most U+0020. */
  predicate IsTrimmable(c: char) {
    c <= ' '
  }

  function TrimStart(s: string): (r: string)
    ensures |r| <= |s|
    decreases |s|
  {
    if |s| > 0 && IsTrimmable(s[0]) then TrimStart(s[1..]) else s
  }

  function TrimEnd(s: string): (r: string)
    ensures |r| <= |s|
    decreases |s|
  {
    if |s| > 0 && IsTrimmable(s[|s| - 1]) then TrimEnd(s[..|s| - 1]) else s
  }

  /** `String.trim`. */
  function Trim(s: string): (r: string)
    ensures |r| <= |s|
  {
    TrimEnd(TrimStart(s))
  }

  lemma {:induction false} TrimStartStrips(s: string)
    ensures var r := TrimStart(s);
            && r == s[|s| - |r|..]
            && (r == [] || !IsTrimmable(r[0]))
            && forall i :: 0 <= i < |s| - |r| ==> IsTrimmable(s[i])
    decreases |s|
  {
    if |s| > 0 && IsTrimmable(s[0]) {
      TrimStartStrips(s[1..]);
    }
  }

  lemma {:induction false} TrimEndStrips(s: string)
    ensures var r := TrimEnd(s);
            && r == s[..|r|]
            && (r == [] || !IsTrimmable(r[|r| - 1]))
            && forall i :: |r| <= i < |s| ==> IsTrimmable(s[i])
    decreases |s|
  {
    if |s| > 0 && IsTrimmable(s[|s| - 1]) {
      TrimEndStrips(s[..|s| - 1]);
    }
  }

  /** What `trim` removes: only characters up to U+0020, and all of them at
      both ends; the result is a contiguous piece of the input. */
  lemma TrimStrips(s: string)
    ensures var r := Trim(s);
            && (r == [] || (!IsTrimmable(r[0]) && !IsTrimmable(r[|r| - 1])))
            && (r == [] ==> forall i :: 0 <= i < |s| ==> IsTrimmable(s[i]))
  {
    var t := TrimStart(s);
    TrimStartStrips(s);
    TrimEndStrips(t);
    var r := Trim(s);
    if r != [] {
      assert r[0] == t[0];
    }
  }

  /** A string with no character `trim` would strip at either end is its own trim. */
  lemma TrimOfTrimmed(s: string)
    requires s == [] || (!IsTrimmable(s[0]) && !IsTrimmable(s[|s| - 1]))
    ensures Trim(s) == s
  {
    if s != [] {
      assert TrimStart(s) == s;
      assert TrimEnd(s) == s;
      assert Trim(s) == TrimEnd(TrimStart(s));
    }
  }

  /** Trimming twice is trimming once. */
  lemma TrimIdempotent(s: string)
    ensures Trim(Trim(s)) == Trim(s)
  {
    TrimStrips(s);
    TrimOfTrimmed(Trim(s));
  }

  /** `String.indexOf(char)`: the first position of `c`, or -1. */
  function IndexOf(s: string, c: char): (r: int)
    ensures -1 <= r < |s|
    ensures r == -1 <==> c !in s
    ensures 0 <= r ==> s[r] == c && c !in s[..r]
    decreases |s|
  {
    if |s| == 0 then -1
    else if s[0] == c then 0
    else
      var k := IndexOf(s[1..], c);
      assert s[1..][..k + 1] == s[1..k + 2] by { if k >= 0 { } }
      if k < 0 then -1 else k + 1
  }

  /** No position of `s` holds `c`. */
  predicate Lacks(s: string, c: char) {
    forall k :: 0 <= k < |s| ==> s[k] != c
  }

  /** `String.replace(c, "")`: every occurrence of `c` removed. */
  function RemoveAll(s: string, c: char): (r: string)
    ensures Lacks(r, c) && |r| <= |s|
    decreases |s|
  {
    if |s| == 0 then []
    else (if s[0] == c then [] else [s[0]]) + RemoveAll(s[1..], c)
  }

  /** Removing `c` keeps every other character, and brings in none. */
  lemma {:induction false} RemoveAllKeeps(s: string, c: char)
    ensures forall d :: d != c ==> (d in RemoveAll(s, c) <==> d in s)
    decreases |s|
  {
    if |s| > 0 {
      RemoveAllKeeps(s[1..], c);
      assert s == [s[0]] + s[1..];
    }
  }

  lemma {:induction false} RemoveAllAbsent(s: string, c: char)
    requires Lacks(s, c)
    ensures RemoveAll(s, c) == s
    decreases |s|
  {
    if |s| > 0 {
      RemoveAllAbsent(s[1..], c);
      assert s == [s[0]] + s[1..];
    }
  }

  lemma {:induction false} RemoveAllAppend(a: string, b: string, c: char)
    ensures RemoveAll(a + b, c) == RemoveAll(a, c) + RemoveAll(b, c)
    decreases |a|
  {
    if |a| > 0 {
      RemoveAllAppend(a[1..], b, c);
      assert (a + b)[0] == a[0] && (a + b)[1..] == a[1..] + b;
    } else {
      assert a + b == b;
    }
  }

  predicate OccursAt(s: string, sep: string, k: int) {
    0 <= k && k + |sep| <= |s| && s[k..k + |sep|] == sep
  }

  /** The leftmost occurrence of `sep` at or after `from`, or -1. */
  function Find(s: string, sep: string, from: nat): (r: int)
    ensures r == -1 || (from <= r && OccursAt(s, sep, r))
    ensures forall k :: from <= k && (r == -1 || k < r) ==> !OccursAt(s, sep, k)
    decreases |s| - from
  {
    if from + |sep| > |s| then -1
    else if s[from..from + |sep|] == sep then from
    else Find(s, sep, from + 1)
  }

  /** The pieces between successive leftmost non-overlapping occurrences of `sep`,
      trailing empty pieces included. */
  function SplitPieces(s: string, sep: string): (r: seq<string>)
    requires |sep| > 0
    ensures |r| >= 1
    decreases |s|
  {
    var k := Find(s, sep, 0);
    if k < 0 then [s] else [s[..k]] + SplitPieces(s[k + |sep|..], sep)
  }

  function DropTrailingEmpty(ps: seq<string>): (r: seq<string>)
    ensures |r| <= |ps| && r == ps[..|r|]
    ensures r == [] || r[|r| - 1] != ""
    ensures forall i :: |r| <= i < |ps| ==> ps[i] == ""
    decreases |ps|
  {
    if |ps| > 0 && ps[|ps| - 1] == "" then DropTrailingEmpty(ps[..|ps| - 1]) else ps
  }

  /** `String.split` on a separator with no regular-expression meta-characters
      left unescaped: when there is no match the result is the string itself,
      otherwise the pieces with trailing empty strings removed. */
  function Split(s: string, sep: string): seq<string>
    requires |sep| > 0
  {
    var pieces := SplitPieces(s, sep);
    if |pieces| == 1 then pieces else DropTrailingEmpty(pieces)
  }

  function Join(ps: seq<string>, sep: string): string
    decreases |ps|
  {
    if |ps| == 0 then ""
    else if |ps| == 1 then ps[0]
    else ps[0] + sep + Join(ps[1..], sep)
  }

  /** `sep` does not occur in a string where no position that leaves room
      for it holds `sep[0]`. */
  lemma FindAbsent(s: string, sep: string)
    requires |sep| > 0
    requires forall k :: 0 <= k && k + |sep| <= |s| ==> s[k] != sep[0]
    ensures Find(s, sep, 0) == -1
  {
    forall k | 0 <= k
      ensures !OccursAt(s, sep, k)
    {
      if k + |sep| <= |s| {
        assert s[k..k + |sep|][0] == s[k];
      }
    }
  }

  /** A list whose last piece is not empty loses nothing to `split`'s removal
      of trailing empty strings. */
  lemma DropTrailingEmptyKeeps(ps: seq<string>)
    requires |ps| > 0 && ps[|ps| - 1] != ""
    ensures DropTrailingEmpty(ps) == ps
  {
  }

  lemma {:induction false} JoinSnoc(ps: seq<string>, p: string, sep: string)
    requires |ps| >= 1
    ensures Join(ps + [p], sep) == Join(ps, sep) + sep + p
    decreases |ps|
  {
    var qs := ps + [p];
    assert qs[1..] == ps[1..] + [p];
    if |ps| > 1 {
      JoinSnoc(ps[1..], p, sep);
    }
  }

  /** Text put before a join goes into its first piece. */
  lemma JoinPrefix(pre: string, ps: seq<string>, sep: string)
    requires |ps| >= 1
    ensures pre + Join(ps, sep) == Join(ps[0 := pre + ps[0]], sep)
  {
    var qs := ps[0 := pre + ps[0]];
    if |ps| > 1 {
      assert qs[1..] == ps[1..];
    }
  }

  /** Text put after a join goes into its last piece. */
  lemma {:induction false} JoinSuffix(ps: seq<string>, post: string, sep: string)
    requires |ps| >= 1
    ensures Join(ps, sep) + post == Join(ps[|ps| - 1 := ps[|ps| - 1] + post], sep)
    decreases |ps|
  {
    var qs := ps[|ps| - 1 := ps[|ps| - 1] + post];
    if |ps| > 1 {
      JoinSuffix(ps[1..], post, sep);
      assert qs[1..] == ps[1..][|ps| - 2 := ps[|ps| - 1] + post];
    }
  }

  /** An occurrence of `sep` cannot start inside a prefix that lacks `sep[0]`. */
  lemma FindAfterPrefix(p: string, sep: string, rest: string)
    requires |sep| > 0 && Lacks(p, sep[0])
    ensures Find(p + sep + rest, sep, 0) == |p|
  {
    var s := p + sep + rest;
    assert OccursAt(s, sep, |p|) by { assert s[|p|..|p| + |sep|] == sep; }
    forall k | 0 <= k < |p|
      ensures !OccursAt(s, sep, k)
    {
      assert s[k] == p[k] != sep[0];
    }
  }

  /** Splitting a join gives back the pieces, provided no separator can begin
      inside an inner piece and the last piece contains none. */
  lemma {:induction false} SplitPiecesJoin(ps: seq<string>, sep: string)
    requires |sep| > 0 && |ps| >= 1
    requires forall i :: 0 <= i < |ps| - 1 ==> Lacks(ps[i], sep[0])
    requires Find(ps[|ps| - 1], sep, 0) == -1
    ensures SplitPieces(Join(ps, sep), sep) == ps
    decreases |ps|
  {
    if |ps| > 1 {
      var tail := ps[1..];
      var rest := Join(tail, sep);
      var s := ps[0] + sep + rest;
      assert Join(ps, sep) == s;
      FindAfterPrefix(ps[0], sep, rest);
      assert s[..|ps[0]|] == ps[0];
      assert s[|ps[0]| + |sep|..] == rest;
      assert SplitPieces(s, sep) == [ps[0]] + SplitPieces(rest, sep);
      assert forall i :: 0 <= i < |tail| - 1 ==> tail[i] == ps[i + 1];
      SplitPiecesJoin(tail, sep);
      assert ps == [ps[0]] + tail;
    }
  }

  predicate IsDigit(c: char) {
    '0' <= c <= '9'
  }

  predicate AllDigits(s: string) {
    forall i :: 0 <= i < |s| ==> IsDigit(s[i])
  }

  function DigitValue(c: char): (d: nat)
    requires IsDigit(c)
    ensures d < 10
  {
    (c as int) - ('0' as int)
  }

  function DigitChar(d: nat): (c: char)
    requires d < 10
    ensures IsDigit(c) && DigitValue(c) == d
  {
    (('0' as int) + d) as char
  }

  /** The value of a run of decimal digits. */
  function DigitsValue(ds: string): nat
    requires AllDigits(ds)
    decreases |ds|
  {
    if |ds| == 0 then 0 else DigitsValue(ds[..|ds| - 1]) * 10 + DigitValue(ds[|ds| - 1])
  }

  /** The decimal digits of a natural number, without leading zeros. */
  function NatToDigits(n: nat): (r: string)
    ensures |r| >= 1 && AllDigits(r)
    decreases n
  {
    if n < 10 then [DigitChar(n)] else NatToDigits(n / 10) + [DigitChar(n % 10)]
  }

  lemma {:induction false} DigitsRoundTrip(n: nat)
    ensures DigitsValue(NatToDigits(n)) == n
    decreases n
  {
    if n >= 10 {
      DigitsRoundTrip(n / 10);
      var ds := NatToDigits(n);
      assert ds[..|ds| - 1] == NatToDigits(n / 10);
    }
  }

  /** `Integer.toString` (and `StringBuilder.append(int)`). */
  function IntToString(i: int): string {
    if i < 0 then "-" + NatToDigits(-i) else NatToDigits(i)
  }

  /** What may appear in a printed integer: a minus sign and digits only. */
  lemma IntToStringAlphabet(i: int)
    ensures |IntToString(i)| >= 1
    ensures forall k :: 0 <= k < |IntToString(i)| ==> IntToString(i)[k] == '-' || IsDigit(IntToString(i)[k])
  {
  }

  /** `Integer.parseInt` for decimal digits in ASCII: an optional sign, at least
      one digit, and a value inside the `int` range; `None` stands for the
      `NumberFormatException`. */
  function ParseInt(s: string): (r: Option<int>)
    ensures r.Some? ==> IntMin <= r.value <= IntMax
    ensures r.Some? ==> |s| >= 1
  {
    if |s| == 0 then None
    else
      var digits := if s[0] == '-' || s[0] == '+' then s[1..] else s;
      if |digits| == 0 || !AllDigits(digits) then None
      else
        var v: int := if s[0] == '-' then -(DigitsValue(digits) as int) else DigitsValue(digits);
        if IntMin <= v <= IntMax then Some(v) else None
  }

  /** Every `int` parses back from its printed form, negative ones included. */
  lemma ParseIntRoundTrip(i: Int32)
    ensures ParseInt(IntToString(i)) == Some(i)
  {
    var s := IntToString(i);
    if i < 0 {
      var ds := NatToDigits(-(i as int));
      DigitsRoundTrip(-(i as int));
      assert s == "-" + ds;
      assert s[0] == '-' && s[1..] == ds;
      assert -(DigitsValue(ds) as int) == i;
    } else {
      var ds := NatToDigits(i);
      DigitsRoundTrip(i);
      assert s == ds && IsDigit(s[0]);
      assert s[0] != '-' && s[0] != '+';
    }
  }

  /** The value `Integer.parseInt` gives a sign followed by digits, before
      the range check. */
  function SignedValue(sign: string, digits: string): int
    requires AllDigits(digits)
  {
    if sign == "-" then -(DigitsValue(digits) as int) else DigitsValue(digits)
  }

  /** Every optional sign followed by at least one ASCII digit is parsed:
      to its value when that is an `int`, and to a failure otherwise. */
  lemma ParseIntSignedDigits(sign: string, digits: string)
    requires sign == "" || sign == "-" || sign == "+"
    requires |digits| >= 1 && AllDigits(digits)
    ensures IntMin <= SignedValue(sign, digits) <= IntMax ==>
              ParseInt(sign + digits) == Some(SignedValue(sign, digits))
    ensures !(IntMin <= SignedValue(sign, digits) <= IntMax) ==> ParseInt(sign + digits) == None
  {
    var s := sign + digits;
    if sign == "" {
      assert s == digits;
      assert s[0] != '-' && s[0] != '+';
    } else {
      assert s[0] == sign[0] && s[1..] == digits;
    }
  }

  /** And nothing else is: an accepted text is an optional sign followed by
      at least one ASCII digit, and the result is its value. */
  lemma ParseIntAcceptsOnlySignedDigits(s: string)
    requires ParseInt(s).Some?
    ensures var sign := if s[0] == '-' || s[0] == '+' then s[..1] else "";
            && s == sign + s[|sign|..]
            && |s[|sign|..]| >= 1 && AllDigits(s[|sign|..])
            && ParseInt(s).value == SignedValue(sign, s[|sign|..])
  {
    if s[0] == '-' || s[0] == '+' {
      assert s == s[..1] + s[1..];
      assert s[..1] == "-" <==> s[0] == '-';
    } else {
      assert s == "" + s[0..];
    }
  }

  /** `Integer.parseInt` with its exception: a text that is not an `int`
      throws `NumberFormatException` naming that text. */
  function ParseInteger(s: string): (r: Result<Int32>)
    ensures r.Ok? <==> ParseInt(s).Some?
    ensures r.Ok? ==> r.value == ParseInt(s).value
    ensures r.Err? ==> r.error == NumberFormat(s)
  {
    match ParseInt(s)
    case Some(v) => Ok(v)
    case None => Err(NumberFormat(s))
  }

  predicate IsHexDigit(c: char) {
    IsDigit(c) || 'a' <= c <= 'f' || 'A' <= c <= 'F'
  }

  function HexValue(c: char): (d: nat)
    requires IsHexDigit(c)
    ensures d < 16
  {
    if IsDigit(c) then DigitValue(c)
    else if 'a' <= c <= 'f' then (c as int) - ('a' as int) + 10
    else (c as int) - ('A' as int) + 10
  }

  /** The upper-case hexadecimal digit of a value below 16 (`%X`). */
  function HexChar(d: nat): (c: char)
    requires d < 16
    ensures IsHexDigit(c) && HexValue(c) == d
  {
    if d < 10 then DigitChar(d) else (('A' as int) + d - 10) as char
  }

  predicate AllHexDigits(s: string) {
    forall i :: 0 <= i < |s| ==> IsHexDigit(s[i])
  }

  function HexDigitsValue(ds: string): nat
    requires AllHexDigits(ds)
    decreases |ds|
  {
    if |ds| == 0 then 0 else HexDigitsValue(ds[..|ds| - 1]) * 16 + HexValue(ds[|ds| - 1])
  }

  /** The same hexadecimal digits written in upper case. */
  function UpperHex(ds: string): (r: string)
    requires AllHexDigits(ds)
    ensures |r| == |ds|
  {
    seq(|ds|, i requires 0 <= i < |ds| => HexChar(HexValue(ds[i])))
  }

  /** The low `width` hexadecimal digits of `v`, upper case, zero padded. */
  function HexDigits(v: nat, width: nat): (r: string)
    ensures |r| == width && AllHexDigits(r)
    decreases width
  {
    if width == 0 then "" else HexDigits(v / 16, width - 1) + [HexChar(v % 16)]
  }

  /** Printing the value of a digit string in as many digits gives the string
      back, upper-cased. */
  lemma {:induction false} HexDigitsOfValue(ds: string)
    requires AllHexDigits(ds)
    ensures HexDigits(HexDigitsValue(ds), |ds|) == UpperHex(ds)
    decreases |ds|
  {
    if |ds| > 0 {
      var init := ds[..|ds| - 1];
      var v := HexDigitsValue(ds);
      HexDigitsOfValue(init);
      assert v / 16 == HexDigitsValue(init);
      assert v % 16 == HexValue(ds[|ds| - 1]);
      assert UpperHex(ds) == UpperHex(init) + [HexChar(HexValue(ds[|ds| - 1]))];
    }
  }

  lemma {:induction false} HexDigitsValueBound(ds: string)
    requires AllHexDigits(ds)
    ensures HexDigitsValue(ds) < Pow16(|ds|)
    decreases |ds|
  {
    if |ds| > 0 {
      HexDigitsValueBound(ds[..|ds| - 1]);
    }
  }

  /** Reading printed digits back gives the value modulo the width's power. */
  lemma {:induction false} HexDigitsValueOf(v: nat, width: nat)
    ensures HexDigitsValue(HexDigits(v, width)) == v % Pow16(width)
    decreases width
  {
    if width > 0 {
      var ds := HexDigits(v, width);
      HexDigitsValueOf(v / 16, width - 1);
      assert ds[..|ds| - 1] == HexDigits(v / 16, width - 1);
      assert HexDigitsValue(ds) == ((v / 16) % Pow16(width - 1)) * 16 + v % 16;
      ModOfShift(v, Pow16(width - 1));
    }
  }

  /** Dropping the low hex digit, reducing, and putting it back is reducing
      by sixteen times as much. */
  lemma ModOfShift(v: nat, p: nat)
    requires p > 0
    ensures ((v / 16) % p) * 16 + v % 16 == v % (16 * p)
  {
    var q := v / 16;
    var a, b := q / p, q % p;
    assert q == p * a + b;
    assert v == 16 * q + v % 16;
    assert v == (16 * p) * a + (b * 16 + v % 16) by {
      assert 16 * q == 16 * (p * a) + 16 * b;
      assert 16 * (p * a) == (16 * p) * a;
    }
    assert b * 16 + v % 16 < 16 * p by {
      assert b <= p - 1;
      assert b * 16 <= (p - 1) * 16;
    }
    ModOfDecomposition(v, 16 * p, a, b * 16 + v % 16);
  }

  lemma ModOfDecomposition(v: nat, m: nat, a: int, r: int)
    requires m > 0 && v == m * a + r && 0 <= r < m
    ensures v % m == r
  {
    var k, s := v / m, v % m;
    assert m * (a - k) == s - r;
    if a - k >= 1 {
      MulAtLeast(m, a - k);
    } else if a - k <= -1 {
      assert m * (k - a) == r - s;
      MulAtLeast(m, k - a);
    }
  }

  lemma MulAtLeast(m: nat, t: int)
    requires t >= 1
    ensures m * t >= m
    decreases t
  {
    if t > 1 {
      MulAtLeast(m, t - 1);
      assert m * t == m * (t - 1) + m;
    }
  }

  function Pow16(n: nat): (r: nat)
    ensures r >= 1
  {
    if n == 0 then 1 else 16 * Pow16(n - 1)
  }
}
