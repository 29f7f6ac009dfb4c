/** The string operations the script relies on: str.split with an explicit
    separator, the f-string join of the grouping key, and int() on a field. */
module Text {
  import opened Base

  predicate IsDigit(c: char) { '0' <= c <= '9' }

  predicate AllDigits(s: string) { forall i :: 0 <= i < |s| ==> IsDigit(s[i]) }

  /** The ASCII characters int() skips around a number. */
  predicate IsSpace(c: char) {
    c == ' ' || c == '\t' || c == '\n' || c == '\r' || c == '\U{0B}' || c == '\U{0C}'
  }

  // ---------------------------------------------------------------- split / join

  /** `s.split(sep)` for a one-character separator: every occurrence of sep
      cuts, empty pieces are kept, and the result is never empty. */
  function Split(s: string, sep: char): (parts: seq<string>)
    ensures |parts| >= 1
    decreases |s|
  {
    if |s| == 0 then [""]
    else
      var rest := Split(s[1..], sep);
      if s[0] == sep then [""] + rest
      else [[s[0]] + rest[0]] + rest[1..]
  }

  /** No piece of a split holds the separator. */
  lemma {:induction false} SplitPiecesFree(s: string, sep: char)
    ensures forall i :: 0 <= i < |Split(s, sep)| ==> sep !in Split(s, sep)[i]
    decreases |s|
  {
    if |s| > 0 {
      SplitPiecesFree(s[1..], sep);
    }
  }

  /** `sep.join(parts)`. */
  function Join(parts: seq<string>, sep: char): string
    decreases |parts|
  {
    if |parts| == 0 then ""
    else if |parts| == 1 then parts[0]
    else parts[0] + [sep] + Join(parts[1..], sep)
  }

  /** Joining the pieces of a split gives back the original string. */
  lemma {:induction false} JoinSplit(s: string, sep: char)
    ensures Join(Split(s, sep), sep) == s
    decreases |s|
  {
    if |s| > 0 {
      var rest := Split(s[1..], sep);
      JoinSplit(s[1..], sep);
      if s[0] == sep {
        assert Split(s, sep) == [""] + rest;
        assert ([""] + rest)[1..] == rest;
      } else {
        var parts := [[s[0]] + rest[0]] + rest[1..];
        assert Split(s, sep) == parts;
        if |rest| == 1 {
          assert Join(parts, sep) == [s[0]] + rest[0];
        } else {
          assert parts[1..] == rest[1..];
          assert Join(rest, sep) == rest[0] + [sep] + Join(rest[1..], sep);
        }
      }
    }
  }

  /** A piece without the separator splits to itself. */
  lemma {:induction false} SplitPiece(p: string, sep: char)
    requires sep !in p
    ensures Split(p, sep) == [p]
    decreases |p|
  {
    if |p| > 0 {
      assert sep !in p[1..] by { assert forall i :: 0 <= i < |p| - 1 ==> p[1..][i] == p[i + 1]; }
      SplitPiece(p[1..], sep);
      assert [p[0]] + p[1..] == p;
    }
  }

  /** Split cuts at the first separator when the leading piece has none. */
  lemma {:induction false} SplitCons(a: string, sep: char, b: string)
    requires sep !in a
    ensures Split(a + [sep] + b, sep) == [a] + Split(b, sep)
    decreases |a|
  {
    if |a| == 0 {
      assert a + [sep] + b == [sep] + b;
      assert ([sep] + b)[1..] == b;
    } else {
      var t := a + [sep] + b;
      assert t[1..] == a[1..] + [sep] + b;
      assert sep !in a[1..] by { assert forall i :: 0 <= i < |a| - 1 ==> a[1..][i] == a[i + 1]; }
      SplitCons(a[1..], sep, b);
      assert [a[0]] + a[1..] == a;
    }
  }

  /** Splitting a join of separator-free pieces gives the pieces back. */
  lemma {:induction false} SplitJoin(parts: seq<string>, sep: char)
    requires |parts| >= 1
    requires forall i :: 0 <= i < |parts| ==> sep !in parts[i]
    ensures Split(Join(parts, sep), sep) == parts
    decreases |parts|
  {
    if |parts| == 1 {
      SplitPiece(parts[0], sep);
    } else {
      SplitJoin(parts[1..], sep);
      SplitCons(parts[0], sep, Join(parts[1..], sep));
      assert [parts[0]] + parts[1..] == parts;
    }
  }

  // ---------------------------------------------------------------- int()

  /** Drops ASCII white space at the front. */
  function TrimLeft(s: string): (r: string)
    ensures |r| <= |s| && r == s[|s| - |r|..]
    ensures r == [] || !IsSpace(r[0])
    ensures forall i :: 0 <= i < |s| - |r| ==> IsSpace(s[i])
    decreases |s|
  {
    if |s| > 0 && IsSpace(s[0]) then TrimLeft(s[1..]) else s
  }

  /** Drops ASCII white space at the back. */
  function TrimRight(s: string): (r: string)
    ensures |r| <= |s| && r == s[..|r|]
    ensures r == [] || !IsSpace(r[|r| - 1])
    ensures forall i :: |r| <= i < |s| ==> IsSpace(s[i])
    decreases |s|
  {
    if |s| > 0 && IsSpace(s[|s| - 1]) then TrimRight(s[..|s| - 1]) else s
  }

  function Trim(s: string): string { TrimRight(TrimLeft(s)) }

  predicate AllSpace(s: string) { forall i :: 0 <= i < |s| ==> IsSpace(s[i]) }

  predicate AllZeros(s: string) { forall i :: 0 <= i < |s| ==> s[i] == '0' }

  function DigitValue(c: char): (d: nat)
    requires IsDigit(c)
    ensures d < 10
  {
    c as int - '0' as int
  }

  function DigitChar(d: nat): (c: char)
    requires d < 10
    ensures IsDigit(c) && DigitValue(c) == d
  {
    ('0' as int + d) as char
  }

  /** The value of a string of decimal digits, most significant first. */
  function DigitsToNat(s: string): nat
    requires AllDigits(s)
    decreases |s|
  {
    if |s| == 0 then 0
    else DigitsToNat(s[..|s| - 1]) * 10 + DigitValue(s[|s| - 1])
  }

  /** The shortest decimal spelling of n. */
  function NatToDigits(n: nat): (s: string)
    ensures |s| >= 1 && AllDigits(s)
    decreases n
  {
    if n < 10 then [DigitChar(n)] else NatToDigits(n / 10) + [DigitChar(n % 10)]
  }

  /** `str(n)` for an integer. */
  function IntToString(n: int): string {
    if n < 0 then "-" + NatToDigits(-n) else NatToDigits(n)
  }

  /** `int(s)`: optional white space, an optional sign, at least one digit,
      optional white space; anything else is a failure. */
  function ParseInt(s: string): (r: Option<int>)
    ensures r.Some? ==> exists i :: 0 <= i < |s| && IsDigit(s[i])
  {
    var t := Trim(s);
    if |t| > 0 && (t[0] == '-' || t[0] == '+') then
      var body := t[1..];
      if |body| > 0 && AllDigits(body) then
        assert IsDigit(t[1]) && t == TrimLeft(s)[..|t|];
        Some(if t[0] == '-' then 0 - DigitsToNat(body) as int else DigitsToNat(body))
      else None
    else if |t| > 0 && AllDigits(t) then
      assert IsDigit(t[0]) && t == TrimLeft(s)[..|t|];
      Some(DigitsToNat(t))
    else None
  }

  lemma {:induction false} DigitsRoundTrip(n: nat)
    ensures DigitsToNat(NatToDigits(n)) == n
    decreases n
  {
    if n >= 10 {
      DigitsRoundTrip(n / 10);
      var s := NatToDigits(n);
      assert s[..|s| - 1] == NatToDigits(n / 10);
    }
  }

  /** The parser reads back the decimal spelling of every integer. */
  lemma ParseIntShow(n: int)
    ensures ParseInt(IntToString(n)) == Some(n)
  {
    var s := IntToString(n);
    var m: nat := if n < 0 then -n else n;
    var digits := NatToDigits(m);
    DigitsRoundTrip(m);
    assert TrimLeft(s) == s;
    assert TrimRight(s) == s;
    if n < 0 {
      assert s[1..] == digits;
    }
  }

  /** Appending a digit to the spelling of a positive number spells ten
      times it plus that digit. */
  lemma NatToDigitsSnoc(m: nat, v: nat)
    requires m > 0 && v < 10
    ensures NatToDigits(m * 10 + v) == NatToDigits(m) + [DigitChar(v)]
  {
    assert (m * 10 + v) / 10 == m && (m * 10 + v) % 10 == v;
  }

  /** Zeros followed by the spelling of zero are all zeros. */
  lemma ZerosThenZero(z: string, d: string)
    requires AllZeros(z) && d == z + NatToDigits(0)
    ensures AllZeros(d)
  {
    assert NatToDigits(0) == "0";
  }

  /** A digit string is leading zeros followed by the shortest spelling of
      its value. */
  lemma {:induction false} DigitsCanonical(d: string) returns (zeros: string)
    requires |d| >= 1 && AllDigits(d)
    ensures AllZeros(zeros) && d == zeros + NatToDigits(DigitsToNat(d))
    decreases |d|
  {
    var n := |d| - 1;
    var init := d[..n];
    var c := d[n];
    assert d == init + [c];
    assert DigitChar(DigitValue(c)) == c;
    if n == 0 {
      zeros := [];
    } else {
      var z := DigitsCanonical(init);
      var m := DigitsToNat(init);
      if m == 0 {
        ZerosThenZero(z, init);
        zeros := init;
      } else {
        NatToDigitsSnoc(m, DigitValue(c));
        assert d == z + (NatToDigits(m) + [c]);
        zeros := z;
      }
    }
  }

  /** TrimLeft drops a prefix of white space. */
  lemma TrimLeftParts(s: string) returns (lead: string)
    ensures AllSpace(lead) && s == lead + TrimLeft(s)
  {
    var tl := TrimLeft(s);
    var k := |s| - |tl|;
    lead := s[..k];
    assert tl == s[k..];
    assert s == lead + tl;
    assert AllSpace(lead) by {
      assert forall i :: 0 <= i < k ==> IsSpace(s[i]);
      forall i | 0 <= i < k ensures IsSpace(lead[i]) {
        assert lead[i] == s[i];
      }
    }
  }

  /** TrimRight drops a suffix of white space. */
  lemma TrimRightParts(s: string) returns (trail: string)
    ensures AllSpace(trail) && s == TrimRight(s) + trail
  {
    var t := TrimRight(s);
    trail := s[|t|..];
    assert t == s[..|t|];
    assert s == t + trail;
    assert AllSpace(trail) by {
      assert forall i :: |t| <= i < |s| ==> IsSpace(s[i]);
      forall i | 0 <= i < |trail| ensures IsSpace(trail[i]) {
        assert trail[i] == s[|t| + i];
      }
    }
  }

  /** Trimming removes white space only, from both ends. */
  lemma TrimParts(s: string) returns (lead: string, trail: string)
    ensures AllSpace(lead) && AllSpace(trail) && s == lead + Trim(s) + trail
  {
    lead := TrimLeftParts(s);
    trail := TrimRightParts(TrimLeft(s));
  }

  /** The trimmed text `int()` accepts is an optional sign and digits. */
  lemma ParseIntBody(s: string) returns (sign: string, body: string)
    requires ParseInt(s).Some?
    ensures (sign == "" || sign == "+" || sign == "-") && Trim(s) == sign + body
    ensures |body| >= 1 && AllDigits(body)
    ensures ParseInt(s).value == if sign == "-" then -(DigitsToNat(body) as int) else DigitsToNat(body) as int
  {
    var t := Trim(s);
    if t[0] == '-' || t[0] == '+' {
      body := t[1..];
      sign := [t[0]];
    } else {
      body := t;
      sign := "";
    }
    assert t == sign + body;
  }

  /** Everything `int()` accepts is white space, an optional sign, leading
      zeros and the shortest spelling of the value's magnitude, then white
      space; the sign is "-" whenever the value is negative. */
  lemma ParseIntShape(s: string) returns (lead: string, sign: string, zeros: string, trail: string)
    requires ParseInt(s).Some?
    ensures var n := ParseInt(s).value;
            var m: nat := if n < 0 then -n else n;
            && AllSpace(lead) && AllSpace(trail) && AllZeros(zeros)
            && (sign == "" || sign == "+" || sign == "-")
            && s == lead + (sign + (zeros + NatToDigits(m))) + trail
            && n == (if sign == "-" then -(m as int) else m as int)
  {
    lead, trail := TrimParts(s);
    var body;
    sign, body := ParseIntBody(s);
    zeros := DigitsCanonical(body);
    var n := ParseInt(s).value;
    var v := DigitsToNat(body);
    assert (if n < 0 then -n else n) == v;
    assert s == lead + (sign + (zeros + NatToDigits(v))) + trail;
  }

  /** Leading white space is all TrimLeft removes. */
  lemma {:induction false} TrimLeftPrefix(lead: string, x: string)
    requires AllSpace(lead) && |x| > 0 && !IsSpace(x[0])
    ensures TrimLeft(lead + x) == x
    decreases |lead|
  {
    if |lead| > 0 {
      assert (lead + x)[0] == lead[0];
      assert (lead + x)[1..] == lead[1..] + x;
      assert AllSpace(lead[1..]) by {
        forall i | 0 <= i < |lead| - 1 ensures IsSpace(lead[1..][i]) {
          assert lead[1..][i] == lead[i + 1];
        }
      }
      TrimLeftPrefix(lead[1..], x);
    } else {
      assert lead + x == x;
    }
  }

  /** Trailing white space is all TrimRight removes. */
  lemma {:induction false} TrimRightSuffix(x: string, trail: string)
    requires AllSpace(trail) && |x| > 0 && !IsSpace(x[|x| - 1])
    ensures TrimRight(x + trail) == x
    decreases |trail|
  {
    var t := x + trail;
    if |trail| > 0 {
      var k := |trail| - 1;
      assert t[|t| - 1] == trail[k];
      assert t[..|t| - 1] == x + trail[..k];
      assert AllSpace(trail[..k]) by {
        forall i | 0 <= i < k ensures IsSpace(trail[..k][i]) {
          assert trail[..k][i] == trail[i];
        }
      }
      TrimRightSuffix(x, trail[..k]);
    } else {
      assert t == x;
    }
  }

  /** Trimming white space around a text that neither starts nor ends with
      white space gives that text. */
  lemma TrimOf(lead: string, x: string, trail: string)
    requires AllSpace(lead) && AllSpace(trail)
    requires |x| > 0 && !IsSpace(x[0]) && !IsSpace(x[|x| - 1])
    ensures Trim(lead + x + trail) == x
  {
    assert lead + x + trail == lead + (x + trail);
    TrimLeftPrefix(lead, x + trail);
    TrimRightSuffix(x, trail);
  }

  /** A text whose trimmed form is digits parses to their value. */
  lemma ParseIntUnsigned(s: string, digits: string)
    requires |digits| >= 1 && AllDigits(digits)
    requires Trim(s) == digits
    ensures ParseInt(s) == Some(DigitsToNat(digits) as int)
  {
    assert IsDigit(digits[0]);
  }

  /** A text whose trimmed form is a sign character and digits parses to
      their value, negated for '-'. */
  lemma ParseIntSigned(s: string, c: char, digits: string)
    requires c == '-' || c == '+'
    requires |digits| >= 1 && AllDigits(digits)
    requires Trim(s) == [c] + digits
    ensures ParseInt(s) == Some(if c == '-' then -(DigitsToNat(digits) as int) else DigitsToNat(digits) as int)
  {
    var t := Trim(s);
    assert t[0] == c && t[1..] == digits;
    assert |t[1..]| > 0 && AllDigits(t[1..]);
    var v := DigitsToNat(digits) as int;
    assert ParseInt(s) == Some(if t[0] == '-' then 0 - v else v);
  }

  /** A text whose trimmed form is a sign and digits parses to their value. */
  lemma ParseIntOfTrimmed(s: string, sign: string, digits: string)
    requires sign == "" || sign == "+" || sign == "-"
    requires |digits| >= 1 && AllDigits(digits)
    requires Trim(s) == sign + digits
    ensures ParseInt(s) == Some(if sign == "-" then -(DigitsToNat(digits) as int) else DigitsToNat(digits) as int)
  {
    if sign == "" {
      assert sign + digits == digits;
      ParseIntUnsigned(s, digits);
    } else {
      assert sign == [sign[0]];
      ParseIntSigned(s, sign[0], digits);
    }
  }

  /** A sign followed by digits neither starts nor ends with white space. */
  lemma SignDigitsEnds(sign: string, digits: string)
    requires sign == "" || sign == "+" || sign == "-"
    requires |digits| >= 1 && AllDigits(digits)
    ensures var x := sign + digits; |x| > 0 && !IsSpace(x[0]) && !IsSpace(x[|x| - 1])
  {
    var x := sign + digits;
    assert x[|x| - 1] == digits[|digits| - 1];
    assert IsDigit(digits[0]) && IsDigit(digits[|digits| - 1]);
  }

  /** Conversely to `ParseIntShape`, `int()` accepts any white space, an
      optional sign, one or more digits (leading zeros allowed) and white
      space, and its value is that of the digits, negated for "-". */
  lemma ParseIntAccepts(lead: string, sign: string, digits: string, trail: string)
    requires AllSpace(lead) && AllSpace(trail)
    requires sign == "" || sign == "+" || sign == "-"
    requires |digits| >= 1 && AllDigits(digits)
    ensures ParseInt(lead + (sign + digits) + trail) ==
              Some(if sign == "-" then -(DigitsToNat(digits) as int) else DigitsToNat(digits) as int)
  {
    var x := sign + digits;
    var s := lead + x + trail;
    SignDigitsEnds(sign, digits);
    TrimOf(lead, x, trail);
    ParseIntOfTrimmed(s, sign, digits);
  }

  /** A leading zero does not change the value of a digit string. */
  lemma {:induction false} LeadingZero(d: string)
    requires AllDigits(d)
    ensures AllDigits("0" + d) && DigitsToNat("0" + d) == DigitsToNat(d)
    decreases |d|
  {
    var p := "0" + d;
    assert AllDigits(p) by {
      forall i | 0 <= i < |p| ensures IsDigit(p[i]) {
        if i > 0 { assert p[i] == d[i - 1]; }
      }
    }
    if |d| > 0 {
      var n := |d| - 1;
      assert AllDigits(d[..n]) by {
        forall i | 0 <= i < n ensures IsDigit(d[..n][i]) { assert d[..n][i] == d[i]; }
      }
      LeadingZero(d[..n]);
      assert p[..|p| - 1] == "0" + d[..n];
      assert p[|p| - 1] == d[n];
    }
  }

  /** Bare digit text parses to its value. */
  lemma ParseIntDigits(d: string)
    requires |d| >= 1 && AllDigits(d)
    ensures ParseInt(d) == Some(DigitsToNat(d) as int)
  {
    ParseIntAccepts("", "", d, "");
    assert "" + ("" + d) + "" == d;
  }
}
