/** String operations of the JavaScript standard library that the modelled
    code relies on: `trim`, `split`, `join`, `includes`, `toLowerCase`,
    `Number.prototype.toString` and `padStart`. Strings are `seq<char>`. */
module Text {

  /** The characters ECMAScript's `String.prototype.trim` removes and the regular
      expression class `\s` matches: WhiteSpace and LineTerminator code points. */
  predicate IsSpace(c: char) {
    || c == '\t' || c == '\n' || c == '\U{000B}' || c == '\U{000C}' || c == '\r'
    || c == ' ' || c == '\U{00A0}' || c == '\U{1680}'
    || ('\U{2000}' <= c <= '\U{200A}')
    || c == '\U{2028}' || c == '\U{2029}' || c == '\U{202F}' || c == '\U{205F}'
    || c == '\U{3000}' || c == '\U{FEFF}'
  }

  predicate AllSpace(s: string) {
    forall i :: 0 <= i < |s| ==> IsSpace(s[i])
  }

  /** A string with no space at either end. */
  predicate IsTrimmed(s: string) {
    |s| == 0 || (!IsSpace(s[0]) && !IsSpace(s[|s| - 1]))
  }

  /** Drops leading space characters. */
  function TrimStart(s: string): (r: string)
    ensures |r| <= |s| && r == s[|s| - |r|..]
    ensures AllSpace(s[..|s| - |r|])
    ensures |r| == 0 || !IsSpace(r[0])
  {
    if |s| == 0 then s
    else if IsSpace(s[0]) then TrimStart(s[1..])
    else s
  }

  /** Drops trailing space characters. */
  function TrimEnd(s: string): (r: string)
    ensures |r| <= |s| && r == s[..|r|]
    ensures AllSpace(s[|r|..])
    ensures |r| == 0 || !IsSpace(r[|r| - 1])
  {
    if |s| == 0 then s
    else if IsSpace(s[|s| - 1]) then TrimEnd(s[..|s| - 1])
    else s
  }

  /** `r` occurs in `s` starting at index `i`. */
  predicate OccursAt(s: string, r: string, i: int) {
    0 <= i <= |s| - |r| && s[i..i + |r|] == r
  }

  /** `r` is `s` with a run of spaces removed at each end, the first run `i` long. */
  predicate TrimmedAt(s: string, r: string, i: int) {
    OccursAt(s, r, i) && AllSpace(s[..i]) && AllSpace(s[i + |r|..])
  }

  /** `String.prototype.trim`: `s` without the space at either end. */
  function Trim(s: string): (r: string)
    ensures IsTrimmed(r)
    ensures |r| <= |s|
  {
    TrimEnd(TrimStart(s))
  }

  /** What trimming removes is a run of space at each end, nothing else. */
  lemma TrimIsSlice(s: string)
    ensures exists i :: TrimmedAt(s, Trim(s), i)
  {
    var a := TrimStart(s);
    var r := TrimEnd(a);
    assert r == Trim(s);
    var i := |s| - |a|;
    assert s[i..i + |r|] == r;
    assert s[i + |r|..] == a[|r|..];
    assert TrimmedAt(s, r, i);
  }

  lemma TrimOfTrimmed(s: string)
    requires IsTrimmed(s)
    ensures Trim(s) == s
  {
  }

  /** Trimming is idempotent. */
  lemma TrimIdempotent(s: string)
    ensures Trim(Trim(s)) == Trim(s)
  {
    TrimOfTrimmed(Trim(s));
  }

  /** A trimmed string is empty exactly when the input is all space. */
  lemma {:induction false} TrimEmptyIff(s: string)
    ensures Trim(s) == "" <==> AllSpace(s)
  {
    var r := Trim(s);
    TrimIsSlice(s);
    if r == "" {
      var i :| TrimmedAt(s, r, i);
      forall k | 0 <= k < |s| ensures IsSpace(s[k]) {
        if k < i { assert s[..i][k] == s[k]; } else { assert s[i..][k - i] == s[k]; }
      }
    } else {
      var i :| TrimmedAt(s, r, i);
      assert s[i] == r[0];
      assert !IsSpace(s[i]);
    }
  }

  /** Index of the first occurrence of `c` in `s`, or `|s|` when there is none. */
  function IndexOf(s: string, c: char): (k: nat)
    ensures k <= |s|
    ensures c !in s[..k]
    ensures k < |s| ==> s[k] == c
  {
    if |s| == 0 then 0
    else if s[0] == c then 0
    else 1 + IndexOf(s[1..], c)
  }

  /** `String.prototype.split` with a one-character separator: always at least
      one piece, and `""` splits to `[""]`. */
  function Split(s: string, sep: char): (parts: seq<string>)
    ensures |parts| >= 1
    ensures forall i :: 0 <= i < |parts| ==> sep !in parts[i]
    decreases |s|
  {
    var k := IndexOf(s, sep);
    if k == |s| then [s]
    else [s[..k]] + Split(s[k + 1..], sep)
  }

  /** `Array.prototype.join`. */
  function Join(parts: seq<string>, sep: string): (r: string)
    ensures |parts| == 0 ==> r == ""
  {
    if |parts| == 0 then ""
    else if |parts| == 1 then parts[0]
    else parts[0] + sep + Join(parts[1..], sep)
  }

  /** Splitting and joining with the same separator gives back the input. */
  lemma {:induction false} JoinSplit(s: string, sep: char)
    ensures Join(Split(s, sep), [sep]) == s
    decreases |s|
  {
    var k := IndexOf(s, sep);
    if k < |s| {
      var rest := s[k + 1..];
      assert s == s[..k] + [sep] + rest;
      var tail := Split(rest, sep);
      var parts := [s[..k]] + tail;
      assert Split(s, sep) == parts;
      assert parts[1..] == tail;
      JoinSplit(rest, sep);
      assert Join(parts, [sep]) == s[..k] + [sep] + Join(tail, [sep]);
    }
  }

  lemma {:induction false} IndexOfAfter(a: string, c: char, b: string)
    requires c !in a
    ensures IndexOf(a + [c] + b, c) == |a|
  {
    if |a| > 0 {
      assert (a + [c] + b)[1..] == a[1..] + [c] + b;
      IndexOfAfter(a[1..], c, b);
    } else {
      assert (a + [c] + b)[0] == c;
    }
  }

  /** Joining pieces that do not contain the separator and splitting again
      gives back the pieces. */
  lemma {:induction false} SplitJoin(parts: seq<string>, sep: char)
    requires |parts| >= 1
    requires forall i :: 0 <= i < |parts| ==> sep !in parts[i]
    ensures Split(Join(parts, [sep]), sep) == parts
    decreases |parts|
  {
    if |parts| > 1 {
      var rest := Join(parts[1..], [sep]);
      var s := Join(parts, [sep]);
      assert s == parts[0] + [sep] + rest;
      IndexOfAfter(parts[0], sep, rest);
      assert s[..|parts[0]|] == parts[0];
      assert s[|parts[0]| + 1..] == rest;
      SplitJoin(parts[1..], sep);
      assert parts == [parts[0]] + parts[1..];
    }
  }

  /** The first occurrence is the only position with `c` and no `c` before it. */
  lemma IndexOfUnique(s: string, c: char, k: nat)
    requires k < |s| && s[k] == c && c !in s[..k]
    ensures IndexOf(s, c) == k
  {
  }

  /** A string cut at a separator splits into the pieces of either side. */
  lemma {:induction false} SplitAppend(a: string, sep: char, b: string)
    ensures Split(a + [sep] + b, sep) == Split(a, sep) + Split(b, sep)
    decreases |a|
  {
    var k := IndexOf(a, sep);
    if k == |a| {
      SplitAtFirst(a, sep, b);
    } else {
      var rest := a[k + 1..];
      SplitAtEarlier(a, sep, b, k);
      SplitAppend(rest, sep, b);
      SplitAtIndex(a, sep, k);
      AppendAssoc([a[..k]], Split(rest, sep), Split(b, sep));
    }
  }

  lemma SplitAtIndex(s: string, sep: char, k: nat)
    requires k == IndexOf(s, sep) < |s|
    ensures Split(s, sep) == [s[..k]] + Split(s[k + 1..], sep)
  {
  }

  lemma AppendAssoc<T>(x: seq<T>, y: seq<T>, z: seq<T>)
    ensures x + (y + z) == (x + y) + z
  {
  }

  lemma SplitAtFirst(a: string, sep: char, b: string)
    requires sep !in a
    ensures Split(a + [sep] + b, sep) == [a] + Split(b, sep)
  {
    var s := a + [sep] + b;
    IndexOfAfter(a, sep, b);
    assert s[..|a|] == a;
    assert s[|a| + 1..] == b;
  }

  lemma SplitAtEarlier(a: string, sep: char, b: string, k: nat)
    requires k == IndexOf(a, sep) < |a|
    ensures Split(a + [sep] + b, sep) == [a[..k]] + Split(a[k + 1..] + [sep] + b, sep)
  {
    var s := a + [sep] + b;
    assert s[k] == sep;
    assert s[..k] == a[..k];
    IndexOfUnique(s, sep, k);
    assert s[k + 1..] == a[k + 1..] + [sep] + b;
  }

  lemma {:induction false} JoinAppend(xs: seq<string>, y: string, sep: string)
    requires |xs| >= 1
    ensures Join(xs + [y], sep) == Join(xs, sep) + sep + y
    decreases |xs|
  {
    if |xs| == 1 {
      assert (xs + [y])[1..] == [y];
    } else {
      assert (xs + [y])[1..] == xs[1..] + [y];
      JoinAppend(xs[1..], y, sep);
    }
  }

  /** Every character of a joined string comes from the separator or a part. */
  lemma {:induction false} JoinCharOrigin(parts: seq<string>, sep: string, c: char)
    requires c in Join(parts, sep)
    ensures c in sep || exists i :: 0 <= i < |parts| && c in parts[i]
  {
    if |parts| > 1 {
      var rest := Join(parts[1..], sep);
      assert Join(parts, sep) == parts[0] + sep + rest;
      if c !in parts[0] && c !in sep {
        JoinCharOrigin(parts[1..], sep, c);
        if c !in sep {
          var i :| 0 <= i < |parts[1..]| && c in parts[1..][i];
          assert c in parts[i + 1];
        }
      }
    }
  }

  /** Every character of every part occurs in the joined string. */
  lemma {:induction false} JoinKeepsChars(parts: seq<string>, sep: string, i: nat, c: char)
    requires i < |parts| && c in parts[i]
    ensures c in Join(parts, sep)
  {
    if |parts| > 1 {
      assert Join(parts, sep) == parts[0] + sep + Join(parts[1..], sep);
      if i > 0 {
        JoinKeepsChars(parts[1..], sep, i - 1, c);
      }
    }
  }

  lemma {:induction false} TrimStartPastSpace(a: string, x: string)
    requires AllSpace(a)
    requires |x| == 0 || !IsSpace(x[0])
    ensures TrimStart(a + x) == x
    decreases |a|
  {
    if |a| > 0 {
      assert (a + x)[1..] == a[1..] + x;
      TrimStartPastSpace(a[1..], x);
    } else {
      assert a + x == x;
    }
  }

  lemma {:induction false} TrimEndPastSpace(y: string, b: string)
    requires AllSpace(b)
    requires |y| == 0 || !IsSpace(y[|y| - 1])
    ensures TrimEnd(y + b) == y
    decreases |b|
  {
    if |b| > 0 {
      assert (y + b)[..|y + b| - 1] == y + b[..|b| - 1];
      TrimEndPastSpace(y, b[..|b| - 1]);
    } else {
      assert y + b == y;
    }
  }

  /** Trimming removes exactly the surrounding space of a trimmed core. */
  lemma TrimPadded(a: string, c: string, b: string)
    requires AllSpace(a) && AllSpace(b)
    requires c != "" && IsTrimmed(c)
    ensures Trim(a + c + b) == c
  {
    assert a + c + b == a + (c + b);
    TrimStartPastSpace(a, c + b);
    TrimEndPastSpace(c, b);
  }

  /** `String.prototype.includes`: `sub` occurs somewhere in `s`. */
  predicate Contains(s: string, sub: string) {
    exists i | 0 <= i <= |s| - |sub| :: OccursAt(s, sub, i)
  }

  lemma ContainsEmpty(s: string)
    ensures Contains(s, "")
  {
    assert OccursAt(s, "", 0);
  }

  /** `String.prototype.toLowerCase`, on the ASCII letters. */
  function LowerChar(c: char): (d: char)
    ensures 'A' <= c <= 'Z' ==> 'a' <= d <= 'z' && d as int - c as int == 32
    ensures !('A' <= c <= 'Z') ==> d == c
  {
    if 'A' <= c <= 'Z' then (c as int + 32) as char else c
  }

  function ToLower(s: string): (r: string)
    ensures |r| == |s|
    ensures forall i :: 0 <= i < |s| ==> r[i] == LowerChar(s[i])
  {
    seq(|s|, i requires 0 <= i < |s| => LowerChar(s[i]))
  }

  predicate IsDigit(c: char) {
    '0' <= c <= '9'
  }

  function DigitChar(d: nat): (c: char)
    requires d < 10
    ensures IsDigit(c) && c as int - '0' as int == d
  {
    ('0' as int + d) as char
  }

  /** Decimal text of a natural number, as `Number.prototype.toString()` writes it. */
  function NatToString(n: nat): (r: string)
    ensures |r| >= 1
    ensures forall i :: 0 <= i < |r| ==> IsDigit(r[i])
    ensures |r| > 1 ==> r[0] != '0'
  {
    if n < 10 then [DigitChar(n)]
    else NatToString(n / 10) + [DigitChar(n % 10)]
  }

  /** The number a string of decimal digits denotes. */
  function DigitsValue(s: string): nat
  {
    if |s| == 0 then 0
    else 10 * DigitsValue(s[..|s| - 1]) + DigitValue(s[|s| - 1])
  }

  /** The value of a decimal digit; other characters count as 0. */
  function DigitValue(c: char): (d: nat)
    ensures d < 10
    ensures IsDigit(c) ==> d == c as int - '0' as int
  {
    if IsDigit(c) then c as int - '0' as int else 0
  }

  /** Reading back the decimal text gives the number. */
  lemma {:induction false} NatToStringValue(n: nat)
    ensures DigitsValue(NatToString(n)) == n
  {
    if n >= 10 {
      NatToStringValue(n / 10);
      var s := NatToString(n);
      assert s[..|s| - 1] == NatToString(n / 10);
    }
  }

  /** `String.prototype.padStart(width, fill)`. */
  function PadStart(s: string, width: nat, fill: char): (r: string)
    ensures |r| == if |s| >= width then |s| else width
    ensures r[|r| - |s|..] == s
    ensures forall i :: 0 <= i < |r| - |s| ==> r[i] == fill
  {
    if |s| >= width then s
    else
      var q := PadStart(s, width - 1, fill);
      assert ([fill] + q)[|q| + 1 - |s|..] == q[|q| - |s|..];
      [fill] + q
  }

  /** Numbers below 100 are written with at most two digits. */
  lemma NatToStringShort(n: nat)
    requires n < 100
    ensures |NatToString(n)| <= 2
    ensures n < 10 <==> |NatToString(n)| == 1
  {
    if n >= 10 {
      assert NatToString(n / 10) == [DigitChar(n / 10)];
    }
  }

  /** A leading zero does not change the value of a digit string. */
  lemma {:induction false} LeadingZeroValue(s: string)
    requires forall i :: 0 <= i < |s| ==> IsDigit(s[i])
    ensures DigitsValue("0" + s) == DigitsValue(s)
  {
    if |s| > 0 {
      var t := "0" + s;
      assert t[..|t| - 1] == "0" + s[..|s| - 1];
      LeadingZeroValue(s[..|s| - 1]);
    }
  }

  /** Padding a digit string with zeros on the left keeps its value. */
  lemma {:induction false} ZeroPadValue(s: string, width: nat)
    requires forall i :: 0 <= i < |s| ==> IsDigit(s[i])
    ensures forall i :: 0 <= i < |PadStart(s, width, '0')| ==> IsDigit(PadStart(s, width, '0')[i])
    ensures DigitsValue(PadStart(s, width, '0')) == DigitsValue(s)
  {
    PadStartDigits(s, width);
    if |s| < width {
      PadStartStep(s, width, '0');
      ZeroPadValue(s, width - 1);
      LeadingZeroValue(PadStart(s, width - 1, '0'));
    }
  }

  lemma PadStartDigits(s: string, width: nat)
    requires forall i :: 0 <= i < |s| ==> IsDigit(s[i])
    ensures forall i :: 0 <= i < |PadStart(s, width, '0')| ==> IsDigit(PadStart(s, width, '0')[i])
  {
    var r := PadStart(s, width, '0');
    var d := |r| - |s|;
    forall i | 0 <= i < |r| ensures IsDigit(r[i]) {
      if i >= d {
        assert r[i] == r[d..][i - d] == s[i - d];
      }
    }
  }

  /** One more place of padding is one more fill character in front. */
  lemma PadStartStep(s: string, width: nat, fill: char)
    requires |s| < width
    ensures PadStart(s, width, fill) == [fill] + PadStart(s, width - 1, fill)
  {
  }

  /** `xs.filter(x => x !== v)`: every occurrence of `v` removed. */
  function Without(xs: seq<string>, v: string): (r: seq<string>)
    ensures v !in r
    ensures forall x :: x in r <==> x in xs && x != v
    ensures |r| <= |xs|
  {
    if |xs| == 0 then []
    else if xs[0] == v then Without(xs[1..], v)
    else [xs[0]] + Without(xs[1..], v)
  }

  /** Filtering works piecewise, so the kept entries keep their order. */
  lemma {:induction false} WithoutConcat(a: seq<string>, b: seq<string>, v: string)
    ensures Without(a + b, v) == Without(a, v) + Without(b, v)
  {
    if |a| > 0 {
      assert (a + b)[1..] == a[1..] + b;
      WithoutConcat(a[1..], b, v);
    } else {
      assert a + b == b;
    }
  }

  /** Filtering out an absent value changes nothing. */
  lemma {:induction false} WithoutAbsent(xs: seq<string>, v: string)
    requires v !in xs
    ensures Without(xs, v) == xs
  {
    if |xs| > 0 {
      assert v !in xs[1..];
      WithoutAbsent(xs[1..], v);
      assert xs == [xs[0]] + xs[1..];
    }
  }

  lemma WithoutAppend(xs: seq<string>, v: string)
    ensures Without(xs + [v], v) == Without(xs, v)
  {
    WithoutConcat(xs, [v], v);
    assert Without([v], v) == [];
    assert Without(xs, v) + [] == Without(xs, v);
  }
}
