/**
 * The JavaScript string built-ins the engine relies on, on `seq<char>`:
 * `trim`, `split` on one character, `includes`, `endsWith`, the global
 * replacement of one character by a doubled copy, `parseInt` and the decimal
 * text of a whole number.
 */
module JsText {
  import opened Wrappers
  import Seqs

  /** WhiteSpace and LineTerminator code points: what `String.prototype.trim` strips. */
  predicate IsWhitespace(c: char) {
    || c == '\t' || c == '\n' || c == '\U{000B}' || c == '\U{000C}' || c == '\r'
    || c == ' ' || c == '\U{00A0}' || c == '\U{1680}' || ('\U{2000}' <= c <= '\U{200A}')
    || c == '\U{2028}' || c == '\U{2029}' || c == '\U{202F}' || c == '\U{205F}'
    || c == '\U{3000}' || c == '\U{FEFF}'
  }

  /** The characters a regular-expression `.` does not match. */
  predicate IsLineTerminator(c: char) {
    c == '\n' || c == '\r' || c == '\U{2028}' || c == '\U{2029}'
  }

  predicate IsBlank(s: string) {
    forall i :: 0 <= i < |s| ==> IsWhitespace(s[i])
  }

  /** The text after the leading white space; its properties are `TrimStartParts`. */
  function TrimStart(s: string): string {
    if s != [] && IsWhitespace(s[0]) then TrimStart(s[1..]) else s
  }

  /** The text before the trailing white space; its properties are `TrimEndParts`. */
  function TrimEnd(s: string): string {
    if s != [] && IsWhitespace(s[|s| - 1]) then TrimEnd(s[..|s| - 1]) else s
  }

  /** `TrimStart` drops a blank head and stops at the first other character. */
  lemma {:induction false} TrimStartParts(s: string)
    ensures var r := TrimStart(s);
      && |r| <= |s| && r == s[|s| - |r|..]
      && (r == [] || !IsWhitespace(r[0]))
      && IsBlank(s[..|s| - |r|])
  {
    if s != [] && IsWhitespace(s[0]) {
      TrimStartParts(s[1..]);
      var r := TrimStart(s);
      assert s[1..][|s| - 1 - |r|..] == s[|s| - |r|..];
      forall i | 0 <= i < |s| - |r| ensures IsWhitespace(s[i]) {
        if i > 0 {
          assert s[i] == s[1..][..|s| - 1 - |r|][i - 1];
        }
      }
    }
  }

  /** `TrimEnd` drops a blank tail and stops at the last other character. */
  lemma {:induction false} TrimEndParts(s: string)
    ensures var r := TrimEnd(s);
      && |r| <= |s| && r == s[..|r|]
      && (r == [] || !IsWhitespace(r[|r| - 1]))
      && IsBlank(s[|r|..])
  {
    if s != [] && IsWhitespace(s[|s| - 1]) {
      var t := s[..|s| - 1];
      TrimEndParts(t);
      var r := TrimEnd(s);
      assert t[..|r|] == s[..|r|];
      forall i | 0 <= i < |s| - |r| ensures IsWhitespace(s[|r|..][i]) {
        if i < |s| - 1 - |r| {
          assert s[|r|..][i] == t[|r|..][i];
        }
      }
    }
  }

  /** `s.trim()`: the text between the leading and the trailing white space. */
  function Trim(s: string): (r: string)
    ensures r == [] || (!IsWhitespace(r[0]) && !IsWhitespace(r[|r| - 1]))
    ensures (r == []) == IsBlank(s)
  {
    var t := TrimStart(s);
    var r := TrimEnd(t);
    TrimStartParts(s);
    TrimEndParts(t);
    TrimBlank(s, t, r);
    r
  }

  lemma TrimBlank(s: string, t: string, r: string)
    requires t == TrimStart(s) && r == TrimEnd(t)
    ensures (r == []) == IsBlank(s)
  {
    TrimStartParts(s);
    TrimEndParts(t);
    var p := s[..|s| - |t|];
    if r == [] {
      assert s == p + t;
      assert IsBlank(t) by {
        assert t[|r|..] == t;
      }
      BlankConcat(p, t);
    } else {
      var k := |s| - |t|;
      assert r[0] == t[0] == s[k];
      assert !IsWhitespace(s[k]);
    }
  }

  lemma BlankConcat(a: string, b: string)
    requires IsBlank(a) && IsBlank(b)
    ensures IsBlank(a + b)
  {
    forall i | 0 <= i < |a + b| ensures IsWhitespace((a + b)[i]) {
      if i >= |a| {
        assert (a + b)[i] == b[i - |a|];
      }
    }
  }

  /** `s.split(sep)` for a one-character separator: never empty, `""` gives `[""]`. */
  function Split(s: string, sep: char): (r: seq<string>)
    ensures |r| == 1 + Seqs.Count(s, sep)
    ensures forall i :: 0 <= i < |r| ==> sep !in r[i]
  {
    if s == [] then [""]
    else
      var rest := Split(s[1..], sep);
      if s[0] == sep then [""] + rest else [[s[0]] + rest[0]] + rest[1..]
  }

  /** `parts.join(sep)`. */
  function Join(parts: seq<string>, sep: char): string {
    if parts == [] then ""
    else if |parts| == 1 then parts[0]
    else parts[0] + [sep] + Join(parts[1..], sep)
  }

  /** Joining the pieces of a split gives the text back. */
  lemma {:induction false} JoinSplit(s: string, sep: char)
    ensures Join(Split(s, sep), sep) == s
  {
    if s != [] {
      var rest := Split(s[1..], sep);
      var r := Split(s, sep);
      assert Join(rest, sep) == s[1..] by {
        JoinSplit(s[1..], sep);
      }
      assert s == [s[0]] + s[1..];
      if s[0] == sep {
        assert r == [""] + rest;
        JoinCons("", rest, sep);
        assert "" + [sep] == [sep];
      } else if |rest| == 1 {
        assert r == [[s[0]] + rest[0]];
      } else {
        assert r == [[s[0]] + rest[0]] + rest[1..];
        JoinSplitStep(s[0], rest, sep);
      }
    }
  }

  /** A piece extended at the front joins to the joined pieces extended at the front. */
  lemma JoinSplitStep(c: char, rest: seq<string>, sep: char)
    requires |rest| > 1
    ensures Join([[c] + rest[0]] + rest[1..], sep) == [c] + Join(rest, sep)
  {
    var tail := Join(rest[1..], sep);
    JoinCons([c] + rest[0], rest[1..], sep);
    assert rest == [rest[0]] + rest[1..];
    JoinCons(rest[0], rest[1..], sep);
    Seqs.Assoc([c], rest[0], [sep], tail);
    Seqs.Assoc3([c], rest[0], [sep] + tail);
    Seqs.Assoc3(rest[0], [sep], tail);
  }

  /** A piece in front of a non-empty list is joined with one separator. */
  lemma JoinCons(p: string, rest: seq<string>, sep: char)
    requires rest != []
    ensures Join([p] + rest, sep) == p + [sep] + Join(rest, sep)
  {
    assert ([p] + rest)[1..] == rest;
  }

  /** A leading piece free of the separator splits off as one element. */
  lemma {:induction false} SplitAfter(x: string, y: string, sep: char)
    requires sep !in x
    ensures Split(x + [sep] + y, sep) == [x] + Split(y, sep)
  {
    var s := x + [sep] + y;
    if x == [] {
      assert s == [sep] + y;
      assert s[1..] == y;
    } else {
      assert s[0] == x[0] != sep;
      assert s[1..] == x[1..] + [sep] + y;
      SplitAfter(x[1..], y, sep);
      var rest := Split(s[1..], sep);
      assert rest[0] == x[1..] && rest[1..] == Split(y, sep);
      assert [x[0]] + x[1..] == x;
    }
  }

  /** `s.includes(sub)`. */
  predicate Contains(s: string, sub: string)
    decreases |s|
  {
    (|sub| <= |s| && s[..|sub|] == sub) || (s != [] && Contains(s[1..], sub))
  }

  /** `s.endsWith(suffix)`. */
  predicate EndsWith(s: string, suffix: string) {
    |suffix| <= |s| && s[|s| - |suffix|..] == suffix
  }

  predicate StartsWith(s: string, prefix: string) {
    |prefix| <= |s| && s[..|prefix|] == prefix
  }

  /** `s.replace(/q/g, qq)`: every `q` doubled, everything else kept. */
  function Double(s: string, q: char): (r: string)
    ensures |r| == |s| + Seqs.Count(s, q)
  {
    if s == [] then [] else (if s[0] == q then [q, q] else [s[0]]) + Double(s[1..], q)
  }

  /** Reading a doubled text back: `qq` gives one `q`. */
  function Undouble(s: string, q: char): string {
    if s == [] then []
    else if s[0] == q && |s| > 1 && s[1] == q then [q] + Undouble(s[2..], q)
    else [s[0]] + Undouble(s[1..], q)
  }

  lemma {:induction false} UndoubleDouble(s: string, q: char)
    ensures Undouble(Double(s, q), q) == s
  {
    if s != [] {
      UndoubleDouble(s[1..], q);
      var d := Double(s, q);
      if s[0] == q {
        assert d == [q, q] + Double(s[1..], q);
        assert d[2..] == Double(s[1..], q);
      } else {
        assert d == [s[0]] + Double(s[1..], q);
        assert d[1..] == Double(s[1..], q);
      }
    }
  }

  /** A text without `q` is left as it is. */
  lemma {:induction false} DoubleWithout(s: string, q: char)
    requires q !in s
    ensures Double(s, q) == s
  {
    if s != [] {
      DoubleWithout(s[1..], q);
    }
  }

  lemma {:induction false} DoubleConcat(a: string, b: string, q: char)
    ensures Double(a + b, q) == Double(a, q) + Double(b, q)
  {
    if a != [] {
      assert (a + b)[1..] == a[1..] + b;
      DoubleConcat(a[1..], b, q);
    } else {
      assert a + b == b;
    }
  }

  // ---- numbers as text

  predicate IsDigit(c: char) {
    '0' <= c <= '9'
  }

  /** The value of `c` as a digit in base 10 or 16, if it is one. */
  function DigitValue(c: char, radix: nat): (r: Option<nat>)
    requires radix == 10 || radix == 16
    ensures r.Some? ==> r.value < radix
  {
    if IsDigit(c) then Some(c as int - '0' as int)
    else if radix == 16 && 'a' <= c <= 'f' then Some(c as int - 'a' as int + 10)
    else if radix == 16 && 'A' <= c <= 'F' then Some(c as int - 'A' as int + 10)
    else None
  }

  /** The longest prefix of `s` made of digits of `radix`. */
  function LeadingDigits(s: string, radix: nat): (r: string)
    requires radix == 10 || radix == 16
    ensures |r| <= |s| && r == s[..|r|]
    ensures forall i :: 0 <= i < |r| ==> DigitValue(r[i], radix).Some?
    ensures |r| < |s| ==> DigitValue(s[|r|], radix).None?
  {
    if s == [] || DigitValue(s[0], radix).None? then [] else [s[0]] + LeadingDigits(s[1..], radix)
  }

  function DigitsValue(s: string, radix: nat): nat
    requires radix == 10 || radix == 16
    requires forall i :: 0 <= i < |s| ==> DigitValue(s[i], radix).Some?
  {
    if s == [] then 0
    else DigitsValue(s[..|s| - 1], radix) * radix + DigitValue(s[|s| - 1], radix).value
  }

  /**
   * `parseInt(s)` without a radix: leading white space, an optional sign, a
   * `0x`/`0X` prefix selecting base 16, then the longest run of digits;
   * `None` stands for `NaN`.
   */
  function ParseInt(s: string): Option<int> {
    var t := TrimStart(s);
    var negative := t != [] && t[0] == '-';
    var u := if t != [] && (t[0] == '-' || t[0] == '+') then t[1..] else t;
    var hex := |u| >= 2 && u[0] == '0' && (u[1] == 'x' || u[1] == 'X');
    var radix := if hex then 16 else 10;
    var digits := LeadingDigits(if hex then u[2..] else u, radix);
    if digits == [] then None
    else
      var v: int := DigitsValue(digits, radix);
      Some(if negative then -v else v)
  }

  function DigitChar(d: nat): (c: char)
    requires d < 10
    ensures IsDigit(c) && DigitValue(c, 10) == Some(d)
  {
    ('0' as int + d) as char
  }

  /** The decimal text of a whole number, as template literals print it. */
  function Decimal(n: nat): (r: string)
    ensures |r| >= 1
    ensures forall i :: 0 <= i < |r| ==> IsDigit(r[i])
    ensures |r| > 1 ==> r[0] != '0'
  {
    if n < 10 then [DigitChar(n)] else Decimal(n / 10) + [DigitChar(n % 10)]
  }

  lemma {:induction false} LeadingDigitsAll(s: string)
    requires forall i :: 0 <= i < |s| ==> IsDigit(s[i])
    ensures LeadingDigits(s, 10) == s
  {
    if s != [] {
      LeadingDigitsAll(s[1..]);
    }
  }

  lemma {:induction false} DecimalValue(n: nat)
    ensures DigitsValue(Decimal(n), 10) == n
  {
    if n >= 10 {
      DecimalValue(n / 10);
      var r := Decimal(n);
      assert r[..|r| - 1] == Decimal(n / 10);
    }
  }

  /** `parseInt` reads back the decimal text of every whole number. */
  lemma ParseIntDecimal(n: nat)
    ensures ParseInt(Decimal(n)) == Some(n)
  {
    var s := Decimal(n);
    assert !IsWhitespace(s[0]);
    assert TrimStart(s) == s;
    assert s[0] != '-' && s[0] != '+';
    assert !(|s| >= 2 && s[0] == '0');
    LeadingDigitsAll(s);
    DecimalValue(n);
  }

  /**
   * `parseInt` is `NaN` when, after leading white space and an optional
   * sign, the text does not start with a decimal digit; an empty field is
   * one such text.
   */
  lemma ParseIntNoDigits(s: string)
    requires var t := TrimStart(s);
      var u := if t != [] && (t[0] == '-' || t[0] == '+') then t[1..] else t;
      u == [] || !IsDigit(u[0])
    ensures ParseInt(s) == None
  {
    var t := TrimStart(s);
    var u := if t != [] && (t[0] == '-' || t[0] == '+') then t[1..] else t;
    if u != [] {
      assert DigitValue(u[0], 10).None?;
    }
  }
}
