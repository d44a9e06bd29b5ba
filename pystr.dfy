/**
 * The parts of Python's `str` and `int` behaviour the bot relies on:
 * `strip`, `split`, `rsplit(_, 1)`, `split(sep, 1)`, `join`, `str(int)`,
 * `int(str)`, ASCII `lower` and slicing with `[:k]`.
 */
module PyStr {
  import opened Wrappers

  predicate IsDigit(c: char) { '0' <= c <= '9' }

  /** The characters for which Python's `str.isspace` holds. */
  predicate IsSpace(c: char)
  {
    c == ' ' || ('\t' <= c <= '\r') || ('\U{1C}' <= c <= '\U{1F}') || c == '\U{85}'
    || c == '\U{A0}' || c == '\U{1680}' || ('\U{2000}' <= c <= '\U{200A}')
    || c == '\U{2028}' || c == '\U{2029}' || c == '\U{202F}' || c == '\U{205F}' || c == '\U{3000}'
  }

  /** `s.lstrip()`: drops the leading whitespace and nothing else. */
  function LStrip(s: string): (r: string)
    ensures |r| <= |s| && r == s[|s| - |r|..]
    ensures r == [] || !IsSpace(r[0])
    ensures forall i :: 0 <= i < |s| - |r| ==> IsSpace(s[i])
  {
    if s != [] && IsSpace(s[0]) then
      var r := LStrip(s[1..]);
      assert s[1..][|s| - 1 - |r|..] == s[|s| - |r|..];
      assert forall i :: 1 <= i < |s| - |r| ==> s[i] == s[1..][i - 1];
      r
    else s
  }

  /** `s.rstrip()`: drops the trailing whitespace and nothing else. */
  function RStrip(s: string): (r: string)
    ensures |r| <= |s| && r == s[..|r|]
    ensures r == [] || !IsSpace(r[|r| - 1])
    ensures forall i :: |r| <= i < |s| ==> IsSpace(s[i])
  {
    if s != [] && IsSpace(s[|s| - 1]) then
      var r := RStrip(s[..|s| - 1]);
      assert s[..|s| - 1][..|r|] == s[..|r|];
      assert forall i :: |r| <= i < |s| - 1 ==> s[i] == s[..|s| - 1][i];
      r
    else s
  }

  /** `s.strip()`. */
  function Strip(s: string): (r: string)
    ensures |r| <= |s|
    ensures r == [] || (!IsSpace(r[0]) && !IsSpace(r[|r| - 1]))
  {
    RStrip(LStrip(s))
  }

  /** A string that starts and ends with a non-space character is its own `strip()`. */
  lemma StripTrimmed(s: string)
    requires s == [] || (!IsSpace(s[0]) && !IsSpace(s[|s| - 1]))
    ensures Strip(s) == s
  {
  }

  /** Number of occurrences of `c` in `s`. */
  function Count(s: string, c: char): (n: nat)
    ensures n <= |s|
    ensures n == 0 <==> c !in s
  {
    if s == [] then 0 else (if s[0] == c then 1 else 0) + Count(s[1..], c)
  }

  /** `s.split(c)` for a one-character separator: never empty. */
  function Split(s: string, c: char): (parts: seq<string>)
    ensures |parts| >= 1
    decreases |s|
  {
    if s == [] then [""]
    else if s[0] == c then [""] + Split(s[1..], c)
    else
      var rest := Split(s[1..], c);
      [[s[0]] + rest[0]] + rest[1..]
  }

  /** `c.join(parts)`. */
  function Join(parts: seq<string>, c: char): (s: string)
  {
    if parts == [] then ""
    else if |parts| == 1 then parts[0]
    else parts[0] + [c] + Join(parts[1..], c)
  }

  lemma {:induction false} CountAppend(a: string, b: string, c: char)
    ensures Count(a + b, c) == Count(a, c) + Count(b, c)
    decreases |a|
  {
    if a == [] {
      assert a + b == b;
    } else {
      assert (a + b)[1..] == a[1..] + b;
      CountAppend(a[1..], b, c);
    }
  }

  /** Splitting yields one more piece than there are separators. */
  lemma {:induction false} SplitLength(s: string, c: char)
    ensures |Split(s, c)| == Count(s, c) + 1
    decreases |s|
  {
    if s != [] {
      SplitLength(s[1..], c);
    }
  }

  /** A string without the separator splits into itself. */
  lemma {:induction false} SplitNoSeparator(s: string, c: char)
    requires c !in s
    ensures Split(s, c) == [s]
    decreases |s|
  {
    if s != [] {
      assert c !in s[1..];
      SplitNoSeparator(s[1..], c);
      assert [s[0]] + s[1..] == s;
    }
  }

  /** A separator between `a` and `b` splits the two sides independently. */
  /** The pieces of `[x] + s` given the pieces `rest` of `s`. */
  function ConsPiece(x: char, c: char, rest: seq<string>): seq<string>
    requires |rest| >= 1
  {
    if x == c then [""] + rest else [[x] + rest[0]] + rest[1..]
  }

  /** Splitting a string that starts with `x` unfolds once. */
  lemma SplitCons(x: char, s: string, c: char)
    ensures Split([x] + s, c) == ConsPiece(x, c, Split(s, c))
  {
    assert ([x] + s)[0] == x && ([x] + s)[1..] == s;
  }

  /** A leading character only ever touches the first piece. */
  lemma ConsPieceAppend(x: char, c: char, r: seq<string>, tail: seq<string>)
    requires |r| >= 1
    ensures ConsPiece(x, c, r + tail) == ConsPiece(x, c, r) + tail
  {
    if x != c {
      assert (r + tail)[0] == r[0];
      assert (r + tail)[1..] == r[1..] + tail;
    }
  }

  lemma {:induction false} SplitAround(a: string, b: string, c: char)
    ensures Split(a + [c] + b, c) == Split(a, c) + Split(b, c)
    decreases |a|
  {
    if a == [] {
      assert a + [c] + b == [c] + b;
      SplitCons(c, b, c);
    } else {
      var t := a[1..] + [c] + b;
      SplitAround(a[1..], b, c);
      SplitCons(a[0], t, c);
      SplitCons(a[0], a[1..], c);
      ConsPieceAppend(a[0], c, Split(a[1..], c), Split(b, c));
      assert [a[0]] + a[1..] == a;
      assert [a[0]] + t == a + [c] + b;
    }
  }

  /** Three fields around two separators split back into themselves exactly when the first two lack it. */
  lemma SplitFields3(a: string, b: string, c: string, sep: char)
    requires sep !in c
    ensures |Split(a + [sep] + b + [sep] + c, sep)| == 3 <==> sep !in a && sep !in b
    ensures sep !in a && sep !in b ==> Split(a + [sep] + b + [sep] + c, sep) == [a, b, c]
  {
    var s := a + [sep] + b + [sep] + c;
    var ab := a + [sep] + b;
    assert s == ab + ([sep] + c);
    assert ab == a + ([sep] + b);
    CountAppend(ab, [sep] + c, sep);
    CountAppend(a, [sep] + b, sep);
    CountAppend([sep], b, sep);
    CountAppend([sep], c, sep);
    SplitLength(s, sep);
    if sep !in a && sep !in b {
      SplitAround(ab, c, sep);
      SplitAround(a, b, sep);
      SplitNoSeparator(a, sep);
      SplitNoSeparator(b, sep);
      SplitNoSeparator(c, sep);
    }
  }

  /** Four fields around three separators split back into themselves exactly when none holds it. */
  lemma SplitFields4(a: string, b: string, c: string, d: string, sep: char)
    ensures |Split(a + [sep] + b + [sep] + c + [sep] + d, sep)| == 4 <==>
              sep !in a && sep !in b && sep !in c && sep !in d
    ensures sep !in a && sep !in b && sep !in c && sep !in d ==>
              Split(a + [sep] + b + [sep] + c + [sep] + d, sep) == [a, b, c, d]
  {
    var s := a + [sep] + b + [sep] + c + [sep] + d;
    SplitFields4Count(a, b, c, d, sep);
    SplitLength(s, sep);
    if sep !in a && sep !in b && sep !in c && sep !in d {
      var abc := a + [sep] + b + [sep] + c;
      SplitFields3(a, b, c, sep);
      SplitAround(abc, d, sep);
      SplitNoSeparator(d, sep);
    }
  }

  lemma SplitFields4Count(a: string, b: string, c: string, d: string, sep: char)
    ensures Count(a + [sep] + b + [sep] + c + [sep] + d, sep)
            == Count(a, sep) + Count(b, sep) + Count(c, sep) + Count(d, sep) + 3
  {
    var abc := a + [sep] + b + [sep] + c;
    assert abc + [sep] + d == abc + ([sep] + d);
    CountAppend(abc, [sep] + d, sep);
    CountAppend([sep], d, sep);
    SplitFields3Count(a, b, c, sep);
  }

  lemma SplitFields3Count(a: string, b: string, c: string, sep: char)
    ensures Count(a + [sep] + b + [sep] + c, sep) == Count(a, sep) + Count(b, sep) + Count(c, sep) + 2
  {
    var ab := a + [sep] + b;
    assert a + [sep] + b + [sep] + c == ab + ([sep] + c);
    assert ab == a + ([sep] + b);
    CountAppend(ab, [sep] + c, sep);
    CountAppend(a, [sep] + b, sep);
    CountAppend([sep], b, sep);
    CountAppend([sep], c, sep);
  }

  /** `split` undoes `join` when no piece contains the separator. */
  lemma {:induction false} SplitJoin(parts: seq<string>, c: char)
    requires |parts| >= 1
    requires forall i :: 0 <= i < |parts| ==> c !in parts[i]
    ensures Split(Join(parts, c), c) == parts
    decreases |parts|
  {
    if |parts| == 1 {
      SplitNoSeparator(parts[0], c);
    } else {
      SplitJoin(parts[1..], c);
      SplitNoSeparator(parts[0], c);
      SplitAround(parts[0], Join(parts[1..], c), c);
      assert [parts[0]] + parts[1..] == parts;
    }
  }

  /** Index of the first occurrence of `sep` in `s` at or after `from`. */
  function FindFrom(s: string, sep: string, from: nat): (r: Option<nat>)
    requires |sep| > 0
    ensures r.Some? ==> from <= r.value && r.value + |sep| <= |s| && sep <= s[r.value..]
    decreases |s| - from
  {
    if from + |sep| > |s| then None
    else if sep <= s[from..] then Some(from)
    else FindFrom(s, sep, from + 1)
  }

  /**
   * `s.split(sep, 1)[1]`: the text after the first occurrence of `sep`;
   * `None` where Python raises `IndexError` (no occurrence).
   */
  function AfterFirst(s: string, sep: string): (r: Option<string>)
    requires |sep| > 0
    ensures sep <= s ==> r == Some(s[|sep|..])
  {
    match FindFrom(s, sep, 0)
    case None => None
    case Some(i) => Some(s[i + |sep|..])
  }

  /** No occurrence of `sep` can start where its first character does not appear. */
  lemma {:induction false} FindFromAbsent(s: string, sep: string, from: nat)
    requires |sep| > 0 && from <= |s|
    requires sep[0] !in s[from..]
    ensures FindFrom(s, sep, from) == None
    decreases |s| - from
  {
    if from + |sep| <= |s| {
      assert s[from..][0] == s[from];
      assert s[from + 1..] == s[from..][1..];
      FindFromAbsent(s, sep, from + 1);
    }
  }

  /**
   * `s.split(sep)[1]`: the text between the first and the second occurrence
   * of `sep` (or the end); `None` where Python raises `IndexError`.
   */
  function SecondField(s: string, sep: string): (r: Option<string>)
    requires |sep| > 0
  {
    match AfterFirst(s, sep)
    case None => None
    case Some(rest) =>
      match FindFrom(rest, sep, 0)
      case None => Some(rest)
      case Some(j) => Some(rest[..j])
  }

  /** `(sep + t).split(sep)[1] == t` when `t` cannot hold another `sep`. */
  lemma SecondFieldAfterPrefix(sep: string, t: string)
    requires |sep| > 0 && sep[0] !in t
    ensures SecondField(sep + t, sep) == Some(t)
  {
    var s := sep + t;
    assert s[|sep|..] == t;
    FindFromAbsent(t, sep, 0);
    assert t[0..] == t;
  }

  /** Index of the last occurrence of `c` in `s`. */
  function LastIndex(s: string, c: char): (r: Option<nat>)
    ensures r.Some? ==> r.value < |s| && s[r.value] == c && c !in s[r.value + 1..]
    ensures r.None? ==> c !in s
    decreases |s|
  {
    if s == [] then None
    else if s[|s| - 1] == c then Some(|s| - 1)
    else
      assert s == s[..|s| - 1] + [s[|s| - 1]];
      LastIndex(s[..|s| - 1], c)
  }

  /**
   * `s.rsplit(c, 1)` when it yields two pieces; `None` when `c` does not
   * occur (Python then yields one piece).
   */
  function RSplitOnce(s: string, c: char): (r: Option<(string, string)>)
    ensures r.None? <==> c !in s
    ensures r.Some? ==> s == r.value.0 + [c] + r.value.1 && c !in r.value.1
  {
    match LastIndex(s, c)
    case None => None
    case Some(i) =>
      assert s == s[..i] + [c] + s[i + 1..];
      Some((s[..i], s[i + 1..]))
  }

  /** `rsplit` finds the separator placed before a tail that lacks it. */
  lemma RSplitOnceAround(a: string, b: string, c: char)
    requires c !in b
    ensures RSplitOnce(a + [c] + b, c) == Some((a, b))
  {
    var s := a + [c] + b;
    assert s[|a|] == c;
    var i := LastIndex(s, c).value;
    assert i == |a|;
    assert s[..i] == a;
    assert s[i + 1..] == b;
  }

  function DigitChar(d: nat): (c: char)
    requires d < 10
    ensures IsDigit(c)
  {
    "0123456789"[d]
  }

  function DigitValue(c: char): (d: nat)
    requires IsDigit(c)
    ensures d < 10
  {
    (c as int - '0' as int) as nat
  }

  /** `str(n)` for a non-negative integer. */
  function NatToString(n: nat): (s: string)
    ensures |s| >= 1
    ensures forall i :: 0 <= i < |s| ==> IsDigit(s[i])
  {
    if n < 10 then [DigitChar(n)] else NatToString(n / 10) + [DigitChar(n % 10)]
  }

  /** `str(n)` for any integer. */
  function IntToString(n: int): (s: string)
    ensures |s| >= 1
    ensures forall i :: 0 <= i < |s| ==> IsDigit(s[i]) || (i == 0 && s[i] == '-')
  {
    if n < 0 then "-" + NatToString(-n) else NatToString(n)
  }

  /** Decimal value of a string of digits (most significant first). */
  function DigitsValue(s: string): nat
    requires forall i :: 0 <= i < |s| ==> IsDigit(s[i])
  {
    if s == [] then 0 else DigitsValue(s[..|s| - 1]) * 10 + DigitValue(s[|s| - 1])
  }

  /** The digits of `s` with Python's `_` group separators removed. */
  function WithoutUnderscores(s: string): (r: string)
    ensures |r| <= |s|
    ensures (forall i :: 0 <= i < |s| ==> IsDigit(s[i]) || s[i] == '_') ==>
              forall i :: 0 <= i < |r| ==> IsDigit(r[i])
  {
    if s == [] then [] else (if s[0] == '_' then [] else [s[0]]) + WithoutUnderscores(s[1..])
  }

  /**
   * A decimal literal as `int()` accepts it: digits, optionally grouped by
   * single underscores that neither lead nor trail.
   */
  predicate IsDecimalLiteral(s: string)
  {
    |s| > 0 && IsDigit(s[0]) && IsDigit(s[|s| - 1])
    && (forall i :: 0 <= i < |s| ==> IsDigit(s[i]) || s[i] == '_')
    && NoDoubleUnderscore(s)
  }

  /** No two neighbouring characters of `s` are both `_`. */
  predicate NoDoubleUnderscore(s: string)
    decreases |s|
  {
    |s| < 2 || (!(s[0] == '_' && s[1] == '_') && NoDoubleUnderscore(s[1..]))
  }

  lemma {:induction false} DigitsHaveNoDoubleUnderscore(s: string)
    requires forall i :: 0 <= i < |s| ==> IsDigit(s[i])
    ensures NoDoubleUnderscore(s)
    decreases |s|
  {
    if |s| >= 2 {
      DigitsHaveNoDoubleUnderscore(s[1..]);
    }
  }

  /**
   * `int(s)` for a `str` argument in base 10: surrounding whitespace, an
   * optional sign and underscore grouping are accepted; `None` where Python
   * raises `ValueError`.
   */
  function ParseInt(s: string): (r: Option<int>)
  {
    var t := Strip(s);
    if t == [] then None
    else
      var negative := t[0] == '-';
      var body := if t[0] == '-' || t[0] == '+' then t[1..] else t;
      if !IsDecimalLiteral(body) then None
      else
        var v: int := DigitsValue(WithoutUnderscores(body));
        Some(if negative then -v else v)
  }

  lemma {:induction false} DigitsValueOfNatToString(n: nat)
    ensures DigitsValue(NatToString(n)) == n
  {
    var s := NatToString(n);
    if n >= 10 {
      DigitsValueOfNatToString(n / 10);
      assert s[..|s| - 1] == NatToString(n / 10);
    }
  }

  lemma {:induction false} WithoutUnderscoresOfDigits(s: string)
    requires forall i :: 0 <= i < |s| ==> IsDigit(s[i])
    ensures WithoutUnderscores(s) == s
    decreases |s|
  {
    if s != [] {
      WithoutUnderscoresOfDigits(s[1..]);
      assert [s[0]] + s[1..] == s;
    }
  }

  /** `int(str(n)) == n` for every integer. */
  lemma ParseIntToString(n: int)
    ensures ParseInt(IntToString(n)) == Some(n)
  {
    var s := IntToString(n);
    var m: nat := if n < 0 then -n else n;
    assert !IsSpace(s[0]) && !IsSpace(s[|s| - 1]);
    StripTrimmed(s);
    var body := NatToString(m);
    assert (if s[0] == '-' || s[0] == '+' then s[1..] else s) == body;
    DigitsLiteral(body);
    DigitsValueOfNatToString(m);
  }

  /** A run of digits is a decimal literal without grouping. */
  lemma DigitsLiteral(body: string)
    requires |body| > 0 && forall i :: 0 <= i < |body| ==> IsDigit(body[i])
    ensures IsDecimalLiteral(body) && WithoutUnderscores(body) == body
  {
    DigitsHaveNoDoubleUnderscore(body);
    WithoutUnderscoresOfDigits(body);
  }

  /** `str(n)` contains only digits and a leading minus, so no separator the bot's payloads use. */
  lemma IntToStringHasNoSeparator(n: int, c: char)
    requires !IsDigit(c) && c != '-'
    ensures c !in IntToString(n)
  {
  }

  /** ASCII part of `str.lower`. */
  function LowerChar(c: char): (r: char)
    ensures 'A' <= c <= 'Z' ==> r as int == c as int + 32
    ensures !('A' <= c <= 'Z') ==> r == c
  {
    if 'A' <= c <= 'Z' then (c as int + 32) as char else c
  }

  function Lower(s: string): (r: string)
    ensures |r| == |s|
    ensures forall i :: 0 <= i < |s| ==> r[i] == LowerChar(s[i])
  {
    if s == [] then [] else [LowerChar(s[0])] + Lower(s[1..])
  }

  /** `s[:k]` for `k >= 0`. */
  function Take(s: string, k: nat): (r: string)
    ensures |r| == if |s| < k then |s| else k
    ensures r <= s
  {
    if |s| <= k then s else s[..k]
  }
}
