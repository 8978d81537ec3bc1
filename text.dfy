/**
 * String primitives of ECMAScript used by the rescuer: `trim`, `split` with a
 * one-character separator, `String(n)` for a natural number and `parseInt`
 * with no radix.
 */
module Text {
  import opened Wrappers

  /** ECMAScript WhiteSpace and LineTerminator code points (what `trim` and `parseInt` skip). */
  predicate IsJsWhitespace(c: char) {
    var n := c as int;
    n == 0x09 || n == 0x0B || n == 0x0C || n == 0x20 || n == 0xA0 || n == 0xFEFF
    || n == 0x0A || n == 0x0D || n == 0x2028 || n == 0x2029
    || n == 0x1680 || (0x2000 <= n <= 0x200A) || n == 0x202F || n == 0x205F || n == 0x3000
  }

  /** `String.prototype.trimStart`: the longest suffix that does not start with white space. */
  function TrimStart(s: string): (r: string)
    ensures |r| <= |s| && r == s[|s| - |r|..]
    ensures r == [] || !IsJsWhitespace(r[0])
    ensures forall i :: 0 <= i < |s| - |r| ==> IsJsWhitespace(s[i])
  {
    if |s| > 0 && IsJsWhitespace(s[0]) then TrimStart(s[1..]) else s
  }

  /** `String.prototype.trimEnd`: the longest prefix that does not end with white space. */
  function TrimEnd(s: string): (r: string)
    ensures |r| <= |s| && r == s[..|r|]
    ensures r == [] || !IsJsWhitespace(r[|r| - 1])
    ensures forall i :: |r| <= i < |s| ==> IsJsWhitespace(s[i])
  {
    if |s| > 0 && IsJsWhitespace(s[|s| - 1]) then TrimEnd(s[..|s| - 1]) else s
  }

  predicate IsTrimmed(s: string) {
    s == [] || (!IsJsWhitespace(s[0]) && !IsJsWhitespace(s[|s| - 1]))
  }

  /** `String.prototype.trim`: white space dropped at both ends. */
  function Trim(s: string): (r: string)
    ensures IsTrimmed(r) && |r| <= |s|
  {
    TrimEnd(TrimStart(s))
  }

  /** What `trim` leaves is a slice of `s`, with only white space cut away on either side. */
  lemma TrimIsSlice(s: string)
    ensures exists i, j ::
              && 0 <= i <= j <= |s| && Trim(s) == s[i..j]
              && (forall k :: 0 <= k < i ==> IsJsWhitespace(s[k]))
              && (forall k :: j <= k < |s| ==> IsJsWhitespace(s[k]))
  {
    var t := TrimStart(s);
    var r := TrimEnd(t);
    var i := |s| - |t|;
    var j := i + |r|;
    assert r == s[i..j];
    assert forall k :: 0 <= k < i ==> IsJsWhitespace(s[k]);
    forall k | j <= k < |s| ensures IsJsWhitespace(s[k]) {
      assert s[k] == t[k - i];
    }
    assert 0 <= i <= j <= |s| && Trim(s) == s[i..j];
  }

  /** `trim` adds no character. */
  lemma TrimMembers(s: string)
    ensures forall c :: c in Trim(s) ==> c in s
  {
    var t := TrimStart(s);
    var r := TrimEnd(t);
    assert forall k :: 0 <= k < |r| ==> r[k] == s[|s| - |t| + k];
  }

  lemma TrimOfTrimmed(s: string)
    requires IsTrimmed(s)
    ensures Trim(s) == s
  {
  }

  /** `s.split(d)` for a one-character separator `d`. */
  function Split(s: string, d: char): (parts: seq<string>)
    ensures |parts| >= 1
    ensures forall p :: p in parts ==> d !in p
  {
    if |s| == 0 then [""]
    else
      var rest := Split(s[1..], d);
      if s[0] == d then [""] + rest
      else [[s[0]] + rest[0]] + rest[1..]
  }

  /** `parts.join(d)`, the inverse of `Split`. */
  function Join(parts: seq<string>, d: char): string
    requires |parts| >= 1
  {
    if |parts| == 1 then parts[0] else parts[0] + [d] + Join(parts[1..], d)
  }

  lemma {:induction false} JoinSplit(s: string, d: char)
    ensures Join(Split(s, d), d) == s
  {
    if |s| > 0 {
      var rest := Split(s[1..], d);
      JoinSplit(s[1..], d);
      if s[0] == d {
        assert Split(s, d)[1..] == rest;
      } else {
        var parts := Split(s, d);
        if |rest| == 1 {
          assert parts == [[s[0]] + rest[0]];
        } else {
          assert parts[1..] == rest[1..];
          assert Join(rest, d) == rest[0] + [d] + Join(rest[1..], d);
        }
      }
    }
  }

  lemma {:induction false} SplitJoin(parts: seq<string>, d: char)
    requires |parts| >= 1
    requires forall p :: p in parts ==> d !in p
    ensures Split(Join(parts, d), d) == parts
  {
    if |parts| == 1 {
      SplitNoSeparator(parts[0], d);
    } else {
      SplitJoin(parts[1..], d);
      SplitPrefix(parts[0], Join(parts[1..], d), d);
      assert [parts[0]] + parts[1..] == parts;
    }
  }

  /** Splitting at one separator concatenates the parts of either side. */
  lemma {:induction false} SplitConcat(a: string, b: string, d: char)
    ensures Split(a + [d] + b, d) == Split(a, d) + Split(b, d)
  {
    var w := a + [d] + b;
    if |a| == 0 {
      SplitPrefix(a, b, d);
    } else {
      assert w[0] == a[0];
      assert w[1..] == a[1..] + [d] + b;
      SplitConcat(a[1..], b, d);
      SplitConcatStep(a, b, d);
    }
  }

  /** The step of `SplitConcat` for a non-empty left side, given the claim for its tail. */
  lemma SplitConcatStep(a: string, b: string, d: char)
    requires |a| > 0
    requires Split(a[1..] + [d] + b, d) == Split(a[1..], d) + Split(b, d)
    ensures Split(a + [d] + b, d) == Split(a, d) + Split(b, d)
  {
    var w := a + [d] + b;
    assert w[0] == a[0] && w[1..] == a[1..] + [d] + b;
    if a[0] == d {
      SplitConcatSeparator(a, b, d, w);
    } else {
      SplitConcatOther(a, b, d, w);
    }
  }

  /** `SplitConcatStep` when the left side starts with the separator. */
  lemma SplitConcatSeparator(a: string, b: string, d: char, w: string)
    requires |a| > 0 && a[0] == d && |w| > 0 && w[0] == a[0]
    requires Split(w[1..], d) == Split(a[1..], d) + Split(b, d)
    ensures Split(w, d) == Split(a, d) + Split(b, d)
  {
    SplitAtSeparator(w, d);
    SplitAtSeparator(a, d);
    ConcatAssoc([""], Split(a[1..], d), Split(b, d));
  }

  /** Concatenation of sequences is associative. */
  lemma ConcatAssoc<T>(x: seq<T>, y: seq<T>, z: seq<T>)
    ensures x + (y + z) == (x + y) + z
  {
  }

  /** `SplitConcatStep` when the left side starts with an ordinary character. */
  lemma SplitConcatOther(a: string, b: string, d: char, w: string)
    requires |a| > 0 && a[0] != d && |w| > 0 && w[0] == a[0]
    requires Split(w[1..], d) == Split(a[1..], d) + Split(b, d)
    ensures Split(w, d) == Split(a, d) + Split(b, d)
  {
    SplitAtOther(w, d);
    SplitAtOther(a, d);
    ExtendFirst(Split(a[1..], d), Split(b, d), a[0]);
  }

  /** A leading separator closes an empty first part. */
  lemma SplitAtSeparator(s: string, d: char)
    requires |s| > 0 && s[0] == d
    ensures Split(s, d) == [""] + Split(s[1..], d)
  {
  }

  /** A leading non-separator joins the first part of the rest. */
  lemma SplitAtOther(s: string, d: char)
    requires |s| > 0 && s[0] != d
    ensures Split(s, d) == [[s[0]] + Split(s[1..], d)[0]] + Split(s[1..], d)[1..]
  {
  }

  /** Prefixing a character to the first part commutes with appending further parts. */
  lemma ExtendFirst(p: seq<string>, q: seq<string>, c: char)
    requires |p| > 0
    ensures [[c] + (p + q)[0]] + (p + q)[1..] == ([[c] + p[0]] + p[1..]) + q
  {
    assert (p + q)[1..] == p[1..] + q;
  }

  lemma {:induction false} SplitNoSeparator(s: string, d: char)
    requires d !in s
    ensures Split(s, d) == [s]
  {
    if |s| > 0 {
      SplitNoSeparator(s[1..], d);
      assert [s[0]] + s[1..] == s;
    }
  }

  lemma {:induction false} SplitPrefix(p: string, t: string, d: char)
    requires d !in p
    ensures Split(p + [d] + t, d) == [p] + Split(t, d)
  {
    if |p| == 0 {
      assert p + [d] + t == [d] + t;
      assert ([d] + t)[1..] == t;
    } else {
      assert (p + [d] + t)[1..] == p[1..] + [d] + t;
      SplitPrefix(p[1..], t, d);
      assert [p[0]] + p[1..] == p;
    }
  }

  // ---- numbers ----

  /** The value of a digit character in `radix` (2..36), as `parseInt` reads it. */
  function DigitValue(c: char, radix: nat): Option<nat> {
    var v :=
      if '0' <= c <= '9' then c as int - '0' as int
      else if 'a' <= c <= 'z' then c as int - 'a' as int + 10
      else if 'A' <= c <= 'Z' then c as int - 'A' as int + 10
      else 36;
    if v < radix then Some(v) else None
  }

  /** The longest prefix of `s` made of digits in `radix`. */
  function DigitPrefix(s: string, radix: nat): (ds: string)
    ensures |ds| <= |s| && ds == s[..|ds|]
    ensures forall c :: c in ds ==> DigitValue(c, radix).Some?
    ensures |ds| < |s| ==> DigitValue(s[|ds|], radix).None?
  {
    if |s| > 0 && DigitValue(s[0], radix).Some? then [s[0]] + DigitPrefix(s[1..], radix) else []
  }

  /** The number that a string of digits in `radix` denotes. */
  function DigitsValue(ds: string, radix: nat): nat
    requires forall c :: c in ds ==> DigitValue(c, radix).Some?
  {
    if |ds| == 0 then 0
    else DigitsValue(ds[..|ds| - 1], radix) * radix + DigitValue(ds[|ds| - 1], radix).value
  }

  /**
   * `parseInt(s)` with no radix: skip leading white space, read an optional
   * sign, a `0x`/`0X` prefix selects base 16, then the longest run of digits
   * is read; `None` is `NaN` (no digit at all).
   */
  function ParseInt(s: string): Option<int> {
    var t := TrimStart(s);
    if |t| > 0 && t[0] == '-' then
      match ParseMagnitude(t[1..])
      case None => None
      case Some(v) => Some(-v)
    else if |t| > 0 && t[0] == '+' then ParseMagnitude(t[1..])
    else ParseMagnitude(t)
  }

  /** The unsigned part of `parseInt`: a `0x`/`0X` prefix selects base 16, otherwise base 10. */
  function ParseMagnitude(u: string): Option<int> {
    if |u| >= 2 && u[0] == '0' && (u[1] == 'x' || u[1] == 'X') then LeadingNumber(u[2..], 16)
    else LeadingNumber(u, 10)
  }

  /** The value of the longest run of `radix` digits at the start of `u`; `None` when there is none. */
  function LeadingNumber(u: string, radix: nat): Option<int> {
    var ds := DigitPrefix(u, radix);
    if |ds| == 0 then None else Some(DigitsValue(ds, radix))
  }

  function DigitChar(d: nat): (c: char)
    requires d < 10
    ensures DigitValue(c, 10) == Some(d)
  {
    (d + '0' as int) as char
  }

  /** `String(k)` for a natural number `k`: its decimal digits, no leading zero. */
  function NatToString(k: nat): (s: string)
    ensures |s| >= 1
    ensures forall c :: c in s ==> '0' <= c <= '9'
    ensures |s| > 1 ==> s[0] != '0'
  {
    if k < 10 then [DigitChar(k)] else NatToString(k / 10) + [DigitChar(k % 10)]
  }

  lemma {:induction false} DecimalValue(k: nat)
    ensures forall c :: c in NatToString(k) ==> DigitValue(c, 10).Some?
    ensures DigitsValue(NatToString(k), 10) == k
  {
    if k >= 10 {
      DecimalValue(k / 10);
      var s := NatToString(k);
      assert s[..|s| - 1] == NatToString(k / 10);
    }
  }

  /** `parseInt` reads back what `String` writes for a natural number. */
  lemma {:induction false} ParseIntNatToString(k: nat)
    ensures ParseInt(NatToString(k)) == Some(k)
  {
    var s := NatToString(k);
    DecimalValue(k);
    assert s[0] in s;
    assert !IsJsWhitespace(s[0]);
    assert TrimStart(s) == s;
    assert s[0] != '-' && s[0] != '+';
    assert |s| >= 2 ==> s[1] in s;
    DigitPrefixAll(s, 10);
    assert ParseMagnitude(s) == LeadingNumber(s, 10);
  }

  lemma {:induction false} DigitPrefixAll(s: string, radix: nat)
    requires forall c :: c in s ==> DigitValue(c, radix).Some?
    ensures DigitPrefix(s, radix) == s
  {
    if |s| > 0 {
      DigitPrefixAll(s[1..], radix);
      assert [s[0]] + s[1..] == s;
    }
  }
}
