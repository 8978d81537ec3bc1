/** Folder and game names reduced to a matching key (`normalizeName`). */
module Names {

  /** `toUpperCase` on one character, for the ASCII range. */
  function ToUpperAscii(c: char): (u: char)
    ensures 'a' <= c <= 'z' ==> 'A' <= u <= 'Z' && u as int == c as int - 32
    ensures !('a' <= c <= 'z') ==> u == c
  {
    if 'a' <= c <= 'z' then (c as int - 32) as char else c
  }

  /** The characters `[A-Z0-9]` that `normalizeName` keeps. */
  predicate IsKeyChar(c: char) {
    'A' <= c <= 'Z' || '0' <= c <= '9'
  }

  /** ASCII letters and digits, the input characters that survive normalisation. */
  predicate IsAsciiAlnum(c: char) {
    'a' <= c <= 'z' || 'A' <= c <= 'Z' || '0' <= c <= '9'
  }

  predicate IsKey(s: string) {
    forall c :: c in s ==> IsKeyChar(c)
  }

  function UpperCase(s: string): (r: string)
    ensures |r| == |s|
  {
    seq(|s|, i requires 0 <= i < |s| => ToUpperAscii(s[i]))
  }

  /** `replace(/[^A-Z0-9]/g, '')`. */
  function KeepKeyChars(s: string): (r: string)
    ensures IsKey(r)
    ensures |r| <= |s|
  {
    if |s| == 0 then []
    else (if IsKeyChar(s[0]) then [s[0]] else []) + KeepKeyChars(s[1..])
  }

  /** `normalizeName`: upper-case, then drop every character outside `[A-Z0-9]`. */
  function NormalizeName(name: string): (r: string)
    ensures IsKey(r)
    ensures |r| <= |name|
  {
    KeepKeyChars(UpperCase(name))
  }

  lemma {:induction false} KeepKeyCharsOfKey(s: string)
    requires IsKey(s)
    ensures KeepKeyChars(s) == s
  {
    if |s| > 0 {
      assert s[0] in s;
      KeepKeyCharsOfKey(s[1..]);
      assert [s[0]] + s[1..] == s;
    }
  }

  /** A string that is already a key is left alone; in particular normalising twice changes nothing. */
  lemma NormalizeKey(s: string)
    requires IsKey(s)
    ensures NormalizeName(s) == s
  {
    assert UpperCase(s) == s by {
      forall i | 0 <= i < |s| ensures UpperCase(s)[i] == s[i] {
        assert s[i] in s;
      }
    }
    KeepKeyCharsOfKey(s);
  }

  lemma NormalizeIdempotent(name: string)
    ensures NormalizeName(NormalizeName(name)) == NormalizeName(name)
  {
    NormalizeKey(NormalizeName(name));
  }

  lemma {:induction false} KeepKeyCharsAppend(a: string, b: string)
    ensures KeepKeyChars(a + b) == KeepKeyChars(a) + KeepKeyChars(b)
  {
    if |a| > 0 {
      assert (a + b)[1..] == a[1..] + b;
      KeepKeyCharsAppend(a[1..], b);
    } else {
      assert a + b == b;
    }
  }

  /** Normalisation works character by character and keeps the order of what it keeps. */
  lemma NormalizeAppend(a: string, b: string)
    ensures NormalizeName(a + b) == NormalizeName(a) + NormalizeName(b)
  {
    UpperCaseAppend(a, b);
    KeepKeyCharsAppend(UpperCase(a), UpperCase(b));
  }

  lemma UpperCaseAppend(a: string, b: string)
    ensures UpperCase(a + b) == UpperCase(a) + UpperCase(b)
  {
    var l, r := UpperCase(a + b), UpperCase(a) + UpperCase(b);
    forall i | 0 <= i < |l| ensures l[i] == r[i] {
      if i < |a| {
        assert (a + b)[i] == a[i];
      } else {
        assert (a + b)[i] == b[i - |a|];
      }
    }
  }

  /** One character: an ASCII letter or digit becomes its upper-case form, anything else disappears. */
  lemma NormalizeChar(c: char)
    ensures NormalizeName([c]) == if IsAsciiAlnum(c) then [ToUpperAscii(c)] else []
  {
    assert UpperCase([c]) == [ToUpperAscii(c)];
    assert KeepKeyChars([ToUpperAscii(c)]) == (if IsKeyChar(ToUpperAscii(c)) then [ToUpperAscii(c)] else []) + KeepKeyChars([]);
  }
}
