/**
 * The string operations the validators and the status badge rely on:
 * ECMAScript `String.prototype.trim`, UTF-16 `length`, ASCII upper-casing
 * and the UUID shape zod's `.uuid()` accepts.
 */
module Text {

  /** WhiteSpace and LineTerminator code points of ECMA-262, the set `trim` strips. */
  predicate IsTrimmable(c: char) {
    c == '\t' || c == '\n' || c == '\U{000B}' || c == '\U{000C}' || c == '\r'
    || c == ' ' || c == '\U{00A0}' || c == '\U{1680}'
    || ('\U{2000}' <= c <= '\U{200A}')
    || c == '\U{2028}' || c == '\U{2029}' || c == '\U{202F}' || c == '\U{205F}'
    || c == '\U{3000}' || c == '\U{FEFF}'
  }

  predicate AllTrimmable(s: string) {
    forall i :: 0 <= i < |s| ==> IsTrimmable(s[i])
  }

  /** Neither end of `s` is trimmable. */
  predicate IsTrimmed(s: string) {
    s == [] || (!IsTrimmable(s[0]) && !IsTrimmable(s[|s| - 1]))
  }

  function TrimStart(s: string): (r: string)
    ensures |r| <= |s| && r == s[|s| - |r|..]
    ensures r == [] || !IsTrimmable(r[0])
    ensures AllTrimmable(s[..|s| - |r|])
  {
    if s != [] && IsTrimmable(s[0]) then TrimStart(s[1..]) else s
  }

  function TrimEnd(s: string): (r: string)
    ensures |r| <= |s| && r == s[..|r|]
    ensures r == [] || !IsTrimmable(r[|r| - 1])
    ensures AllTrimmable(s[|r|..])
  {
    if s != [] && IsTrimmable(s[|s| - 1]) then TrimEnd(s[..|s| - 1]) else s
  }

  /** `s.trim()`: drops the trimmable characters at both ends. */
  function Trim(s: string): (r: string)
    ensures IsTrimmed(r)
    ensures r == [] <==> AllTrimmable(s)
  {
    TrimEmptyIff(s);
    TrimEnd(TrimStart(s))
  }

  lemma TrimEmptyIff(s: string)
    ensures TrimEnd(TrimStart(s)) == [] <==> AllTrimmable(s)
  {
    var a := TrimStart(s);
    if TrimEnd(a) == [] {
      assert a[0..] == a;
      AllTrimmableSplit(s, |s| - |a|);
    }
    if AllTrimmable(s) {
      TrimStartOfAllTrimmable(s);
    }
  }

  lemma AllTrimmableSplit(s: string, k: nat)
    requires k <= |s|
    ensures AllTrimmable(s) <==> AllTrimmable(s[..k]) && AllTrimmable(s[k..])
  {
    if AllTrimmable(s[..k]) && AllTrimmable(s[k..]) {
      forall i | 0 <= i < |s| ensures IsTrimmable(s[i]) {
        if i < k { assert s[i] == s[..k][i]; } else { assert s[i] == s[k..][i - k]; }
      }
    }
  }

  lemma {:induction false} TrimStartOfAllTrimmable(s: string)
    requires AllTrimmable(s)
    ensures TrimStart(s) == []
  {
    if s != [] {
      assert AllTrimmable(s[1..]) by {
        forall i | 0 <= i < |s| - 1 ensures IsTrimmable(s[1..][i]) { assert s[1..][i] == s[i + 1]; }
      }
      TrimStartOfAllTrimmable(s[1..]);
    }
  }

  /** Text with no trimmable end is left alone by `Trim`. */
  lemma TrimOfTrimmed(m: string)
    requires IsTrimmed(m)
    ensures Trim(m) == m
  {
  }

  /**
   * `Trim` is characterised by its result: whenever `s` is some trimmable
   * text, then `m`, then trimmable text, and `m` has no trimmable end, the
   * trim of `s` is `m`.
   */
  lemma {:induction false} TrimUnique(p: string, m: string, q: string)
    requires AllTrimmable(p) && AllTrimmable(q) && IsTrimmed(m)
    ensures Trim(p + m + q) == m
  {
    var s := p + m + q;
    if m == [] {
      assert s[..|p|] == p && s[|p|..] == q;
      AllTrimmableSplit(s, |p|);
    } else {
      assert s == p + (m + q);
      TrimStartOfPadded(p, m + q);
      TrimEndOfPadded(m, q);
    }
  }

  lemma {:induction false} TrimStartOfPadded(p: string, t: string)
    requires AllTrimmable(p) && t != [] && !IsTrimmable(t[0])
    ensures TrimStart(p + t) == t
  {
    if p != [] {
      assert (p + t)[1..] == p[1..] + t;
      assert AllTrimmable(p[1..]) by {
        forall i | 0 <= i < |p| - 1 ensures IsTrimmable(p[1..][i]) { assert p[1..][i] == p[i + 1]; }
      }
      TrimStartOfPadded(p[1..], t);
    } else {
      assert p + t == t;
    }
  }

  lemma {:induction false} TrimEndOfPadded(t: string, q: string)
    requires AllTrimmable(q) && t != [] && !IsTrimmable(t[|t| - 1])
    ensures TrimEnd(t + q) == t
  {
    if q != [] {
      assert (t + q)[..|t + q| - 1] == t + q[..|q| - 1];
      var q' := q[..|q| - 1];
      assert AllTrimmable(q') by {
        forall i | 0 <= i < |q'| ensures IsTrimmable(q'[i]) { assert q'[i] == q[i]; }
      }
      TrimEndOfPadded(t, q');
    } else {
      assert t + q == t;
    }
  }

  /** Trimming twice is trimming once. */
  lemma {:induction false} TrimIdempotent(s: string)
    ensures Trim(Trim(s)) == Trim(s)
  {
    TrimOfTrimmed(Trim(s));
  }

  /** `s.length`: the number of UTF-16 code units, two for a code point above U+FFFF. */
  function Utf16Length(s: string): (n: nat)
    ensures |s| <= n <= 2 * |s|
    ensures n == 0 <==> s == []
  {
    if s == [] then 0 else (if s[0] as int > 0xFFFF then 2 else 1) + Utf16Length(s[1..])
  }

  /** Upper-cases the ASCII letters and leaves every other character alone. */
  function AsciiUpper(s: string): (r: string)
    ensures |r| == |s|
    ensures forall i :: 0 <= i < |s| ==>
      r[i] == if 'a' <= s[i] <= 'z' then (s[i] as int - 32) as char else s[i]
  {
    if s == [] then [] else [UpperChar(s[0])] + AsciiUpper(s[1..])
  }

  function UpperChar(c: char): (u: char) {
    if 'a' <= c <= 'z' then (c as int - 32) as char else c
  }

  predicate IsHexDigit(c: char) {
    ('0' <= c <= '9') || ('a' <= c <= 'f') || ('A' <= c <= 'F')
  }

  /** The 8-4-4-4-12 hexadecimal shape accepted by zod's `.uuid()`. */
  predicate IsUuid(s: string) {
    |s| == 36
    && (forall i :: 0 <= i < 36 && (i == 8 || i == 13 || i == 18 || i == 23) ==> s[i] == '-')
    && (forall i :: 0 <= i < 36 && i != 8 && i != 13 && i != 18 && i != 23 ==> IsHexDigit(s[i]))
  }
}
