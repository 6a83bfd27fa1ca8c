/**
 The two string facts the task validator relies on: what ECMAScript's
 `String.prototype.trim` removes, and what `.length` counts.
 */
module Text {

  /** ECMAScript WhiteSpace and LineTerminator code points: tab, line feed,
      vertical tab, form feed, carriage return, the Unicode space separators
      (category Zs), line and paragraph separator, and the byte order mark. */
  predicate IsWhitespace(c: char) {
    var n := c as int;
    || n == 0x09 || n == 0x0A || n == 0x0B || n == 0x0C || n == 0x0D
    || n == 0x20 || n == 0xA0 || n == 0x1680 || (0x2000 <= n <= 0x200A)
    || n == 0x2028 || n == 0x2029 || n == 0x202F || n == 0x205F
    || n == 0x3000 || n == 0xFEFF
  }

  predicate AllWhitespace(s: string) {
    forall i :: 0 <= i < |s| ==> IsWhitespace(s[i])
  }

  /** Neither starts nor ends with whitespace. */
  predicate IsTrimmed(s: string) {
    s == [] || (!IsWhitespace(s[0]) && !IsWhitespace(s[|s| - 1]))
  }

  /** The number of whitespace characters `s` starts with. */
  function LeadingSpace(s: string): (k: nat)
    ensures k <= |s|
    ensures forall i :: 0 <= i < k ==> IsWhitespace(s[i])
    ensures k == |s| || !IsWhitespace(s[k])
  {
    if |s| == 0 || !IsWhitespace(s[0]) then 0 else 1 + LeadingSpace(s[1..])
  }

  /** The number of whitespace characters `s` ends with. */
  function TrailingSpace(s: string): (k: nat)
    ensures k <= |s|
    ensures forall i :: |s| - k <= i < |s| ==> IsWhitespace(s[i])
    ensures k == |s| || !IsWhitespace(s[|s| - 1 - k])
  {
    if |s| == 0 || !IsWhitespace(s[|s| - 1]) then 0 else 1 + TrailingSpace(s[..|s| - 1])
  }

  /** `r` is the slice of `s` starting at `lead`, and everything of `s`
      before and after that slice is whitespace. */
  predicate PaddedAt(s: string, r: string, lead: int) {
    && 0 <= lead <= |s| - |r|
    && r == s[lead..lead + |r|]
    && (forall i :: 0 <= i < lead ==> IsWhitespace(s[i]))
    && (forall i :: lead + |r| <= i < |s| ==> IsWhitespace(s[i]))
  }

  /** `String.prototype.trim`: the middle slice of `s` left after removing
      whitespace from both ends. */
  function Trim(s: string): (r: string)
    ensures |r| <= |s|
    ensures IsTrimmed(r)
    ensures exists lead :: PaddedAt(s, r, lead)
  {
    var lead := LeadingSpace(s);
    var t := s[lead..];
    var r := t[..|t| - TrailingSpace(t)];
    assert r == s[lead..lead + |r|];
    assert PaddedAt(s, r, lead) by {
      forall i | lead + |r| <= i < |s| ensures IsWhitespace(s[i]) {
        assert s[i] == t[i - lead];
      }
    }
    r
  }

  /** Trim is determined by its contract: whenever `s` splits into whitespace,
      a core that neither starts nor ends with whitespace, and whitespace,
      trimming `s` yields that core. */
  lemma TrimPadded(p: string, m: string, q: string)
    requires AllWhitespace(p) && AllWhitespace(q)
    requires IsTrimmed(m)
    ensures Trim(p + m + q) == m
  {
    var s := p + m + q;
    var lead := LeadingSpace(s);
    var t := s[lead..];
    if m == [] {
      assert forall i :: 0 <= i < |s| ==> IsWhitespace(s[i]) by {
        forall i | 0 <= i < |s| ensures IsWhitespace(s[i]) {
          if i >= |p| { assert s[i] == q[i - |p|]; }
        }
      }
    } else {
      assert forall i :: 0 <= i < |p| ==> s[i] == p[i];
      assert s[|p|] == m[0];
      assert lead == |p|;
      assert t == m + q;
      var trail := TrailingSpace(t);
      assert forall i :: 0 <= i < |q| ==> t[|m| + i] == q[i];
      assert t[|m| - 1] == m[|m| - 1];
      assert trail == |q|;
      assert t[..|t| - trail] == m;
    }
  }

  /** The strings trimming leaves alone are exactly the trimmed ones. */
  lemma TrimFixedPoints(s: string)
    ensures Trim(s) == s <==> IsTrimmed(s)
  {
    if IsTrimmed(s) {
      assert [] + s + [] == s;
      TrimPadded([], s, []);
    }
  }

  /** Trimming an already trimmed string changes nothing. */
  lemma TrimIdempotent(s: string)
    ensures Trim(Trim(s)) == Trim(s)
  {
    TrimFixedPoints(Trim(s));
  }

  /** Trimming yields the empty string exactly when `s` is all whitespace. */
  lemma TrimEmpty(s: string)
    ensures Trim(s) == [] <==> AllWhitespace(s)
  {
    if AllWhitespace(s) {
      assert s == s + [] + [];
      TrimPadded(s, [], []);
    }
  }

  /** JavaScript `.length`: the number of UTF-16 code units, where a code
      point above U+FFFF takes a surrogate pair. */
  function Utf16Length(s: string): (n: nat)
    ensures |s| <= n <= 2 * |s|
    ensures (forall i :: 0 <= i < |s| ==> s[i] as int < 0x1_0000) ==> n == |s|
    ensures |s| == 1 ==> n == CodeUnits(s[0])
  {
    if |s| == 0 then 0
    else CodeUnits(s[0]) + Utf16Length(s[1..])
  }

  /** UTF-16 code units of one code point: two (a surrogate pair) above U+FFFF. */
  function CodeUnits(c: char): nat {
    if c as int < 0x1_0000 then 1 else 2
  }

  /** `.length` of a concatenation is the sum of the lengths; with the
      one-character value this fixes `.length` on every string. */
  lemma {:induction false} Utf16LengthAppend(a: string, b: string)
    ensures Utf16Length(a + b) == Utf16Length(a) + Utf16Length(b)
  {
    if |a| > 0 {
      assert (a + b)[1..] == a[1..] + b;
      Utf16LengthAppend(a[1..], b);
    } else {
      assert a + b == b;
    }
  }

  /** Three code points above U+FFFF (three emoji, say) have `.length` six. */
  lemma AstralLength(s: string)
    requires |s| == 3 && forall i :: 0 <= i < 3 ==> s[i] as int >= 0x1_0000
    ensures Utf16Length(s) == 6
  {
    assert s == [s[0]] + ([s[1]] + [s[2]]);
    Utf16LengthAppend([s[0]], [s[1]] + [s[2]]);
    Utf16LengthAppend([s[1]], [s[2]]);
  }
}
