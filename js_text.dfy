/**
 * The JavaScript string operations the client relies on (frontend/src/App.jsx):
 * `String.prototype.trim`, `toLowerCase` restricted to ASCII letters, and
 * `includes`.
 */
module JsText {

  /**
   * The characters `trim` removes: ECMAScript WhiteSpace (tab, vertical tab,
   * form feed, space, no-break space, byte order mark and the other Zs space
   * separators) and LineTerminator (line feed, carriage return, line and
   * paragraph separators).
   */
  predicate IsJsWhitespace(c: char) {
    || c == '\t' || c == '\U{000B}' || c == '\U{000C}' || c == ' '
    || c == '\U{00A0}' || c == '\U{FEFF}' || c == '\U{1680}'
    || ('\U{2000}' <= c <= '\U{200A}')
    || c == '\U{202F}' || c == '\U{205F}' || c == '\U{3000}'
    || c == '\n' || c == '\r' || c == '\U{2028}' || c == '\U{2029}'
  }

  /** `s` with its leading whitespace removed. */
  function TrimStart(s: string): (r: string)
    ensures |r| <= |s| && r == s[|s| - |r|..]
    ensures forall i :: 0 <= i < |s| - |r| ==> IsJsWhitespace(s[i])
    ensures r == [] || !IsJsWhitespace(r[0])
  {
    if s != [] && IsJsWhitespace(s[0]) then TrimStart(s[1..]) else s
  }

  /** `s` with its trailing whitespace removed. */
  function TrimEnd(s: string): (r: string)
    ensures |r| <= |s| && r == s[..|r|]
    ensures forall i :: |r| <= i < |s| ==> IsJsWhitespace(s[i])
    ensures r == [] || !IsJsWhitespace(r[|r| - 1])
  {
    if s != [] && IsJsWhitespace(s[|s| - 1]) then TrimEnd(s[..|s| - 1]) else s
  }

  /** `s.trim()`. */
  function Trim(s: string): (r: string)
    ensures |r| <= |s|
    ensures r != [] ==> !IsJsWhitespace(r[0]) && !IsJsWhitespace(r[|r| - 1])
    ensures r == [] <==> forall i :: 0 <= i < |s| ==> IsJsWhitespace(s[i])
  {
    TrimEnd(TrimStart(s))
  }

  /** Where `Trim(s)` starts inside `s`: the number of leading whitespace characters. */
  function TrimOffset(s: string): nat {
    |s| - |TrimStart(s)|
  }

  /** A prefix of a suffix is a slice. */
  lemma SliceOfSuffix(s: string, a: nat, u: string)
    requires a <= |s| && |u| <= |s| - a && u == s[a..][..|u|]
    ensures s[a..a + |u|] == u
  {
  }

  /** The trimmed string is a contiguous piece of the original with only whitespace around it. */
  lemma {:induction false} TrimIsInnerSlice(s: string)
    ensures TrimOffset(s) + |Trim(s)| <= |s|
    ensures s[TrimOffset(s)..TrimOffset(s) + |Trim(s)|] == Trim(s)
    ensures forall i :: 0 <= i < TrimOffset(s) ==> IsJsWhitespace(s[i])
    ensures forall i :: TrimOffset(s) + |Trim(s)| <= i < |s| ==> IsJsWhitespace(s[i])
  {
    var t := TrimStart(s);
    var u := TrimEnd(t);
    var a := |s| - |t|;
    assert Trim(s) == u && TrimOffset(s) == a;
    SliceOfSuffix(s, a, u);
    forall i | a + |u| <= i < |s| ensures IsJsWhitespace(s[i]) {
      assert s[i] == t[i - a];
    }
  }

  /** Trimming twice is trimming once. */
  lemma {:induction false} TrimIdempotent(s: string)
    ensures Trim(Trim(s)) == Trim(s)
  {
    var t := Trim(s);
    assert TrimStart(t) == t;
    assert TrimEnd(t) == t;
  }

  /** ASCII `toLowerCase` of one character. */
  function LowerChar(c: char): (r: char)
    ensures 'A' <= c <= 'Z' ==> 'a' <= r <= 'z' && r as int - c as int == 32
    ensures !('A' <= c <= 'Z') ==> r == c
  {
    if 'A' <= c <= 'Z' then (c as int + 32) as char else c
  }

  /** `s.toLowerCase()` on ASCII letters: every character lowered in place. */
  function LowerAscii(s: string): (r: string)
    ensures |r| == |s|
    ensures forall i :: 0 <= i < |s| ==> r[i] == LowerChar(s[i])
  {
    if s == [] then [] else [LowerChar(s[0])] + LowerAscii(s[1..])
  }

  /** Lowering distributes over slicing. */
  lemma {:induction false} LowerAsciiSlice(s: string, i: nat, j: nat)
    requires i <= j <= |s|
    ensures LowerAscii(s)[i..j] == LowerAscii(s[i..j])
  {
    var l, r := LowerAscii(s)[i..j], LowerAscii(s[i..j]);
    assert |l| == |r|;
    forall k | 0 <= k < |l| ensures l[k] == r[k] {
      assert l[k] == LowerChar(s[i + k]);
    }
  }

  /** `s` holds no upper-case ASCII letter. */
  predicate NoUpper(s: string) {
    forall i :: 0 <= i < |s| ==> !('A' <= s[i] <= 'Z')
  }

  lemma {:induction false} NoUpperAppend(a: string, b: string)
    ensures NoUpper(a + b) <==> NoUpper(a) && NoUpper(b)
  {
    if NoUpper(a + b) {
      forall i | 0 <= i < |b| ensures !('A' <= b[i] <= 'Z') {
        assert (a + b)[|a| + i] == b[i];
      }
      forall i | 0 <= i < |a| ensures !('A' <= a[i] <= 'Z') {
        assert (a + b)[i] == a[i];
      }
    }
  }

  /** Text without upper-case ASCII letters is its own lower-cased form. */
  lemma {:induction false} LowerAsciiNoUpper(s: string)
    requires NoUpper(s)
    ensures LowerAscii(s) == s
  {
    var l := LowerAscii(s);
    forall k | 0 <= k < |s| ensures l[k] == s[k] {
      assert !('A' <= s[k] <= 'Z');
    }
  }

  /** Lowering a capitalised word of otherwise lower-case text changes only its first letter. */
  lemma {:induction false} LowerAsciiCapital(c: char, t: string)
    requires NoUpper(t)
    ensures LowerAscii([c] + t) == [LowerChar(c)] + t
  {
    assert ([c] + t)[1..] == t;
    LowerAsciiNoUpper(t);
  }

  /** A lower-case letter occurs in the lowered text only where it or its capital occurs in the text. */
  lemma {:induction false} LowerAsciiMissing(s: string, c: char)
    requires 'a' <= c <= 'z'
    requires c !in s && (c as int - 32) as char !in s
    ensures c !in LowerAscii(s)
  {
    var l := LowerAscii(s);
    forall k | 0 <= k < |s| ensures l[k] != c {
      assert s[k] in s;
    }
  }

  /** `t` begins with `k`. */
  predicate StartsWith(t: string, k: string) {
    |k| <= |t| && t[..|k|] == k
  }

  /** `s.includes(k)`, by scanning the start positions from left to right. */
  predicate Includes(s: string, k: string) {
    StartsWith(s, k) || (s != [] && Includes(s[1..], k))
  }

  /** The scan finds exactly the positions where `k` occurs. */
  lemma {:induction false} IncludesMeans(s: string, k: string)
    ensures Includes(s, k) <==> exists i :: 0 <= i <= |s| && StartsWith(s[i..], k)
  {
    assert s[0..] == s;
    if s != [] {
      IncludesMeans(s[1..], k);
      if Includes(s[1..], k) {
        var i :| 0 <= i <= |s[1..]| && StartsWith(s[1..][i..], k);
        assert s[1..][i..] == s[i + 1..];
      }
      if i :| 0 <= i <= |s| && StartsWith(s[i..], k) {
        if i > 0 {
          assert s[1..][i - 1..] == s[i..];
        }
      }
    }
  }

  /** A witness position proves an occurrence. */
  lemma IncludesAt(s: string, k: string, i: nat)
    requires i <= |s| && StartsWith(s[i..], k)
    ensures Includes(s, k)
  {
    IncludesMeans(s, k);
  }

  /** A string occurs in any text built around it. */
  lemma IncludesWithin(a: string, k: string, b: string)
    ensures Includes(a + k + b, k)
  {
    assert (a + k + b)[|a|..][..|k|] == k;
    IncludesAt(a + k + b, k, |a|);
  }

  /** An occurrence of a longer string carries an occurrence of each of its pieces. */
  lemma {:induction false} IncludesPiece(s: string, k: string, a: nat, b: nat)
    requires a <= b <= |k|
    requires Includes(s, k)
    ensures Includes(s, k[a..b])
  {
    IncludesMeans(s, k);
    var i :| 0 <= i <= |s| && StartsWith(s[i..], k);
    assert s[i..i + |k|] == k;
    assert s[i + a..][..b - a] == s[i + a..i + b] == k[a..b];
    IncludesAt(s, k[a..b], i + a);
  }

  /** If `w` occurs in `s`, its lower-cased form occurs in the lower-cased `s`. */
  lemma {:induction false} IncludesLowered(s: string, w: string)
    requires Includes(s, w)
    ensures Includes(LowerAscii(s), LowerAscii(w))
  {
    IncludesMeans(s, w);
    var i :| 0 <= i <= |s| && StartsWith(s[i..], w);
    assert s[i..i + |w|] == w;
    LowerAsciiSlice(s, i, i + |w|);
    assert LowerAscii(s)[i..][..|w|] == LowerAscii(s)[i..i + |w|] == LowerAscii(w);
    IncludesAt(LowerAscii(s), LowerAscii(w), i);
  }

  /** A string with a character that `s` lacks does not occur in `s`. */
  lemma {:induction false} MissingCharNotIncluded(s: string, k: string, m: nat)
    requires m < |k| && k[m] !in s
    ensures !Includes(s, k)
  {
    IncludesMeans(s, k);
    forall i | 0 <= i <= |s| ensures !StartsWith(s[i..], k) {
      if i + |k| <= |s| {
        assert s[i + m] in s;
      }
    }
  }

  /**
   * A string starting with `a` then `b` does not occur in `p + [a] + q` when
   * `a` occurs only at the joint and is not followed by `b` there.
   */
  lemma {:induction false} PairNotIncluded(p: string, q: string, k: string)
    requires |k| >= 2
    requires k[0] !in p && k[0] !in q
    requires q == [] || q[0] != k[1]
    ensures !Includes(p + [k[0]] + q, k)
  {
    var s := p + [k[0]] + q;
    IncludesMeans(s, k);
    forall i | 0 <= i <= |s| ensures !StartsWith(s[i..], k) {
      if i + |k| <= |s| {
        if i < |p| {
          assert s[i] == p[i] && p[i] in p;
        } else if i == |p| {
          assert s[i + 1] == q[0];
        } else {
          assert s[i] == q[i - |p| - 1] && q[i - |p| - 1] in q;
        }
      }
    }
  }
}
