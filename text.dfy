/** The few operations on Python `str` values that the protocol code uses:
    `str.strip()`, `str.upper()`, `str.lower()`, `str.startswith` (written
    `p <= s` here) and `str.split(":", 1)[1]`. A Python `str` is a sequence
    of code points, so it is a Dafny `string`. */
module Text {

  /** `str.isspace()` on one code point: exactly the characters Python treats
      as white space and removes in `str.strip()`. */
  predicate IsSpace(c: char) {
    || ('\t' <= c <= '\r')                 // tab, LF, VT, FF, CR
    || ('\U{1C}' <= c <= '\U{1F}')         // file, group, record, unit separators
    || c == ' '
    || c == '\U{85}'                       // next line
    || c == '\U{A0}'                       // no-break space
    || c == '\U{1680}'
    || ('\U{2000}' <= c <= '\U{200A}')
    || c == '\U{2028}' || c == '\U{2029}'
    || c == '\U{202F}' || c == '\U{205F}' || c == '\U{3000}'
  }

  predicate AllSpace(s: string) {
    forall i :: 0 <= i < |s| ==> IsSpace(s[i])
  }

  /** The length of the run of white space that starts `s`. */
  function LeadingSpace(s: string): (n: nat)
    ensures n <= |s|
    ensures AllSpace(s[..n])
    ensures n < |s| ==> !IsSpace(s[n])
  {
    if |s| == 0 || !IsSpace(s[0]) then 0
    else
      var m := LeadingSpace(s[1..]);
      assert s[..m + 1] == [s[0]] + s[1..][..m];
      m + 1
  }

  /** The length of the run of white space that ends `s`. */
  function TrailingSpace(s: string): (n: nat)
    ensures n <= |s|
    ensures AllSpace(s[|s| - n..])
    ensures n < |s| ==> !IsSpace(s[|s| - 1 - n])
  {
    if |s| == 0 || !IsSpace(s[|s| - 1]) then 0
    else
      var p := s[..|s| - 1];
      var m := TrailingSpace(p);
      assert s[|s| - (m + 1)..] == p[|p| - m..] + [s[|s| - 1]];
      m + 1
  }

  /** `str.strip()`: the result neither starts nor ends with white space. */
  function Strip(s: string): (r: string)
    ensures |r| <= |s|
    ensures |r| > 0 ==> !IsSpace(r[0]) && !IsSpace(r[|r| - 1])
  {
    var a := LeadingSpace(s);
    if a == |s| then ""
    else
      var b := TrailingSpace(s);
      assert |s| - b > a;
      s[a..|s| - b]
  }

  /** What `Strip` removes is white space: `s` is white space, then the
      result, then white space. */
  lemma StripSplit(s: string) returns (i: nat)
    ensures i + |Strip(s)| <= |s|
    ensures AllSpace(s[..i]) && s[i..i + |Strip(s)|] == Strip(s) && AllSpace(s[i + |Strip(s)|..])
  {
    i := LeadingSpace(s);
    if i < |s| {
      var b := TrailingSpace(s);
      assert |s| - b > i;
      assert s[i..i + |Strip(s)|] == Strip(s);
    } else {
      assert s[i..] == "";
    }
  }

  /** `Strip` keeps exactly the text between the surrounding white space. */
  lemma {:induction false} StripFramed(a: string, m: string, b: string)
    requires AllSpace(a) && AllSpace(b)
    requires |m| > 0 && !IsSpace(m[0]) && !IsSpace(m[|m| - 1])
    ensures Strip(a + m + b) == m
  {
    var s := a + m + b;
    LeadingSpaceOf(a, m + b);
    assert s == a + (m + b);
    TrailingSpaceOf(a + m, b);
  }

  lemma {:induction false} LeadingSpaceOf(a: string, t: string)
    requires AllSpace(a)
    requires |t| > 0 && !IsSpace(t[0])
    ensures LeadingSpace(a + t) == |a|
  {
    if |a| > 0 {
      assert (a + t)[1..] == a[1..] + t;
      LeadingSpaceOf(a[1..], t);
    } else {
      assert a + t == t;
    }
  }

  lemma {:induction false} TrailingSpaceOf(t: string, b: string)
    requires AllSpace(b)
    requires |t| > 0 && !IsSpace(t[|t| - 1])
    ensures TrailingSpace(t + b) == |b|
  {
    if |b| > 0 {
      assert (t + b)[..|t + b| - 1] == t + b[..|b| - 1];
      TrailingSpaceOf(t, b[..|b| - 1]);
    } else {
      assert t + b == t;
    }
  }

  /** Concatenation is associative; stated once so that proofs in large
      contexts need not rediscover it. */
  lemma AppendAssoc(a: string, b: string, c: string)
    ensures a + b + c == a + (b + c)
  {
  }

  /** A character that is not white space is kept by `Strip`. */
  lemma {:induction false} StripKeeps(s: string, k: nat)
    requires k < |s| && !IsSpace(s[k])
    ensures LeadingSpace(s) <= k < |s| - TrailingSpace(s)
  {
    LeadingSpaceBefore(s, k);
    TrailingSpaceAfter(s, k);
  }

  lemma {:induction false} LeadingSpaceBefore(s: string, k: nat)
    requires k < |s| && !IsSpace(s[k])
    ensures LeadingSpace(s) <= k
  {
    if IsSpace(s[0]) {
      LeadingSpaceBefore(s[1..], k - 1);
    }
  }

  lemma {:induction false} TrailingSpaceAfter(s: string, k: nat)
    requires k < |s| && !IsSpace(s[k])
    ensures k < |s| - TrailingSpace(s)
  {
    if IsSpace(s[|s| - 1]) {
      TrailingSpaceAfter(s[..|s| - 1], k);
    }
  }

  /** The code point `str.upper()` gives for `c`, for ASCII letters. */
  function UpperChar(c: char): (u: char) {
    if 'a' <= c <= 'z' then (c as int - 32) as char else c
  }

  /** The code point `str.lower()` gives for `c`, for ASCII letters. */
  function LowerChar(c: char): (l: char) {
    if 'A' <= c <= 'Z' then (c as int + 32) as char else c
  }

  /** `str.upper()`, character by character: each lower-case ASCII letter
      becomes its capital, every other character is kept. */
  function ToUpper(s: string): (r: string)
    ensures |r| == |s|
    ensures forall i :: 0 <= i < |r| ==> !('a' <= r[i] <= 'z')
    ensures forall i :: 0 <= i < |s| && 'a' <= s[i] <= 'z' ==> r[i] as int == s[i] as int - 32
    ensures forall i :: 0 <= i < |s| && !('a' <= s[i] <= 'z') ==> r[i] == s[i]
  {
    seq(|s|, i requires 0 <= i < |s| => UpperChar(s[i]))
  }

  /** `str.lower()`, character by character: each capital ASCII letter
      becomes its lower-case form, every other character is kept. */
  function ToLower(s: string): (r: string)
    ensures |r| == |s|
    ensures forall i :: 0 <= i < |r| ==> !('A' <= r[i] <= 'Z')
    ensures forall i :: 0 <= i < |s| && 'A' <= s[i] <= 'Z' ==> r[i] as int == s[i] as int + 32
    ensures forall i :: 0 <= i < |s| && !('A' <= s[i] <= 'Z') ==> r[i] == s[i]
  {
    seq(|s|, i requires 0 <= i < |s| => LowerChar(s[i]))
  }

  /** Upper-casing works character by character, so it commutes with
      concatenation and with taking a prefix. */
  lemma ToUpperAppend(s: string, t: string)
    ensures ToUpper(s + t) == ToUpper(s) + ToUpper(t)
  {
  }

  /** The position of the first `c` in `s`. */
  function FirstIndexOf(s: string, c: char): (i: nat)
    requires c in s
    ensures i < |s| && s[i] == c
    ensures c !in s[..i]
  {
    if s[0] == c then 0
    else
      var j := FirstIndexOf(s[1..], c);
      assert s[..j + 1] == [s[0]] + s[1..][..j];
      j + 1
  }

  lemma {:induction false} FirstIndexAt(s: string, c: char, k: nat)
    requires k < |s| && s[k] == c && c !in s[..k]
    ensures FirstIndexOf(s, c) == k
  {
    if k > 0 {
      assert s[0] in s[..k];
      assert s[1..][..k - 1] == s[1..k];
      assert forall x :: x in s[1..k] ==> x in s[..k];
      FirstIndexAt(s[1..], c, k - 1);
    }
  }

  /** `s.split(sep, 1)[1]`: everything after the first `sep`, so `s` is a
      part without `sep`, then `sep`, then the result. */
  function AfterFirst(s: string, sep: char): (r: string)
    requires sep in s
    ensures |r| < |s|
    ensures s == s[..|s| - |r| - 1] + [sep] + r && sep !in s[..|s| - |r| - 1]
  {
    var i := FirstIndexOf(s, sep);
    assert s == s[..i] + [sep] + s[i + 1..];
    s[i + 1..]
  }
}
