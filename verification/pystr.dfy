/** The Python string operations generate.py applies to type strings and
    exception labels: `startswith`, `endswith`, `find`, slicing with
    negative indices, `strip`, `title` and `replace(' ', '')`.
 */
module PyStr {
  import PyDict

  predicate StartsWith(s: string, prefix: string) {
    |prefix| <= |s| && s[..|prefix|] == prefix
  }

  predicate EndsWith(s: string, suffix: string) {
    |suffix| <= |s| && s[|s| - |suffix|..] == suffix
  }

  /** `s.find(c)` for a one-character needle: first position, or -1. */
  function Find(s: string, c: char): int {
    PyDict.IndexOf(s, c)
  }

  /** How Python normalises one bound of a slice of a sequence of length `n`:
      a negative bound counts from the end, then the bound is clamped. */
  function SliceBound(i: int, n: nat): (r: nat)
    ensures r <= n
    ensures 0 <= i <= n ==> r == i
    ensures -(n as int) <= i < 0 ==> r == n + i
    ensures i > n ==> r == n
    ensures i < -(n as int) ==> r == 0
  {
    if i < 0 then (if i + n < 0 then 0 else i + n)
    else if i > n then n
    else i
  }

  /** `s[i:j]` */
  function Slice(s: string, i: int, j: int): string {
    var a := SliceBound(i, |s|);
    var b := SliceBound(j, |s|);
    if b <= a then [] else s[a..b]
  }

  /** `c.isspace()`: the characters `str.strip()` removes. */
  predicate IsSpace(c: char) {
    var n := c as int;
    (9 <= n <= 13) || (28 <= n <= 32) || n == 0x85 || n == 0xA0 || n == 0x1680 ||
    (0x2000 <= n <= 0x200A) || n == 0x2028 || n == 0x2029 || n == 0x202F ||
    n == 0x205F || n == 0x3000
  }

  function LStrip(s: string): string {
    if |s| > 0 && IsSpace(s[0]) then LStrip(s[1..]) else s
  }

  function RStrip(s: string): string {
    if |s| > 0 && IsSpace(s[|s| - 1]) then RStrip(s[..|s| - 1]) else s
  }

  /** `s.strip()` */
  function Strip(s: string): string {
    RStrip(LStrip(s))
  }

  /** Stripping removes whitespace padding in front of a string that
      starts and ends with a visible character, and leaves that string
      unchanged. */
  lemma {:induction false} StripPadded(pad: string, x: string)
    requires forall i :: 0 <= i < |pad| ==> IsSpace(pad[i])
    requires |x| > 0 && !IsSpace(x[0]) && !IsSpace(x[|x| - 1])
    ensures Strip(pad + x) == x
  {
    LStripPadded(pad, x);
  }

  lemma {:induction false} LStripPadded(pad: string, x: string)
    requires forall i :: 0 <= i < |pad| ==> IsSpace(pad[i])
    requires |x| > 0 && !IsSpace(x[0])
    ensures LStrip(pad + x) == x
  {
    if |pad| == 0 {
      assert pad + x == x;
    } else {
      assert (pad + x)[1..] == pad[1..] + x;
      LStripPadded(pad[1..], x);
    }
  }

  predicate IsUpper(c: char) { 'A' <= c <= 'Z' }
  predicate IsLower(c: char) { 'a' <= c <= 'z' }
  /** A letter that has case. Letters outside ASCII are not modelled as cased. */
  predicate IsCased(c: char) { IsUpper(c) || IsLower(c) }

  function ToUpper(c: char): (r: char)
    ensures IsCased(c) ==> IsUpper(r)
  {
    if IsLower(c) then (c as int - 32) as char else c
  }

  function ToLower(c: char): (r: char)
    ensures IsCased(c) ==> IsLower(r)
  {
    if IsUpper(c) then (c as int + 32) as char else c
  }

  /** `s.title()`: a cased character is upper-cased when the character
      before it is not cased (or it is first), lower-cased otherwise; other
      characters are unchanged. */
  function Title(s: string): (r: string)
    ensures |r| == |s|
  {
    seq(|s|, i requires 0 <= i < |s| =>
      if !IsCased(s[i]) then s[i]
      else if i > 0 && IsCased(s[i - 1]) then ToLower(s[i])
      else ToUpper(s[i]))
  }

  /** Title-casing works word by word: a boundary after an uncased
      character splits the computation. */
  lemma TitleAppend(a: string, b: string)
    requires |a| > 0 && !IsCased(a[|a| - 1])
    ensures Title(a + b) == Title(a) + Title(b)
  {
  }

  /** `s.replace(c, '')` */
  function DeleteAll(s: string, c: char): (r: string)
    ensures c !in r
  {
    if |s| == 0 then [] else (if s[0] == c then [] else [s[0]]) + DeleteAll(s[1..], c)
  }

  lemma {:induction false} DeleteAllAppend(a: string, b: string, c: char)
    ensures DeleteAll(a + b, c) == DeleteAll(a, c) + DeleteAll(b, c)
  {
    if |a| == 0 {
      assert a + b == b;
    } else {
      assert (a + b)[1..] == a[1..] + b;
      DeleteAllAppend(a[1..], b, c);
    }
  }

  lemma {:induction false} DeleteAllAbsent(s: string, c: char)
    requires c !in s
    ensures DeleteAll(s, c) == s
  {
    if |s| > 0 {
      DeleteAllAbsent(s[1..], c);
    }
  }
}
