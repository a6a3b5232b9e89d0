/** Characters and strings as the extraction code sees them: Python's `str.lower`,
    `str.strip`, `' '.join`, the `in` operator on strings, and the character
    classes `\s` and `\d` of Python's `re` module. */
module Text {
  import opened Base

  /** Python's `str.isspace()`, which is also what `\s` matches in a `str` pattern
      and what `str.strip()` removes: U+0009..U+000D, U+001C..U+001F, the space,
      U+0085, U+00A0, U+1680, U+2000..U+200A, U+2028, U+2029, U+202F, U+205F, U+3000. */
  predicate IsBlank(c: char) {
    var n := c as int;
    (9 <= n <= 13) || (28 <= n <= 32) || n == 0x85 || n == 0xA0 || n == 0x1680 ||
    (0x2000 <= n <= 0x200A) || n == 0x2028 || n == 0x2029 || n == 0x202F ||
    n == 0x205F || n == 0x3000
  }

  /** `\d`, restricted to the ASCII digits. */
  predicate IsDigit(c: char) {
    '0' <= c <= '9'
  }

  /** An upper-case letter that `LowerChar` folds: A..Z and the Latin-1 capitals
      U+00C0..U+00DE other than the multiplication sign U+00D7. */
  predicate IsUpper(c: char) {
    ('A' <= c <= 'Z') || ('À' <= c <= 'Þ' && c != '×')
  }

  /** `str.lower()` on one character; each of these capitals lies 32 code points
      below its small letter. */
  function LowerChar(c: char): (r: char)
    ensures !IsUpper(r)
    ensures !IsUpper(c) ==> r == c
  {
    if IsUpper(c) then (c as int + 32) as char else c
  }

  /** `str.lower()`, one character at a time. */
  function Lower(s: string): (r: string)
    ensures |r| == |s|
    ensures forall i :: 0 <= i < |s| ==> r[i] == LowerChar(s[i])
  {
    if s == [] then [] else [LowerChar(s[0])] + Lower(s[1..])
  }

  /** A string with no capital that `Lower` would change. */
  predicate IsLowerCase(s: string) {
    forall i :: 0 <= i < |s| ==> !IsUpper(s[i])
  }

  lemma LowerIsLowerCase(s: string)
    ensures IsLowerCase(Lower(s))
  {
  }

  /** Lower-casing twice is lower-casing once, and a lower-case string is left as is. */
  lemma LowerIdempotent(s: string)
    ensures IsLowerCase(s) ==> Lower(s) == s
    ensures Lower(Lower(s)) == Lower(s)
  {
    LowerIsLowerCase(s);
    assert IsLowerCase(s) ==> Lower(s) == s by {
      if IsLowerCase(s) {
        assert forall i :: 0 <= i < |s| ==> Lower(s)[i] == s[i];
      }
    }
  }

  /** `w` occurs in `t` starting at index `i`. */
  predicate OccursAt(w: string, t: string, i: nat) {
    i + |w| <= |t| && t[i..i + |w|] == w
  }

  /** Python's `w in t` for two strings: `w` occurs somewhere in `t`. */
  predicate Contains(t: string, w: string) {
    exists i :: 0 <= i <= |t| - |w| && OccursAt(w, t, i)
  }

  /** Where `w` occurs in `t` at or after `from`, the leftmost such index. */
  function FindFrom(w: string, t: string, from: nat): (r: Option<nat>)
    decreases |t| - from
    ensures r.Some? ==> from <= r.value && OccursAt(w, t, r.value)
    ensures r.Some? ==> forall j :: from <= j < r.value ==> !OccursAt(w, t, j)
    ensures r.None? ==> forall j :: from <= j ==> !OccursAt(w, t, j)
  {
    if from + |w| > |t| then None
    else if OccursAt(w, t, from) then Some(from)
    else FindFrom(w, t, from + 1)
  }

  /** `Contains` is decided by the left-to-right search. */
  lemma {:induction false} ContainsIffFound(t: string, w: string)
    ensures Contains(t, w) <==> FindFrom(w, t, 0).Some?
  {
    var r := FindFrom(w, t, 0);
    if r.Some? {
      assert 0 <= r.value <= |t| - |w| && OccursAt(w, t, r.value);
    }
  }

  /** Length of the run of blanks that starts at `i`, taken as long as possible,
      as `\s+` and `\s*` take it first. */
  function BlankRun(t: string, i: nat): (n: nat)
    requires i <= |t|
    decreases |t| - i
    ensures i + n <= |t|
  {
    if i < |t| && IsBlank(t[i]) then 1 + BlankRun(t, i + 1) else 0
  }

  /** The run is made of blanks and stops at the end of the text or at a non-blank. */
  lemma {:induction false} BlankRunSpan(t: string, i: nat)
    requires i <= |t|
    decreases |t| - i
    ensures forall k :: i <= k < i + BlankRun(t, i) ==> IsBlank(t[k])
    ensures i + BlankRun(t, i) == |t| || !IsBlank(t[i + BlankRun(t, i)])
  {
    if i < |t| && IsBlank(t[i]) {
      BlankRunSpan(t, i + 1);
    }
  }

  /** Length of the run of digits that starts at `i`, taken as long as possible. */
  function DigitRun(t: string, i: nat): (n: nat)
    requires i <= |t|
    decreases |t| - i
    ensures i + n <= |t|
    ensures forall k :: i <= k < i + n ==> IsDigit(t[k])
    ensures i + n == |t| || !IsDigit(t[i + n])
  {
    if i < |t| && IsDigit(t[i]) then 1 + DigitRun(t, i + 1) else 0
  }

  /** The run is exactly the digits up to the first non-digit. */
  lemma DigitRunIs(t: string, i: nat, n: nat)
    requires i + n <= |t|
    requires forall k :: i <= k < i + n ==> IsDigit(t[k])
    requires i + n == |t| || !IsDigit(t[i + n])
    ensures DigitRun(t, i) == n
  {
  }

  /** Python's `str.strip()`: the string without its leading and trailing blanks. */
  function Strip(s: string): (r: string)
    ensures exists a, b :: 0 <= a <= b <= |s| && r == s[a..b] &&
                          (forall k :: 0 <= k < a ==> IsBlank(s[k])) &&
                          (forall k :: b <= k < |s| ==> IsBlank(s[k]))
    ensures r == [] || (!IsBlank(r[0]) && !IsBlank(r[|r| - 1]))
  {
    BlankRunSpan(s, 0);
    var a := BlankRun(s, 0);
    if a == |s| then
      assert s[a..a] == [];
      []
    else
      var b := |s| - TrailingBlanks(s, |s|);
      assert a < b by {
        assert !IsBlank(s[a]);
      }
      s[a..b]
  }

  /** Number of blanks that end `s[..j]`. */
  function TrailingBlanks(s: string, j: nat): (n: nat)
    requires j <= |s|
    ensures n <= j
    ensures forall k :: j - n <= k < j ==> IsBlank(s[k])
    ensures n == j || !IsBlank(s[j - n - 1])
  {
    if j > 0 && IsBlank(s[j - 1]) then 1 + TrailingBlanks(s, j - 1) else 0
  }

  /** Python's `sep.join(parts)` with a one-character separator. */
  function Join(parts: seq<string>, sep: char): string {
    if parts == [] then ""
    else if |parts| == 1 then parts[0]
    else parts[0] + [sep] + Join(parts[1..], sep)
  }

  function TotalLength(parts: seq<string>): nat {
    if parts == [] then 0 else |parts[0]| + TotalLength(parts[1..])
  }

  /** Joining k strings puts exactly k - 1 separators between them. */
  lemma {:induction false} JoinLength(parts: seq<string>, sep: char)
    requires parts != []
    ensures |Join(parts, sep)| == TotalLength(parts) + |parts| - 1
  {
    if |parts| > 1 {
      JoinLength(parts[1..], sep);
    }
  }

  /** Adding one more part appends one separator and that part. */
  lemma {:induction false} JoinSnoc(parts: seq<string>, p: string, sep: char)
    requires parts != []
    ensures Join(parts + [p], sep) == Join(parts, sep) + [sep] + p
  {
    if |parts| == 1 {
      assert parts + [p] == [parts[0], p];
    } else {
      assert (parts + [p])[1..] == parts[1..] + [p];
      JoinSnoc(parts[1..], p, sep);
    }
  }
}
