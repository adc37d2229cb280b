/** The parts of `java.lang.String` the catalogue relies on: `trim`, the
    whitespace-and-hyphen removal `replaceAll("[\\s\\-]", "")`, ASCII case
    folding, `contains`, `startsWith`, decimal rendering of a `long`, and the
    character order that `ORDER BY` is modelled with. Lengths and indices
    count characters (Unicode scalar values). */
module Text {

  /** `String.trim` removes every leading and trailing character up to U+0020. */
  predicate IsTrimmable(c: char) { c <= ' ' }

  /** A string with no trimmable character at either end. */
  predicate Trimmed(s: string) {
    s == [] || (!IsTrimmable(s[0]) && !IsTrimmable(s[|s| - 1]))
  }

  /** The index of the first character at or after `i` that is not trimmable
      (`|s|` if there is none). */
  function TrimFrom(s: string, i: nat): (k: nat)
    requires i <= |s|
    ensures i <= k <= |s|
    ensures k < |s| ==> !IsTrimmable(s[k])
    decreases |s| - i
  {
    if i < |s| && IsTrimmable(s[i]) then TrimFrom(s, i + 1) else i
  }

  /** The index just past the last character before `j` and at or after `lo`
      that is not trimmable (`lo` if there is none). */
  function TrimTo(s: string, lo: nat, j: nat): (k: nat)
    requires lo <= j <= |s|
    ensures lo <= k <= j
    ensures k > lo ==> !IsTrimmable(s[k - 1])
    decreases j
  {
    if j > lo && IsTrimmable(s[j - 1]) then TrimTo(s, lo, j - 1) else j
  }

  /** `String.trim`: `s` without its leading and trailing trimmable characters. */
  function Trim(s: string): (r: string)
    ensures |r| <= |s|
    ensures Trimmed(r)
  {
    var lo := TrimFrom(s, 0);
    s[lo..TrimTo(s, lo, |s|)]
  }

  lemma {:induction false} TrimFromSkips(s: string, i: nat)
    requires i <= |s|
    ensures forall m :: i <= m < TrimFrom(s, i) ==> IsTrimmable(s[m])
    decreases |s| - i
  {
    if i < |s| && IsTrimmable(s[i]) {
      TrimFromSkips(s, i + 1);
    }
  }

  lemma {:induction false} TrimToSkips(s: string, lo: nat, j: nat)
    requires lo <= j <= |s|
    ensures forall m :: TrimTo(s, lo, j) <= m < j ==> IsTrimmable(s[m])
    decreases j
  {
    if j > lo && IsTrimmable(s[j - 1]) {
      TrimToSkips(s, lo, j - 1);
    }
  }

  /** `s.trim().isEmpty()` holds exactly when every character of `s` is
      trimmable: the blank strings. */
  lemma TrimEmpty(s: string)
    ensures Trim(s) == [] <==> forall i :: 0 <= i < |s| ==> IsTrimmable(s[i])
  {
    var lo := TrimFrom(s, 0);
    TrimFromSkips(s, 0);
    TrimToSkips(s, lo, |s|);
  }

  /** `Trim(s)` is the stretch of `s` that remains once the trimmable
      characters at both ends are cut off; with `Trimmed(Trim(s))` this fixes
      the result: nothing but trimmable characters is removed, and all of
      them at the two ends are. */
  lemma TrimIsInnerSlice(s: string)
    ensures exists lo, hi ::
      && 0 <= lo <= hi <= |s| && Trim(s) == s[lo..hi]
      && (forall m :: 0 <= m < lo ==> IsTrimmable(s[m]))
      && (forall m :: hi <= m < |s| ==> IsTrimmable(s[m]))
  {
    var lo := TrimFrom(s, 0);
    var hi := TrimTo(s, lo, |s|);
    TrimFromSkips(s, 0);
    TrimToSkips(s, lo, |s|);
    assert Trim(s) == s[lo..hi];
  }

  /** Trimming a trimmed string changes nothing, so a value stored by a
      setter passes through the same setter unchanged. */
  lemma TrimTrimmed(s: string)
    requires Trimmed(s)
    ensures Trim(s) == s
  {
  }

  /** The characters the regular expression `[\s\-]` matches: Java's `\s`
      (space, tab, line feed, vertical tab, form feed, carriage return) and
      the hyphen. */
  predicate IsSpaceOrHyphen(c: char) {
    c == ' ' || c == '\t' || c == '\n' || c as int == 0x0B || c as int == 0x0C || c == '\r' || c == '-'
  }

  /** `s.replaceAll("[\\s\\-]", "")`. */
  function RemoveSpacesAndHyphens(s: string): (r: string)
    ensures |r| <= |s|
  {
    if s == [] then []
    else if IsSpaceOrHyphen(s[0]) then RemoveSpacesAndHyphens(s[1..])
    else [s[0]] + RemoveSpacesAndHyphens(s[1..])
  }

  /** The removal keeps exactly the characters that are neither whitespace
      nor a hyphen. */
  lemma {:induction false} RemoveSpacesAndHyphensKeeps(s: string)
    ensures forall c :: c in RemoveSpacesAndHyphens(s) <==> c in s && !IsSpaceOrHyphen(c)
  {
    if s != [] {
      RemoveSpacesAndHyphensKeeps(s[1..]);
      assert s == [s[0]] + s[1..];
    }
  }

  /** The removal works character by character: a whitespace character or
      hyphen vanishes, any other character stays. */
  lemma RemoveSpacesAndHyphensChar(c: char)
    ensures RemoveSpacesAndHyphens([c]) == if IsSpaceOrHyphen(c) then [] else [c]
  {
    assert [c][1..] == [];
  }

  /** The removal distributes over concatenation, so it keeps the order of
      the characters it does not remove. */
  lemma {:induction false} RemoveSpacesAndHyphensAppend(a: string, b: string)
    ensures RemoveSpacesAndHyphens(a + b) == RemoveSpacesAndHyphens(a) + RemoveSpacesAndHyphens(b)
  {
    if a == [] {
      assert a + b == b;
    } else {
      assert (a + b)[0] == a[0];
      assert (a + b)[1..] == a[1..] + b;
      RemoveSpacesAndHyphensAppend(a[1..], b);
    }
  }

  predicate IsDigit(c: char) { '0' <= c <= '9' }

  function LowerChar(c: char): char {
    if 'A' <= c <= 'Z' then (c as int + 32) as char else c
  }

  function UpperChar(c: char): char {
    if 'a' <= c <= 'z' then (c as int - 32) as char else c
  }

  /** `toLowerCase`, restricted to ASCII letters. */
  function ToLower(s: string): (r: string)
    ensures |r| == |s| && forall i :: 0 <= i < |s| ==> r[i] == LowerChar(s[i])
  {
    seq(|s|, i requires 0 <= i < |s| => LowerChar(s[i]))
  }

  /** `toUpperCase` (and SQL `UPPER`), restricted to ASCII letters. */
  function ToUpper(s: string): (r: string)
    ensures |r| == |s| && forall i :: 0 <= i < |s| ==> r[i] == UpperChar(s[i])
  {
    seq(|s|, i requires 0 <= i < |s| => UpperChar(s[i]))
  }

  /** `s.contains(part)`. */
  predicate Contains(s: string, part: string) {
    exists i :: 0 <= i <= |s| - |part| && OccursAt(s, part, i)
  }

  predicate OccursAt(s: string, part: string, i: int)
    requires 0 <= i <= |s| - |part|
  {
    s[i..i + |part|] == part
  }

  function DigitChar(d: nat): char
    requires d < 10
  {
    ('0' as int + d) as char
  }

  function NatToString(n: nat): (r: string)
    ensures |r| > 0 && forall i :: 0 <= i < |r| ==> IsDigit(r[i])
  {
    if n < 10 then [DigitChar(n)] else NatToString(n / 10) + [DigitChar(n % 10)]
  }

  /** The number a string of decimal digits denotes. */
  function DigitsValue(s: string): nat
    requires forall i :: 0 <= i < |s| ==> IsDigit(s[i])
  {
    if s == [] then 0
    else
      var last := s[|s| - 1];
      assert IsDigit(last);
      DigitsValue(s[..|s| - 1]) * 10 + (last as int - '0' as int)
  }

  /** `NatToString` writes `n` in decimal: reading its digits back gives `n`. */
  lemma {:induction false} NatToStringValue(n: nat)
    ensures DigitsValue(NatToString(n)) == n
  {
    var r := NatToString(n);
    if n < 10 {
      assert r[..|r| - 1] == [];
    } else {
      NatToStringValue(n / 10);
      assert r[..|r| - 1] == NatToString(n / 10);
    }
  }

  /** The decimal text of a `long`, as string concatenation produces it. */
  function IntToString(n: int): string {
    if n < 0 then "-" + NatToString(-n) else NatToString(n)
  }

  /** Lexicographic order on characters: the order `ORDER BY` is modelled with. */
  predicate StrLe(a: string, b: string) {
    StrLeFrom(a, b, 0)
  }

  /** `a[i..]` is at most `b[i..]`, where the two agree before `i`. */
  predicate StrLeFrom(a: string, b: string, i: nat)
    decreases |a| - i
  {
    i >= |a| || (i < |b| && (a[i] < b[i] || (a[i] == b[i] && StrLeFrom(a, b, i + 1))))
  }

  lemma {:induction false} StrLeFromTotal(a: string, b: string, i: nat)
    ensures StrLeFrom(a, b, i) || StrLeFrom(b, a, i)
    decreases |a| - i
  {
    if i < |a| && i < |b| && a[i] == b[i] {
      StrLeFromTotal(a, b, i + 1);
    }
  }

  lemma StrLeTotal(a: string, b: string)
    ensures StrLe(a, b) || StrLe(b, a)
  {
    StrLeFromTotal(a, b, 0);
  }

  lemma {:induction false} StrLeFromTransitive(a: string, b: string, c: string, i: nat)
    requires StrLeFrom(a, b, i) && StrLeFrom(b, c, i)
    ensures StrLeFrom(a, c, i)
    decreases |a| - i
  {
    if i < |a| && i < |b| && i < |c| && a[i] == b[i] == c[i] {
      StrLeFromTransitive(a, b, c, i + 1);
    }
  }

  lemma StrLeTransitive(a: string, b: string, c: string)
    requires StrLe(a, b) && StrLe(b, c)
    ensures StrLe(a, c)
  {
    StrLeFromTransitive(a, b, c, 0);
  }
}
