/** The Python string built-ins the scraper uses, written over Dafny strings:
    `str.isdigit`, `str(int)`, `str.replace` (all occurrences, and at most one),
    the whitespace class `\s` of Python's regular expressions, and sequence slicing with
    negative bounds. */
module PyText {

  // ---------------------------------------------------------------- digits

  /** One of '0'..'9'. Python's `isdigit` also accepts other Unicode digits. */
  predicate IsAsciiDigit(c: char) {
    '0' <= c <= '9'
  }

  predicate AllDigits(s: string) {
    forall i :: 0 <= i < |s| ==> IsAsciiDigit(s[i])
  }

  /** `s.isdigit()`: false on the empty string. */
  predicate IsDigitString(s: string) {
    |s| > 0 && AllDigits(s)
  }

  function DigitChar(d: nat): (c: char)
    requires d < 10
    ensures IsAsciiDigit(c) && c as int - '0' as int == d
  {
    ('0' as int + d) as char
  }

  /** `str(n)` for a non-negative integer: decimal digits, no leading zero. */
  function Decimal(n: nat): (s: string)
    ensures IsDigitString(s)
    ensures s[0] == '0' ==> n == 0
    decreases n
  {
    if n < 10 then [DigitChar(n)] else Decimal(n / 10) + [DigitChar(n % 10)]
  }

  /** The number a string of decimal digits denotes (Python's `int(s)` on such a string). */
  function DecimalValue(s: string): nat
    requires AllDigits(s)
    decreases |s|
  {
    if s == [] then 0
    else DecimalValue(s[..|s| - 1]) * 10 + (s[|s| - 1] as int - '0' as int)
  }

  /** `int(str(n)) == n`. */
  lemma {:induction false} DecimalRoundTrip(n: nat)
    ensures DecimalValue(Decimal(n)) == n
    decreases n
  {
    var s := Decimal(n);
    if n >= 10 {
      DecimalRoundTrip(n / 10);
      assert s[..|s| - 1] == Decimal(n / 10);
    }
  }

  // ---------------------------------------------------------------- replace

  /** `s.replace(pat, rep)`: every non-overlapping occurrence of `pat`, scanning from the
      left, becomes `rep`. */
  function Replace(s: string, pat: string, rep: string): string
    requires |pat| > 0
    decreases |s|
  {
    if |s| < |pat| then s
    else if s[..|pat|] == pat then rep + Replace(s[|pat|..], pat, rep)
    else [s[0]] + Replace(s[1..], pat, rep)
  }

  /** Replacing a one-character string by nothing removes that character everywhere. */
  lemma {:induction false} ReplaceDeletesChar(s: string, c: char)
    ensures c !in Replace(s, [c], "")
    decreases |s|
  {
    if |s| >= 1 {
      ReplaceDeletesChar(s[1..], c);
    }
  }

  /** A replacement never introduces a character that neither the text nor `rep` holds. */
  lemma {:induction false} ReplaceKeepsAbsent(s: string, pat: string, rep: string, c: char)
    requires |pat| > 0
    requires c !in s && c !in rep
    ensures c !in Replace(s, pat, rep)
    decreases |s|
  {
    if |s| < |pat| {
    } else if s[..|pat|] == pat {
      ReplaceKeepsAbsent(s[|pat|..], pat, rep, c);
    } else {
      ReplaceKeepsAbsent(s[1..], pat, rep, c);
    }
  }

  /** A text that never holds the first character of the pattern is left as it is. */
  lemma {:induction false} ReplaceWithoutLead(s: string, pat: string, rep: string)
    requires |pat| > 0 && pat[0] !in s
    ensures Replace(s, pat, rep) == s
    decreases |s|
  {
    if |s| >= |pat| {
      assert s[0] in s && s[..|pat|][0] == s[0];
      assert forall i :: 0 <= i < |s[1..]| ==> s[1..][i] == s[i + 1];
      ReplaceWithoutLead(s[1..], pat, rep);
    }
  }

  /** Every pattern of a chain of replacements is non-empty. */
  predicate Replaceable(subs: seq<(string, string)>) {
    forall j :: 0 <= j < |subs| ==> |subs[j].0| > 0
  }

  /** `s.replace(p0, r0).replace(p1, r1)...`: the replacements applied one after another. */
  function ReplaceEach(s: string, subs: seq<(string, string)>): string
    requires Replaceable(subs)
    decreases |subs|
  {
    if subs == [] then s else ReplaceEach(Replace(s, subs[0].0, subs[0].1), subs[1..])
  }

  /** A chain never introduces a character that neither the text nor any replacement holds. */
  lemma {:induction false} ReplaceEachKeepsAbsent(s: string, subs: seq<(string, string)>, c: char)
    requires Replaceable(subs)
    requires c !in s && forall j :: 0 <= j < |subs| ==> c !in subs[j].1
    ensures c !in ReplaceEach(s, subs)
    decreases |subs|
  {
    if subs != [] {
      ReplaceKeepsAbsent(s, subs[0].0, subs[0].1, c);
      ReplaceEachKeepsAbsent(Replace(s, subs[0].0, subs[0].1), subs[1..], c);
    }
  }

  /** A chain in which step `k` deletes the character `c` and no later step writes it leaves
      no `c` behind. */
  lemma {:induction false} ReplaceEachDeletes(s: string, subs: seq<(string, string)>, k: nat, c: char)
    requires Replaceable(subs)
    requires k < |subs| && subs[k] == ([c], "")
    requires forall j :: k < j < |subs| ==> c !in subs[j].1
    ensures c !in ReplaceEach(s, subs)
    decreases |subs|
  {
    var t := Replace(s, subs[0].0, subs[0].1);
    if k == 0 {
      ReplaceDeletesChar(s, c);
      ReplaceEachKeepsAbsent(t, subs[1..], c);
    } else {
      ReplaceEachDeletes(t, subs[1..], k - 1, c);
    }
  }

  /** `s.replace(c, '', 1)`: drops the first occurrence of `c`, if there is one. */
  function RemoveFirst(s: string, c: char): string
    decreases |s|
  {
    if s == [] then []
    else if s[0] == c then s[1..]
    else [s[0]] + RemoveFirst(s[1..], c)
  }

  /** What `RemoveFirst` does, stated by the position of the first `c`. */
  lemma {:induction false} RemoveFirstAt(s: string, c: char, i: nat)
    requires i < |s| && s[i] == c && c !in s[..i]
    ensures RemoveFirst(s, c) == s[..i] + s[i + 1..]
    decreases |s|
  {
    if i > 0 {
      assert s[0] in s[..i];
      assert s[1..][..i - 1] == s[1..i];
      assert c !in s[1..][..i - 1];
      RemoveFirstAt(s[1..], c, i - 1);
      assert s[..i] == [s[0]] + s[1..][..i - 1];
      assert s[1..][i..] == s[i + 1..];
    }
  }

  lemma {:induction false} RemoveFirstAbsent(s: string, c: char)
    requires c !in s
    ensures RemoveFirst(s, c) == s
    decreases |s|
  {
    if s != [] {
      assert s[0] in s;
      RemoveFirstAbsent(s[1..], c);
    }
  }

  // ---------------------------------------------------------------- whitespace

  /** The characters regular-expression `\s` matches on `str` patterns (those `str.isspace`
      accepts). */
  predicate IsSpace(c: char) {
    var k := c as int;
    k == 0x20 || 0x09 <= k <= 0x0D || 0x1C <= k <= 0x1F || k == 0x85 || k == 0xA0
    || k == 0x1680 || 0x2000 <= k <= 0x200A || k == 0x2028 || k == 0x2029
    || k == 0x202F || k == 0x205F || k == 0x3000
  }

  // ---------------------------------------------------------------- slicing

  /** Normalises one bound of a Python slice of a sequence of length `n`: a negative bound
      counts from the end, and every bound is clamped to `0..n`. */
  function SliceBound(i: int, n: nat): (k: nat)
    ensures k <= n
    ensures 0 <= i <= n ==> k == i
    ensures i < 0 && n + i >= 0 ==> k == n + i
    ensures i > n ==> k == n
    ensures i < 0 && n + i < 0 ==> k == 0
  {
    if i < 0 then (if n + i < 0 then 0 else n + i)
    else if i > n then n
    else i
  }

  /** `s[start:stop]`. */
  function Slice<T>(s: seq<T>, start: int, stop: int): seq<T>
  {
    var lo := SliceBound(start, |s|);
    var hi := SliceBound(stop, |s|);
    if lo < hi then s[lo..hi] else []
  }

  /** `s[a:-b]` with `a >= 0` and `b > 0` drops the first `a` and the last `b` elements,
      and is empty unless `|s| > a + b`. */
  lemma SliceDropsEnds<T>(s: seq<T>, a: nat, b: nat)
    requires b > 0
    ensures Slice(s, a, 0 - b as int) == if |s| > a + b then s[a..|s| - b] else []
  {
  }
}
