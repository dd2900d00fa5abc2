/**
 * The handful of Python string operations the bot relies on (`strip`, `lower`, `split`,
 * `replace`, `int()`, `str()` of a number), written over `seq<char>`.
 * Whitespace is the set Python's `str.isspace()` accepts; case mapping and digits are ASCII.
 */
module Text {
  import opened Wrappers

  /** A character Python's `str.isspace()` (and the regular-expression class `\s`) accepts. */
  predicate IsSpace(c: char) {
    c == ' ' || '\t' <= c <= '\r' || '\U{1c}' <= c <= '\U{1f}' || c == '\U{85}' || c == '\U{a0}'
    || c == '\U{1680}' || '\U{2000}' <= c <= '\U{200a}' || c == '\U{2028}' || c == '\U{2029}'
    || c == '\U{202f}' || c == '\U{205f}' || c == '\U{3000}'
  }

  /** Python truthiness of an optional string: present and non-empty. */
  predicate Filled(s: Option<string>) {
    s.Some? && s.value != []
  }

  predicate IsDigit(c: char) {
    '0' <= c <= '9'
  }

  predicate AllDigits(s: string) {
    forall i :: 0 <= i < |s| ==> IsDigit(s[i])
  }

  function DigitValue(c: char): (n: nat)
    requires IsDigit(c)
    ensures n < 10
  {
    c as int - '0' as int
  }

  function DigitChar(n: nat): (c: char)
    requires n < 10
    ensures IsDigit(c) && DigitValue(c) == n
  {
    ('0' as int + n) as char
  }

  /** `s.lstrip()` */
  function TrimStart(s: string): (r: string)
    ensures |r| <= |s| && r == s[|s| - |r|..]
    ensures r == [] || !IsSpace(r[0])
    ensures forall i :: 0 <= i < |s| - |r| ==> IsSpace(s[i])
  {
    if s != [] && IsSpace(s[0]) then TrimStart(s[1..]) else s
  }

  /** `s.rstrip()` */
  function TrimEnd(s: string): (r: string)
    ensures |r| <= |s| && r == s[..|r|]
    ensures r == [] || !IsSpace(r[|r| - 1])
    ensures forall i :: |r| <= i < |s| ==> IsSpace(s[i])
  {
    if s != [] && IsSpace(s[|s| - 1]) then TrimEnd(s[..|s| - 1]) else s
  }

  /** `s.strip()`: the result neither starts nor ends with whitespace. */
  function Strip(s: string): (r: string)
    ensures |r| <= |s|
    ensures r != [] ==> !IsSpace(r[0]) && !IsSpace(r[|r| - 1])
  {
    TrimEnd(TrimStart(s))
  }

  /** A string without surrounding whitespace is its own `strip()`. */
  lemma StripNoOp(s: string)
    requires s != [] ==> !IsSpace(s[0]) && !IsSpace(s[|s| - 1])
    ensures Strip(s) == s
  {
  }

  /** `strip()` is idempotent. */
  lemma StripIdempotent(s: string)
    ensures Strip(Strip(s)) == Strip(s)
  {
    StripNoOp(Strip(s));
  }

  /** An all-whitespace string strips to the empty string, and only such a string does. */
  lemma StripEmptyIff(s: string)
    ensures Strip(s) == [] <==> forall i :: 0 <= i < |s| ==> IsSpace(s[i])
  {
    var t := TrimStart(s);
    if t != [] {
      assert !IsSpace(s[|s| - |t|]);
    }
  }

  function LowerChar(c: char): char {
    if 'A' <= c <= 'Z' then (c as int + 32) as char else c
  }

  function UpperChar(c: char): char {
    if 'a' <= c <= 'z' then (c as int - 32) as char else c
  }

  /** `s.lower()` on ASCII letters. */
  function Lower(s: string): string {
    seq(|s|, i requires 0 <= i < |s| => LowerChar(s[i]))
  }

  /** `s.upper()` on ASCII letters. */
  function Upper(s: string): string {
    seq(|s|, i requires 0 <= i < |s| => UpperChar(s[i]))
  }

  predicate EndsWith(s: string, suffix: string) {
    |suffix| <= |s| && s[|s| - |suffix|..] == suffix
  }

  /** `sub in s` */
  predicate Contains(s: string, sub: string) {
    exists i :: 0 <= i <= |s| - |sub| && sub <= s[i..]
  }

  /** The first position of `c` in `s`. */
  function IndexOf(s: string, c: char): (i: nat)
    requires c in s
    ensures i < |s| && s[i] == c && c !in s[..i]
  {
    if s[0] == c then 0 else 1 + IndexOf(s[1..], c)
  }

  /** `s.replace(pattern, "")`: occurrences are removed left to right without overlap. */
  function RemoveAll(s: string, pattern: string): string
    requires pattern != []
    decreases |s|
  {
    if s == [] then []
    else if pattern <= s then RemoveAll(s[|pattern|..], pattern)
    else [s[0]] + RemoveAll(s[1..], pattern)
  }

  /** The characters of `s` that satisfy `keep`, in order. */
  function Filter(s: string, keep: char -> bool): (r: string)
    ensures |r| <= |s|
    ensures forall i :: 0 <= i < |r| ==> keep(r[i])
  {
    if s == [] then [] else (if keep(s[0]) then [s[0]] else []) + Filter(s[1..], keep)
  }

  /** The kept characters are exactly the input's characters that pass `keep`. */
  lemma {:induction false} FilterMembers(s: string, keep: char -> bool)
    ensures forall c :: c in Filter(s, keep) <==> c in s && keep(c)
  {
    if s != [] {
      FilterMembers(s[1..], keep);
      assert forall c :: c in s <==> c == s[0] || c in s[1..];
    }
  }

  /** `s.split(sep)`: every occurrence of `sep` separates two pieces. */
  function Split(s: string, sep: char): (parts: seq<string>)
    ensures |parts| >= 1
    ensures forall k :: 0 <= k < |parts| ==> sep !in parts[k]
    decreases |s|
  {
    if sep !in s then [s]
    else
      var i := IndexOf(s, sep);
      [s[..i]] + Split(s[i + 1..], sep)
  }

  /** `sep.join(parts)` */
  function Join(parts: seq<string>, sep: string): string {
    if parts == [] then []
    else if |parts| == 1 then parts[0]
    else parts[0] + sep + Join(parts[1..], sep)
  }

  /** Joining a first piece onto the rest puts one separator between them. */
  lemma JoinCons(first: string, rest: seq<string>, sep: string)
    requires rest != []
    ensures Join([first] + rest, sep) == first + sep + Join(rest, sep)
  {
    assert ([first] + rest)[1..] == rest;
  }

  /** A string is the part before position `i`, the character there, and the part after. */
  lemma Around(s: string, i: nat)
    requires i < |s|
    ensures s[..i] + [s[i]] + s[i + 1..] == s
  {
  }

  /** Joining the pieces of a split with the separator restores the string. */
  lemma {:induction false} JoinSplit(s: string, sep: char)
    ensures Join(Split(s, sep), [sep]) == s
    decreases |s|
  {
    if sep in s {
      var i := IndexOf(s, sep);
      var rest := Split(s[i + 1..], sep);
      assert Split(s, sep) == [s[..i]] + rest;
      JoinCons(s[..i], rest, [sep]);
      JoinSplit(s[i + 1..], sep);
      Around(s, i);
    }
  }

  /** The length of the leading run of non-whitespace characters. */
  function WordLength(s: string): (n: nat)
    ensures n <= |s|
    ensures forall i :: 0 <= i < n ==> !IsSpace(s[i])
    ensures n == |s| || IsSpace(s[n])
  {
    if s == [] || IsSpace(s[0]) then 0 else 1 + WordLength(s[1..])
  }

  /** A non-empty run of non-whitespace characters. */
  predicate IsWord(w: string) {
    w != [] && forall i :: 0 <= i < |w| ==> !IsSpace(w[i])
  }

  /** `s.split()` with no argument: the maximal runs of non-whitespace characters. */
  function Words(s: string): (ws: seq<string>)
    decreases |s|
  {
    var t := TrimStart(s);
    if t == [] then []
    else
      var n := WordLength(t);
      assert n > 0 by { assert !IsSpace(t[0]); }
      [t[..n]] + Words(t[n..])
  }

  /** Every piece `split()` returns is a non-empty run without whitespace. */
  lemma {:induction false} WordsAreWords(s: string)
    ensures forall k :: 0 <= k < |Words(s)| ==> IsWord(Words(s)[k])
    decreases |s|
  {
    var t := TrimStart(s);
    if t != [] {
      var n := WordLength(t);
      assert !IsSpace(t[0]);
      WordsAreWords(t[n..]);
      assert IsWord(t[..n]);
    }
  }

  /** The value of a run of decimal digits. */
  function DecimalValue(ds: string): nat
    requires AllDigits(ds)
  {
    if ds == [] then 0 else 10 * DecimalValue(ds[..|ds| - 1]) + DigitValue(ds[|ds| - 1])
  }

  /** `str(n)` for a natural number: decimal digits without leading zeros. */
  function DecimalString(n: nat): (s: string)
    ensures s != [] && AllDigits(s) && DecimalValue(s) == n
    ensures s[0] == '0' ==> n == 0
  {
    if n < 10 then [DigitChar(n)]
    else
      var prefix := DecimalString(n / 10);
      assert (prefix + [DigitChar(n % 10)])[..|prefix|] == prefix;
      prefix + [DigitChar(n % 10)]
  }

  /** Two-digit zero-padded rendering, as in the format `{:02d}`. */
  function TwoDigits(n: nat): (s: string)
    requires n < 100
    ensures |s| == 2 && AllDigits(s) && DecimalValue(s) == n
  {
    var s := [DigitChar(n / 10), DigitChar(n % 10)];
    assert s[..1] == [DigitChar(n / 10)];
    assert s[..1][..0] == [];
    assert DecimalValue(s[..1]) == n / 10;
    s
  }

  /** Digits with single underscores between them: the literal form Python's `int()` accepts. */
  predicate IsDigitGroup(s: string) {
    && s != [] && IsDigit(s[0]) && IsDigit(s[|s| - 1])
    && (forall i :: 0 <= i < |s| ==> IsDigit(s[i]) || s[i] == '_')
    && (forall i :: 0 <= i < |s| - 1 ==> s[i] == '_' ==> s[i + 1] != '_')
  }

  function GroupValue(s: string): nat
    requires IsDigitGroup(s)
  {
    var ds := Filter(s, IsDigit);
    DecimalValue(ds)
  }

  /** Python's `int(s)` for base 10: surrounding whitespace, an optional sign, digits. */
  function ParseInt(s: string): Option<int> {
    var t := Strip(s);
    if t != [] && (t[0] == '+' || t[0] == '-') then
      if IsDigitGroup(t[1..]) then
        var v: int := GroupValue(t[1..]);
        Some(if t[0] == '-' then -v else v)
      else None
    else if IsDigitGroup(t) then Some(GroupValue(t))
    else None
  }

  /** A digit-only string is its own digit filter. */
  lemma FilterAllDigits(s: string)
    requires AllDigits(s)
    ensures Filter(s, IsDigit) == s
  {
    if s != [] {
      FilterAllDigits(s[1..]);
    }
  }

  /** `int(str(n)) == n`: parsing a rendered number gives it back. */
  lemma ParseDecimalString(n: nat)
    ensures ParseInt(DecimalString(n)) == Some(n)
  {
    var s := DecimalString(n);
    StripNoOp(s);
    assert Strip(s) == s;
    assert IsDigit(s[0]);
    assert IsDigitGroup(s);
    FilterAllDigits(s);
    assert GroupValue(s) == n;
  }

  /** A string without upper-case ASCII letters is its own lower-case form. */
  lemma LowerNoUpper(s: string)
    requires forall i :: 0 <= i < |s| ==> !('A' <= s[i] <= 'Z')
    ensures Lower(s) == s
  {
  }

  /** Where `strip()` cuts: the number of leading whitespace characters removed. */
  function StripStart(s: string): (a: nat)
    ensures a + |Strip(s)| <= |s|
  {
    |s| - |TrimStart(s)|
  }

  /** `strip()` returns a contiguous piece of its input. */
  lemma StripIsSlice(s: string)
    ensures Strip(s) == s[StripStart(s)..StripStart(s) + |Strip(s)|]
  {
  }

  /**
   * `re.sub("[…]+", rep, s)` for the character class `inRun`: every maximal run of characters
   * in the class becomes the single character `rep`. `inside` says that the text just before
   * `s` already ended such a run, so a run at the start of `s` continues it.
   */
  function ReplaceRunsFrom(s: string, inRun: char -> bool, rep: char, inside: bool): (r: string)
    ensures forall i :: 0 <= i < |r| ==> r[i] == rep || !inRun(r[i])
    ensures inRun(rep) ==> forall i :: 0 <= i < |r| - 1 ==> !(r[i] == rep && r[i + 1] == rep)
    ensures inRun(rep) && inside && r != [] ==> r[0] != rep
    decreases |s|
  {
    if s == [] then []
    else if inRun(s[0]) then
      if inside then ReplaceRunsFrom(s[1..], inRun, rep, true)
      else [rep] + ReplaceRunsFrom(s[1..], inRun, rep, true)
    else [s[0]] + ReplaceRunsFrom(s[1..], inRun, rep, false)
  }

  function ReplaceRuns(s: string, inRun: char -> bool, rep: char): string {
    ReplaceRunsFrom(s, inRun, rep, false)
  }

  /** The characters outside the class pass through unchanged and in order. */
  lemma {:induction false} ReplaceRunsKeeps(s: string, inRun: char -> bool, keep: char -> bool, rep: char, inside: bool)
    requires inRun(rep)
    requires forall c :: keep(c) == !inRun(c)
    ensures Filter(ReplaceRunsFrom(s, inRun, rep, inside), keep) == Filter(s, keep)
    decreases |s|
  {
    if s != [] {
      ReplaceRunsKeeps(s[1..], inRun, keep, rep, inRun(s[0]));
    }
  }

  /** A property every input character and the replacement have, every output character has. */
  lemma {:induction false} ReplaceRunsPreserves(s: string, inRun: char -> bool, rep: char, inside: bool, p: char -> bool)
    requires forall i :: 0 <= i < |s| ==> p(s[i])
    requires p(rep)
    ensures forall c :: c in ReplaceRunsFrom(s, inRun, rep, inside) ==> p(c)
    decreases |s|
  {
    if s != [] {
      var t := s[1..];
      assert forall c :: c in t ==> p(c) by {
        assert forall i :: 0 <= i < |t| ==> t[i] == s[i + 1];
      }
      ReplaceRunsPreserves(t, inRun, rep, inRun(s[0]), p);
      assert p(s[0]);
    }
  }

  /** Some run was replaced exactly when the input held a character of the class. */
  lemma {:induction false} ReplaceRunsMarks(s: string, inRun: char -> bool, rep: char)
    requires inRun(rep)
    ensures rep in ReplaceRuns(s, inRun, rep) <==> exists i :: 0 <= i < |s| && inRun(s[i])
    decreases |s|
  {
    if s != [] && !inRun(s[0]) {
      ReplaceRunsMarks(s[1..], inRun, rep);
      var t := s[1..];
      assert forall i :: 0 <= i < |t| ==> t[i] == s[i + 1];
      assert (exists i :: 0 <= i < |s| && inRun(s[i])) <==> (exists i :: 0 <= i < |t| && inRun(t[i]));
    }
  }

  /** Text whose runs are already single `rep` characters is left unchanged. */
  lemma {:induction false} ReplaceRunsNoOp(s: string, inRun: char -> bool, rep: char, inside: bool)
    requires forall i :: 0 <= i < |s| ==> s[i] == rep || !inRun(s[i])
    requires forall i :: 0 <= i < |s| - 1 ==> !(s[i] == rep && s[i + 1] == rep)
    requires inside && s != [] ==> s[0] != rep
    ensures ReplaceRunsFrom(s, inRun, rep, inside) == s
    decreases |s|
  {
    if s != [] {
      var t := s[1..];
      assert forall i :: 0 <= i < |t| ==> t[i] == s[i + 1];
      ReplaceRunsNoOp(t, inRun, rep, inRun(s[0]));
    }
  }

  /** Replacing runs twice equals replacing them once. */
  lemma ReplaceRunsIdempotent(s: string, inRun: char -> bool, rep: char)
    requires inRun(rep)
    ensures ReplaceRuns(ReplaceRuns(s, inRun, rep), inRun, rep) == ReplaceRuns(s, inRun, rep)
  {
    ReplaceRunsNoOp(ReplaceRuns(s, inRun, rep), inRun, rep, false);
  }

  /** Python's `a < b` on strings: lexicographic order of the code points. */
  predicate StrLess(a: string, b: string) {
    if a == [] then b != []
    else b != [] && (a[0] < b[0] || (a[0] == b[0] && StrLess(a[1..], b[1..])))
  }

  lemma {:induction false} StrLessIrreflexive(a: string)
    ensures !StrLess(a, a)
  {
    if a != [] {
      StrLessIrreflexive(a[1..]);
    }
  }

  lemma {:induction false} StrLessTransitive(a: string, b: string, c: string)
    requires StrLess(a, b) && StrLess(b, c)
    ensures StrLess(a, c)
  {
    if a != [] && a[0] == b[0] && b[0] == c[0] {
      StrLessTransitive(a[1..], b[1..], c[1..]);
    }
  }

  /** Any two different strings are ordered one way or the other. */
  lemma {:induction false} StrLessTotal(a: string, b: string)
    ensures a == b || StrLess(a, b) || StrLess(b, a)
  {
    if a != [] && b != [] && a[0] == b[0] {
      StrLessTotal(a[1..], b[1..]);
      if a[1..] == b[1..] {
        assert a == [a[0]] + a[1..] && b == [b[0]] + b[1..];
      }
    }
  }

  lemma StrLessAsymmetric(a: string, b: string)
    requires StrLess(a, b)
    ensures !StrLess(b, a)
  {
    if StrLess(b, a) {
      StrLessTransitive(a, b, a);
      StrLessIrreflexive(a);
    }
  }
}
