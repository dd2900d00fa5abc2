/**
 * The Israeli phone normaliser (app/utils/phone.py): a raw phone string is cleaned of
 * whitespace, parentheses, dashes and the "whatsapp:" channel prefix, and a national
 * number ("05XXXXXXXX" or "5XXXXXXXX") is rewritten in E.164 form "+9725XXXXXXXX".
 */
module Phone {
  import opened Text

  const WHATSAPP_PREFIX: string := "whatsapp:"
  const COUNTRY_PREFIX: string := "+972"

  /** The characters of the regular-expression class `[()\s-]`. */
  predicate IsSeparator(c: char) {
    c == '(' || c == ')' || c == '-' || IsSpace(c)
  }

  function NotSeparator(c: char): bool {
    !IsSeparator(c)
  }

  /** The cleaning steps: strip, remove "whatsapp:", remove every separator character. */
  function Clean(raw: string): (c: string)
    ensures forall i :: 0 <= i < |c| ==> !IsSeparator(c[i])
  {
    Filter(RemoveAll(Strip(raw), WHATSAPP_PREFIX), NotSeparator)
  }

  /** A cleaned national number: ten characters starting with '0', or nine starting with '5'. */
  predicate IsNational(p: string) {
    (|p| == 10 && p[0] == '0') || (|p| == 9 && p[0] == '5')
  }

  /** The subscriber part of a national number, without the trunk '0'. */
  function Subscriber(p: string): (s: string)
    requires IsNational(p)
    ensures |s| == 9 && s[0] == p[|p| - 9]
  {
    if |p| == 10 then p[1..] else p
  }

  /**
   * `normalize_phone_to_e164_il`: an empty input is returned as is; otherwise the cleaned
   * value is returned unless it is a national number without a leading '+', which becomes
   * "+972" followed by its nine-character subscriber part.
   */
  function NormalizeIL(raw: string): (r: string)
    ensures raw == [] ==> r == []
    ensures raw != [] && IsNational(Clean(raw)) ==> r == COUNTRY_PREFIX + Subscriber(Clean(raw))
    ensures raw != [] && !IsNational(Clean(raw)) ==> r == Clean(raw)
    ensures forall i :: 0 <= i < |r| ==> !IsSeparator(r[i])
  {
    if raw == [] then raw
    else
      var p := Clean(raw);
      if "+" <= p then p
      else if "0" <= p && |p| == 10 then COUNTRY_PREFIX + p[1..]
      else if "5" <= p && |p| == 9 then COUNTRY_PREFIX + p
      else p
  }

  /** A value that already starts with '+' after cleaning is kept verbatim. */
  lemma PlusKept(raw: string)
    requires raw != [] && Clean(raw) != [] && Clean(raw)[0] == '+'
    ensures NormalizeIL(raw) == Clean(raw)
  {
  }

  /** Text without the channel prefix is unchanged by removing it. */
  lemma {:induction false} RemoveAllAbsent(s: string, pattern: string)
    requires pattern != [] && !Contains(s, pattern)
    ensures RemoveAll(s, pattern) == s
    decreases |s|
  {
    if s != [] {
      assert !(pattern <= s) by { assert !(pattern <= s[0..]); }
      assert !Contains(s[1..], pattern) by {
        forall i | 0 <= i <= |s[1..]| - |pattern|
          ensures !(pattern <= s[1..][i..])
        {
          assert s[1..][i..] == s[i + 1..];
        }
      }
      RemoveAllAbsent(s[1..], pattern);
    }
  }

  /** A string of kept characters is its own filter. */
  lemma {:induction false} FilterKeepsAll(s: string)
    requires forall i :: 0 <= i < |s| ==> !IsSeparator(s[i])
    ensures Filter(s, NotSeparator) == s
  {
    if s != [] {
      FilterKeepsAll(s[1..]);
    }
  }

  /** Cleaning a value that is already clean changes nothing. */
  lemma CleanClean(p: string)
    requires forall i :: 0 <= i < |p| ==> !IsSeparator(p[i])
    requires !Contains(p, WHATSAPP_PREFIX)
    ensures Clean(p) == p
  {
    assert Strip(p) == p by { StripNoOp(p); }
    assert RemoveAll(p, WHATSAPP_PREFIX) == p by { RemoveAllAbsent(p, WHATSAPP_PREFIX); }
    assert Filter(p, NotSeparator) == p by { FilterKeepsAll(p); }
  }

  /** A string without ':' never contains the channel prefix. */
  lemma NoPrefixWithoutColon(s: string)
    requires ':' !in s
    ensures !Contains(s, WHATSAPP_PREFIX)
  {
    forall i | 0 <= i <= |s| - |WHATSAPP_PREFIX|
      ensures !(WHATSAPP_PREFIX <= s[i..])
    {
      assert s[i..][8] == s[i + 8];
      assert s[i + 8] in s;
    }
  }

  /** Cleaning introduces no ':' into a value without one. */
  lemma CleanColonFree(raw: string)
    requires ':' !in raw
    ensures ':' !in Clean(raw)
  {
    assert ':' !in Strip(raw) by {
      StripIsSlice(raw);
    }
    ColonFree(Strip(raw));
    FilterMembers(RemoveAll(Strip(raw), WHATSAPP_PREFIX), NotSeparator);
  }

  /** Normalising introduces no ':' either. */
  lemma NormalizeColonFree(raw: string)
    requires ':' !in raw
    ensures ':' !in NormalizeIL(raw)
  {
    if raw != [] {
      CleanColonFree(raw);
      var p := Clean(raw);
      if IsNational(p) {
        var sub := Subscriber(p);
        forall i | 0 <= i < |sub|
          ensures sub[i] != ':'
        {
          assert sub[i] == p[i + |p| - 9];
        }
        assert NormalizeIL(raw) == COUNTRY_PREFIX + sub;
      }
    }
  }

  /** Normalising twice equals normalising once, for any input without a ':' character. */
  lemma NormalizeIdempotent(raw: string)
    requires ':' !in raw
    ensures NormalizeIL(NormalizeIL(raw)) == NormalizeIL(raw)
  {
    var r := NormalizeIL(raw);
    NormalizeColonFree(raw);
    NoPrefixWithoutColon(r);
    CleanClean(r);
    assert r != [] && IsNational(r) ==> Clean(raw) != [] && !IsNational(Clean(raw));
  }

  /** Removing the channel prefix does not introduce a ':' into a string without one. */
  lemma {:induction false} ColonFree(s: string)
    requires ':' !in s
    ensures ':' !in RemoveAll(s, WHATSAPP_PREFIX)
    decreases |s|
  {
    if s != [] {
      assert !(WHATSAPP_PREFIX <= s) by {
        if |s| >= 9 {
          assert s[8] in s;
        }
      }
      ColonFree(s[1..]);
    }
  }
}
