/** The JavaScript string built-ins the chunker relies on: `String.prototype.trim`,
    `String.prototype.lastIndexOf` for a single character, and `Math.min` / `Math.max`
    on integers. Strings are sequences of UTF-16 code units, here `seq<char>`. */
module Text {

  function Min(a: int, b: int): int { if a <= b then a else b }

  function Max(a: int, b: int): int { if a >= b then a else b }

  /** The characters `trim` removes: ECMAScript WhiteSpace and LineTerminator. */
  const WhitespaceChars: set<char> := {
    '\t', '\n', '\U{000B}', '\U{000C}', '\r', ' ', '\U{00A0}', '\U{1680}',
    '\U{2000}', '\U{2001}', '\U{2002}', '\U{2003}', '\U{2004}', '\U{2005}',
    '\U{2006}', '\U{2007}', '\U{2008}', '\U{2009}', '\U{200A}',
    '\U{2028}', '\U{2029}', '\U{202F}', '\U{205F}', '\U{3000}', '\U{FEFF}'
  }

  predicate IsWhitespace(c: char) { c in WhitespaceChars }

  /** The number of whitespace characters at the front of `s`. */
  function Lead(s: string): (n: nat)
    ensures n <= |s|
  {
    if s == [] || !IsWhitespace(s[0]) then 0 else 1 + Lead(s[1..])
  }

  /** `Lead(s)` counts exactly the leading whitespace: all of it, and no more. */
  lemma {:induction false} LeadIsWhitespace(s: string)
    ensures forall i :: 0 <= i < Lead(s) ==> IsWhitespace(s[i])
    ensures Lead(s) < |s| ==> !IsWhitespace(s[Lead(s)])
  {
    if s != [] && IsWhitespace(s[0]) {
      LeadIsWhitespace(s[1..]);
      forall i | 1 <= i < Lead(s) ensures IsWhitespace(s[i]) {
        assert s[i] == s[1..][i - 1];
      }
      assert Lead(s) < |s| ==> s[Lead(s)] == s[1..][Lead(s[1..])];
    }
  }

  /** The length of `s` once its trailing whitespace is dropped. */
  function Stop(s: string): (n: nat)
    ensures n <= |s|
  {
    if s == [] || !IsWhitespace(s[|s| - 1]) then |s| else Stop(s[..|s| - 1])
  }

  /** `Stop(s)` drops exactly the trailing whitespace: all of it, and no more. */
  lemma {:induction false} StopIsWhitespace(s: string)
    ensures forall i :: Stop(s) <= i < |s| ==> IsWhitespace(s[i])
    ensures 0 < Stop(s) ==> !IsWhitespace(s[Stop(s) - 1])
  {
    if s != [] && IsWhitespace(s[|s| - 1]) {
      var init := s[..|s| - 1];
      StopIsWhitespace(init);
      forall i | Stop(s) <= i < |s| - 1 ensures IsWhitespace(s[i]) {
        assert s[i] == init[i];
      }
      assert 0 < Stop(s) ==> s[Stop(s) - 1] == init[Stop(init) - 1];
    }
  }

  /** Where `s.trim()` ends: the length of `s` without its trailing whitespace, and
      never before the end of the leading whitespace. */
  function TrimEnd(s: string): (n: nat)
    ensures Lead(s) <= n <= |s|
  {
    LeadIsWhitespace(s);
    StopIsWhitespace(s);
    if Lead(s) == |s| then |s| else Stop(s)
  }

  /** `s.trim()`: the slice of `s` between its leading and its trailing whitespace. */
  function Trim(s: string): string {
    s[Lead(s)..TrimEnd(s)]
  }

  /** A non-whitespace character of `s` lies inside `Trim(s)`. */
  lemma TrimKeeps(s: string, k: nat)
    requires k < |s| && !IsWhitespace(s[k])
    ensures Lead(s) <= k < TrimEnd(s)
  {
    LeadIsWhitespace(s);
    StopIsWhitespace(s);
  }

  /** `Trim(s)` starts and ends on a character that is not whitespace, and is empty
      only when all of `s` is whitespace. */
  lemma TrimDropsOnlyWhitespace(s: string)
    ensures Trim(s) != [] ==> !IsWhitespace(Trim(s)[0]) && !IsWhitespace(Trim(s)[|Trim(s)| - 1])
    ensures Trim(s) == [] <==> forall i :: 0 <= i < |s| ==> IsWhitespace(s[i])
  {
    LeadIsWhitespace(s);
    StopIsWhitespace(s);
    var t := Trim(s);
    if t != [] {
      assert t[0] == s[Lead(s)] && t[|t| - 1] == s[TrimEnd(s) - 1];
    }
  }

  /** Trimming a slice of `s` never gives more than trimming `s` itself: the trimmed
      slice starts and ends on characters that lie inside the trimmed whole. */
  lemma TrimSliceNoLonger(s: string, lo: nat, hi: nat)
    requires lo <= hi <= |s|
    ensures |Trim(s[lo..hi])| <= |Trim(s)|
  {
    var x := s[lo..hi];
    var a, b := Lead(x), TrimEnd(x);
    if a < b {
      TrimDropsOnlyWhitespace(x);
      assert x[a] == s[lo + a] && x[b - 1] == s[lo + b - 1];
      TrimKeeps(s, lo + a);
      TrimKeeps(s, lo + b - 1);
    }
  }

  /** `s.lastIndexOf(c)`: the position of the last `c` in `s`, or -1 when there is none. */
  function LastIndexOf(s: string, c: char): (r: int)
    ensures -1 <= r < |s|
    ensures 0 <= r ==> s[r] == c
  {
    if s == [] then -1
    else if s[|s| - 1] == c then |s| - 1
    else LastIndexOf(s[..|s| - 1], c)
  }

  /** No `c` follows the position `LastIndexOf` reports. */
  lemma {:induction false} LastIndexOfIsLast(s: string, c: char)
    ensures forall j :: LastIndexOf(s, c) < j < |s| ==> s[j] != c
  {
    if s != [] && s[|s| - 1] != c {
      var init := s[..|s| - 1];
      LastIndexOfIsLast(init, c);
      forall j | LastIndexOf(s, c) < j < |init| ensures s[j] != c {
        assert s[j] == init[j];
      }
    }
  }
}
