/**
 * The pieces of Python's `str` behaviour the modelled code relies on:
 * `strip`, `rstrip(chars)`, `lower`, `in`, `startswith`/`endswith`,
 * `split` on single characters (and `re.split` on a character class),
 * `split` on a multi-character separator, and `join`.
 */
module Text {

  import opened Common

  /** The characters for which Python's `str.isspace()` holds; `str.strip()` removes them. */
  const Whitespace: set<char> := {
    '\t', '\n', '\U{000B}', '\U{000C}', '\r',
    '\U{001C}', '\U{001D}', '\U{001E}', '\U{001F}', ' ',
    '\U{0085}', '\U{00A0}', '\U{1680}',
    '\U{2000}', '\U{2001}', '\U{2002}', '\U{2003}', '\U{2004}', '\U{2005}',
    '\U{2006}', '\U{2007}', '\U{2008}', '\U{2009}', '\U{200A}',
    '\U{2028}', '\U{2029}', '\U{202F}', '\U{205F}', '\U{3000}'
  }

  /** Every character of `s[lo..hi]` belongs to `cs`. */
  predicate AllIn(s: string, lo: int, hi: int, cs: set<char>) {
    forall i | lo <= i < hi && 0 <= i < |s| :: s[i] in cs
  }

  predicate NoneIn(s: string, cs: set<char>) {
    forall i | 0 <= i < |s| :: s[i] !in cs
  }

  /** How many leading characters of `s` belong to `cs`. */
  function LeadCount(s: string, cs: set<char>): (n: nat)
    ensures n <= |s| && AllIn(s, 0, n, cs)
    ensures n == |s| || s[n] !in cs
    decreases |s|
  {
    if s == [] || s[0] !in cs then 0
    else
      var n := LeadCount(s[1..], cs);
      assert forall i | 1 <= i < n + 1 :: s[i] == s[1..][i - 1];
      n + 1
  }

  /** How many trailing characters of `s` belong to `cs`. */
  function TrailCount(s: string, cs: set<char>): (n: nat)
    ensures n <= |s| && AllIn(s, |s| - n, |s|, cs)
    ensures n == |s| || s[|s| - n - 1] !in cs
    decreases |s|
  {
    if s == [] || s[|s| - 1] !in cs then 0
    else TrailCount(s[..|s| - 1], cs) + 1
  }

  /**
   * `s` is `pre + r + post` with `pre` starting at 0 and of length `a`, and
   * every character of `pre` and of `post` belongs to `cs`.
   */
  predicate Strips(s: string, cs: set<char>, a: nat, r: string) {
    && a + |r| <= |s| && r == s[a..a + |r|]
    && AllIn(s, 0, a, cs) && AllIn(s, a + |r|, |s|, cs)
  }

  /** `r` neither starts nor ends with a character of `cs`. */
  predicate Bare(r: string, cs: set<char>) {
    r == [] || (r[0] !in cs && r[|r| - 1] !in cs)
  }

  /** `s.strip(chars)`: drops the leading and the trailing characters that belong to `cs`. */
  function Trim(s: string, cs: set<char>): (r: string)
    ensures Strips(s, cs, LeadCount(s, cs), r)
    ensures Bare(r, cs)
  {
    var a := LeadCount(s, cs);
    if a == |s| then []
    else
      var b := |s| - TrailCount(s, cs);
      assert a < b;
      s[a..b]
  }

  /**
   * The trimmed text is determined by its description: any bare middle part
   * of `s` whose surroundings consist of characters of `cs` is `Trim(s, cs)`.
   */
  lemma {:induction false} TrimUnique(s: string, cs: set<char>, a: nat, r: string)
    requires Strips(s, cs, a, r) && Bare(r, cs)
    ensures r == Trim(s, cs)
  {
    var n := LeadCount(s, cs);
    if r != [] {
      assert s[a] == r[0];
      var b := a + |r|;
      assert s[b - 1] == r[|r| - 1];
    }
  }

  /** `s.rstrip(chars)`: drops the trailing characters that belong to `cs`. */
  function TrimEnd(s: string, cs: set<char>): (r: string)
    ensures |r| <= |s| && r == s[..|r|]
    ensures AllIn(s, |r|, |s|, cs)
    ensures r == [] || r[|r| - 1] !in cs
  {
    s[..|s| - TrailCount(s, cs)]
  }

  /** `s.strip()`. */
  function Strip(s: string): (r: string)
    ensures Strips(s, Whitespace, LeadCount(s, Whitespace), r)
    ensures Bare(r, Whitespace)
  {
    Trim(s, Whitespace)
  }

  /** ASCII lower-casing of one character, as `str.lower()` does for ASCII letters. */
  function LowerChar(c: char): char {
    if 'A' <= c <= 'Z' then (c as int + 32) as char else c
  }

  /** `s.lower()` restricted to ASCII letters. */
  function Lower(s: string): (r: string)
    ensures |r| == |s|
    ensures forall i | 0 <= i < |s| :: r[i] == LowerChar(s[i])
  {
    seq(|s|, i requires 0 <= i < |s| => LowerChar(s[i]))
  }

  /** Lower-casing twice is lower-casing once, and leaves no upper-case ASCII letter. */
  lemma {:induction false} LowerIdempotent(s: string)
    ensures Lower(Lower(s)) == Lower(s)
    ensures forall i | 0 <= i < |s| :: !('A' <= Lower(s)[i] <= 'Z')
  {
    assert forall i | 0 <= i < |s| :: Lower(Lower(s))[i] == Lower(s)[i];
  }

  predicate StartsWith(s: string, prefix: string) {
    |prefix| <= |s| && s[..|prefix|] == prefix
  }

  predicate EndsWith(s: string, suffix: string) {
    |suffix| <= |s| && s[|s| - |suffix|..] == suffix
  }

  predicate OccursAt(s: string, pat: string, i: nat) {
    i + |pat| <= |s| && s[i..i + |pat|] == pat
  }

  lemma {:induction false} OccursShift(s: string, pat: string, i: nat)
    requires s != []
    ensures OccursAt(s, pat, i + 1) <==> OccursAt(s[1..], pat, i)
  {
    if i + 1 + |pat| <= |s| {
      assert s[i + 1..i + 1 + |pat|] == s[1..][i..i + |pat|];
    }
  }

  /** The index of the leftmost occurrence of `pat` in `s` (`s.find(pat)`), if any. */
  function FindFirst(s: string, pat: string): (r: Option<nat>)
    ensures r.Some? ==> OccursAt(s, pat, r.value)
    ensures forall i: nat | i < (if r.Some? then r.value else |s| + 1) :: !OccursAt(s, pat, i)
    decreases |s|
  {
    if |s| < |pat| then None
    else if s[..|pat|] == pat then Some(0)
    else
      var rest := FindFirst(s[1..], pat);
      assert forall i: nat | 1 <= i :: OccursAt(s, pat, i) <==> OccursAt(s[1..], pat, i - 1) by {
        forall i: nat | 1 <= i
          ensures OccursAt(s, pat, i) <==> OccursAt(s[1..], pat, i - 1)
        {
          OccursShift(s, pat, i - 1);
        }
      }
      assert !OccursAt(s, pat, 0);
      match rest
      case None => None
      case Some(i) => Some(i + 1)
  }

  /** Python's `pat in s` for strings. */
  predicate Contains(s: string, pat: string) {
    FindFirst(s, pat).Some?
  }

  /** `pat` occurs in `s` exactly when it occurs at some position. */
  lemma {:induction false} ContainsAt(s: string, pat: string, i: nat)
    requires OccursAt(s, pat, i)
    ensures Contains(s, pat)
  {
  }

  /**
   * `s.split(c)` for a single character `c` with `seps == {c}`, and
   * `re.split("[...]", s)` for a character class `seps`: the pieces between
   * separators, empty pieces included.
   */
  function Split(s: string, seps: set<char>): (parts: seq<string>)
    ensures |parts| >= 1
    ensures forall i | 0 <= i < |parts| :: NoneIn(parts[i], seps)
    decreases |s|
  {
    if s == [] then [[]]
    else
      var init := Split(s[..|s| - 1], seps);
      var c := s[|s| - 1];
      if c in seps then init + [[]]
      else init[..|init| - 1] + [init[|init| - 1] + [c]]
  }

  /** `parts` with `p` appended to its last piece. */
  function Extend(parts: seq<string>, p: string): (r: seq<string>)
    requires |parts| >= 1
    ensures |r| == |parts| && r[..|r| - 1] == parts[..|parts| - 1]
    ensures r[|r| - 1] == parts[|parts| - 1] + p
  {
    parts[..|parts| - 1] + [parts[|parts| - 1] + p]
  }

  lemma {:induction false} ExtendTwice(parts: seq<string>, q: string, c: char)
    requires |parts| >= 1
    ensures Extend(Extend(parts, q), [c]) == Extend(parts, q + [c])
  {
    var a, b := Extend(Extend(parts, q), [c]), Extend(parts, q + [c]);
    assert a[|a| - 1] == b[|b| - 1];
    assert a == a[..|a| - 1] + [a[|a| - 1]];
    assert b == b[..|b| - 1] + [b[|b| - 1]];
  }

  lemma {:induction false} ExtendNothing(parts: seq<string>)
    requires |parts| >= 1
    ensures Extend(parts, []) == parts
  {
    var n := |parts|;
    assert parts[n - 1] + [] == parts[n - 1];
    assert parts == parts[..n - 1] + [parts[n - 1]];
  }

  /** Appending a character that is not a separator extends the last piece. */
  lemma {:induction false} SplitSnoc(t: string, c: char, seps: set<char>)
    requires c !in seps
    ensures Split(t + [c], seps) == Extend(Split(t, seps), [c])
  {
    assert (t + [c])[..|t + [c]| - 1] == t;
  }

  /** Appending a separator starts a new, empty piece. */
  lemma {:induction false} SplitSep(t: string, c: char, seps: set<char>)
    requires c in seps
    ensures Split(t + [c], seps) == Split(t, seps) + [[]]
  {
    assert (t + [c])[..|t + [c]| - 1] == t;
  }

  /** A non-empty `p` is its front followed by its last character. */
  lemma {:induction false} LastOff(s: string, p: string)
    requires p != []
    ensures p[..|p| - 1] + [p[|p| - 1]] == p
    ensures s + p == (s + p[..|p| - 1]) + [p[|p| - 1]]
  {
  }

  /** Appending separator-free text extends the last piece of a split. */
  lemma {:induction false} SplitAppendFree(s: string, p: string, seps: set<char>)
    requires NoneIn(p, seps)
    ensures Split(s + p, seps) == Extend(Split(s, seps), p)
    decreases |p|
  {
    var parts := Split(s, seps);
    if p == [] {
      assert s + p == s;
      ExtendNothing(parts);
    } else {
      var q, c := p[..|p| - 1], p[|p| - 1];
      LastOff(s, p);
      SplitAppendFree(s, q, seps);
      SplitSnoc(s + q, c, seps);
      ExtendTwice(parts, q, c);
    }
  }

  /**
   * The first piece of `parts` is everything in `s` before the first
   * separator: the whole of `s` when there is one piece, and otherwise it stops
   * at a separator.
   */
  predicate FirstPieceOf(s: string, seps: set<char>, parts: seq<string>) {
    && |parts| >= 1
    && |parts[0]| <= |s| && parts[0] == s[..|parts[0]|]
    && ((|parts| == 1 && parts[0] == s) || (|parts| >= 2 && |parts[0]| < |s| && s[|parts[0]|] in seps))
  }

  lemma {:induction false} SplitFirst(s: string, seps: set<char>)
    ensures FirstPieceOf(s, seps, Split(s, seps))
    decreases |s|
  {
    if s == [] {
      assert Split(s, seps) == [[]];
    } else {
      var init := s[..|s| - 1];
      var c := s[|s| - 1];
      SplitFirst(init, seps);
      assert s == init + [c];
      if c in seps {
        SplitFirstSep(init, c, seps, Split(init, seps));
      } else {
        SplitFirstKeep(init, c, seps, Split(init, seps));
      }
    }
  }

  /** A prefix of `init` is the same prefix of `init + [c]`. */
  lemma {:induction false} PrefixOfSnoc(init: string, c: char, n: nat)
    requires n <= |init|
    ensures (init + [c])[..n] == init[..n]
  {
  }

  lemma {:induction false} SplitFirstSep(init: string, c: char, seps: set<char>, ip: seq<string>)
    requires c in seps && ip == Split(init, seps)
    requires FirstPieceOf(init, seps, ip)
    ensures FirstPieceOf(init + [c], seps, Split(init + [c], seps))
  {
    SplitSep(init, c, seps);
    PrefixOfSnoc(init, c, |ip[0]|);
    assert (ip + [[]])[0] == ip[0];
  }

  lemma {:induction false} SplitFirstKeep(init: string, c: char, seps: set<char>, ip: seq<string>)
    requires c !in seps && ip == Split(init, seps)
    requires FirstPieceOf(init, seps, ip)
    ensures FirstPieceOf(init + [c], seps, Split(init + [c], seps))
  {
    SplitSnoc(init, c, seps);
    var sp := Extend(ip, [c]);
    if |ip| == 1 {
      assert sp == [init + [c]];
    } else {
      assert sp[0] == sp[..|sp| - 1][0] == ip[..|ip| - 1][0] == ip[0];
      PrefixOfSnoc(init, c, |ip[0]|);
    }
  }

  /** `sep.join(parts)` for a one-character separator. */
  function Join(parts: seq<string>, sep: char): (r: string)
    ensures parts != [] ==> StartsWith(r, parts[0]) && EndsWith(r, parts[|parts| - 1])
    ensures |parts| >= 2 ==> sep in r
  {
    if parts == [] then []
    else if |parts| == 1 then parts[0]
    else Join(parts[..|parts| - 1], sep) + [sep] + parts[|parts| - 1]
  }

  /** Extending a freshly started empty piece by `last` appends `last` as a piece. */
  lemma {:induction false} ExtendEmpty(init: seq<string>, last: string)
    ensures Extend(init + [[]], last) == init + [last]
  {
    var r := Extend(init + [[]], last);
    assert r[..|init|] == (init + [[]])[..|init|] == init;
    assert r[|init|] == [] + last == last;
    assert r == r[..|init|] + [r[|init|]];
  }

  /** A non-empty sequence is its front followed by its last element. */
  lemma {:induction false} FrontLast<T>(xs: seq<T>)
    requires xs != []
    ensures xs[..|xs| - 1] + [xs[|xs| - 1]] == xs
  {
  }

  /** Splitting a join on its separator gives the pieces back when no piece holds the separator. */
  lemma {:induction false} SplitJoin(parts: seq<string>, sep: char)
    requires |parts| >= 1
    requires forall i | 0 <= i < |parts| :: NoneIn(parts[i], {sep})
    ensures Split(Join(parts, sep), {sep}) == parts
    decreases |parts|
  {
    if |parts| == 1 {
      SplitAppendFree([], parts[0], {sep});
      assert [] + parts[0] == parts[0];
      assert Split([], {sep}) == [[]];
    } else {
      var init := parts[..|parts| - 1];
      var last := parts[|parts| - 1];
      SplitJoin(init, sep);
      var j := Join(init, sep) + [sep];
      SplitSep(Join(init, sep), sep, {sep});
      SplitAppendFree(j, last, {sep});
      ExtendEmpty(init, last);
      assert Join(parts, sep) == j + last;
      FrontLast(parts);
    }
  }

  /** The non-empty pieces, in order: `[p for p in parts if p]`. */
  function NonEmpty(parts: seq<string>): (r: seq<string>)
    ensures forall i | 0 <= i < |r| :: r[i] != []
    ensures forall i | 0 <= i < |r| :: r[i] in parts
  {
    if parts == [] then []
    else NonEmpty(parts[..|parts| - 1]) + (if parts[|parts| - 1] == [] then [] else [parts[|parts| - 1]])
  }

  /**
   * Splitting text that holds a character outside `seps` leaves at least one
   * non-empty piece, so `[p for p in re.split(...) if p][-1]` exists.
   */
  lemma {:induction false} SplitKeepsPiece(s: string, seps: set<char>, k: nat)
    requires k < |s| && s[k] !in seps
    ensures NonEmpty(Split(s, seps)) != []
    decreases |s|
  {
    var init, c := s[..|s| - 1], s[|s| - 1];
    assert s == init + [c];
    var ip := Split(init, seps);
    if c in seps {
      SplitSep(init, c, seps);
      assert s[k] == init[k];
      SplitKeepsPiece(init, seps, k);
      assert (ip + [[]])[..|ip|] == ip;
    } else {
      SplitSnoc(init, c, seps);
      var sp := Extend(ip, [c]);
      assert sp[|sp| - 1] != [];
    }
  }

  /**
   * `s.split(pat)` for a non-empty separator string: the pieces between the
   * leftmost non-overlapping occurrences of `pat`.
   */
  function SplitOn(s: string, pat: string): (parts: seq<string>)
    requires pat != []
    ensures |parts| >= 1
    ensures var i := FindFirst(s, pat);
      parts[0] == if i.Some? then s[..i.value] else s
    decreases |s|
  {
    match FindFirst(s, pat)
    case None => [s]
    case Some(i) => [s[..i]] + SplitOn(s[i + |pat|..], pat)
  }

  /**
   * `s.split(pat)` has a second piece exactly when `pat` occurs in `s`, and
   * that piece is what follows the first occurrence, up to the next one.
   */
  lemma {:induction false} SplitOnSecond(s: string, pat: string)
    requires pat != []
    ensures Contains(s, pat) <==> |SplitOn(s, pat)| >= 2
    ensures Contains(s, pat) ==>
      var i := FindFirst(s, pat).value;
      SplitOn(s, pat)[1] == SplitOn(s[i + |pat|..], pat)[0]
  {
  }

  /** The decimal digits. */
  const Digits: set<char> := {'0', '1', '2', '3', '4', '5', '6', '7', '8', '9'}

  function DigitChar(d: nat): (c: char)
    requires d < 10
    ensures c in Digits
  {
    "0123456789"[d]
  }

  function DigitValue(c: char): (d: nat)
    requires c in Digits
    ensures d < 10 && DigitChar(d) == c
  {
    c as int - '0' as int
  }

  /** `str(n)` for a non-negative integer. */
  function NatStr(n: nat): (s: string)
    ensures s != [] && AllIn(s, 0, |s|, Digits)
  {
    if n < 10 then [DigitChar(n)] else NatStr(n / 10) + [DigitChar(n % 10)]
  }

  /** `int(s)` for a string of decimal digits. */
  function DigitsValue(s: string): (n: nat)
    requires AllIn(s, 0, |s|, Digits)
  {
    if s == [] then 0 else 10 * DigitsValue(s[..|s| - 1]) + DigitValue(s[|s| - 1])
  }

  /** Reading back the decimal text of `n` gives `n`. */
  lemma {:induction false} NatStrRoundTrip(n: nat)
    ensures DigitsValue(NatStr(n)) == n
  {
    var s := NatStr(n);
    if n < 10 {
      assert s[..0] == [];
    } else {
      var q, d := n / 10, n % 10;
      NatStrRoundTrip(q);
      assert s == NatStr(q) + [DigitChar(d)];
      assert s[..|s| - 1] == NatStr(q);
      assert DigitValue(s[|s| - 1]) == d;
      assert n == 10 * q + d;
    }
  }

  /** `str(t)` for any integer. */
  function IntStr(t: int): (s: string)
    ensures t >= 0 ==> s == NatStr(t)
    ensures t < 0 ==> s == "-" + NatStr(-t)
  {
    if t >= 0 then NatStr(t) else "-" + NatStr(-t)
  }
}
