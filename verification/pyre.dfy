/**
 * `re.findall(r'\d+\.\d+', s)` on a Python 2 byte string: the
 * non-overlapping, leftmost, greedy matches of "digits, a dot, digits",
 * scanned from left to right.
 */
module PyRe {
  import opened Wrappers
  import opened PyStr

  /** End of the run of digits that starts at index `i`. */
  function DigitRunEnd(s: string, i: nat): (j: nat)
    requires i <= |s|
    ensures i <= j <= |s|
    ensures forall k :: i <= k < j ==> IsDigit(s[k])
    ensures j == |s| || !IsDigit(s[j])
    decreases |s| - i
  {
    if i < |s| && IsDigit(s[i]) then DigitRunEnd(s, i + 1) else i
  }

  /** `t` is digits, a dot at index `d`, digits. */
  predicate DecimalAt(t: string, d: int) {
    0 < d < |t| - 1 && t[d] == '.' && AllDigits(t[..d]) && AllDigits(t[d + 1..])
  }

  /** `t` is a whole match of `\d+\.\d+`. */
  predicate IsDecimal(t: string) {
    exists d :: 0 < d < |t| - 1 && DecimalAt(t, d)
  }

  /** A match of `\d+\.\d+` at `s[i..k]` that cannot be extended to the right. */
  predicate GreedyMatch(s: string, i: int, k: int) {
    0 <= i < k <= |s| && IsDecimal(s[i..k]) && (k == |s| || !IsDigit(s[k]))
  }

  /** The end of the greedy match of `\d+\.\d+` that starts at index `i`, if any. */
  function MatchAt(s: string, i: nat): (r: Option<nat>)
    requires i <= |s|
    ensures r.Some? ==> GreedyMatch(s, i, r.value)
  {
    var j := DigitRunEnd(s, i);
    if i < j < |s| && s[j] == '.' then
      var k := DigitRunEnd(s, j + 1);
      if k > j + 1 then
        assert s[i..k][..j - i] == s[i..j];
        assert s[i..k][j - i + 1..] == s[j + 1..k];
        assert DecimalAt(s[i..k], j - i);
        Some(k)
      else None
    else None
  }

  lemma {:induction false} DigitRunEndExact(s: string, i: nat, j: nat)
    requires i <= j <= |s|
    requires forall k :: i <= k < j ==> IsDigit(s[k])
    requires j == |s| || !IsDigit(s[j])
    ensures DigitRunEnd(s, i) == j
    decreases j - i
  {
    if i < j {
      DigitRunEndExact(s, i + 1, j);
    }
  }

  /** Every greedy match is the one the scanner finds at its start. */
  lemma MatchAtComplete(s: string, i: nat, k: nat)
    requires GreedyMatch(s, i, k)
    ensures MatchAt(s, i) == Some(k)
  {
    var t := s[i..k];
    var d :| 0 < d < |t| - 1 && DecimalAt(t, d);
    assert forall m :: i <= m < i + d ==> s[m] == t[..d][m - i];
    DigitRunEndExact(s, i, i + d);
    assert forall m :: i + d + 1 <= m < k ==> s[m] == t[d + 1..][m - i - d - 1];
    DigitRunEndExact(s, i + d + 1, k);
  }

  /**
   * The matches found scanning `s` from its start: the greedy match is taken
   * when the pattern matches at the front and the scan resumes after it,
   * otherwise the scan drops one character.
   */
  function FindDecimals(s: string): (r: seq<string>)
    ensures forall n :: 0 <= n < |r| ==> IsDecimal(r[n])
    decreases |s|
  {
    if s == [] then []
    else
      match MatchAt(s, 0)
      case Some(k) => [s[..k]] + FindDecimals(s[k..])
      case None => FindDecimals(s[1..])
  }

  lemma FindDecimalsSome(s: string, k: nat)
    requires MatchAt(s, 0) == Some(k)
    ensures FindDecimals(s) == [s[..k]] + FindDecimals(s[k..])
  {
  }

  lemma FindDecimalsNone(s: string)
    requires s != [] && MatchAt(s, 0).None?
    ensures FindDecimals(s) == FindDecimals(s[1..])
  {
  }

  /** A string without a dot holds no match. */
  lemma {:induction false} FindDecimalsNoDot(s: string)
    requires forall k :: 0 <= k < |s| ==> s[k] != '.'
    ensures FindDecimals(s) == []
    decreases |s|
  {
    if s != [] {
      match MatchAt(s, 0)
      case Some(k) =>
      case None =>
        FindDecimalsNoDot(s[1..]);
    }
  }

  /** A lone decimal is found whole. */
  lemma FindDecimalsWhole(t: string)
    requires IsDecimal(t)
    ensures FindDecimals(t) == [t]
  {
    assert t[0..|t|] == t;
    MatchAtComplete(t, 0, |t|);
    FindDecimalsSome(t, |t|);
    assert t[|t|..] == [];
  }

  /** The match at index `d` of `s` is the match at the start of `s[d..]`, shifted by `d`. */
  lemma MatchAtSuffix(s: string, d: nat)
    requires d <= |s|
    ensures MatchAt(s[d..], 0).Some? <==> MatchAt(s, d).Some?
    ensures MatchAt(s, d).Some? ==> MatchAt(s[d..], 0) == Some(MatchAt(s, d).value - d)
  {
    var t := s[d..];
    if MatchAt(s, d).Some? {
      var k := MatchAt(s, d).value;
      assert t[0..k - d] == s[d..k];
      assert k - d < |t| ==> t[k - d] == s[k];
      MatchAtComplete(t, 0, k - d);
    }
    if MatchAt(t, 0).Some? {
      var k := MatchAt(t, 0).value;
      assert t[0..k] == s[d..d + k];
      assert k < |t| ==> t[k] == s[d + k];
      MatchAtComplete(s, d, d + k);
    }
  }

  /** Positions where no match starts are passed over one by one. */
  lemma {:induction false} FindDecimalsSkip(s: string, p: nat)
    requires p <= |s|
    requires forall q :: 0 <= q < p ==> MatchAt(s, q).None?
    ensures FindDecimals(s) == FindDecimals(s[p..])
    decreases p
  {
    if p == 0 {
      assert s[0..] == s;
    } else {
      FindDecimalsSkip(s, p - 1);
      MatchAtSuffix(s, p - 1);
      var t := s[p - 1..];
      FindDecimalsNone(t);
      assert t[1..] == s[p..];
    }
  }

  /** Scanning from index `p`, where a match ends at `k`, takes that match and resumes at `k`. */
  lemma FindDecimalsFrom(s: string, p: nat, k: nat)
    requires p <= |s| && MatchAt(s, p) == Some(k)
    ensures FindDecimals(s[p..]) == [s[p..k]] + FindDecimals(s[k..])
  {
    var t := s[p..];
    MatchAtSuffix(s, p);
    FindDecimalsSome(t, k - p);
    assert t[..k - p] == s[p..k];
    assert t[k - p..] == s[k..];
  }

  /**
   * The first match is the leftmost one, taken greedily, and the scan
   * resumes right after it: no earlier match is skipped and matches do not
   * overlap.
   */
  lemma FindDecimalsLeftmost(s: string, p: nat, k: nat)
    requires GreedyMatch(s, p, k)
    requires forall q, m :: q < p ==> !GreedyMatch(s, q, m)
    ensures FindDecimals(s) == [s[p..k]] + FindDecimals(s[k..])
  {
    forall q | 0 <= q < p
      ensures MatchAt(s, q).None?
    {
    }
    FindDecimalsSkip(s, p);
    MatchAtComplete(s, p, k);
    FindDecimalsFrom(s, p, k);
  }

  /** A dotted address splits into two decimals: the scan resumes after the first match's end. */
  lemma FindDecimalsAddress()
    ensures FindDecimals("192.168.0.3") == ["192.168", "0.3"]
  {
    var s := "192.168.0.3";
    assert DecimalAt(s[0..7], 3);
    MatchAtComplete(s, 0, 7);
    FindDecimalsSome(s, 7);
    var t := s[7..];
    assert t == ".0.3";
    assert DigitRunEnd(t, 0) == 0;
    FindDecimalsNone(t);
    assert t[1..] == "0.3";
    assert DecimalAt(t[1..], 1);
    FindDecimalsWhole(t[1..]);
    assert FindDecimals(t) == ["0.3"];
    assert s[..7] == "192.168";
  }

  /** A string in which the pattern matches nowhere yields nothing. */
  lemma FindDecimalsNoMatch(s: string)
    requires forall p, k :: !GreedyMatch(s, p, k)
    ensures FindDecimals(s) == []
  {
    forall q | 0 <= q < |s|
      ensures MatchAt(s, q).None?
    {
    }
    FindDecimalsSkip(s, |s|);
  }

  /** A character that is neither a digit nor a dot: no match runs across it. */
  predicate Separator(c: char) {
    !IsDigit(c) && c != '.'
  }

  lemma {:induction false} DigitRunEndPrefix(a: string, c: char, b: string, i: nat)
    requires i <= |a| && Separator(c)
    ensures DigitRunEnd(a + [c] + b, i) == DigitRunEnd(a, i)
    decreases |a| - i
  {
    if i < |a| && IsDigit(a[i]) {
      DigitRunEndPrefix(a, c, b, i + 1);
    }
  }

  lemma MatchAtPrefix(a: string, c: char, b: string)
    requires Separator(c)
    ensures MatchAt(a + [c] + b, 0) == MatchAt(a, 0)
  {
    DigitRunEndPrefix(a, c, b, 0);
    var j := DigitRunEnd(a, 0);
    if 0 < j < |a| {
      DigitRunEndPrefix(a, c, b, j + 1);
    }
  }

  lemma AppendAssoc(u: seq<string>, v: seq<string>, w: seq<string>)
    ensures (u + v) + w == u + (v + w)
  {
  }

  lemma FindDecimalsSeparatedSome(a: string, c: char, b: string, k: nat)
    requires Separator(c) && MatchAt(a, 0) == Some(k)
    requires FindDecimals(a[k..] + [c] + b) == FindDecimals(a[k..]) + FindDecimals(b)
    ensures FindDecimals(a + [c] + b) == FindDecimals(a) + FindDecimals(b)
  {
    var s := a + [c] + b;
    MatchAtPrefix(a, c, b);
    FindDecimalsSome(s, k);
    FindDecimalsSome(a, k);
    assert s[..k] == a[..k];
    assert s[k..] == a[k..] + [c] + b;
    AppendAssoc([a[..k]], FindDecimals(a[k..]), FindDecimals(b));
  }

  lemma FindDecimalsSeparatedNone(a: string, c: char, b: string)
    requires Separator(c) && a != [] && MatchAt(a, 0).None?
    requires FindDecimals(a[1..] + [c] + b) == FindDecimals(a[1..]) + FindDecimals(b)
    ensures FindDecimals(a + [c] + b) == FindDecimals(a) + FindDecimals(b)
  {
    var s := a + [c] + b;
    MatchAtPrefix(a, c, b);
    FindDecimalsNone(s);
    FindDecimalsNone(a);
    assert s[1..] == a[1..] + [c] + b;
  }

  /** Matches never straddle a separator: `findall` splits over it. */
  lemma {:induction false} FindDecimalsSeparated(a: string, c: char, b: string)
    requires Separator(c)
    ensures FindDecimals(a + [c] + b) == FindDecimals(a) + FindDecimals(b)
    decreases |a|
  {
    if a == [] {
      assert a + [c] + b == [c] + b;
      FindDecimalsNone([c] + b);
      assert ([c] + b)[1..] == b;
    } else {
      match MatchAt(a, 0)
      case Some(k) =>
        FindDecimalsSeparated(a[k..], c, b);
        FindDecimalsSeparatedSome(a, c, b, k);
      case None =>
        FindDecimalsSeparated(a[1..], c, b);
        FindDecimalsSeparatedNone(a, c, b);
    }
  }

  /** The matches found in each word in turn. */
  function FindInWords(words: seq<string>): seq<string>
    decreases |words|
  {
    if words == [] then [] else FindDecimals(words[0]) + FindInWords(words[1..])
  }

  /** Scanning words joined by single spaces finds the matches of each word, in order. */
  lemma {:induction false} FindDecimalsJoin(words: seq<string>)
    ensures FindDecimals(Join(words)) == FindInWords(words)
    decreases |words|
  {
    if |words| == 1 {
      assert FindInWords(words[1..]) == [];
    } else if |words| > 1 {
      FindDecimalsJoin(words[1..]);
      JoinCons(words[0], words[1..]);
      assert [words[0]] + words[1..] == words;
      assert words[0] + ([' '] + Join(words[1..])) == words[0] + [' '] + Join(words[1..]);
      FindDecimalsSeparated(words[0], ' ', Join(words[1..]));
    }
  }

  lemma {:induction false} FindInWordsAppend(u: seq<string>, v: seq<string>)
    ensures FindInWords(u + v) == FindInWords(u) + FindInWords(v)
    decreases |u|
  {
    if u != [] {
      FindInWordsAppend(u[1..], v);
      assert (u + v)[0] == u[0] && (u + v)[1..] == u[1..] + v;
      AppendAssoc(FindDecimals(u[0]), FindInWords(u[1..]), FindInWords(v));
    } else {
      assert u + v == v;
    }
  }

  /** Words without a dot hold no match. */
  lemma {:induction false} FindInWordsNoDot(words: seq<string>)
    requires forall n, k :: 0 <= n < |words| && 0 <= k < |words[n]| ==> words[n][k] != '.'
    ensures FindInWords(words) == []
    decreases |words|
  {
    if words != [] {
      FindDecimalsNoDot(words[0]);
      FindInWordsNoDot(words[1..]);
    }
  }

  /** Words that are each a whole decimal are found as they are. */
  lemma {:induction false} FindInWordsDecimals(words: seq<string>)
    requires forall n :: 0 <= n < |words| ==> IsDecimal(words[n])
    ensures FindInWords(words) == words
    decreases |words|
  {
    if words != [] {
      FindDecimalsWhole(words[0]);
      FindInWordsDecimals(words[1..]);
      assert [words[0]] + words[1..] == words;
    }
  }

  /** A decimal holds no whitespace. */
  lemma DecimalNoSpace(t: string)
    requires IsDecimal(t)
    ensures t != [] && NoSpace(t)
  {
    var d :| 0 < d < |t| - 1 && DecimalAt(t, d);
    forall k | 0 <= k < |t|
      ensures !IsSpace(t[k])
    {
      if k < d {
        assert t[k] == t[..d][k];
      } else if k > d {
        assert t[k] == t[d + 1..][k - d - 1];
      }
    }
  }
}
