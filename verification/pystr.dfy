/**
 * The Python 2 `str` operations the core relies on, over `string`.
 * Whitespace is what Python 2's byte strings treat as whitespace
 * (space, tab, newline, carriage return, vertical tab, form feed).
 */
module PyStr {
  import opened Wrappers

  predicate IsSpace(c: char) {
    c == ' ' || c == '\t' || c == '\n' || c == '\r' || c == '\U{000B}' || c == '\U{000C}'
  }

  predicate AllSpace(s: string) {
    forall i :: 0 <= i < |s| ==> IsSpace(s[i])
  }

  predicate NoSpace(s: string) {
    forall i :: 0 <= i < |s| ==> !IsSpace(s[i])
  }

  /** `s.lstrip()`: `s` without its whitespace head. */
  function TrimLeft(s: string): (r: string)
    ensures |r| <= |s|
    ensures r == [] || !IsSpace(r[0])
  {
    if s != [] && IsSpace(s[0]) then TrimLeft(s[1..]) else s
  }

  /** `s.rstrip()`: `s` without its whitespace tail. */
  function TrimRight(s: string): (r: string)
    ensures |r| <= |s|
    ensures r == [] || !IsSpace(r[|r| - 1])
  {
    if s != [] && IsSpace(s[|s| - 1]) then TrimRight(s[..|s| - 1]) else s
  }

  /** What `lstrip` drops is a head of whitespace, and it keeps the rest. */
  lemma {:induction false} TrimLeftSuffix(s: string)
    ensures TrimLeft(s) == s[|s| - |TrimLeft(s)|..]
    ensures AllSpace(s[..|s| - |TrimLeft(s)|])
  {
    if s != [] && IsSpace(s[0]) {
      TrimLeftSuffix(s[1..]);
      var r := TrimLeft(s[1..]);
      assert s[..|s| - |r|] == [s[0]] + s[1..][..|s| - 1 - |r|];
      assert s[|s| - |r|..] == s[1..][|s| - 1 - |r|..];
    }
  }

  /** What `rstrip` drops is a tail of whitespace, and it keeps the rest. */
  lemma {:induction false} TrimRightPrefix(s: string)
    ensures TrimRight(s) == s[..|TrimRight(s)|]
    ensures AllSpace(s[|TrimRight(s)|..])
  {
    if s != [] && IsSpace(s[|s| - 1]) {
      TrimRightPrefix(s[..|s| - 1]);
      var r := TrimRight(s[..|s| - 1]);
      assert s[|r|..] == s[..|s| - 1][|r|..] + [s[|s| - 1]];
      assert s[..|r|] == s[..|s| - 1][..|r|];
    }
  }

  /** `s` is `r` with the all-whitespace `s[..lead]` before it and an all-whitespace tail after it. */
  ghost predicate Framed(s: string, lead: int, r: string) {
    0 <= lead <= |s| - |r| && s[lead..lead + |r|] == r && AllSpace(s[..lead]) && AllSpace(s[lead + |r|..])
  }

  /**
   * `s.strip()`: the part of `s` left between a whitespace head and a
   * whitespace tail, starting and ending with a non-whitespace character.
   */
  function Strip(s: string): string {
    TrimLeft(TrimRight(s))
  }

  /** The stripped string starts and ends with a non-whitespace character. */
  lemma StripEnds(s: string)
    ensures Strip(s) == [] || (!IsSpace(Strip(s)[0]) && !IsSpace(Strip(s)[|Strip(s)| - 1]))
  {
    TrimLeftSuffix(TrimRight(s));
  }

  /** Stripping removes only whitespace, and only from the two ends. */
  lemma StripFramed(s: string)
    ensures exists lead :: Framed(s, lead, Strip(s))
  {
    var t := TrimRight(s);
    var r := TrimLeft(t);
    TrimRightPrefix(s);
    TrimLeftSuffix(t);
    var lead := |t| - |r|;
    assert s[lead..lead + |r|] == r;
    assert s[..lead] == t[..lead];
    assert s[lead + |r|..] == s[|t|..];
    assert Framed(s, lead, Strip(s));
  }

  lemma {:induction false} TrimRightSpaceTail(s: string, ws: string)
    requires AllSpace(ws)
    ensures TrimRight(s + ws) == TrimRight(s)
    decreases |ws|
  {
    if ws == [] {
      assert s + ws == s;
    } else {
      assert (s + ws)[..|s + ws| - 1] == s + ws[..|ws| - 1];
      TrimRightSpaceTail(s, ws[..|ws| - 1]);
    }
  }

  lemma {:induction false} TrimLeftSpaceHead(ws: string, s: string)
    requires AllSpace(ws)
    ensures TrimLeft(ws + s) == TrimLeft(s)
    decreases |ws|
  {
    if ws == [] {
      assert ws + s == s;
    } else {
      assert (ws + s)[1..] == ws[1..] + s;
      TrimLeftSpaceHead(ws[1..], s);
    }
  }

  lemma {:induction false} StripSpaceHead(ws: string, s: string)
    requires AllSpace(ws)
    ensures TrimLeft(TrimRight(ws + s)) == TrimLeft(TrimRight(s))
    decreases |s|
  {
    if s == [] {
      assert ws + s == [] + ws;
      TrimRightSpaceTail([], ws);
    } else if IsSpace(s[|s| - 1]) {
      assert (ws + s)[..|ws + s| - 1] == ws + s[..|s| - 1];
      StripSpaceHead(ws, s[..|s| - 1]);
    } else {
      TrimLeftSpaceHead(ws, s);
    }
  }

  /** Whitespace around a line, such as its line break, does not change what it strips to. */
  lemma StripPadded(ws1: string, s: string, ws2: string)
    requires AllSpace(ws1) && AllSpace(ws2)
    ensures Strip(ws1 + s + ws2) == Strip(s)
  {
    TrimRightSpaceTail(ws1 + s, ws2);
    StripSpaceHead(ws1, s);
  }

  /** A stripped line starts with the first character of the line that is not whitespace. */
  lemma StripFirst(ws: string, c: char, rest: string)
    requires AllSpace(ws) && !IsSpace(c)
    ensures Strip(ws + [c] + rest) != [] && Strip(ws + [c] + rest)[0] == c
  {
    var s := [c] + rest;
    assert ws + [c] + rest == ws + s + [];
    StripPadded(ws, s, []);
    TrimRightPrefix(s);
    var t := TrimRight(s);
    forall k | |t| <= k < |s|
      ensures IsSpace(s[k])
    {
      assert s[k] == s[|t|..][k - |t|];
    }
    assert s[0] == c && !IsSpace(s[0]);
    assert t[0] == s[..|t|][0];
  }

  /** Stripping stops at the first and the last non-whitespace characters. */
  lemma StripBounds(s: string, i: nat, j: nat)
    requires i < j <= |s| && !IsSpace(s[i]) && !IsSpace(s[j - 1])
    ensures exists lead :: Framed(s, lead, Strip(s)) && lead <= i && j <= lead + |Strip(s)|
  {
    var t := Strip(s);
    StripFramed(s);
    var lead :| Framed(s, lead, t);
    forall k | 0 <= k < lead
      ensures IsSpace(s[k])
    {
      assert s[k] == s[..lead][k];
    }
    forall k | lead + |t| <= k < |s|
      ensures IsSpace(s[k])
    {
      assert s[k] == s[lead + |t|..][k - lead - |t|];
    }
  }

  /** A stretch of `s` inside the part `r` that `s` frames occurs in `r`. */
  lemma FramedKeeps(s: string, lead: int, r: string, i: nat, j: nat)
    requires Framed(s, lead, r) && lead <= i <= j <= lead + |r|
    ensures OccursAt(r, s[i..j], i - lead)
  {
    var o := i - lead;
    var inner := r[o..o + (j - i)];
    forall k | 0 <= k < j - i
      ensures inner[k] == s[i..j][k]
    {
      assert inner[k] == r[o + k] == s[lead..lead + |r|][o + k];
    }
    assert inner == s[i..j];
  }

  /** A stretch of `s` that starts and ends with a non-whitespace character survives stripping whole. */
  lemma StripKeepsInner(s: string, i: nat, j: nat)
    requires i < j <= |s| && !IsSpace(s[i]) && !IsSpace(s[j - 1])
    ensures Contains(Strip(s), s[i..j])
  {
    var t := Strip(s);
    StripBounds(s, i, j);
    var lead :| Framed(s, lead, t) && lead <= i && j <= lead + |t|;
    FramedKeeps(s, lead, t, i, j);
  }

  /** Length of the run of non-whitespace characters that `s` starts with. */
  function WordEnd(s: string): (n: nat)
    ensures n <= |s| && NoSpace(s[..n]) && (n == |s| || IsSpace(s[n]))
  {
    if s == [] || IsSpace(s[0]) then 0
    else
      var n := 1 + WordEnd(s[1..]);
      assert s[..n] == [s[0]] + s[1..][..n - 1];
      n
  }

  /** `s.split()`: the maximal runs of non-whitespace characters, in order. */
  function Split(s: string): (r: seq<string>)
    ensures forall i :: 0 <= i < |r| ==> r[i] != [] && NoSpace(r[i])
    decreases |s|
  {
    var t := TrimLeft(s);
    if t == [] then []
    else
      var n := WordEnd(t);
      [t[..n]] + Split(t[n..])
  }

  /** `' '.join(words)` */
  function Join(words: seq<string>): string {
    if words == [] then []
    else if |words| == 1 then words[0]
    else words[0] + " " + Join(words[1..])
  }

  lemma {:induction false} WordEndOf(w: string, rest: string)
    requires NoSpace(w)
    requires rest == [] || IsSpace(rest[0])
    ensures WordEnd(w + rest) == |w|
  {
    if w != [] {
      assert (w + rest)[1..] == w[1..] + rest;
      WordEndOf(w[1..], rest);
    }
  }

  lemma SplitLeadingSpace(c: char, rest: string)
    requires IsSpace(c)
    ensures Split([c] + rest) == Split(rest)
  {
    assert ([c] + rest)[1..] == rest;
    assert TrimLeft([c] + rest) == TrimLeft(rest);
  }

  lemma SplitWord(w: string, rest: string)
    requires w != [] && NoSpace(w)
    requires rest == [] || IsSpace(rest[0])
    ensures Split(w + rest) == [w] + Split(rest)
  {
    var s := w + rest;
    assert s[0] == w[0];
    assert TrimLeft(s) == s;
    WordEndOf(w, rest);
    assert s[..|w|] == w;
    assert s[|w|..] == rest;
  }

  lemma SplitSingle(w: string)
    requires w != [] && NoSpace(w)
    ensures Split(Join([w])) == [w]
  {
    SplitWord(w, []);
    assert w + [] == w;
  }

  lemma JoinCons(w: string, tail: seq<string>)
    requires tail != []
    ensures Join([w] + tail) == w + ([' '] + Join(tail))
  {
    assert ([w] + tail)[1..] == tail;
  }

  lemma SplitJoinCons(w: string, tail: seq<string>)
    requires w != [] && NoSpace(w)
    requires Split(Join(tail)) == tail
    ensures Split(Join([w] + tail)) == [w] + tail
  {
    if tail == [] {
      SplitSingle(w);
      assert [w] + tail == [w];
      return;
    }
    var rest := Join(tail);
    JoinCons(w, tail);
    SplitWord(w, [' '] + rest);
    SplitLeadingSpace(' ', rest);
    calc {
      Split(Join([w] + tail));
      Split(w + ([' '] + rest));
      [w] + Split([' '] + rest);
      [w] + Split(rest);
    }
  }

  /** Splitting words joined by single spaces gives the words back. */
  lemma {:induction false} SplitJoin(words: seq<string>)
    requires forall i :: 0 <= i < |words| ==> words[i] != [] && NoSpace(words[i])
    ensures Split(Join(words)) == words
  {
    if words != [] {
      SplitJoin(words[1..]);
      SplitJoinCons(words[0], words[1..]);
      assert [words[0]] + words[1..] == words;
    }
  }

  /** `s.startswith(prefix)` */
  predicate StartsWith(s: string, prefix: string) {
    prefix <= s
  }

  /** `sub` occurs in `s` at index `i`. */
  predicate OccursAt(s: string, sub: string, i: int) {
    0 <= i <= |s| - |sub| && s[i..i + |sub|] == sub
  }

  /** `sub in s` */
  predicate Contains(s: string, sub: string) {
    exists i :: 0 <= i <= |s| - |sub| && OccursAt(s, sub, i)
  }

  /** `s.replace(from, to)` for a one-character `from` and `to`. */
  function Replace(s: string, from: char, to: char): (r: string)
    ensures |r| == |s|
    ensures forall i :: 0 <= i < |s| ==> r[i] == if s[i] == from then to else s[i]
  {
    if s == [] then []
    else [if s[0] == from then to else s[0]] + Replace(s[1..], from, to)
  }

  /** `p.replace('\\', '/')`: Windows separators written as forward slashes. */
  function ForwardSlashes(p: string): (r: string)
    ensures |r| == |p|
    ensures forall i :: 0 <= i < |p| ==> r[i] == if p[i] == '\\' then '/' else p[i]
    ensures forall i :: 0 <= i < |r| ==> r[i] != '\\'
  {
    Replace(p, '\\', '/')
  }

  /** Normalising a normalised path changes nothing. */
  lemma ForwardSlashesIdempotent(p: string)
    ensures ForwardSlashes(ForwardSlashes(p)) == ForwardSlashes(p)
  {
    var q := ForwardSlashes(p);
    assert forall i :: 0 <= i < |q| ==> ForwardSlashes(q)[i] == q[i];
  }

  /** A path without a backslash is already normalised. */
  lemma ForwardSlashesPlain(p: string)
    requires forall i :: 0 <= i < |p| ==> p[i] != '\\'
    ensures ForwardSlashes(p) == p
  {
    assert forall i :: 0 <= i < |p| ==> ForwardSlashes(p)[i] == p[i];
  }

  /** Normalising works piece by piece. */
  lemma ForwardSlashesAppend(a: string, b: string)
    ensures ForwardSlashes(a + b) == ForwardSlashes(a) + ForwardSlashes(b)
  {
    var l, r := ForwardSlashes(a + b), ForwardSlashes(a) + ForwardSlashes(b);
    forall i | 0 <= i < |l|
      ensures l[i] == r[i]
    {
      if i < |a| {
        assert (a + b)[i] == a[i];
      } else {
        assert (a + b)[i] == b[i - |a|];
      }
    }
  }

  /** `s.rfind(c)`: the last index holding `c`, or -1 when there is none. */
  function RFind(s: string, c: char): (r: int)
    ensures -1 <= r < |s|
    ensures r >= 0 ==> s[r] == c
    ensures forall k :: r < k < |s| ==> s[k] != c
  {
    if s == [] then -1
    else if s[|s| - 1] == c then |s| - 1
    else RFind(s[..|s| - 1], c)
  }

  /** `s.split(sep)[-1]`: what follows the last `sep`, or all of `s` when there is none. */
  function LastField(s: string, sep: char): string {
    s[RFind(s, sep) + 1..]
  }

  /** The last field is a tail of `s` without `sep`, preceded by `sep` unless it is all of `s`. */
  lemma LastFieldTail(s: string, sep: char)
    ensures |LastField(s, sep)| <= |s| && LastField(s, sep) == s[|s| - |LastField(s, sep)|..]
    ensures forall k :: 0 <= k < |LastField(s, sep)| ==> LastField(s, sep)[k] != sep
    ensures |LastField(s, sep)| < |s| ==> s[|s| - |LastField(s, sep)| - 1] == sep
  {
  }

  /** Index where the last path component of `p` starts (after `\` or `/`). */
  function BaseStart(p: string): (b: nat)
    ensures b <= |p|
    ensures forall k :: b <= k < |p| ==> p[k] != '/' && p[k] != '\\'
    ensures b > 0 ==> p[b - 1] == '/' || p[b - 1] == '\\'
  {
    var back, fwd := RFind(p, '\\'), RFind(p, '/');
    (if back > fwd then back else fwd) + 1
  }

  /**
   * `ntpath.splitext(p)`: splits off the extension, from the last `.` of the
   * last path component, unless everything before that dot in the component
   * is dots (a leading-dot name such as `.profile` has no extension).
   */
  function SplitExt(p: string): (r: (string, string))
    ensures r.0 + r.1 == p
    ensures r.1 != [] ==> r.1[0] == '.'
    ensures forall k :: 1 <= k < |r.1| ==> r.1[k] != '.' && r.1[k] != '/' && r.1[k] != '\\'
    ensures r.1 != [] ==> exists k :: BaseStart(p) <= k < |r.0| && r.0[k] != '.'
    ensures r.1 == [] ==> forall k, d :: BaseStart(p) <= k < d < |p| && p[d] == '.' ==> p[k] == '.'
  {
    var base := BaseStart(p);
    var dot := RFind(p, '.');
    if dot >= base && exists k :: base <= k < dot && p[k] != '.' then
      assert p[..dot] + p[dot..] == p;
      (p[..dot], p[dot..])
    else
      (p, [])
  }

  predicate IsDigit(c: char) {
    '0' <= c <= '9'
  }

  predicate AllDigits(s: string) {
    forall i :: 0 <= i < |s| ==> IsDigit(s[i])
  }

  /** The value of a string of decimal digits. */
  function DigitsValue(s: string): nat
    requires AllDigits(s)
  {
    if s == [] then 0
    else 10 * DigitsValue(s[..|s| - 1]) + (s[|s| - 1] as int - '0' as int)
  }

  /**
   * Python 2 `int(s)` on a byte string: optional whitespace, an optional
   * sign, optional whitespace, at least one decimal digit, optional
   * whitespace. `None` stands for the `ValueError` raised otherwise.
   */
  function ParseInt(s: string): Option<int> {
    var t := Strip(s);
    if t != [] && (t[0] == '+' || t[0] == '-') then
      var digits := TrimLeft(t[1..]);
      if digits != [] && AllDigits(digits) then
        var magnitude: int := DigitsValue(digits);
        Some(if t[0] == '-' then -magnitude else magnitude)
      else None
    else if t != [] && AllDigits(t) then Some(DigitsValue(t))
    else None
  }

  /** Decimal notation of a natural number (Python's `str(n)`). */
  function ShowNat(n: nat): (s: string)
    ensures s != [] && AllDigits(s)
  {
    var last := ['0' + ((n % 10) as char)];
    if n < 10 then last else ShowNat(n / 10) + last
  }

  /** Decimal notation of an integer (Python's `str(n)`). */
  function ShowInt(n: int): string {
    if n < 0 then "-" + ShowNat(-n) else ShowNat(n)
  }

  lemma {:induction false} DigitsValueShowNat(n: nat)
    ensures DigitsValue(ShowNat(n)) == n
  {
    if n >= 10 {
      DigitsValueShowNat(n / 10);
      var s := ShowNat(n);
      assert s[..|s| - 1] == ShowNat(n / 10);
    }
  }

  lemma StripUnpadded(s: string)
    requires s != [] && !IsSpace(s[0]) && !IsSpace(s[|s| - 1])
    ensures Strip(s) == s
  {
    assert TrimRight(s) == s;
  }

  /** `int(str(n)) == n` for every natural number. */
  lemma ParseIntShowNat(n: nat)
    ensures ParseInt(ShowNat(n)) == Some(n)
  {
    var s := ShowNat(n);
    StripUnpadded(s);
    assert IsDigit(s[0]);
    DigitsValueShowNat(n);
    assert ParseInt(s) == Some(DigitsValue(s));
  }

  /** A minus sign followed by digits reads as the negated value of the digits. */
  lemma ParseIntNegative(d: string)
    requires d != [] && AllDigits(d)
    ensures ParseInt("-" + d) == Some(-(DigitsValue(d) as int))
  {
    var s := "-" + d;
    assert s[0] == '-' && s[|s| - 1] == d[|d| - 1];
    StripUnpadded(s);
    assert s[1..] == d;
    assert !IsSpace(d[0]);
    assert TrimLeft(d) == d;
  }

  /** `int(str(n)) == n` for every integer. */
  lemma ParseIntShowInt(n: int)
    ensures ParseInt(ShowInt(n)) == Some(n)
  {
    if n < 0 {
      var d := ShowNat(-n);
      ParseIntNegative(d);
      DigitsValueShowNat(-n);
      assert ShowInt(n) == "-" + d;
    } else {
      ParseIntShowNat(n);
      assert ShowInt(n) == ShowNat(n);
    }
  }

  /** `int(s)` raises `ValueError` on a string without any digit. */
  lemma ParseIntNeedsDigit(s: string)
    requires forall i :: 0 <= i < |s| ==> !IsDigit(s[i])
    ensures ParseInt(s) == None
  {
    var t := Strip(s);
    StripFramed(s);
    var lead :| Framed(s, lead, t);
    assert forall i :: 0 <= i < |t| ==> t[i] == s[lead + i];
    if t != [] && (t[0] == '+' || t[0] == '-') {
      var digits := TrimLeft(t[1..]);
      TrimLeftSuffix(t[1..]);
      if digits != [] {
        assert digits[0] == t[1..][|t| - 1 - |digits|];
        assert !IsDigit(digits[0]);
      }
    } else if t != [] {
      assert !IsDigit(t[0]);
    }
  }
}
