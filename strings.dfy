/**
  The JavaScript string built-ins that the desktop core relies on, over `string`
  (a sequence of characters): `includes`/`indexOf`, the first two parts of `split`,
  `replace` of the first occurrence, `trim` and an ASCII-only `toLowerCase`.
 */
module Strings {
  import opened Wrappers

  /** `p` occurs in `s` starting at index `i`. */
  predicate OccursAt(s: string, p: string, i: int)
  {
    0 <= i && i + |p| <= |s| && s[i..i + |p|] == p
  }

  predicate StartsWith(s: string, p: string)
  {
    |p| <= |s| && s[..|p|] == p
  }

  predicate EndsWith(s: string, p: string)
  {
    |p| <= |s| && s[|s| - |p|..] == p
  }

  /** The leftmost occurrence of `p` in `s` at or after `from` (`s.indexOf(p, from)`). */
  function FindFrom(s: string, p: string, from: nat): (r: Option<nat>)
    decreases |s| - from
    ensures r.Some? ==> from <= r.value && OccursAt(s, p, r.value)
    ensures r.Some? ==> forall j :: from <= j < r.value ==> !OccursAt(s, p, j)
    ensures r.None? ==> forall j :: from <= j ==> !OccursAt(s, p, j)
  {
    if from + |p| > |s| then None
    else if s[from..from + |p|] == p then Some(from)
    else FindFrom(s, p, from + 1)
  }

  function IndexOf(s: string, p: string): Option<nat>
  {
    FindFrom(s, p, 0)
  }

  /** `s.includes(p)` */
  predicate Contains(s: string, p: string)
  {
    IndexOf(s, p).Some?
  }

  lemma ContainsIff(s: string, p: string)
    ensures Contains(s, p) <==> exists i :: OccursAt(s, p, i)
  {
  }

  /** An occurrence with none before it is the one `indexOf` reports. */
  lemma IndexOfIs(s: string, p: string, k: nat)
    requires OccursAt(s, p, k)
    requires forall j :: 0 <= j < k ==> !OccursAt(s, p, j)
    ensures IndexOf(s, p) == Some(k)
  {
  }

  /** One mismatching character rules out an occurrence at `i`. */
  lemma Mismatch(s: string, p: string, i: int, k: nat)
    requires k < |p|
    requires 0 <= i && i + |p| <= |s| ==> s[i + k] != p[k]
    ensures !OccursAt(s, p, i)
  {
  }

  /** A pattern holding a character that `s` lacks does not occur in `s`. */
  lemma AbsentChar(s: string, p: string, k: nat)
    requires k < |p| && p[k] !in s
    ensures !Contains(s, p)
  {
  }

  lemma OccursInside(a: string, p: string, b: string)
    ensures OccursAt(a + p + b, p, |a|) && Contains(a + p + b, p)
  {
    assert (a + p + b)[|a|..|a| + |p|] == p;
    assert OccursAt(a + p + b, p, |a|);
    ContainsIff(a + p + b, p);
  }

  lemma ContainsPrefix(a: string, b: string, p: string)
    requires Contains(a, p)
    ensures Contains(a + b, p)
  {
    var i := IndexOf(a, p).value;
    assert (a + b)[i..i + |p|] == a[i..i + |p|];
    assert OccursAt(a + b, p, i);
    ContainsIff(a + b, p);
  }

  /** An occurrence of `p` at `j`, inside the leading part `a` of `a + b`, puts the character
      `p[k]` within the first `k` characters after `a`. */
  lemma CharOfOccurrence(a: string, b: string, p: string, k: nat, j: int)
    requires k < |p| && k <= |b| && 0 <= j < |a| && OccursAt(a + b, p, j)
    ensures p[k] in a + b[..k]
  {
    var s := a + b;
    assert s[j + k] == p[k];
    assert s[..|a| + k] == a + b[..k];
    assert s[j + k] == s[..|a| + k][j + k];
  }

  /** When `p[k]` is neither in `a` nor in the first `k` characters of `b`, no occurrence of
      `p` in `a + b` starts inside `a`. */
  lemma NoOccurrenceIn(a: string, b: string, p: string, k: nat)
    requires k < |p| && k <= |b| && p[k] !in a + b[..k]
    ensures forall j :: 0 <= j < |a| ==> !OccursAt(a + b, p, j)
  {
    forall j | 0 <= j < |a| ensures !OccursAt(a + b, p, j) {
      if OccursAt(a + b, p, j) {
        CharOfOccurrence(a, b, p, k, j);
      }
    }
  }

  /** `s.split(sep)[0]`: the text before the first separator, or all of `s`. */
  function SplitFirst(s: string, sep: string): (r: string)
    requires |sep| > 0
    ensures !Contains(r, sep)
    ensures StartsWith(s, r)
    ensures Contains(s, sep) <==> |r| < |s|
    ensures Contains(s, sep) ==> OccursAt(s, sep, |r|)
  {
    match IndexOf(s, sep)
    case None => s
    case Some(i) =>
      var r := s[..i];
      forall j | OccursAt(r, sep, j) ensures OccursAt(s, sep, j) {
        assert s[j..j + |sep|] == r[j..j + |sep|];
      }
      r
  }

  /** `s.split(sep)[1]`, which JavaScript leaves `undefined` when `sep` does not occur:
      the text between the first and the second separator (or the end). */
  function SplitSecond(s: string, sep: string): (r: Option<string>)
    requires |sep| > 0
    ensures r.Some? <==> Contains(s, sep)
    ensures r.Some? ==> !Contains(r.value, sep)
    ensures r.Some? ==> OccursAt(s, r.value, |SplitFirst(s, sep)| + |sep|)
    ensures r.Some? ==> var e := |SplitFirst(s, sep)| + |sep| + |r.value|; e == |s| || OccursAt(s, sep, e)
  {
    match IndexOf(s, sep)
    case None => None
    case Some(i) =>
      var rest := s[i + |sep|..];
      var r := SplitFirst(rest, sep);
      assert Contains(rest, sep) ==> s[i + |sep| + |r|..i + |sep| + |r| + |sep|] == rest[|r|..|r| + |sep|];
      Some(r)
  }

  lemma OccursInSuffix(s: string, p: string, start: int, i: int)
    requires 0 <= start <= |s| && 0 <= i && OccursAt(s, p, start + i)
    ensures OccursAt(s[start..], p, i)
  {
    assert s[start..][i..i + |p|] == s[start + i..start + i + |p|];
  }

  /** A separator-free piece starting at `start` and ended by a separator or by the end of `s`
      reaches the end exactly when no separator follows `start`. */
  lemma PieceReachesEnd(s: string, sep: string, start: int, a: string)
    requires 0 <= start && OccursAt(s, a, start) && !Contains(a, sep)
    requires start + |a| == |s| || OccursAt(s, sep, start + |a|)
    ensures start + |a| == |s| <==> !Contains(s[start..], sep)
  {
    var rest := s[start..];
    if start + |a| < |s| {
      OccursInSuffix(s, sep, start, |a|);
      ContainsIff(rest, sep);
    } else {
      assert rest == a;
    }
  }

  /** `b`, `sep` and `a` lie side by side from the start of `s`, neither piece holds `sep`, and
      they reach the end of `s` exactly when no `sep` follows the first one. */
  predicate PiecesAround(s: string, sep: string, b: string, a: string)
  {
    && !Contains(b, sep) && !Contains(a, sep)
    && StartsWith(s, b) && OccursAt(s, sep, |b|) && OccursAt(s, a, |b| + |sep|)
    && (|b| + |sep| + |a| == |s| <==> !Contains(s[|b| + |sep|..], sep))
  }

  /** The first two parts `b` and `a` of `s.split(sep)` lie around the first separator. */
  lemma SplitAdjacent(s: string, sep: string, b: string, a: string)
    requires |sep| > 0 && Contains(s, sep)
    requires b == SplitFirst(s, sep) && a == SplitSecond(s, sep).value
    ensures PiecesAround(s, sep, b, a)
  {
    PieceReachesEnd(s, sep, |b| + |sep|, a);
  }

  /** `s.split(/[stops]/)[0]`: the longest prefix free of the stop characters. */
  function TakeUntil(s: string, stops: set<char>): (r: string)
    ensures StartsWith(s, r)
    ensures forall k :: 0 <= k < |r| ==> r[k] !in stops
    ensures |r| < |s| ==> s[|r|] in stops
  {
    if s == [] || s[0] in stops then [] else [s[0]] + TakeUntil(s[1..], stops)
  }

  /** `s.replace(pat, rep)` with a string pattern: only the first occurrence is replaced. */
  function ReplaceFirst(s: string, pat: string, rep: string): string
  {
    match IndexOf(s, pat)
    case None => s
    case Some(i) => s[..i] + rep + s[i + |pat|..]
  }

  /** ASCII case folding: the model's `toLowerCase`. */
  function LowerChar(c: char): char
  {
    if 'A' <= c <= 'Z' then (c as int + 32) as char else c
  }

  function ToLower(s: string): string
  {
    seq(|s|, k requires 0 <= k < |s| => LowerChar(s[k]))
  }

  /** The line terminators that the regular-expression `.` does not match. */
  predicate IsLineTerminator(c: char)
  {
    c == '\n' || c == '\r' || c == '\U{2028}' || c == '\U{2029}'
  }

  /** JavaScript's WhiteSpace and LineTerminator characters: what `\s` matches and `trim` removes. */
  predicate IsWhitespace(c: char)
  {
    || IsLineTerminator(c)
    || c == '\t' || c == '\U{B}' || c == '\U{C}' || c == ' '
    || c == '\U{A0}' || c == '\U{1680}' || ('\U{2000}' <= c <= '\U{200A}')
    || c == '\U{202F}' || c == '\U{205F}' || c == '\U{3000}' || c == '\U{FEFF}'
  }

  predicate AllWhitespace(s: string)
  {
    forall k :: 0 <= k < |s| ==> IsWhitespace(s[k])
  }

  function TrimStart(s: string): (r: string)
    ensures EndsWith(s, r)
    ensures AllWhitespace(s[..|s| - |r|])
    ensures r != [] ==> !IsWhitespace(r[0])
  {
    if s != [] && IsWhitespace(s[0]) then TrimStart(s[1..]) else s
  }

  function TrimEnd(s: string): (r: string)
    ensures StartsWith(s, r)
    ensures AllWhitespace(s[|r|..])
    ensures r != [] ==> !IsWhitespace(r[|r| - 1])
  {
    if s != [] && IsWhitespace(s[|s| - 1]) then
      var r := TrimEnd(s[..|s| - 1]);
      assert s[..|r|] == s[..|s| - 1][..|r|];
      assert s[|r|..] == s[..|s| - 1][|r|..] + [s[|s| - 1]];
      r
    else s
  }

  /** `s.trim()` */
  function Trim(s: string): string
  {
    TrimEnd(TrimStart(s))
  }
}
