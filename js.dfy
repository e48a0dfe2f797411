/**
 * The JavaScript string and array primitives the plugin relies on, with
 * JavaScript's own semantics: `slice` clamps and counts negative indices from
 * the end, `split` keeps empty pieces, a `Set` or `Map` keeps insertion order.
 */
module Js {

  /** Index normalisation of `String.prototype.slice` and `Array.prototype.slice`. */
  function NormIndex(i: int, len: nat): (r: nat)
    ensures r <= len
    ensures 0 <= i <= len ==> r == i
    ensures i < 0 ==> r == if len + i < 0 then 0 else len + i
    ensures i > len ==> r == len
  {
    if i < 0 then (if len + i < 0 then 0 else len + i)
    else if i > len then len
    else i
  }

  /** `s.slice(start, end)`. */
  function Slice<T>(s: seq<T>, start: int, end: int): (r: seq<T>)
    ensures 0 <= start <= end <= |s| ==> r == s[start..end]
    ensures |r| <= |s|
  {
    var a := NormIndex(start, |s|);
    var b := NormIndex(end, |s|);
    if a < b then s[a..b] else []
  }

  /** `s.slice(start)`. */
  function SliceFrom<T>(s: seq<T>, start: int): (r: seq<T>)
    ensures 0 <= start <= |s| ==> r == s[start..]
  {
    Slice(s, start, |s|)
  }

  predicate StartsWith(s: string, prefix: string) {
    |prefix| <= |s| && s[..|prefix|] == prefix
  }

  predicate EndsWith(s: string, suffix: string) {
    |suffix| <= |s| && s[|s| - |suffix|..] == suffix
  }

  predicate EndsWithAny(s: string, suffixes: seq<string>) {
    exists k :: 0 <= k < |suffixes| && EndsWith(s, suffixes[k])
  }

  /** `s.includes(sub)`. */
  predicate Contains(s: string, sub: string) {
    exists k: nat | k <= |s| :: OccursAt(s, sub, k)
  }

  predicate OccursAt(s: string, sub: string, k: nat) {
    k + |sub| <= |s| && s[k..k + |sub|] == sub
  }

  /** `parts.join(sep)`. */
  function Join(parts: seq<string>, sep: string): string
  {
    if |parts| == 0 then ""
    else if |parts| == 1 then parts[0]
    else Join(parts[..|parts| - 1], sep) + sep + parts[|parts| - 1]
  }

  /** `s.split(c)` for a one-character separator: every piece, empty ones included. */
  function Split(s: string, c: char): (r: seq<string>)
    ensures |r| >= 1
  {
    if |s| == 0 then [""]
    else
      var t := Split(s[..|s| - 1], c);
      if s[|s| - 1] == c then t + [""]
      else t[..|t| - 1] + [t[|t| - 1] + [s[|s| - 1]]]
  }

  /** Splitting and re-joining on the same separator gives the text back. */
  lemma JoinSplit(s: string, c: char)
    ensures Join(Split(s, c), [c]) == s
  {
    SplitJoinReplaces(s, c, c);
    assert ReplaceChar(s, c, c) == s;
  }

  /** No piece of a split contains the separator. */
  lemma {:induction false} SplitPiecesFree(s: string, c: char)
    ensures forall k :: 0 <= k < |Split(s, c)| ==> c !in Split(s, c)[k]
  {
    if |s| > 0 {
      SplitPiecesFree(s[..|s| - 1], c);
    }
  }

  /** `s.split(from).join(to)` is the character replacement `ReplaceChar`. */
  lemma {:induction false} SplitJoinReplaces(s: string, from: char, to: char)
    ensures Join(Split(s, from), [to]) == ReplaceChar(s, from, to)
  {
    if |s| > 0 {
      var init := s[..|s| - 1];
      var ch := s[|s| - 1];
      var t := Split(init, from);
      SplitJoinReplaces(init, from, to);
      ReplaceCharSnoc(s, from, to);
      if ch == from {
        JoinSnoc(t, "", [to]);
      } else {
        var last := t[|t| - 1];
        var r := t[..|t| - 1] + [last + [ch]];
        assert Split(s, from) == r;
        if |t| == 1 {
          assert r == [last + [ch]];
        } else {
          JoinSnoc(t[..|t| - 1], last, [to]);
          assert t[..|t| - 1] + [last] == t;
          JoinSnoc(t[..|t| - 1], last + [ch], [to]);
        }
      }
    }
  }

  lemma ReplaceCharSnoc(s: string, from: char, to: char)
    requires |s| > 0
    ensures ReplaceChar(s, from, to) == ReplaceChar(s[..|s| - 1], from, to) + [if s[|s| - 1] == from then to else s[|s| - 1]]
  {
  }

  lemma JoinSnoc(parts: seq<string>, x: string, sep: string)
    requires |parts| >= 1
    ensures Join(parts + [x], sep) == Join(parts, sep) + sep + x
  {
    assert (parts + [x])[..|parts|] == parts;
  }

  /** Strings without duplicates: a JavaScript `Set<string>` in insertion order. */
  predicate NoDup<T(==)>(s: seq<T>) {
    forall i, j :: 0 <= i < j < |s| ==> s[i] != s[j]
  }

  /** `set.add(x)` on an insertion-ordered set. */
  function SetAdd(s: seq<string>, x: string): (r: seq<string>)
    ensures NoDup(s) ==> NoDup(r)
    ensures x in r && forall y :: y in r <==> y in s || y == x
    ensures x in s ==> r == s
    ensures x !in s ==> r == s + [x]
  {
    if x in s then s else s + [x]
  }

  /** `s.split(from).join(to)` for one character each: every `from` becomes `to`. */
  function ReplaceChar(s: string, from: char, to: char): (r: string)
    ensures |r| == |s|
    ensures forall k :: 0 <= k < |s| ==> r[k] == if s[k] == from then to else s[k]
  {
    seq(|s|, k requires 0 <= k < |s| => if s[k] == from then to else s[k])
  }

  /** The characters `String.prototype.trim` removes: white space and line terminators. */
  predicate IsWhitespace(c: char)
  {
    c == '\t' || c == '\n' || c == '\U{000B}' || c == '\U{000C}' || c == '\r' || c == ' ' || c == '\U{00A0}'
    || c == '\U{1680}' || ('\U{2000}' <= c <= '\U{200A}') || c == '\U{2028}' || c == '\U{2029}' || c == '\U{202F}'
    || c == '\U{205F}' || c == '\U{3000}' || c == '\U{FEFF}'
  }

  function TrimStart(s: string): (r: string)
    ensures |r| <= |s|
    decreases |s|
  {
    if |s| > 0 && IsWhitespace(s[0]) then TrimStart(s[1..]) else s
  }

  function TrimEnd(s: string): (r: string)
    ensures |r| <= |s|
    decreases |s|
  {
    if |s| > 0 && IsWhitespace(s[|s| - 1]) then TrimEnd(s[..|s| - 1]) else s
  }

  /** `s.trim()`. */
  function Trim(s: string): string
  {
    TrimEnd(TrimStart(s))
  }

  /** A text between two line breaks, with no white space at its ends, is what trimming leaves. */
  lemma TrimSurrounding(x: string)
    requires |x| > 0 && !IsWhitespace(x[0]) && !IsWhitespace(x[|x| - 1])
    ensures Trim("\n" + x + "\n") == x
  {
    assert ("\n" + x + "\n")[1..] == x + "\n";
    assert (x + "\n")[0] == x[0];
    assert TrimStart("\n" + x + "\n") == x + "\n";
    assert (x + "\n")[..|x|] == x;
    assert TrimEnd(x + "\n") == TrimEnd(x);
    assert TrimEnd(x) == x;
  }

  // Small facts about concatenation and slicing, stated once so that longer
  // proofs can cite them instead of asking the solver for extensionality.

  lemma TakeAll<T>(s: seq<T>)
    ensures s[..|s|] == s
  {
  }

  lemma ConcatAssoc<T>(a: seq<T>, b: seq<T>, c: seq<T>)
    ensures (a + b) + c == a + (b + c)
  {
  }

  lemma SplitSlice<T>(t: seq<T>, c: int, d: int, e: int)
    requires 0 <= c <= d <= e <= |t|
    ensures t[c..e] == t[c..d] + t[d..e]
  {
  }

  lemma TakeConcat<T>(a: seq<T>, b: seq<T>, j: int)
    requires 0 <= j <= |b|
    ensures (a + b)[..|a| + j] == a + b[..j]
  {
  }

  lemma DropConcat<T>(a: seq<T>, b: seq<T>, j: int)
    requires 0 <= j <= |b|
    ensures (a + b)[|a| + j..] == b[j..]
  {
  }

  lemma TakeConcatLeft<T>(a: seq<T>, b: seq<T>, j: int)
    requires 0 <= j <= |a|
    ensures (a + b)[..j] == a[..j]
  {
  }

  lemma DropConcatLeft<T>(a: seq<T>, b: seq<T>, j: int)
    requires 0 <= j <= |a|
    ensures (a + b)[j..] == a[j..] + b
  {
  }

  lemma SliceOfSlice<T>(t: seq<T>, c: int, d: int, j: int, k: int)
    requires 0 <= c <= d <= |t| && 0 <= j <= k <= d - c
    ensures t[c..d][j..k] == t[c + j..c + k]
  {
    forall i | 0 <= i < k - j
      ensures t[c..d][j..k][i] == t[c + j..c + k][i]
    {
    }
  }

  /** Cutting a suffix `s` ends with off `s` and putting it back gives `s`. */
  lemma StripSuffix(s: string, suffix: string)
    requires EndsWith(s, suffix)
    ensures s[..|s| - |suffix|] + suffix == s
  {
    assert s[..|s| - |suffix|] + s[|s| - |suffix|..] == s;
  }

  lemma SliceOfDrop<T>(t: seq<T>, c: int, j: int, k: int)
    requires 0 <= c && 0 <= j <= k && c + k <= |t|
    ensures t[c..][j..k] == t[c + j..c + k]
    ensures t[c..][..k] == t[c..c + k]
    ensures t[c..][j..] == t[c + j..]
  {
  }
}
