/** The few Python `str` built-ins the chat handler relies on, restricted to ASCII:
    `lower()`, the substring test `t in s`, `split(sep)`, `sep.join(xs)` and `strip()`. */
module PyStr {

  // ---------------------------------------------------------------- lower()

  /** ASCII case folding of one character; every other character is left alone. */
  function LowerChar(c: char): (d: char)
    ensures 'A' <= c <= 'Z' ==> d as int == c as int + 32
    ensures !('A' <= c <= 'Z') ==> d == c
    ensures !('A' <= d <= 'Z')
  {
    if 'A' <= c <= 'Z' then (c as int + 32) as char else c
  }

  /** `s.lower()` on ASCII text. */
  function Lower(s: string): (r: string)
    ensures |r| == |s|
    ensures forall i :: 0 <= i < |s| ==> r[i] == LowerChar(s[i])
  {
    if s == [] then [] else [LowerChar(s[0])] + Lower(s[1..])
  }

  lemma LowerIdempotent(s: string)
    ensures Lower(Lower(s)) == Lower(s)
  {
  }

  // ---------------------------------------------------------------- t in s

  /** `t` occurs in `s` starting at index `i`. */
  predicate OccursAt(s: string, t: string, i: int) {
    0 <= i && i + |t| <= |s| && s[i..i + |t|] == t
  }

  /** Python's `t in s`: some index of `s` starts an occurrence of `t`; the empty string
      occurs in every string. */
  predicate Contains(s: string, t: string) {
    exists i :: 0 <= i <= |s| && OccursAt(s, t, i)
  }

  /** Substring containment is transitive. */
  lemma ContainsTransitive(s: string, t: string, u: string)
    requires Contains(s, t) && Contains(t, u)
    ensures Contains(s, u)
  {
    var i :| 0 <= i <= |s| && OccursAt(s, t, i);
    var j :| 0 <= j <= |t| && OccursAt(t, u, j);
    forall k | 0 <= k < |u| ensures s[i + j + k] == u[k] {
      assert s[i..i + |t|][j + k] == s[i + j + k];
    }
    assert OccursAt(s, u, i + j);
  }

  // ---------------------------------------------------------------- leftmost occurrence

  /** Some occurrence of `t` in `s` starts at or after index `from`. */
  predicate OccursFrom(s: string, t: string, from: nat) {
    exists i :: from <= i <= |s| && OccursAt(s, t, i)
  }

  /** `s.find(t, from)` when it succeeds: the leftmost occurrence of `t` at or after `from`. */
  function FindFrom(s: string, t: string, from: nat): (i: nat)
    requires OccursFrom(s, t, from)
    ensures from <= i && OccursAt(s, t, i)
    decreases |s| - from
  {
    if OccursAt(s, t, from) then from else FindFrom(s, t, from + 1)
  }

  /** No occurrence starts between `from` and the one `FindFrom` returns. */
  lemma {:induction false} FindFromLeast(s: string, t: string, from: nat, j: int)
    requires OccursFrom(s, t, from)
    requires from <= j < FindFrom(s, t, from)
    ensures !OccursAt(s, t, j)
    decreases |s| - from
  {
    if j > from {
      FindFromLeast(s, t, from + 1, j);
    }
  }

  /** An occurrence in a slice is an occurrence in the whole, shifted by the slice's start. */
  lemma OccursInSlice(s: string, t: string, lo: nat, hi: nat, j: nat)
    requires lo <= hi <= |s| && OccursAt(s[lo..hi], t, j)
    ensures OccursAt(s, t, lo + j) && lo + j + |t| <= hi
  {
    var piece := s[lo..hi];
    forall m | 0 <= m < |t| ensures s[lo + j + m] == t[m] {
      assert piece[j..j + |t|][m] == piece[j + m];
    }
    assert s[lo + j..lo + j + |t|] == t;
  }

  /** `t in s[from..]` is an occurrence of `t` in `s` at or after `from`. */
  lemma ContainsSuffix(s: string, t: string, from: nat)
    requires from <= |s|
    ensures Contains(s[from..], t) <==> OccursFrom(s, t, from)
  {
    if Contains(s[from..], t) {
      var j :| 0 <= j <= |s| - from && OccursAt(s[from..], t, j);
      assert s[from..] == s[from..|s|];
      OccursInSlice(s, t, from, |s|, j);
    }
    if OccursFrom(s, t, from) {
      var i :| from <= i <= |s| && OccursAt(s, t, i);
      assert s[from..][i - from..i - from + |t|] == s[i..i + |t|];
      assert OccursAt(s[from..], t, i - from);
    }
  }

  // ---------------------------------------------------------------- sep.join(xs)

  /** Python's `sep.join(xs)`. */
  function Join(xs: seq<string>, sep: string): string
    decreases |xs|
  {
    if |xs| == 0 then ""
    else if |xs| == 1 then xs[0]
    else xs[0] + sep + Join(xs[1..], sep)
  }

  // ---------------------------------------------------------------- s.split(sep)

  /** Python's `s.split(sep)` for a non-empty separator: cut at the leftmost occurrence,
      then go on splitting what follows it, so occurrences never overlap. */
  function Split(s: string, sep: string): (pieces: seq<string>)
    requires |sep| > 0
  {
    SplitFrom(s, sep, 0)
  }

  /** The pieces of `s[from..].split(sep)`, cut at positions of `s` itself. */
  function SplitFrom(s: string, sep: string, from: nat): (pieces: seq<string>)
    requires |sep| > 0 && from <= |s|
    ensures |pieces| >= 1
    decreases |s| - from
  {
    if !OccursFrom(s, sep, from) then [s[from..]]
    else
      var i := FindFrom(s, sep, from);
      [s[from..i]] + SplitFrom(s, sep, i + |sep|)
  }

  /** Joining the pieces with the separator gives back the split text. */
  lemma SplitJoinRoundTrip(s: string, sep: string)
    requires |sep| > 0
    ensures Join(Split(s, sep), sep) == s
  {
    SplitFromJoin(s, sep, 0);
  }

  lemma {:induction false} SplitFromJoin(s: string, sep: string, from: nat)
    requires |sep| > 0 && from <= |s|
    ensures Join(SplitFrom(s, sep, from), sep) == s[from..]
    decreases |s| - from
  {
    if OccursFrom(s, sep, from) {
      var i := FindFrom(s, sep, from);
      var rest := SplitFrom(s, sep, i + |sep|);
      SplitFromJoin(s, sep, i + |sep|);
      assert ([s[from..i]] + rest)[1..] == rest;
      assert s[from..] == s[from..i] + s[i..i + |sep|] + s[i + |sep|..];
    }
  }

  /** No piece of a split holds the separator. */
  lemma SplitPiecesFree(s: string, sep: string)
    requires |sep| > 0
    ensures forall k :: 0 <= k < |Split(s, sep)| ==> !Contains(Split(s, sep)[k], sep)
  {
    SplitFromPiecesFree(s, sep, 0);
  }

  lemma {:induction false} SplitFromPiecesFree(s: string, sep: string, from: nat)
    requires |sep| > 0 && from <= |s|
    ensures forall k :: 0 <= k < |SplitFrom(s, sep, from)| ==> !Contains(SplitFrom(s, sep, from)[k], sep)
    decreases |s| - from
  {
    if OccursFrom(s, sep, from) {
      var i := FindFrom(s, sep, from);
      SplitFromPiecesFree(s, sep, i + |sep|);
      PieceBeforeFree(s, sep, from);
    } else {
      ContainsSuffix(s, sep, from);
    }
  }

  /** The text between `from` and the leftmost occurrence after it holds no occurrence. */
  lemma PieceBeforeFree(s: string, sep: string, from: nat)
    requires |sep| > 0 && OccursFrom(s, sep, from)
    ensures from <= FindFrom(s, sep, from) && !Contains(s[from..FindFrom(s, sep, from)], sep)
  {
    var i := FindFrom(s, sep, from);
    if Contains(s[from..i], sep) {
      var j :| 0 <= j <= i - from && OccursAt(s[from..i], sep, j);
      OccursInSlice(s, sep, from, i, j);
      FindFromLeast(s, sep, from, from + j);
    }
  }

  /** Where the last piece of `s[from..].split(sep)` starts: just past the separator occurrence
      at which the left-to-right cutting stops, or `from` when no separator follows it. */
  function LastCut(s: string, sep: string, from: nat): (k: nat)
    requires |sep| > 0 && from <= |s|
    ensures from <= k <= |s|
    decreases |s| - from
  {
    if !OccursFrom(s, sep, from) then from else LastCut(s, sep, FindFrom(s, sep, from) + |sep|)
  }

  /** `s.split(sep)[-1]`, computed without building the other pieces. */
  function LastPiece(s: string, sep: string): string
    requires |sep| > 0
  {
    s[LastCut(s, sep, 0)..]
  }

  /** `LastPiece` is the last element of `Split`. */
  lemma LastPieceOfSplit(s: string, sep: string)
    requires |sep| > 0
    ensures LastPiece(s, sep) == Split(s, sep)[|Split(s, sep)| - 1]
  {
    LastCutOfSplit(s, sep, 0);
  }

  lemma {:induction false} LastCutOfSplit(s: string, sep: string, from: nat)
    requires |sep| > 0 && from <= |s|
    ensures s[LastCut(s, sep, from)..] == SplitFrom(s, sep, from)[|SplitFrom(s, sep, from)| - 1]
    decreases |s| - from
  {
    if OccursFrom(s, sep, from) {
      var i := FindFrom(s, sep, from);
      var rest := SplitFrom(s, sep, i + |sep|);
      LastCutOfSplit(s, sep, i + |sep|);
      assert ([s[from..i]] + rest)[|rest|] == rest[|rest| - 1];
    }
  }

  /** No separator follows the last cut. */
  lemma {:induction false} LastCutFree(s: string, sep: string, from: nat)
    requires |sep| > 0 && from <= |s|
    ensures !OccursFrom(s, sep, LastCut(s, sep, from))
    decreases |s| - from
  {
    if OccursFrom(s, sep, from) {
      LastCutFree(s, sep, FindFrom(s, sep, from) + |sep|);
    }
  }

  /** When a separator follows `from`, the last cut is immediately preceded by one. */
  lemma {:induction false} LastCutPreceded(s: string, sep: string, from: nat)
    requires |sep| > 0 && from <= |s| && OccursFrom(s, sep, from)
    ensures from + |sep| <= LastCut(s, sep, from) && OccursAt(s, sep, LastCut(s, sep, from) - |sep|)
    decreases |s| - from
  {
    var i := FindFrom(s, sep, from);
    var next := i + |sep|;
    var k := LastCut(s, sep, from);
    assert k == LastCut(s, sep, next);
    if OccursFrom(s, sep, next) {
      LastCutPreceded(s, sep, next);
    } else {
      assert LastCut(s, sep, next) == next;
      assert OccursAt(s, sep, i);
    }
  }

  /** The last piece is a suffix of `s` holding no separator; when `s` holds the separator the
      last piece is immediately preceded by one, otherwise it is all of `s`. */
  lemma LastPieceSpec(s: string, sep: string)
    requires |sep| > 0
    ensures |LastPiece(s, sep)| <= |s|
    ensures LastPiece(s, sep) == s[|s| - |LastPiece(s, sep)|..]
    ensures !Contains(LastPiece(s, sep), sep)
    ensures Contains(s, sep) ==>
      |LastPiece(s, sep)| + |sep| <= |s| && OccursAt(s, sep, |s| - |LastPiece(s, sep)| - |sep|)
    ensures !Contains(s, sep) ==> LastPiece(s, sep) == s
  {
    var k := LastCut(s, sep, 0);
    LastCutFree(s, sep, 0);
    ContainsSuffix(s, sep, k);
    ContainsSuffix(s, sep, 0);
    assert s[0..] == s;
    if Contains(s, sep) {
      LastCutPreceded(s, sep, 0);
      assert |s| - |LastPiece(s, sep)| == k;
    }
  }

  // ---------------------------------------------------------------- strip()

  /** The ASCII characters Python's `str.isspace()` accepts: tab, line feed, vertical tab,
      form feed, carriage return, the four information separators 0x1C-0x1F, and space. */
  predicate IsSpace(c: char) {
    9 <= c as int <= 13 || 28 <= c as int <= 32
  }

  predicate AllSpace(s: string) {
    forall i :: 0 <= i < |s| ==> IsSpace(s[i])
  }

  /** Neither end of `s` is whitespace. */
  predicate Trimmed(s: string) {
    s == [] || (!IsSpace(s[0]) && !IsSpace(s[|s| - 1]))
  }

  function StripLeft(s: string): (r: string)
    ensures |r| <= |s| && r == s[|s| - |r|..]
    ensures AllSpace(s[..|s| - |r|])
    ensures r == [] || !IsSpace(r[0])
  {
    if |s| > 0 && IsSpace(s[0]) then StripLeft(s[1..]) else s
  }

  function StripRight(s: string): (r: string)
    ensures |r| <= |s| && r == s[..|r|]
    ensures AllSpace(s[|r|..])
    ensures r == [] || !IsSpace(r[|r| - 1])
  {
    if |s| > 0 && IsSpace(s[|s| - 1]) then StripRight(s[..|s| - 1]) else s
  }

  /** `r` is `s[i..i + |r|]` and everything around it is whitespace. */
  predicate StripsTo(s: string, r: string, i: int) {
    0 <= i && i + |r| <= |s| && r == s[i..i + |r|] && AllSpace(s[..i]) && AllSpace(s[i + |r|..])
  }

  /** `s.strip()`: `s` with its leading and trailing whitespace removed. The result is a slice
      of `s` with only whitespace around it, and it neither starts nor ends with whitespace
      (so an all-whitespace `s` strips to ""). */
  function Strip(s: string): (r: string)
    ensures Trimmed(r)
    ensures exists i :: StripsTo(s, r, i)
  {
    var l := StripLeft(s);
    var r := StripRight(l);
    StripSlices(s, l, r);
    assert StripsTo(s, r, |s| - |l|);
    r
  }

  lemma StripSlices(s: string, l: string, r: string)
    requires |l| <= |s| && l == s[|s| - |l|..]
    requires |r| <= |l| && r == l[..|r|]
    ensures var i := |s| - |l|; r == s[i..i + |r|] && l[|r|..] == s[i + |r|..]
  {
  }

  /** Stripping twice is stripping once. */
  lemma StripIdempotent(s: string)
    ensures Strip(Strip(s)) == Strip(s)
  {
  }

  /** Text that is all whitespace strips to the empty string. */
  lemma StripAllSpace(s: string)
    requires AllSpace(s)
    ensures Strip(s) == ""
  {
  }
}
