/** Rust's `str::split`, `Vec::get`, `str::replace` and `contains`, as the
    extraction and PKCE code use them: a non-empty literal pattern, matched
    leftmost first and without overlap. */
module RustStr {
  import opened Wrappers

  /** `pat` occurs in `s` starting at index `i`. */
  predicate IsAt(s: string, pat: string, i: nat) {
    i + |pat| <= |s| && s[i..i + |pat|] == pat
  }

  /** `pat` occurs somewhere in `s` (equivalently, `pat` is a substring of `s`). */
  ghost predicate Contains(s: string, pat: string) {
    exists i: nat :: IsAt(s, pat, i)
  }

  /** The position of the leftmost occurrence of `pat` in `s`, if any. */
  function IndexOf(s: string, pat: string): (r: Option<nat>)
    requires |pat| > 0
    ensures r.Some? ==> IsAt(s, pat, r.value)
    ensures r.Some? ==> forall j: nat :: j < r.value ==> !IsAt(s, pat, j)
    ensures r.None? ==> forall j: nat :: !IsAt(s, pat, j)
    decreases |s|
  {
    if |s| < |pat| then None
    else if s[..|pat|] == pat then Some(0)
    else
      match IndexOf(s[1..], pat)
      case None =>
        assert forall j: nat :: !IsAt(s, pat, j) by {
          forall j: nat ensures !IsAt(s, pat, j) {
            if j > 0 { IsAtShift(s, pat, j - 1); }
          }
        }
        None
      case Some(k) =>
        IsAtShift(s, pat, k);
        assert forall j: nat :: j < k + 1 ==> !IsAt(s, pat, j) by {
          forall j: nat | j < k + 1 ensures !IsAt(s, pat, j) {
            if j > 0 { IsAtShift(s, pat, j - 1); }
          }
        }
        Some(k + 1)
  }

  /** An occurrence at `j + 1` in `s` is one at `j` in `s[1..]`. */
  lemma IsAtShift(s: string, pat: string, j: nat)
    requires |s| >= 1
    ensures IsAt(s, pat, j + 1) <==> IsAt(s[1..], pat, j)
  {
    if j + 1 + |pat| <= |s| {
      assert s[1..][j..j + |pat|] == s[j + 1..j + 1 + |pat|];
    }
  }

  /** `s.split(pat).collect::<Vec<_>>()`: the pieces between successive
      leftmost, non-overlapping occurrences of `pat`. */
  function Split(s: string, pat: string): (pieces: seq<string>)
    requires |pat| > 0
    ensures |pieces| >= 1
    ensures IndexOf(s, pat).Some? ==> |pieces| >= 2
    decreases |s|
  {
    match IndexOf(s, pat)
    case None => [s]
    case Some(i) => [s[..i]] + Split(s[i + |pat|..], pat)
  }

  /** The search finds something exactly when the pattern occurs. */
  lemma IndexOfFinds(s: string, pat: string)
    requires |pat| > 0
    ensures IndexOf(s, pat).Some? <==> Contains(s, pat)
  {
    match IndexOf(s, pat)
    case Some(i) =>
      assert IsAt(s, pat, i);
    case None =>
  }

  /** A split yields a single piece exactly when the pattern does not
      occur. */
  lemma SplitCount(s: string, pat: string)
    requires |pat| > 0
    ensures |Split(s, pat)| == 1 <==> !Contains(s, pat)
  {
    IndexOfFinds(s, pat);
  }

  /** `v.get(i)` on a vector (of split pieces, or of decoded records). */
  function Get<T>(v: seq<T>, i: nat): (r: Option<T>)
    ensures r.Some? <==> i < |v|
    ensures r.Some? ==> r.value == v[i]
  {
    if i < |v| then Some(v[i]) else None
  }

  /** `s.replace(pat, rep)`: every leftmost, non-overlapping occurrence of
      `pat` replaced by `rep`, scanning left to right; text without an
      occurrence is left as it is. */
  function ReplaceAll(s: string, pat: string, rep: string): (r: string)
    requires |pat| > 0
    ensures !Contains(s, pat) ==> r == s
    decreases |s|
  {
    match IndexOf(s, pat)
    case None => s
    case Some(i) => s[..i] + rep + ReplaceAll(s[i + |pat|..], pat, rep)
  }

  /** The pieces glued back together with `sep` between neighbours. */
  function Join(parts: seq<string>, sep: string): string {
    if |parts| == 0 then []
    else if |parts| == 1 then parts[0]
    else parts[0] + sep + Join(parts[1..], sep)
  }

  /** `s` with every occurrence of the character `c` dropped. */
  function RemoveChar(s: string, c: char): (r: string)
    ensures forall d :: d in r <==> d in s && d != c
  {
    if s == [] then []
    else (if s[0] == c then [] else [s[0]]) + RemoveChar(s[1..], c)
  }

  // ---------------------------------------------------------------------
  // Occurrences inside prefixes and suffixes

  lemma IsAtInPrefix(s: string, pat: string, m: nat, j: nat)
    requires m <= |s|
    ensures IsAt(s[..m], pat, j) ==> IsAt(s, pat, j) && j + |pat| <= m
  {
    if j + |pat| <= m {
      assert s[..m][j..j + |pat|] == s[j..j + |pat|];
    }
  }

  lemma IsAtInSuffix(s: string, pat: string, d: nat, j: nat)
    requires d <= |s| && IsAt(s[d..], pat, j)
    ensures IsAt(s, pat, d + j)
  {
    assert s[d..][j..j + |pat|] == s[d + j..d + j + |pat|];
  }

  /** Being a substring is transitive. */
  lemma ContainsTrans(a: string, b: string, c: string)
    requires Contains(a, b) && Contains(b, c)
    ensures Contains(a, c)
  {
    var i: nat :| IsAt(a, b, i);
    var j: nat :| IsAt(b, c, j);
    forall k | 0 <= k < |c| ensures a[i + j + k] == c[k] {
      assert c[k] == b[j + k];
      assert b[j + k] == a[i..i + |b|][j + k];
    }
    assert a[i + j..i + j + |c|] == c;
    assert IsAt(a, c, i + j);
  }

  /** A prefix of `s` that ends before the leftmost occurrence of `pat`
      holds no occurrence of `pat`. */
  lemma PrefixBeforeFirst(s: string, pat: string)
    requires |pat| > 0 && IndexOf(s, pat).Some?
    ensures !Contains(s[..IndexOf(s, pat).value], pat)
  {
    var i := IndexOf(s, pat).value;
    forall j: nat ensures !IsAt(s[..i], pat, j) {
      IsAtInPrefix(s, pat, i, j);
    }
  }

  /** Every piece of a split is a substring of the input, and none of them
      contains the pattern. */
  lemma {:induction false} SplitPiece(s: string, pat: string, k: nat)
    requires |pat| > 0 && k < |Split(s, pat)|
    ensures Contains(s, Split(s, pat)[k])
    ensures !Contains(Split(s, pat)[k], pat)
    decreases |s|
  {
    match IndexOf(s, pat)
    case None =>
      assert Split(s, pat) == [s];
      assert IsAt(s, s, 0);
    case Some(i) =>
      var rest := s[i + |pat|..];
      var tail := Split(rest, pat);
      assert Split(s, pat) == [s[..i]] + tail;
      if k == 0 {
        assert IsAt(s, s[..i], 0);
        PrefixBeforeFirst(s, pat);
      } else {
        assert Split(s, pat)[k] == tail[k - 1];
        SplitPiece(rest, pat, k - 1);
        SuffixContains(s, i + |pat|, tail[k - 1]);
      }
  }

  /** A substring of a suffix is a substring of the whole. */
  lemma SuffixContains(s: string, d: nat, t: string)
    requires d <= |s| && Contains(s[d..], t)
    ensures Contains(s, t)
  {
    var j: nat :| IsAt(s[d..], t, j);
    IsAtInSuffix(s, t, d, j);
  }

  /** The first piece is the prefix of `s` up to the leftmost occurrence of
      `pat` (all of `s` if there is none). */
  lemma FirstPiece(s: string, pat: string)
    requires |pat| > 0
    ensures Split(s, pat)[0] <= s
    ensures !Contains(Split(s, pat)[0], pat)
    ensures Contains(s, pat) ==> IsAt(s, pat, |Split(s, pat)[0]|)
    ensures !Contains(s, pat) ==> Split(s, pat)[0] == s
  {
    SplitPiece(s, pat, 0);
  }

  /** The second piece is what lies between the first and the second
      occurrence of `pat` (or the end of `s`). */
  lemma SecondPiece(s: string, pat: string)
    requires |pat| > 0 && Contains(s, pat)
    ensures IndexOf(s, pat).Some?
    ensures Split(s, pat)[1] == Split(s[IndexOf(s, pat).value + |pat|..], pat)[0]
  {
    IndexOfFinds(s, pat);
    SplitAt(s, pat);
  }

  /** With an occurrence, the split is the text before the leftmost one
      followed by the split of the text after it. */
  lemma SplitAt(s: string, pat: string)
    requires |pat| > 0 && IndexOf(s, pat).Some?
    ensures var i := IndexOf(s, pat).value;
            Split(s, pat) == [s[..i]] + Split(s[i + |pat|..], pat)
  {
  }

  /** `replace` is the join of the split pieces with the replacement, as
      Rust's documentation defines it. */
  lemma {:induction false} ReplaceIsJoinOfSplit(s: string, pat: string, rep: string)
    requires |pat| > 0
    ensures ReplaceAll(s, pat, rep) == Join(Split(s, pat), rep)
    decreases |s|
  {
    match IndexOf(s, pat)
    case None =>
    case Some(i) =>
      var rest := s[i + |pat|..];
      var tail := Split(rest, pat);
      ReplaceIsJoinOfSplit(rest, pat, rep);
      assert Split(s, pat) == [s[..i]] + tail;
      JoinCons(s[..i], tail, rep);
  }

  /** The pieces glued back with the pattern give the input again: `split`
      loses nothing but the occurrences it cuts at. */
  lemma {:induction false} JoinSplit(s: string, pat: string)
    requires |pat| > 0
    ensures Join(Split(s, pat), pat) == s
    decreases |s|
  {
    match IndexOf(s, pat)
    case None =>
    case Some(i) =>
      var rest := s[i + |pat|..];
      JoinSplit(rest, pat);
      assert Split(s, pat) == [s[..i]] + Split(rest, pat);
      JoinCons(s[..i], Split(rest, pat), pat);
      assert s[i..i + |pat|] == pat;
      assert s == s[..i] + pat + rest;
  }

  lemma JoinCons(head: string, tail: seq<string>, sep: string)
    requires |tail| >= 1
    ensures Join([head] + tail, sep) == head + sep + Join(tail, sep)
  {
    assert ([head] + tail)[1..] == tail;
  }

  // ---------------------------------------------------------------------
  // One-character patterns

  lemma IsAtChar(s: string, c: char, j: nat)
    ensures IsAt(s, [c], j) <==> j < |s| && s[j] == c
  {
    if j < |s| {
      assert s[j..j + 1] == [s[j]];
    }
  }

  lemma {:induction false} RemoveCharAt(s: string, c: char, i: nat)
    requires i < |s| && s[i] == c
    requires forall j :: 0 <= j < i ==> s[j] != c
    ensures RemoveChar(s, c) == s[..i] + RemoveChar(s[i + 1..], c)
  {
    if i == 0 {
      assert s[1..] == s[i + 1..];
    } else {
      RemoveCharAt(s[1..], c, i - 1);
      assert s[1..][i..] == s[i + 1..];
      assert [s[0]] + s[1..][..i - 1] == s[..i];
    }
  }

  lemma {:induction false} RemoveCharAbsent(s: string, c: char)
    requires c !in s
    ensures RemoveChar(s, c) == s
  {
    if s != [] {
      RemoveCharAbsent(s[1..], c);
      assert [s[0]] + s[1..] == s;
    }
  }

  /** `s.replace("c", "")` removes every `c` and keeps the rest in order. */
  lemma {:induction false} ReplaceCharByNothing(s: string, c: char)
    ensures ReplaceAll(s, [c], []) == RemoveChar(s, c)
    decreases |s|
  {
    match IndexOf(s, [c])
    case None =>
      forall j | 0 <= j < |s| ensures s[j] != c {
        IsAtChar(s, c, j);
      }
      assert c !in s;
      RemoveCharAbsent(s, c);
    case Some(i) =>
      IsAtChar(s, c, i);
      forall j | 0 <= j < i ensures s[j] != c {
        IsAtChar(s, c, j);
      }
      RemoveCharAt(s, c, i);
      ReplaceCharByNothing(s[i + 1..], c);
      assert c !in s[..i];
      RemoveCharAbsent(s[..i], c);
  }

  /** Splitting at a one-character separator undoes joining with it, when no
      part contains that character. */
  lemma {:induction false} SplitJoin(parts: seq<string>, c: char)
    requires |parts| >= 1
    requires forall k :: 0 <= k < |parts| ==> c !in parts[k]
    ensures Split(Join(parts, [c]), [c]) == parts
    decreases |parts|
  {
    var s := Join(parts, [c]);
    if |parts| == 1 {
      forall j: nat ensures !IsAt(s, [c], j) {
        IsAtChar(s, c, j);
      }
    } else {
      var p := parts[0];
      assert s == p + [c] + Join(parts[1..], [c]);
      IsAtChar(s, c, |p|);
      forall j: nat | j < |p| ensures !IsAt(s, [c], j) {
        IsAtChar(s, c, j);
        assert s[j] == p[j];
      }
      assert IndexOf(s, [c]) == Some(|p|);
      assert s[|p| + 1..] == Join(parts[1..], [c]);
      assert s[..|p|] == p;
      SplitJoin(parts[1..], c);
      assert parts == [p] + parts[1..];
    }
  }
}
