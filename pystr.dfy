/**
 * The Python string operations the import script relies on, over `seq<char>`:
 * `startswith` (Dafny's prefix test `p <= s`), the `in` substring test,
 * ASCII `lower()` and `replace(old, new)` for a non-empty `old`.
 */
module PyStr {

  /** `pat` occurs in `s` starting at position `i`. */
  predicate OccursAt(s: string, pat: string, i: int)
  {
    0 <= i && i + |pat| <= |s| && s[i..i + |pat|] == pat
  }

  /** Python's `pat in s`. */
  predicate Contains(s: string, pat: string)
  {
    exists i :: 0 <= i <= |s| - |pat| && OccursAt(s, pat, i)
  }

  function LowerChar(c: char): char
  {
    if 'A' <= c <= 'Z' then (c as int + 32) as char else c
  }

  /** `s.lower()` for a byte string: only the ASCII capitals change. */
  function Lower(s: string): (r: string)
    ensures |r| == |s|
    ensures forall i :: 0 <= i < |s| && 'A' <= s[i] <= 'Z' ==> r[i] as int == s[i] as int + 32
    ensures forall i :: 0 <= i < |s| && !('A' <= s[i] <= 'Z') ==> r[i] == s[i]
  {
    seq(|s|, i requires 0 <= i < |s| => LowerChar(s[i]))
  }

  /**
   * `s.replace(pat, rep)`: scans left to right and replaces every
   * non-overlapping occurrence of `pat`.
   */
  function ReplaceAll(s: string, pat: string, rep: string): string
    requires |pat| > 0
    decreases |s|
  {
    if s == [] then []
    else if pat <= s then rep + ReplaceAll(s[|pat|..], pat, rep)
    else [s[0]] + ReplaceAll(s[1..], pat, rep)
  }

  /** `s.split(pat)`: the pieces between the occurrences `ReplaceAll` replaces. */
  function Split(s: string, pat: string): (ps: seq<string>)
    requires |pat| > 0
    ensures |ps| >= 1
    decreases |s|
  {
    if s == [] then [[]]
    else if pat <= s then [[]] + Split(s[|pat|..], pat)
    else
      var t := Split(s[1..], pat);
      [[s[0]] + t[0]] + t[1..]
  }

  /** `sep.join(ps)`. */
  function Join(ps: seq<string>, sep: string): string
    requires |ps| >= 1
    decreases |ps|
  {
    if |ps| == 1 then ps[0] else ps[0] + sep + Join(ps[1..], sep)
  }

  /**
   * The pieces are a leftmost split: no piece contains `pat`, and no
   * occurrence of `pat` starts inside a piece and runs into the separator
   * that follows it.
   */
  predicate LeftmostPieces(ps: seq<string>, pat: string)
    requires |pat| > 0 && |ps| >= 1
  {
    (forall k :: 0 <= k < |ps| - 1 ==> !Contains(ps[k] + pat[..|pat| - 1], pat)) &&
    !Contains(ps[|ps| - 1], pat)
  }

  lemma OccursAtShift(s: string, pat: string, i: int)
    requires |s| > 0 && 0 <= i
    ensures OccursAt(s[1..], pat, i) <==> OccursAt(s, pat, i + 1)
  {
    if i + |pat| <= |s| - 1 {
      assert s[1..][i..i + |pat|] == s[i + 1..i + 1 + |pat|];
    }
  }

  /** Putting one character in front creates no occurrence except, possibly, one at the front. */
  lemma ConsNoOccurrence(c: char, x: string, pat: string)
    requires |pat| > 0
    requires !Contains(x, pat) && !(pat <= [c] + x)
    ensures !Contains([c] + x, pat)
  {
    var s := [c] + x;
    assert s[1..] == x;
    forall i | 0 < i <= |s| - |pat|
      ensures !OccursAt(s, pat, i)
    {
      OccursAtShift(s, pat, i - 1);
    }
  }

  /** A string with no occurrence of `pat` is left unchanged by `replace`. */
  lemma {:induction false} NoOccurrenceUnchanged(s: string, pat: string, rep: string)
    requires |pat| > 0 && !Contains(s, pat)
    ensures ReplaceAll(s, pat, rep) == s
  {
    if s != [] {
      assert !OccursAt(s, pat, 0);
      forall i | 0 <= i <= |s| - 1 - |pat|
        ensures !OccursAt(s[1..], pat, i)
      {
        OccursAtShift(s, pat, i);
      }
      NoOccurrenceUnchanged(s[1..], pat, rep);
    }
  }

  /**
   * If the first character of `pat` does not occur in `x`, then `x + y`
   * contains `pat` only where `y` does.
   */
  lemma NoOccurrenceAfterPlain(x: string, y: string, pat: string)
    requires |pat| > 0 && pat[0] !in x && !Contains(y, pat)
    ensures !Contains(x + y, pat)
  {
    var s := x + y;
    forall i | 0 <= i <= |s| - |pat|
      ensures !OccursAt(s, pat, i)
    {
      if i < |x| {
        assert s[i..i + |pat|][0] == x[i];
      } else {
        assert s[i..i + |pat|] == y[i - |x|..i - |x| + |pat|];
        assert !OccursAt(y, pat, i - |x|);
      }
    }
  }

  /**
   * If the first character of `pat` occurs in `x` only at the front, and
   * `pat` does not start there, then `x + y` contains `pat` only where `y` does.
   */
  lemma NoOccurrenceAfterHead(x: string, y: string, pat: string)
    requires |pat| > 0 && |x| > 0 && pat[0] !in x[1..]
    requires !OccursAt(x + y, pat, 0) && !Contains(y, pat)
    ensures !Contains(x + y, pat)
  {
    var s := x + y;
    NoOccurrenceAfterPlain(x[1..], y, pat);
    assert s == [x[0]] + (x[1..] + y);
    ConsNoOccurrence(x[0], x[1..] + y, pat);
  }

  lemma JoinConsChar(c: char, ps: seq<string>, sep: string)
    requires |ps| >= 1
    ensures Join([[c] + ps[0]] + ps[1..], sep) == [c] + Join(ps, sep)
  {
    var qs := [[c] + ps[0]] + ps[1..];
    if |ps| > 1 {
      assert qs[1..] == ps[1..];
    }
  }

  /** Replacing `pat` by itself changes nothing. */
  lemma {:induction false} ReplaceBySelf(s: string, pat: string)
    requires |pat| > 0
    ensures ReplaceAll(s, pat, pat) == s
    decreases |s|
  {
    if s != [] {
      if pat <= s {
        ReplaceBySelf(s[|pat|..], pat);
        assert s == pat + s[|pat|..];
      } else {
        ReplaceBySelf(s[1..], pat);
        assert s == [s[0]] + s[1..];
      }
    }
  }

  /** `s.replace(pat, rep)` is `rep.join(s.split(pat))`. */
  lemma {:induction false} JoinSplit(s: string, pat: string, rep: string)
    requires |pat| > 0
    ensures Join(Split(s, pat), rep) == ReplaceAll(s, pat, rep)
    decreases |s|
  {
    if s != [] {
      if pat <= s {
        JoinSplitAtOccurrence(s, pat, rep);
      } else {
        JoinSplitAtChar(s, pat, rep);
      }
    }
  }

  lemma {:induction false} JoinSplitAtOccurrence(s: string, pat: string, rep: string)
    requires |pat| > 0 && s != [] && pat <= s
    ensures Join(Split(s, pat), rep) == ReplaceAll(s, pat, rep)
    decreases |s|, 0
  {
    var rest := s[|pat|..];
    var t := Split(rest, pat);
    JoinSplit(rest, pat, rep);
    assert Split(s, pat) == [[]] + t;
    JoinCons([], t, rep);
    assert ReplaceAll(s, pat, rep) == rep + ReplaceAll(rest, pat, rep);
  }

  lemma JoinCons(p: string, ps: seq<string>, sep: string)
    requires |ps| >= 1
    ensures Join([p] + ps, sep) == p + sep + Join(ps, sep)
  {
    assert ([p] + ps)[1..] == ps;
  }

  lemma {:induction false} JoinSplitAtChar(s: string, pat: string, rep: string)
    requires |pat| > 0 && s != [] && !(pat <= s)
    ensures Join(Split(s, pat), rep) == ReplaceAll(s, pat, rep)
    decreases |s|, 0
  {
    var t := Split(s[1..], pat);
    JoinSplit(s[1..], pat, rep);
    assert Split(s, pat) == [[s[0]] + t[0]] + t[1..];
    JoinConsChar(s[0], t, rep);
  }

  /** Joining the pieces of `s.split(pat)` with `pat` gives back `s`. */
  lemma SplitJoin(s: string, pat: string)
    requires |pat| > 0
    ensures Join(Split(s, pat), pat) == s
  {
    JoinSplit(s, pat, pat);
    ReplaceBySelf(s, pat);
  }

  lemma JoinStartsWith(ps: seq<string>, sep: string)
    requires |ps| > 1
    ensures ps[0] + sep <= Join(ps, sep)
  {
  }

  /** The pieces `Split` produces are the leftmost split of `s` by `pat`. */
  lemma {:induction false} SplitLeftmost(s: string, pat: string)
    requires |pat| > 0
    ensures LeftmostPieces(Split(s, pat), pat)
    decreases |s|
  {
    if s == [] {
    } else if pat <= s {
      SplitEmptyHeadLeftmost(s, pat);
    } else {
      SplitConsLeftmost(s, pat);
    }
  }

  lemma {:induction false} SplitEmptyHeadLeftmost(s: string, pat: string)
    requires |pat| > 0 && s != [] && pat <= s
    ensures LeftmostPieces(Split(s, pat), pat)
    decreases |s|, 0
  {
    var ps := Split(s, pat);
    var t := Split(s[|pat|..], pat);
    SplitLeftmost(s[|pat|..], pat);
    assert ps == [[]] + t;
    assert forall k :: 1 <= k < |ps| ==> ps[k] == t[k - 1];
  }

  lemma {:induction false} SplitConsLeftmost(s: string, pat: string)
    requires |pat| > 0 && s != [] && !(pat <= s)
    ensures LeftmostPieces(Split(s, pat), pat)
    decreases |s|, 0
  {
    var t := Split(s[1..], pat);
    var head := [s[0]] + t[0];
    SplitLeftmost(s[1..], pat);
    assert Split(s, pat) == [head] + t[1..];
    if |t| > 1 {
      SplitConsFirstPiece(s, pat);
    } else {
      SplitJoin(s[1..], pat);
      ConsNoOccurrence(s[0], t[0], pat);
    }
    LeftmostReplaceHead(head, t, pat);
  }

  /** Replacing the first piece keeps the pieces leftmost when the new piece qualifies. */
  lemma LeftmostReplaceHead(head: string, t: seq<string>, pat: string)
    requires |pat| > 0 && |t| >= 1 && LeftmostPieces(t, pat)
    requires if |t| > 1 then !Contains(head + pat[..|pat| - 1], pat) else !Contains(head, pat)
    ensures LeftmostPieces([head] + t[1..], pat)
  {
    var ps := [head] + t[1..];
    assert forall k :: 1 <= k < |ps| ==> ps[k] == t[k];
  }

  /** A substring test still succeeds after both sides are lower-cased. */
  lemma ContainsLower(s: string, p: string)
    requires Contains(s, p)
    ensures Contains(Lower(s), Lower(p))
  {
    var i :| 0 <= i <= |s| - |p| && OccursAt(s, p, i);
    assert Lower(s)[i..i + |p|] == Lower(p);
    assert OccursAt(Lower(s), Lower(p), i);
  }

  /** `replace` on a string that starts with `pat` and has no other occurrence of it. */
  lemma ReplaceLeadingOccurrence(pat: string, rest: string, rep: string)
    requires |pat| > 0 && !Contains(rest, pat)
    ensures ReplaceAll(pat + rest, pat, rep) == rep + rest
  {
    assert (pat + rest)[|pat|..] == rest;
    NoOccurrenceUnchanged(rest, pat, rep);
  }

  /** Two strings that differ at position `d` cannot start with each other. */
  lemma DiffersAt(x: string, y: string, pat: string, d: nat)
    requires d < |x| && d < |pat| && x[d] != pat[d]
    ensures !OccursAt(x + y, pat, 0)
  {
    assert (x + y)[d] == x[d];
  }

  /** The first piece of a split that does not start with `pat`, when more pieces follow. */
  lemma SplitConsFirstPiece(s: string, pat: string)
    requires |pat| > 0 && s != [] && !(pat <= s)
    requires |Split(s[1..], pat)| > 1
    requires !Contains(Split(s[1..], pat)[0] + pat[..|pat| - 1], pat)
    ensures !Contains(Split(s, pat)[0] + pat[..|pat| - 1], pat)
  {
    var t := Split(s[1..], pat);
    var ext := t[0] + pat[..|pat| - 1];
    SplitJoin(s[1..], pat);
    JoinStartsWith(t, pat);
    assert ext <= s[1..];
    assert [s[0]] + ext <= s;
    ConsNoOccurrence(s[0], ext, pat);
    assert Split(s, pat)[0] + pat[..|pat| - 1] == [s[0]] + ext;
  }
}
