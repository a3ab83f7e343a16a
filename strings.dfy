/** The two Python string operations the bill helpers use, for a separator of
    one character: `s.split(sep)` and `s.replace(c, "")`. */
module Strings {
  import opened Sequences

  /** `s.split(sep)`: the pieces of `s` between occurrences of `sep`. Like
      Python, an empty string splits into one empty piece, and adjacent
      separators give empty pieces. */
  function Split(s: string, sep: char): (parts: seq<string>)
    ensures |parts| >= 1
    ensures forall i :: 0 <= i < |parts| ==> sep !in parts[i]
    ensures forall i, x :: 0 <= i < |parts| && x in parts[i] ==> x in s
  {
    if s == [] then [[]]
    else
      var rest := Split(s[1..], sep);
      assert forall x :: x in s[1..] ==> x in s;
      if s[0] == sep then [[]] + rest
      else [[s[0]] + rest[0]] + rest[1..]
  }

  /** `sep.join(parts)`: the inverse of `Split`. */
  function Join(parts: seq<string>, sep: char): (s: string)
    requires |parts| >= 1
    ensures |s| >= |parts| - 1
  {
    if |parts| == 1 then parts[0] else parts[0] + [sep] + Join(parts[1..], sep)
  }

  /** A string without the separator is a single piece. */
  lemma {:induction false} SplitWithoutSeparator(s: string, sep: char)
    requires sep !in s
    ensures Split(s, sep) == [s]
  {
    if s != [] {
      assert sep !in s[1..] by {
        forall x | x in s[1..] ensures x != sep { assert x in s; }
      }
      SplitWithoutSeparator(s[1..], sep);
      assert s == [s[0]] + s[1..];
    }
  }

  /** Splitting at one occurrence of the separator splits each side separately. */
  lemma {:induction false} SplitAround(a: string, b: string, sep: char)
    ensures Split(a + [sep] + b, sep) == Split(a, sep) + Split(b, sep)
  {
    var s := a + [sep] + b;
    if a == [] {
      assert s[1..] == b;
    } else {
      assert s[1..] == a[1..] + [sep] + b;
      SplitAround(a[1..], b, sep);
    }
  }

  /** A leading piece without the separator comes off as the first piece. */
  lemma SplitFirstOff(a: string, b: string, sep: char)
    requires sep !in a
    ensures Split(a + [sep] + b, sep) == [a] + Split(b, sep)
  {
    SplitAround(a, b, sep);
    SplitWithoutSeparator(a, sep);
  }

  /** Splitting undoes joining, when no piece holds the separator. */
  lemma {:induction false} SplitJoin(parts: seq<string>, sep: char)
    requires |parts| >= 1
    requires forall i :: 0 <= i < |parts| ==> sep !in parts[i]
    ensures Split(Join(parts, sep), sep) == parts
  {
    if |parts| == 1 {
      SplitWithoutSeparator(parts[0], sep);
    } else {
      SplitJoin(parts[1..], sep);
      SplitAround(parts[0], Join(parts[1..], sep), sep);
      SplitWithoutSeparator(parts[0], sep);
      assert [parts[0]] + parts[1..] == parts;
    }
  }

  /** Joining the pieces with the separator gives back the string. */
  lemma {:induction false} JoinSplit(s: string, sep: char)
    ensures Join(Split(s, sep), sep) == s
  {
    if s != [] {
      JoinSplit(s[1..], sep);
      var rest := Split(s[1..], sep);
      if s[0] == sep {
        assert ([[]] + rest)[1..] == rest;
        assert s == [sep] + s[1..];
      } else {
        var parts := [[s[0]] + rest[0]] + rest[1..];
        if |rest| > 1 {
          assert parts[1..] == rest[1..];
          assert Join(rest, sep) == rest[0] + [sep] + Join(rest[1..], sep);
          assert s == [s[0]] + s[1..];
        } else {
          assert s == [s[0]] + s[1..];
        }
      }
    }
  }

  /** `k` is where the text after the last `sep` of `s` starts (0 when there is none). */
  ghost predicate LastPieceStart(s: string, sep: char, k: int)
  {
    0 <= k <= |s| && (k == 0 || s[k - 1] == sep) && sep !in s[k..]
  }

  /** `j` is where the first `sep` of `s` stands (`|s|` when there is none). */
  ghost predicate FirstPieceEnd(s: string, sep: char, j: int)
  {
    0 <= j <= |s| && sep !in s[..j] && (j == |s| || s[j] == sep)
  }

  lemma {:induction false} LastPieceStartExists(s: string, sep: char)
    ensures exists k :: LastPieceStart(s, sep, k)
    decreases |s|
  {
    if s == [] {
      assert LastPieceStart(s, sep, 0);
    } else if s[|s| - 1] == sep {
      assert LastPieceStart(s, sep, |s|);
    } else {
      var init := s[..|s| - 1];
      LastPieceStartExists(init, sep);
      var k :| LastPieceStart(init, sep, k);
      assert s[k..] == init[k..] + [s[|s| - 1]];
      assert LastPieceStart(s, sep, k);
    }
  }

  lemma LastPieceStartUnique(s: string, sep: char, k1: int, k2: int)
    requires LastPieceStart(s, sep, k1) && LastPieceStart(s, sep, k2)
    ensures k1 == k2
  {
  }

  lemma {:induction false} FirstPieceEndExists(s: string, sep: char)
    ensures exists j :: FirstPieceEnd(s, sep, j)
  {
    if s == [] {
      assert FirstPieceEnd(s, sep, 0);
    } else if s[0] == sep {
      assert FirstPieceEnd(s, sep, 0);
    } else {
      FirstPieceEndExists(s[1..], sep);
      var j :| FirstPieceEnd(s[1..], sep, j);
      assert s[..j + 1] == [s[0]] + s[1..][..j];
      assert FirstPieceEnd(s, sep, j + 1);
    }
  }

  lemma FirstPieceEndUnique(s: string, sep: char, j1: int, j2: int)
    requires FirstPieceEnd(s, sep, j1) && FirstPieceEnd(s, sep, j2)
    ensures j1 == j2
  {
  }

  /** The last piece of `s.split(sep)` is the text after the last separator. */
  lemma LastPiece(s: string, sep: char, k: int)
    requires LastPieceStart(s, sep, k)
    ensures var parts := Split(s, sep); parts[|parts| - 1] == s[k..]
  {
    SplitWithoutSeparator(s[k..], sep);
    if k == 0 {
      assert s[k..] == s;
    } else {
      assert s == s[..k - 1] + [sep] + s[k..];
      SplitAround(s[..k - 1], s[k..], sep);
    }
  }

  /** The first piece of `s.split(sep)` is the text before the first separator. */
  lemma FirstPiece(s: string, sep: char, j: int)
    requires FirstPieceEnd(s, sep, j)
    ensures Split(s, sep)[0] == s[..j]
  {
    SplitWithoutSeparator(s[..j], sep);
    if j == |s| {
      assert s[..j] == s;
    } else {
      assert s == s[..j] + [sep] + s[j + 1..];
      SplitAround(s[..j], s[j + 1..], sep);
    }
  }

  /** Number of occurrences of `c` in `s`. */
  function Count(s: string, c: char): (n: nat)
    ensures n <= |s|
    ensures n == 0 <==> c !in s
  {
    if s == [] then 0 else (if s[0] == c then 1 else 0) + Count(s[1..], c)
  }

  /** `s.replace(c, "")`: `s` with every `c` deleted. */
  function Remove(s: string, c: char): (r: string)
    ensures c !in r
    ensures |r| == |s| - Count(s, c)
    ensures IsSubsequence(r, s)
  {
    if s == [] then []
    else if s[0] == c then Remove(s[1..], c)
    else [s[0]] + Remove(s[1..], c)
  }

  /** A subsequence of `t` without `c` is at most as long as `t` without its `c`s. */
  lemma {:induction false} SubsequenceAvoidingBound(r: string, t: string, c: char)
    requires IsSubsequence(r, t) && c !in r
    ensures |r| <= |t| - Count(t, c)
    decreases |t|
  {
    if r != [] && t != [] {
      if r[0] == t[0] {
        assert c !in r[1..] by {
          forall x | x in r[1..] ensures x != c { assert x in r; }
        }
        SubsequenceAvoidingBound(r[1..], t[1..], c);
      } else {
        SubsequenceAvoidingBound(r, t[1..], c);
      }
    }
  }

  /** `Remove(s, c)` is the only subsequence of `s` that has no `c` and keeps
      every other character: deleting exactly the `c`s, keeping the rest in order. */
  lemma {:induction false} RemoveCharacterised(s: string, c: char, r: string)
    ensures r == Remove(s, c) <==>
            (IsSubsequence(r, s) && c !in r && |r| == |s| - Count(s, c))
    decreases |s|
  {
    if IsSubsequence(r, s) && c !in r && |r| == |s| - Count(s, c) && s != [] {
      if s[0] == c {
        if r != [] {
          assert r[0] != s[0];
        }
        RemoveCharacterised(s[1..], c, r);
      } else if r == [] {
        assert false;
      } else if r[0] == s[0] {
        assert c !in r[1..] by {
          forall x | x in r[1..] ensures x != c { assert x in r; }
        }
        RemoveCharacterised(s[1..], c, r[1..]);
        assert r == [r[0]] + r[1..];
      } else {
        SubsequenceAvoidingBound(r, s[1..], c);
        assert false;
      }
    }
  }
}
