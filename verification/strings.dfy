/** The few `String.prototype` operations the utilities rely on:
    `split` on a one-character separator, `replace` of the first
    occurrence of a character by the empty string, and the suffix test. */
module Strings {
  import Sequences

  /** Position of the first `c` in `s`. */
  function IndexOf(s: string, c: char): (k: nat)
    requires c in s
    ensures k < |s| && s[k] == c
    ensures c !in s[..k]
  {
    if s[0] == c then 0
    else
      var k := 1 + IndexOf(s[1..], c);
      assert s[..k] == [s[0]] + s[1..][..k - 1];
      k
  }

  /** `s.split(sep)` for a one-character separator: the maximal
      separator-free pieces, in order; the empty string gives `[""]`. */
  function Split(s: string, sep: char): (parts: seq<string>)
    ensures |parts| >= 1
    ensures forall i :: 0 <= i < |parts| ==> sep !in parts[i]
    decreases |s|
  {
    if sep !in s then [s]
    else
      var k := IndexOf(s, sep);
      [s[..k]] + Split(s[k + 1..], sep)
  }

  /** `parts.join(sep)`. */
  function Join(parts: seq<string>, sep: char): string
    requires |parts| >= 1
  {
    if |parts| == 1 then parts[0]
    else parts[0] + [sep] + Join(parts[1..], sep)
  }

  /** Joining the pieces of a split gives back the original string. */
  lemma {:induction false} JoinSplit(s: string, sep: char)
    ensures Join(Split(s, sep), sep) == s
    decreases |s|
  {
    if sep in s {
      var k := IndexOf(s, sep);
      JoinSplit(s[k + 1..], sep);
      assert Split(s, sep)[1..] == Split(s[k + 1..], sep);
      assert s == s[..k] + [sep] + s[k + 1..];
    }
  }

  /** The first separator of a string is the one right after a
      separator-free prefix. */
  lemma FirstIndexAfterPrefix(s: string, c: char, k: nat)
    requires k < |s| && s[k] == c && c !in s[..k]
    ensures IndexOf(s, c) == k
  {
    var j := IndexOf(s, c);
  }

  /** A separator-free head and a separator in front of `tail` split off
      as the first piece. */
  lemma SplitCons(head: string, sep: char, tail: string)
    requires sep !in head
    ensures Split(head + [sep] + tail, sep) == [head] + Split(tail, sep)
  {
    var s := head + [sep] + tail;
    assert s[..|head|] == head;
    FirstIndexAfterPrefix(s, sep, |head|);
    assert s[|head| + 1..] == tail;
  }

  /** Splitting a join of separator-free pieces gives back the pieces. */
  lemma {:induction false} SplitJoin(parts: seq<string>, sep: char)
    requires |parts| >= 1
    requires forall i :: 0 <= i < |parts| ==> sep !in parts[i]
    ensures Split(Join(parts, sep), sep) == parts
  {
    if |parts| > 1 {
      var rest := parts[1..];
      assert Join(parts, sep) == parts[0] + [sep] + Join(rest, sep);
      SplitCons(parts[0], sep, Join(rest, sep));
      assert forall i :: 0 <= i < |rest| ==> sep !in rest[i] by {
        forall i | 0 <= i < |rest| ensures sep !in rest[i] {
          assert rest[i] == parts[i + 1];
        }
      }
      SplitJoin(rest, sep);
      assert parts == [parts[0]] + rest;
    }
  }

  /** `w` occurs in `s` at `i`, bounded on both sides by a separator or an
      end of `s`: the reading of "`w` is one of the comma-separated items". */
  ghost predicate DelimitedAt(s: string, sep: char, w: string, i: int)
  {
    && 0 <= i && i + |w| <= |s|
    && s[i..i + |w|] == w
    && (i == 0 || s[i - 1] == sep)
    && (i + |w| == |s| || s[i + |w|] == sep)
  }

  /** An occurrence after the separator at `k` is one in the whole string. */
  lemma DelimitedShift(s: string, sep: char, k: nat, w: string, j: nat)
    requires k < |s| && s[k] == sep
    requires DelimitedAt(s[k + 1..], sep, w, j)
    ensures DelimitedAt(s, sep, w, k + 1 + j)
  {
    var t := s[k + 1..];
    var i := k + 1 + j;
    assert s[i..i + |w|] == t[j..j + |w|];
    assert j > 0 ==> s[i - 1] == t[j - 1];
    assert i + |w| < |s| ==> s[i + |w|] == t[j + |w|];
  }

  /** Every piece of a split occurs delimited in the original string. */
  lemma {:induction false} SplitPieceDelimited(s: string, sep: char, w: string)
    requires w in Split(s, sep)
    ensures exists i :: DelimitedAt(s, sep, w, i)
    decreases |s|
  {
    if sep !in s {
      assert DelimitedAt(s, sep, w, 0);
    } else {
      var k := IndexOf(s, sep);
      var t := s[k + 1..];
      assert Split(s, sep) == [s[..k]] + Split(t, sep);
      if w == s[..k] {
        assert DelimitedAt(s, sep, w, 0);
      } else {
        SplitPieceDelimited(t, sep, w);
        var j :| DelimitedAt(t, sep, w, j);
        DelimitedShift(s, sep, k, w, j);
      }
    }
  }

  /** A separator-free word that occurs delimited is one of the pieces. */
  lemma {:induction false} DelimitedIsSplitPiece(s: string, sep: char, w: string, i: int)
    requires sep !in w
    requires DelimitedAt(s, sep, w, i)
    ensures w in Split(s, sep)
    decreases |s|
  {
    if sep !in s {
      assert w == s;
    } else if i == 0 {
      assert s[..|w|] == w;
      FirstIndexAfterPrefix(s, sep, |w|);
    } else {
      var k := IndexOf(s, sep);
      var t := s[k + 1..];
      var j := i - k - 1;
      assert t[j..j + |w|] == s[i..i + |w|];
      assert j == 0 || t[j - 1] == s[i - 1];
      assert j + |w| == |t| || t[j + |w|] == s[i + |w|];
      DelimitedIsSplitPiece(t, sep, w, j);
    }
  }

  /** A separator-free word is one of the pieces of a split exactly when it
      occurs delimited in the original string. */
  lemma InSplitIff(s: string, sep: char, w: string)
    requires sep !in w
    ensures w in Split(s, sep) <==> exists i :: DelimitedAt(s, sep, w, i)
  {
    if w in Split(s, sep) {
      SplitPieceDelimited(s, sep, w);
    }
    if exists i :: DelimitedAt(s, sep, w, i) {
      var i :| DelimitedAt(s, sep, w, i);
      DelimitedIsSplitPiece(s, sep, w, i);
    }
  }

  /** `w` ends `s` and is the whole of it or follows a separator. */
  ghost predicate SuffixAfterSep(s: string, sep: char, w: string)
  {
    && |w| <= |s|
    && w == s[|s| - |w|..]
    && (|w| == |s| || s[|s| - |w| - 1] == sep)
  }

  /** Such a suffix of what follows a separator is one of the whole string. */
  lemma SuffixShift(s: string, sep: char, k: nat, w: string)
    requires k < |s| && s[k] == sep
    requires SuffixAfterSep(s[k + 1..], sep, w)
    ensures SuffixAfterSep(s, sep, w)
  {
    var t := s[k + 1..];
    assert s[|s| - |w|..] == t[|t| - |w|..];
    if |w| == |t| {
      assert s[|s| - |w| - 1] == s[k];
    } else {
      assert s[|s| - |w| - 1] == t[|t| - |w| - 1];
    }
  }

  /** The last piece of a split is the longest separator-free suffix: the
      whole string, or what follows its last separator. */
  lemma {:induction false} LastPiece(s: string, sep: char)
    ensures var parts := Split(s, sep);
      SuffixAfterSep(s, sep, parts[|parts| - 1])
    decreases |s|
  {
    if sep in s {
      var k := IndexOf(s, sep);
      var t := s[k + 1..];
      LastPiece(t, sep);
      var parts := Split(s, sep);
      assert parts[|parts| - 1] == Split(t, sep)[|Split(t, sep)| - 1];
      SuffixShift(s, sep, k, parts[|parts| - 1]);
    }
  }

  /** `s.replace(c, '')` with a one-character pattern: only the first
      occurrence of `c` is removed. */
  function RemoveFirst(s: string, c: char): (r: string)
    ensures c !in s ==> r == s
    ensures c in s ==> |r| == |s| - 1 && r == s[..IndexOf(s, c)] + s[IndexOf(s, c) + 1..]
  {
    if s == [] then []
    else if s[0] == c then s[1..]
    else
      var rest := RemoveFirst(s[1..], c);
      if c in s[1..] then
        var k := IndexOf(s[1..], c);
        assert IndexOf(s, c) == k + 1;
        Sequences.DropAfterHead(s, k);
        [s[0]] + rest
      else
        [s[0]] + rest
  }

  /** `s.endsWith(c)` for a one-character suffix. */
  predicate EndsWith(s: string, c: char)
  {
    |s| > 0 && s[|s| - 1] == c
  }

  /** `s.startsWith(c)` for a one-character prefix. */
  predicate StartsWith(s: string, c: char)
  {
    |s| > 0 && s[0] == c
  }
}
