/**
 * Python's `str.split(sep, maxsplit)` with an explicit one-character
 * separator: split at each occurrence of `sep`, from the left, at most
 * `maxsplit` times; neighbouring separators give empty pieces, and the
 * last piece keeps whatever follows the last split, separators included.
 */
module Tokens {

  /** The pieces glued back together with `sep` between neighbours. */
  function Join(pieces: seq<string>, sep: char): string
    requires |pieces| >= 1
    decreases |pieces|
  {
    if |pieces| == 1 then pieces[0] else pieces[0] + [sep] + Join(pieces[1..], sep)
  }

  /** Position of the first occurrence of `c` in `s`. */
  function IndexOf(s: string, c: char): (i: nat)
    requires c in s
    ensures i < |s| && s[i] == c && c !in s[..i]
  {
    if s[0] == c then 0
    else
      var j := IndexOf(s[1..], c);
      assert s[..j + 1] == [s[0]] + s[1..][..j];
      j + 1
  }

  /** Number of occurrences of `c` in `s`. */
  function Occurrences(s: string, c: char): nat
  {
    if s == [] then 0 else (if s[0] == c then 1 else 0) + Occurrences(s[1..], c)
  }

  /** `s.split(sep, maxsplit)`: the pieces rejoin to `s`, there are at
      most `maxsplit + 1` of them, no piece but the last holds the
      separator, and neither does the last when fewer than `maxsplit`
      splits were made. */
  function Split(s: string, sep: char, maxsplit: nat): (r: seq<string>)
    ensures IsSplit(s, sep, maxsplit, r)
    decreases |s|
  {
    if maxsplit == 0 || sep !in s then [s]
    else
      var i := IndexOf(s, sep);
      var rest := Split(s[i + 1..], sep, maxsplit - 1);
      SplitCons(s, sep, maxsplit, i, rest);
      [s[..i]] + rest
  }

  /** The four facts that pin down the result of a split. */
  predicate IsSplit(s: string, sep: char, maxsplit: nat, r: seq<string>)
  {
    && 1 <= |r| <= maxsplit + 1
    && Join(r, sep) == s
    && (forall i :: 0 <= i < |r| - 1 ==> sep !in r[i])
    && (|r| <= maxsplit ==> sep !in r[|r| - 1])
  }

  /** Splitting at the first separator and then splitting the rest. */
  lemma SplitCons(s: string, sep: char, maxsplit: nat, i: nat, rest: seq<string>)
    requires maxsplit > 0 && i < |s| && s[i] == sep && sep !in s[..i]
    requires IsSplit(s[i + 1..], sep, maxsplit - 1, rest)
    ensures IsSplit(s, sep, maxsplit, [s[..i]] + rest)
  {
    var r := [s[..i]] + rest;
    assert r[1..] == rest;
    assert s == s[..i] + [sep] + s[i + 1..];
    forall k | 0 <= k < |r| - 1 ensures sep !in r[k] {
      if k > 0 {
        assert r[k] == rest[k - 1];
      }
    }
  }

  /** Two separator-free heads followed by a separator agree when the
      strings do. */
  lemma SameHead(a: string, t: string, b: string, u: string, sep: char)
    requires sep !in a && sep !in b
    requires a + [sep] + t == b + [sep] + u
    ensures a == b && t == u
  {
    var s := a + [sep] + t;
    if |a| < |b| {
      SeparatorInLongerHead(a, t, b, u, sep);
      assert false;
    } else if |b| < |a| {
      SeparatorInLongerHead(b, u, a, t, sep);
      assert false;
    } else {
      assert a == s[..|a|] == b;
      assert t == s[|a| + 1..] == u;
    }
  }

  lemma SeparatorInLongerHead(a: string, t: string, b: string, u: string, sep: char)
    requires a + [sep] + t == b + [sep] + u && |a| < |b|
    ensures sep in b
  {
    assert b[|a|] == (b + [sep] + u)[|a|] == (a + [sep] + t)[|a|] == sep;
  }

  /** Any list of pieces with the four facts of IsSplit is the split: the
      characterisation is complete, so it can stand for the function. */
  lemma SplitUnique(s: string, sep: char, maxsplit: nat, r: seq<string>)
    requires IsSplit(s, sep, maxsplit, r)
    ensures r == Split(s, sep, maxsplit)
  {
    IsSplitUnique(s, sep, maxsplit, r, Split(s, sep, maxsplit));
  }

  lemma {:induction false} IsSplitUnique(s: string, sep: char, maxsplit: nat, r1: seq<string>, r2: seq<string>)
    requires IsSplit(s, sep, maxsplit, r1) && IsSplit(s, sep, maxsplit, r2)
    ensures r1 == r2
    decreases |r1|
  {
    if |r1| == 1 && |r2| == 1 {
    } else if |r1| == 1 {
      JoinStep(r2, sep);
    } else if |r2| == 1 {
      JoinStep(r1, sep);
    } else {
      JoinStep(r1, sep);
      JoinStep(r2, sep);
      SameHead(r1[0], Join(r1[1..], sep), r2[0], Join(r2[1..], sep), sep);
      TailIsSplit(sep, maxsplit, r1);
      TailIsSplit(sep, maxsplit, r2);
      IsSplitUnique(Join(r1[1..], sep), sep, maxsplit - 1, r1[1..], r2[1..]);
      assert r1 == [r1[0]] + r1[1..];
      assert r2 == [r2[0]] + r2[1..];
    }
  }

  lemma JoinStep(r: seq<string>, sep: char)
    requires |r| > 1
    ensures Join(r, sep) == r[0] + [sep] + Join(r[1..], sep)
    ensures sep in Join(r, sep)
  {
    assert Join(r, sep)[|r[0]|] == sep;
  }

  lemma TailIsSplit(sep: char, maxsplit: nat, r: seq<string>)
    requires |r| > 1 && IsSplit(Join(r, sep), sep, maxsplit, r)
    ensures maxsplit >= 1 && IsSplit(Join(r[1..], sep), sep, maxsplit - 1, r[1..])
  {
    forall k | 0 <= k < |r[1..]| - 1
      ensures sep !in r[1..][k]
    {
      assert r[1..][k] == r[k + 1];
    }
  }

  lemma {:induction false} OccurrencesAppend(a: string, b: string, c: char)
    ensures Occurrences(a + b, c) == Occurrences(a, c) + Occurrences(b, c)
    decreases |a|
  {
    if a == [] {
      assert a + b == b;
    } else {
      assert (a + b)[1..] == a[1..] + b;
      OccurrencesAppend(a[1..], b, c);
    }
  }

  lemma {:induction false} NoOccurrences(s: string, c: char)
    requires c !in s
    ensures Occurrences(s, c) == 0
    decreases |s|
  {
    if s != [] {
      assert forall k :: 0 <= k < |s[1..]| ==> s[1..][k] == s[k + 1];
      NoOccurrences(s[1..], c);
    }
  }

  /** The split has one piece more than the number of separators, but
      never more than `maxsplit + 1` pieces. */
  lemma SplitLength(s: string, sep: char, maxsplit: nat)
    ensures |Split(s, sep, maxsplit)| == 1 + Min(Occurrences(s, sep), maxsplit)
  {
    PiecesCount(s, sep, maxsplit, Split(s, sep, maxsplit));
  }

  function Min(a: nat, b: nat): nat
  {
    if a < b then a else b
  }

  /** Each split consumes one separator. */
  lemma {:induction false} PiecesCount(s: string, sep: char, maxsplit: nat, r: seq<string>)
    requires IsSplit(s, sep, maxsplit, r)
    ensures |r| == 1 + Min(Occurrences(s, sep), maxsplit)
    decreases |r|
  {
    if |r| == 1 {
      if |r| <= maxsplit {
        NoOccurrences(s, sep);
      }
    } else {
      JoinStep(r, sep);
      TailIsSplit(sep, maxsplit, r);
      var t := Join(r[1..], sep);
      PiecesCount(t, sep, maxsplit - 1, r[1..]);
      OccurrencesAppend(r[0], [sep] + t, sep);
      OccurrencesAppend([sep], t, sep);
      NoOccurrences(r[0], sep);
      assert r[0] + [sep] + t == r[0] + ([sep] + t);
      assert [sep][1..] == [];
    }
  }

  /** With four pieces out of at most three splits, the last piece is
      everything after the third separator, separators included. */
  lemma TailAfterThirdSeparator(s: string, sep: char)
    requires |Split(s, sep, 3)| == 4
    ensures var r := Split(s, sep, 3);
            var n := |r[0]| + |r[1]| + |r[2]| + 3;
            && n <= |s|
            && s[..n] == r[0] + [sep] + r[1] + [sep] + r[2] + [sep]
            && s[n - 1] == sep
            && r[3] == s[n..]
            && Occurrences(s[..n], sep) == 3
  {
    var r := Split(s, sep, 3);
    JoinFour(r, sep);
    var head := r[0] + [sep] + r[1] + [sep] + r[2] + [sep];
    assert s == head + r[3];
    HeadOccurrences(r[0], r[1], r[2], sep);
  }

  /** Three separator-free pieces joined by the separator split back
      into those three pieces, even when more splits are allowed. */
  lemma SplitOfThree(a: string, b: string, c: string, sep: char, maxsplit: nat)
    requires sep !in a && sep !in b && sep !in c && maxsplit >= 2
    ensures Split(a + [sep] + b + [sep] + c, sep, maxsplit) == [a, b, c]
  {
    JoinThree([a, b, c], sep);
    SplitUnique(a + [sep] + b + [sep] + c, sep, maxsplit, [a, b, c]);
  }

  lemma JoinThree(p: seq<string>, sep: char)
    requires |p| == 3
    ensures Join(p, sep) == p[0] + [sep] + p[1] + [sep] + p[2]
  {
    JoinStep(p, sep);
    JoinStep(p[1..], sep);
    assert p[1..][1..] == [p[2]];
  }

  lemma JoinFour(r: seq<string>, sep: char)
    requires |r| == 4
    ensures Join(r, sep) == r[0] + [sep] + r[1] + [sep] + r[2] + [sep] + r[3]
  {
    JoinStep(r, sep);
    JoinStep(r[1..], sep);
    JoinStep(r[1..][1..], sep);
    assert r[1..][1..][1..] == [r[3]];
  }

  lemma HeadOccurrences(a: string, b: string, c: string, sep: char)
    requires sep !in a && sep !in b && sep !in c
    ensures Occurrences(a + [sep] + b + [sep] + c + [sep], sep) == 3
  {
    NoOccurrences(a, sep);
    NoOccurrences(b, sep);
    NoOccurrences(c, sep);
    assert Occurrences([sep], sep) == 1;
    OccurrencesAppend(a, [sep], sep);
    OccurrencesAppend(a + [sep], b, sep);
    OccurrencesAppend(a + [sep] + b, [sep], sep);
    OccurrencesAppend(a + [sep] + b + [sep], c, sep);
    OccurrencesAppend(a + [sep] + b + [sep] + c, [sep], sep);
  }
}
