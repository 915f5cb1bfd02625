/**
 * One pass of a due-reminder scanner, independent of the row type. The
 * pass walks the candidate rows in the order the store returned them;
 * each due row is sent and, once the send has returned, deleted. A send
 * that raises ends the pass: rows deleted before it stay deleted, the
 * failing row and every later one stay in place.
 */
module Sweep {

  /** The rows of `xs` that satisfy `keep`, in their order. */
  function Select<T>(xs: seq<T>, keep: T -> bool): (ys: seq<T>)
    ensures |ys| <= |xs|
    ensures forall y :: y in ys ==> y in xs && keep(y)
    ensures forall x :: x in xs && keep(x) ==> x in ys
  {
    if xs == [] then []
    else (if keep(xs[0]) then [xs[0]] else []) + Select(xs[1..], keep)
  }

  lemma {:induction false} SelectAppend<T>(xs: seq<T>, ys: seq<T>, keep: T -> bool)
    ensures Select(xs + ys, keep) == Select(xs, keep) + Select(ys, keep)
    decreases |xs|
  {
    if xs == [] {
      assert xs + ys == ys;
    } else {
      assert (xs + ys)[1..] == xs[1..] + ys;
      SelectAppend(xs[1..], ys, keep);
    }
  }

  /** Selecting from one more row. */
  lemma SelectStep<T>(xs: seq<T>, i: nat, keep: T -> bool)
    requires i < |xs|
    ensures Select(xs[..i + 1], keep)
            == Select(xs[..i], keep) + (if keep(xs[i]) then [xs[i]] else [])
  {
    assert xs[..i + 1] == xs[..i] + [xs[i]];
    SelectAppend(xs[..i], [xs[i]], keep);
  }

  /** The table with the rows in `gone` deleted. */
  function Without<T(==)>(rows: seq<T>, gone: seq<T>): (r: seq<T>)
    ensures forall x :: x in r ==> x in rows && x !in gone
    ensures forall x :: x in rows && x !in gone ==> x in r
  {
    Select(rows, x => x !in gone)
  }

  /** Deleting nothing leaves the table as it is. */
  lemma {:induction false} WithoutNothing<T>(rows: seq<T>)
    ensures Without(rows, []) == rows
    decreases |rows|
  {
    if rows != [] {
      WithoutNothing(rows[1..]);
      assert rows == [rows[0]] + rows[1..];
    }
  }

  /** Deleting rows one after another is deleting them all. */
  lemma {:induction false} WithoutTwice<T>(rows: seq<T>, a: seq<T>, b: seq<T>)
    ensures Without(Without(rows, a), b) == Without(rows, a + b)
    decreases |rows|
  {
    if rows != [] {
      WithoutTwice(rows[1..], a, b);
      var x := rows[0];
      var rest := Without(rows[1..], a);
      if x in a {
        assert Without(rows, a) == rest;
      } else {
        assert Without(rows, a) == [x] + rest;
        assert ([x] + rest)[1..] == rest;
      }
    }
  }

  predicate Increasing<T>(xs: seq<T>, key: T -> int)
  {
    forall i, j :: 0 <= i < j < |xs| ==> key(xs[i]) < key(xs[j])
  }

  predicate Distinct<T(==)>(xs: seq<T>)
  {
    forall i, j :: 0 <= i < j < |xs| ==> xs[i] != xs[j]
  }

  /** Selecting keeps rows ordered by their key. */
  lemma {:induction false} SelectIncreasing<T>(xs: seq<T>, keep: T -> bool, key: T -> int)
    requires Increasing(xs, key)
    ensures Increasing(Select(xs, keep), key)
    decreases |xs|
  {
    if xs != [] {
      var tail := xs[1..];
      assert Increasing(tail, key) by {
        forall i, j | 0 <= i < j < |tail| ensures key(tail[i]) < key(tail[j]) {
          assert tail[i] == xs[i + 1] && tail[j] == xs[j + 1];
        }
      }
      SelectIncreasing(tail, keep, key);
      var rest := Select(tail, keep);
      if keep(xs[0]) {
        forall y | y in rest
          ensures key(xs[0]) < key(y)
        {
          HeadBelowTail(xs, key, y);
        }
        IncreasingCons(xs[0], rest, key);
      }
    }
  }

  lemma HeadBelowTail<T>(xs: seq<T>, key: T -> int, y: T)
    requires Increasing(xs, key) && |xs| > 0 && y in xs[1..]
    ensures key(xs[0]) < key(y)
  {
    var j :| 0 <= j < |xs[1..]| && xs[1..][j] == y;
    assert xs[j + 1] == y;
  }

  lemma IncreasingCons<T>(x: T, rest: seq<T>, key: T -> int)
    requires Increasing(rest, key)
    requires forall y :: y in rest ==> key(x) < key(y)
    ensures Increasing([x] + rest, key)
  {
    var s := [x] + rest;
    forall i, j | 0 <= i < j < |s| ensures key(s[i]) < key(s[j]) {
      assert s[j] == rest[j - 1];
      if i > 0 {
        assert s[i] == rest[i - 1];
      } else {
        assert rest[j - 1] in rest;
      }
    }
  }

  lemma IncreasingDistinct<T>(xs: seq<T>, key: T -> int)
    requires Increasing(xs, key)
    ensures Distinct(xs)
  {
  }

  /** Where the pass stops: the first due candidate whose send fails, or
      the end of the candidates. */
  function StopAt<T>(cands: seq<T>, due: T -> bool, sends: T -> bool): (k: nat)
    ensures k <= |cands|
    ensures forall j :: 0 <= j < k ==> !due(cands[j]) || sends(cands[j])
    ensures k < |cands| ==> due(cands[k]) && !sends(cands[k])
    decreases |cands|
  {
    if cands == [] then 0
    else if due(cands[0]) && !sends(cands[0]) then 0
    else 1 + StopAt(cands[1..], due, sends)
  }

  /** A candidate that is not due, or whose send succeeds, is not where
      the pass stops. */
  lemma PassesOver<T>(cands: seq<T>, due: T -> bool, sends: T -> bool, i: nat)
    requires i < |cands| && i <= StopAt(cands, due, sends)
    requires !due(cands[i]) || sends(cands[i])
    ensures i < StopAt(cands, due, sends)
  {
  }

  /** The rows the pass sends and deletes, in the order it handles them. */
  function Delivered<T>(cands: seq<T>, due: T -> bool, sends: T -> bool): (d: seq<T>)
    ensures forall x :: x in d ==> x in cands && due(x) && sends(x)
  {
    var k := StopAt(cands, due, sends);
    PrefixSends(cands, due, sends, k);
    Select(cands[..k], due)
  }

  /** Before the stopping point every due candidate's send succeeds. */
  lemma PrefixSends<T>(cands: seq<T>, due: T -> bool, sends: T -> bool, k: nat)
    requires k == StopAt(cands, due, sends)
    ensures forall x :: x in cands[..k] ==> x in cands && (due(x) ==> sends(x))
  {
    forall x | x in cands[..k] ensures x in cands && (due(x) ==> sends(x)) {
      var j :| 0 <= j < k && cands[..k][j] == x;
      assert cands[j] == x;
    }
  }

  /** A row is delivered exactly when it is due and comes before the
      stopping point; every delivered row's send succeeded. */
  lemma DeliveredExactly<T>(cands: seq<T>, due: T -> bool, sends: T -> bool, x: T)
    ensures x in Delivered(cands, due, sends) <==>
              x in cands[..StopAt(cands, due, sends)] && due(x)
    ensures x in Delivered(cands, due, sends) ==> sends(x)
  {
    var k := StopAt(cands, due, sends);
    if x in Delivered(cands, due, sends) {
      var j :| 0 <= j < k && cands[..k][j] == x;
      assert cands[j] == x;
    }
  }

  /** A pass that raised leaves the failing candidate and all later ones:
      none of them is among the delivered rows. */
  lemma AbortKeepsRest<T>(cands: seq<T>, due: T -> bool, sends: T -> bool)
    requires Distinct(cands)
    ensures forall j :: StopAt(cands, due, sends) <= j < |cands| ==>
              cands[j] !in Delivered(cands, due, sends)
  {
    var k := StopAt(cands, due, sends);
    forall j | k <= j < |cands|
      ensures cands[j] !in Delivered(cands, due, sends)
    {
      NotInEarlierPrefix(cands, k, j);
    }
  }

  lemma NotInEarlierPrefix<T>(xs: seq<T>, k: nat, j: nat)
    requires Distinct(xs) && k <= j < |xs|
    ensures xs[j] !in xs[..k]
  {
  }

  /** A pass that ran to the end delivered every due candidate, so none is
      left in the table. */
  lemma CompletePassLeavesNoDue<T>(rows: seq<T>, cands: seq<T>, due: T -> bool, sends: T -> bool)
    requires StopAt(cands, due, sends) == |cands|
    ensures Delivered(cands, due, sends) == Select(cands, due)
    ensures forall x :: x in Without(rows, Delivered(cands, due, sends)) && x in cands ==> !due(x)
  {
    assert cands[..|cands|] == cands;
  }

  /** Deleting rows keeps the rest ordered by their key. */
  lemma WithoutIncreasing<T>(rows: seq<T>, gone: seq<T>, key: T -> int)
    requires Increasing(rows, key)
    ensures Increasing(Without(rows, gone), key)
  {
    SelectIncreasing(rows, x => x !in gone, key);
  }

  /** Appending a row whose key exceeds every key keeps the order. */
  lemma IncreasingSnoc<T>(xs: seq<T>, x: T, key: T -> int)
    requires Increasing(xs, key)
    requires forall y :: y in xs ==> key(y) < key(x)
    ensures Increasing(xs + [x], key)
  {
    var s := xs + [x];
    forall i, j | 0 <= i < j < |s| ensures key(s[i]) < key(s[j]) {
      if j == |xs| {
        assert s[i] in xs;
      }
    }
  }

  /** Nothing is selected when nothing qualifies. */
  lemma SelectNothing<T>(xs: seq<T>, keep: T -> bool)
    requires forall x :: x in xs ==> !keep(x)
    ensures Select(xs, keep) == []
  {
  }
}
