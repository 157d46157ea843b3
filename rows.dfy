/** Table rows held in memory: what `DELETE ... WHERE` leaves of a table. */
module Rows {
  /** The rows `drop` does not select, in order. Nothing is removed exactly
      when no row is selected. */
  function Filter<T(!new)>(s: seq<T>, drop: T -> bool): (r: seq<T>)
    ensures |r| <= |s|
    ensures forall x :: x in r <==> x in s && !drop(x)
    ensures |r| == |s| <==> forall i :: 0 <= i < |s| ==> !drop(s[i])
    ensures |r| == |s| ==> r == s
  {
    if s == [] then []
    else
      var rest := Filter(s[1..], drop);
      assert s == [s[0]] + s[1..];
      assert forall x :: x in s <==> x == s[0] || x in s[1..];
      assert forall i :: 1 <= i < |s| ==> s[i] == s[1..][i - 1];
      if drop(s[0]) then rest else [s[0]] + rest
  }

  /** Deleting what was just appended, when nothing before it is selected,
      gives back the table as it was. */
  lemma {:induction false} FilterSnocDropped<T(!new)>(s: seq<T>, x: T, drop: T -> bool)
    requires drop(x) && forall i :: 0 <= i < |s| ==> !drop(s[i])
    ensures Filter(s + [x], drop) == s
  {
    if s == [] {
      assert s + [x] == [x] && [x][1..] == [];
    } else {
      assert (s + [x])[1..] == s[1..] + [x];
      FilterSnocDropped(s[1..], x, drop);
      assert s == [s[0]] + s[1..];
    }
  }

  /** A relation that holds between every earlier and later row still holds
      after a delete: the rows left keep their order. */
  lemma {:induction false} FilterKeepsPairwise<T(!new)>(s: seq<T>, drop: T -> bool, ok: (T, T) -> bool)
    requires forall i, j :: 0 <= i < j < |s| ==> ok(s[i], s[j])
    ensures forall i, j :: 0 <= i < j < |Filter(s, drop)| ==> ok(Filter(s, drop)[i], Filter(s, drop)[j])
  {
    if s != [] {
      var tail := s[1..];
      assert forall i, j :: 0 <= i < j < |tail| ==> ok(tail[i], tail[j]) by {
        forall i, j | 0 <= i < j < |tail|
          ensures ok(tail[i], tail[j])
        {
          assert tail[i] == s[i + 1] && tail[j] == s[j + 1];
        }
      }
      FilterKeepsPairwise(tail, drop, ok);
      var rest := Filter(tail, drop);
      if !drop(s[0]) {
        var r := [s[0]] + rest;
        forall i, j | 0 <= i < j < |r|
          ensures ok(r[i], r[j])
        {
          if i == 0 {
            assert r[j] == rest[j - 1];
            assert r[j] in tail;
            var m :| 0 <= m < |tail| && tail[m] == r[j];
            assert s[m + 1] == r[j] && r[0] == s[0];
            assert ok(s[0], s[m + 1]);
          } else {
            assert r[i] == rest[i - 1] && r[j] == rest[j - 1];
            assert ok(rest[i - 1], rest[j - 1]);
          }
        }
      }
    }
  }
}
