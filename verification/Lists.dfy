/** The list operations the C code takes from GLib, as functions on sequences. */
module Lists {

  ghost predicate NoDup<T>(s: seq<T>) {
    forall i, j :: 0 <= i < j < |s| ==> s[i] != s[j]
  }

  /** g_list_remove: drop the first element equal to `x`, if there is one. */
  function RemoveFirst<T(==)>(s: seq<T>, x: T): (r: seq<T>)
    ensures x !in s ==> r == s
    ensures x in s ==> |r| == |s| - 1
  {
    if s == [] then []
    else if s[0] == x then s[1..]
    else [s[0]] + RemoveFirst(s[1..], x)
  }

  /** Drop the last element equal to `x`, if there is one. */
  function RemoveLast<T(==)>(s: seq<T>, x: T): (r: seq<T>)
    ensures x !in s ==> r == s
    ensures x in s ==> |r| == |s| - 1
  {
    if s == [] then []
    else if s[|s|-1] == x then s[..|s|-1]
    else RemoveLast(s[..|s|-1], x) + [s[|s|-1]]
  }

  /** The elements of `s` that satisfy `p`, in order. */
  function Filter<T(!new)>(s: seq<T>, p: T -> bool): (r: seq<T>)
    ensures forall x :: x in r <==> x in s && p(x)
  {
    if s == [] then []
    else (if p(s[0]) then [s[0]] else []) + Filter(s[1..], p)
  }

  lemma RemoveFirstCons<T>(a: T, s: seq<T>, x: T)
    ensures RemoveFirst([a] + s, x) == if a == x then s else [a] + RemoveFirst(s, x)
  {
    assert ([a] + s)[1..] == s;
  }

  lemma {:induction false} RemoveFirstAt<T>(s: seq<T>, i: nat)
    requires i < |s| && s[i] !in s[..i]
    ensures RemoveFirst(s, s[i]) == s[..i] + s[i+1..]
  {
    if i > 0 {
      assert s[0] in s[..i];
      assert s[1..][i-1] == s[i] && s[1..][..i-1] == s[..i][1..];
      RemoveFirstAt(s[1..], i - 1);
      assert s[..i] == [s[0]] + s[1..][..i-1];
    }
  }

  lemma {:induction false} FirstIndex<T>(s: seq<T>, x: T) returns (i: nat)
    requires x in s
    ensures i < |s| && s[i] == x && x !in s[..i]
  {
    if s[0] == x {
      i := 0;
    } else {
      var j := FirstIndex(s[1..], x);
      i := j + 1;
      assert s[..i] == [s[0]] + s[1..][..j];
    }
  }

  lemma {:induction false} RemoveFirstMultiset<T>(s: seq<T>, x: T)
    ensures multiset(RemoveFirst(s, x)) == multiset(s) - multiset{x}
  {
    if s != [] {
      assert s == [s[0]] + s[1..];
      if s[0] != x {
        RemoveFirstMultiset(s[1..], x);
      }
    }
  }

  lemma RemoveFirstMember<T>(s: seq<T>, x: T, y: T)
    requires y in RemoveFirst(s, x)
    ensures y in s
  {
    RemoveFirstMultiset(s, x);
    assert multiset(RemoveFirst(s, x))[y] > 0;
  }

  lemma NoDupMultiset<T>(s: seq<T>)
    requires NoDup(s)
    ensures forall x :: multiset(s)[x] == if x in s then 1 else 0
  {
    forall x ensures multiset(s)[x] == if x in s then 1 else 0 {
      if x in s {
        var i :| 0 <= i < |s| && s[i] == x;
        assert s == s[..i] + [s[i]] + s[i+1..];
        assert x !in s[..i] && x !in s[i+1..];
      }
    }
  }

  lemma {:induction false} RemoveFirstNoDup<T>(s: seq<T>, x: T)
    requires NoDup(s)
    ensures NoDup(RemoveFirst(s, x))
    ensures forall y :: y in RemoveFirst(s, x) <==> y in s && y != x
  {
    if s != [] {
      assert s == [s[0]] + s[1..];
      if s[0] != x {
        RemoveFirstNoDup(s[1..], x);
        assert s[0] !in RemoveFirst(s[1..], x);
      } else {
        assert s[0] !in s[1..];
      }
    }
  }

  lemma {:induction false} FilterNoDup<T(!new)>(s: seq<T>, p: T -> bool)
    requires NoDup(s)
    ensures NoDup(Filter(s, p))
  {
    if s != [] {
      FilterNoDup(s[1..], p);
      assert s[0] !in Filter(s[1..], p);
    }
  }

  lemma {:induction false} FilterAppend<T(!new)>(s: seq<T>, t: seq<T>, p: T -> bool)
    ensures Filter(s + t, p) == Filter(s, p) + Filter(t, p)
  {
    if s == [] {
      assert s + t == t;
    } else {
      assert (s + t)[1..] == s[1..] + t;
      FilterAppend(s[1..], t, p);
    }
  }

  /** `a` comes before `b` in `s`. */
  ghost predicate Before<T>(s: seq<T>, a: T, b: T) {
    exists x, y :: 0 <= x < y < |s| && s[x] == a && s[y] == b
  }

  lemma {:induction false} FilterOrder<T(!new)>(s: seq<T>, p: T -> bool, i: nat, j: nat)
    requires i < j < |Filter(s, p)|
    ensures Before(s, Filter(s, p)[i], Filter(s, p)[j])
  {
    var t := Filter(s, p);
    var rest := Filter(s[1..], p);
    var a, b := t[i], t[j];
    if p(s[0]) && i == 0 {
      assert b == rest[j-1] && b in s[1..];
      var y :| 0 <= y < |s[1..]| && s[1..][y] == b;
      assert s[0] == a && s[y+1] == b;
    } else {
      var d := if p(s[0]) then 1 else 0;
      assert rest[i-d] == a && rest[j-d] == b;
      FilterOrder(s[1..], p, i - d, j - d);
      var x, y :| 0 <= x < y < |s[1..]| && s[1..][x] == a && s[1..][y] == b;
      assert s[x+1] == a && s[y+1] == b;
    }
  }

  /** A cursor at the seam of two pieces: what it sees, and the list without that element. */
  lemma Seam<T>(front: seq<T>, s: seq<T>, i: nat)
    requires i < |s|
    ensures var list := front + s[i..];
            && list[|front|] == s[i] && list[..|front|] == front
            && list[..|front|] + list[|front|+1..] == front + s[i+1..]
            && list == front + [s[i]] + s[i+1..]
  {
  }
}
