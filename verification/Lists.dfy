/** Lists without repeats, and lists in ascending order of a strict order. */
module Lists {

  ghost predicate NoRepeats<T>(xs: seq<T>) {
    forall i, j | 0 <= i < j < |xs| :: xs[i] != xs[j]
  }

  ghost function SetOf<T>(xs: seq<T>): set<T> {
    set x | x in xs
  }

  lemma {:induction false} CountMembers<T>(xs: seq<T>)
    requires NoRepeats(xs)
    ensures |SetOf(xs)| == |xs|
  {
    if xs != [] {
      CountMembers(xs[1..]);
      assert SetOf(xs) == {xs[0]} + SetOf(xs[1..]);
    }
  }

  ghost predicate InOrderOf<T(!new)>(before: (T, T) -> bool, xs: seq<T>) {
    forall i, j | 0 <= i < j < |xs| :: before(xs[i], xs[j])
  }

  /** No two members of the list come before each other. */
  ghost predicate Asymmetric<T(!new)>(before: (T, T) -> bool, xs: seq<T>) {
    forall x, y | x in xs && y in xs :: !(before(x, y) && before(y, x))
  }

  lemma SomeMember<T>(xs: seq<T>)
    ensures xs == [] || exists x :: x in xs
  {
    if xs != [] {
      assert xs[0] in xs;
    }
  }

  /** An ascending list is determined by its members. */
  lemma {:induction false} MembersDetermine<T(!new)>(before: (T, T) -> bool, xs: seq<T>, ys: seq<T>)
    requires InOrderOf(before, xs) && InOrderOf(before, ys) && Asymmetric(before, xs)
    requires forall x :: x in xs <==> x in ys
    ensures xs == ys
  {
    if xs == [] {
      SomeMember(ys);
    } else {
      assert xs[0] in ys && xs[0] in xs;
      assert ys[0] in ys && ys[0] in xs;
      FirstIsLeast(before, xs, ys[0]);
      FirstIsLeast(before, ys, xs[0]);
      forall x ensures x in xs[1..] <==> x in ys[1..] {
        InTail(before, xs, x);
        InTail(before, ys, x);
      }
      MembersDetermine(before, xs[1..], ys[1..]);
    }
  }

  lemma FirstIsLeast<T(!new)>(before: (T, T) -> bool, xs: seq<T>, x: T)
    requires InOrderOf(before, xs) && x in xs
    ensures xs[0] == x || before(xs[0], x)
  {
  }

  lemma InTail<T(!new)>(before: (T, T) -> bool, xs: seq<T>, x: T)
    requires InOrderOf(before, xs) && Asymmetric(before, xs) && xs != []
    ensures x in xs[1..] <==> x in xs && x != xs[0]
  {
    assert xs[0] in xs;
    if x in xs && x != xs[0] {
      var i :| 0 <= i < |xs| && xs[i] == x;
      assert xs[1..][i - 1] == x;
    }
  }
}
