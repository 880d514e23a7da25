/** How many elements of a sequence satisfy a predicate. */
module Counting {

  function Times<T>(items: seq<T>, which: T -> bool): nat {
    if items == [] then 0 else Times(items[..|items| - 1], which) + if which(items[|items| - 1]) then 1 else 0
  }

  /** The predicate "equals x". */
  function Is<T(==)>(x: T): T -> bool {
    (y: T) => y == x
  }

  lemma {:induction false} TimesAdd<T>(a: seq<T>, b: seq<T>, which: T -> bool)
    ensures Times(a + b, which) == Times(a, which) + Times(b, which)
  {
    if b == [] {
      assert a + b == a;
    } else {
      assert (a + b)[..|a + b| - 1] == a + b[..|b| - 1];
      TimesAdd(a, b[..|b| - 1], which);
    }
  }

  lemma {:induction false} TimesOne<T>(x: T, which: T -> bool)
    ensures Times([x], which) == if which(x) then 1 else 0
  {
    assert [x][..0] == [];
  }

  lemma {:induction false} TimesFirst<T>(items: seq<T>, which: T -> bool)
    requires items != []
    ensures Times(items, which) == Times(items[1..], which) + if which(items[0]) then 1 else 0
  {
    assert items == [items[0]] + items[1..];
    TimesAdd([items[0]], items[1..], which);
    TimesOne(items[0], which);
  }

  lemma {:induction false} TimesUpdate<T>(items: seq<T>, i: nat, x: T, which: T -> bool)
    requires i < |items|
    ensures Times(items[i := x], which) ==
            Times(items, which) - (if which(items[i]) then 1 else 0) + if which(x) then 1 else 0
  {
    var n := |items| - 1;
    if i < n {
      assert items[i := x][..n] == items[..n][i := x];
      TimesUpdate(items[..n], i, x, which);
    } else {
      assert items[i := x][..n] == items[..n];
    }
  }

  lemma {:induction false} TimesMember<T>(items: seq<T>, i: nat, which: T -> bool)
    requires i < |items| && which(items[i])
    ensures Times(items, which) > 0
  {
    if i < |items| - 1 {
      TimesMember(items[..|items| - 1], i, which);
    }
  }

  lemma {:induction false} TimesNone<T>(items: seq<T>, which: T -> bool)
    ensures Times(items, which) == 0 <==> forall i :: 0 <= i < |items| ==> !which(items[i])
  {
    if items != [] {
      TimesNone(items[..|items| - 1], which);
    }
  }

  lemma {:induction false} Position<T>(items: seq<T>, which: T -> bool) returns (j: nat)
    requires Times(items, which) > 0
    ensures j < |items| && which(items[j])
  {
    if which(items[|items| - 1]) {
      j := |items| - 1;
    } else {
      j := Position(items[..|items| - 1], which);
    }
  }

  lemma {:induction false} Without<T>(items: seq<T>, j: nat, which: T -> bool)
    requires j < |items|
    ensures Times(items[..j] + items[j + 1..], which) == Times(items, which) - if which(items[j]) then 1 else 0
  {
    assert items == items[..j] + items[j..];
    TimesAdd(items[..j], items[j..], which);
    TimesAdd(items[..j], items[j + 1..], which);
    assert items[j..][1..] == items[j + 1..];
    TimesFirst(items[j..], which);
  }
}
