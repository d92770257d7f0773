/** Stable sorting, and the fact that a sorted order without ties is unique. */
module Orders {

  ghost predicate TotalPreorder<T(!new)>(le: (T, T) -> bool) {
    && (forall x, y :: le(x, y) || le(y, x))
    && (forall x, y, z :: le(x, y) && le(y, z) ==> le(x, z))
  }

  ghost predicate Sorted<T>(s: seq<T>, le: (T, T) -> bool) {
    forall i, j :: 0 <= i < j < |s| ==> le(s[i], s[j])
  }

  /** Places x before the elements it does not exceed. */
  function Insert<T>(x: T, s: seq<T>, le: (T, T) -> bool): (r: seq<T>)
    ensures |r| == |s| + 1
  {
    if s == [] then [x]
    else if le(x, s[0]) then [x] + s
    else [s[0]] + Insert(x, s[1..], le)
  }

  /** Equal elements keep their relative order. */
  function Sort<T>(s: seq<T>, le: (T, T) -> bool): (r: seq<T>)
    ensures |r| == |s|
  {
    if s == [] then [] else Insert(s[0], Sort(s[1..], le), le)
  }

  lemma ConsMultiset<T>(x: T, s: seq<T>)
    ensures multiset([x] + s) == multiset{x} + multiset(s)
  {
  }

  lemma {:induction false} InsertMultiset<T>(x: T, s: seq<T>, le: (T, T) -> bool)
    ensures multiset(Insert(x, s, le)) == multiset{x} + multiset(s)
  {
    if s != [] && !le(x, s[0]) {
      InsertMultiset(x, s[1..], le);
      ConsMultiset(s[0], Insert(x, s[1..], le));
      ConsMultiset(s[0], s[1..]);
      assert s == [s[0]] + s[1..];
    } else {
      ConsMultiset(x, s);
      assert Insert(x, s, le) == [x] + s;
    }
  }

  lemma {:induction false} SortMultiset<T>(s: seq<T>, le: (T, T) -> bool)
    ensures multiset(Sort(s, le)) == multiset(s)
  {
    if s != [] {
      SortMultiset(s[1..], le);
      InsertMultiset(s[0], Sort(s[1..], le), le);
      ConsMultiset(s[0], s[1..]);
      assert s == [s[0]] + s[1..];
    }
  }

  lemma SameElements<T>(s: seq<T>, t: seq<T>)
    requires multiset(s) == multiset(t)
    ensures |s| == |t| && forall x :: x in s <==> x in t
  {
    assert |multiset(s)| == |s| && |multiset(t)| == |t|;
    forall x ensures x in s <==> x in t {
      assert x in s <==> x in multiset(s);
      assert x in t <==> x in multiset(t);
    }
  }

  lemma {:induction false} InsertSorted<T(!new)>(x: T, s: seq<T>, le: (T, T) -> bool)
    requires TotalPreorder(le) && Sorted(s, le)
    ensures Sorted(Insert(x, s, le), le)
  {
    if s != [] && !le(x, s[0]) {
      var rest := Insert(x, s[1..], le);
      InsertSorted(x, s[1..], le);
      InsertMultiset(x, s[1..], le);
      forall j | 0 <= j < |rest| ensures le(s[0], rest[j]) {
        assert rest[j] in multiset(rest);
        assert rest[j] == x || rest[j] in s[1..];
        assert le(x, s[0]) || le(s[0], x);
      }
    }
  }

  lemma {:induction false} SortSorted<T(!new)>(s: seq<T>, le: (T, T) -> bool)
    requires TotalPreorder(le)
    ensures Sorted(Sort(s, le), le)
  {
    if s != [] {
      SortSorted(s[1..], le);
      InsertSorted(s[0], Sort(s[1..], le), le);
    }
  }

  /** No two different elements of s tie. */
  ghost predicate NoTies<T>(s: seq<T>, le: (T, T) -> bool) {
    forall x, y :: x in s && y in s && le(x, y) && le(y, x) ==> x == y
  }

  lemma {:induction false} DistinctMultiset<T>(s: seq<T>)
    requires forall a, b :: 0 <= a < b < |s| ==> s[a] != s[b]
    ensures forall x :: multiset(s)[x] <= 1
  {
    if s != [] {
      var init, last := s[..|s| - 1], s[|s| - 1];
      assert s == init + [last];
      DistinctMultiset(init);
      assert last !in multiset(init);
    }
  }

  lemma SortedHead<T(!new)>(s: seq<T>, x: T, le: (T, T) -> bool)
    requires TotalPreorder(le) && Sorted(s, le) && x in s
    ensures le(s[0], x)
  {
    var k :| 0 <= k < |s| && s[k] == x;
    assert le(x, x);
  }

  lemma TailMultiset<T>(s: seq<T>)
    requires s != []
    ensures multiset(s[1..]) == multiset(s) - multiset{s[0]}
  {
    assert s == [s[0]] + s[1..];
  }

  lemma TailHasNoTies<T>(s: seq<T>, le: (T, T) -> bool)
    requires s != [] && NoTies(s, le)
    ensures NoTies(s[1..], le)
  {
    assert forall x :: x in s[1..] ==> x in s;
  }

  /** Two sorted arrangements of one multiset without ties coincide. */
  lemma {:induction false} SortedUnique<T(!new)>(s: seq<T>, t: seq<T>, le: (T, T) -> bool)
    requires TotalPreorder(le) && Sorted(s, le) && Sorted(t, le)
    requires multiset(s) == multiset(t) && NoTies(s, le)
    ensures s == t
  {
    SameElements(s, t);
    if s != [] {
      SortedHead(s, t[0], le);
      SortedHead(t, s[0], le);
      TailMultiset(s);
      TailMultiset(t);
      TailHasNoTies(s, le);
      SortedUnique(s[1..], t[1..], le);
      assert s == [s[0]] + s[1..] && t == [t[0]] + t[1..];
    }
  }

  /** Sorting forgets the input order when nothing ties. */
  lemma SortForgetsOrder<T(!new)>(s: seq<T>, t: seq<T>, le: (T, T) -> bool)
    requires TotalPreorder(le) && multiset(s) == multiset(t) && NoTies(s, le)
    ensures Sort(s, le) == Sort(t, le)
  {
    SortMultiset(s, le);
    SortMultiset(t, le);
    SortSorted(s, le);
    SortSorted(t, le);
    SameElements(s, Sort(s, le));
    SortedUnique(Sort(s, le), Sort(t, le), le);
  }

  lemma SortKeeps<T>(s: seq<T>, le: (T, T) -> bool)
    ensures forall x :: x in Sort(s, le) <==> x in s
  {
    SortMultiset(s, le);
    SameElements(s, Sort(s, le));
  }

  // ---------------------------------------------------------------- filtering

  /** The elements that pass, in order. */
  function Keep<T(!new)>(s: seq<T>, test: T -> bool): (r: seq<T>)
    ensures forall x :: x in r <==> x in s && test(x)
    ensures |r| <= |s|
  {
    if s == [] then []
    else
      assert s == s[..|s| - 1] + [s[|s| - 1]];
      var r := Keep(s[..|s| - 1], test);
      if test(s[|s| - 1]) then r + [s[|s| - 1]] else r
  }

  lemma {:induction false} KeepCounts<T(!new)>(s: seq<T>, test: T -> bool, x: T)
    ensures multiset(Keep(s, test))[x] == if test(x) then multiset(s)[x] else 0
  {
    if s != [] {
      KeepCounts(s[..|s| - 1], test, x);
      assert s == s[..|s| - 1] + [s[|s| - 1]];
    }
  }

  lemma KeepForgetsOrder<T(!new)>(s: seq<T>, t: seq<T>, test: T -> bool)
    requires multiset(s) == multiset(t)
    ensures multiset(Keep(s, test)) == multiset(Keep(t, test))
  {
    forall x ensures multiset(Keep(s, test))[x] == multiset(Keep(t, test))[x] {
      KeepCounts(s, test, x);
      KeepCounts(t, test, x);
    }
  }

  lemma {:induction false} KeepHead<T(!new)>(s: seq<T>, test: T -> bool)
    requires s != []
    ensures Keep(s, test) == (if test(s[0]) then [s[0]] else []) + Keep(s[1..], test)
  {
    if |s| > 1 {
      KeepHead(s[..|s| - 1], test);
      assert s[..|s| - 1][1..] == s[1..][..|s| - 2];
      assert s[1..][|s| - 2] == s[|s| - 1];
    } else {
      assert s[..0] == [];
    }
  }

  lemma KeepSnoc<T(!new)>(s: seq<T>, x: T, test: T -> bool)
    ensures Keep(s + [x], test) == if test(x) then Keep(s, test) + [x] else Keep(s, test)
  {
    assert (s + [x])[..|s|] == s;
  }

  lemma {:induction false} KeepCommutes<T(!new)>(s: seq<T>, f: T -> bool, g: T -> bool)
    ensures Keep(Keep(s, f), g) == Keep(Keep(s, g), f)
  {
    if s != [] {
      var init, last := s[..|s| - 1], s[|s| - 1];
      KeepCommutes(init, f, g);
      KeepSnoc(Keep(init, f), last, g);
      KeepSnoc(Keep(init, g), last, f);
    }
  }

  /** A weaker filter before a stronger one is not seen. */
  lemma {:induction false} KeepTwice<T(!new)>(s: seq<T>, f: T -> bool, g: T -> bool)
    requires forall x :: g(x) ==> f(x)
    ensures Keep(Keep(s, f), g) == Keep(s, g)
  {
    if s != [] {
      KeepTwice(s[..|s| - 1], f, g);
      KeepSnoc(Keep(s[..|s| - 1], f), s[|s| - 1], g);
    }
  }

  /** How many elements pass. */
  function Count<T(!new)>(s: seq<T>, test: T -> bool): (n: nat)
    ensures n <= |s|
  {
    if s == [] then 0 else Count(s[..|s| - 1], test) + if test(s[|s| - 1]) then 1 else 0
  }

  lemma {:induction false} CountIsKept<T(!new)>(s: seq<T>, test: T -> bool)
    ensures Count(s, test) == |Keep(s, test)|
  {
    if s != [] {
      CountIsKept(s[..|s| - 1], test);
    }
  }

  lemma CountSnoc<T(!new)>(s: seq<T>, x: T, test: T -> bool)
    ensures Count(s + [x], test) == Count(s, test) + if test(x) then 1 else 0
  {
    assert (s + [x])[..|s|] == s;
  }

  lemma CountForgetsOrder<T(!new)>(s: seq<T>, t: seq<T>, test: T -> bool)
    requires multiset(s) == multiset(t)
    ensures Count(s, test) == Count(t, test)
  {
    KeepForgetsOrder(s, t, test);
    SameElements(Keep(s, test), Keep(t, test));
    CountIsKept(s, test);
    CountIsKept(t, test);
  }

  lemma {:induction false} CountCongruent<T(!new)>(s: seq<T>, f: T -> bool, g: T -> bool)
    requires forall x :: x in s ==> f(x) == g(x)
    ensures Count(s, f) == Count(s, g)
  {
    if s != [] {
      CountCongruent(s[..|s| - 1], f, g);
    }
  }

  lemma {:induction false} CountConcat<T(!new)>(a: seq<T>, b: seq<T>, test: T -> bool)
    ensures Count(a + b, test) == Count(a, test) + Count(b, test)
    decreases |b|
  {
    if b == [] {
      assert a + b == a;
    } else {
      assert (a + b)[..|a + b| - 1] == a + b[..|b| - 1];
      CountConcat(a, b[..|b| - 1], test);
    }
  }

  lemma {:induction false} CountUniform<T(!new)>(s: seq<T>, test: T -> bool, all: bool)
    requires forall x :: x in s ==> test(x) == all
    ensures Count(s, test) == if all then |s| else 0
  {
    if s != [] {
      CountUniform(s[..|s| - 1], test, all);
    }
  }

  lemma CountSplit<T(!new)>(s: seq<T>, k: nat, test: T -> bool)
    requires k <= |s|
    ensures Count(s, test) == Count(s[..k], test) + Count(s[k..], test)
  {
    assert s == s[..k] + s[k..];
    CountConcat(s[..k], s[k..], test);
  }

  /** In an order whose early elements pass first, at most a pass exactly when the element at a fails. */
  lemma CountByRank<T(!new)>(s: seq<T>, le: (T, T) -> bool, test: T -> bool, a: nat)
    requires Sorted(s, le) && a < |s| && forall x, y :: le(x, y) && test(y) ==> test(x)
    ensures Count(s, test) <= a <==> !test(s[a])
  {
    if test(s[a]) {
      CountSplit(s, a + 1, test);
      forall x | x in s[..a + 1] ensures test(x) {
        var i :| 0 <= i <= a && s[i] == x;
        assert i < a ==> le(s[i], s[a]);
      }
      CountUniform(s[..a + 1], test, true);
    } else {
      CountSplit(s, a, test);
      forall x | x in s[a..] ensures !test(x) {
        var i :| a <= i < |s| && s[i] == x;
        assert i > a ==> le(s[a], s[i]);
      }
      CountUniform(s[a..], test, false);
    }
  }

  lemma CountStep<T(!new)>(s: seq<T>, i: nat, test: T -> bool)
    requires i < |s|
    ensures Count(s[..i + 1], test) == Count(s[..i], test) + if test(s[i]) then 1 else 0
  {
    assert s[..i + 1] == s[..i] + [s[i]];
    CountSnoc(s[..i], s[i], test);
  }

  /** Applies f to every element. */
  function Image<S, T>(s: seq<S>, f: S -> T): (r: seq<T>)
    ensures |r| == |s| && forall k :: 0 <= k < |s| ==> r[k] == f(s[k])
  {
    seq(|s|, k requires 0 <= k < |s| => f(s[k]))
  }

  /** Counting in the image of a class is counting in the class. */
  lemma {:induction false} CountImage<S(!new), T(!new)>(s: seq<S>, f: S -> T, kind: S -> bool, test: T -> bool,
                                                        both: S -> bool)
    requires forall x :: both(x) == (kind(x) && test(f(x)))
    ensures Count(s, both) == Count(Image(Keep(s, kind), f), test)
  {
    if s != [] {
      var init, last := s[..|s| - 1], s[|s| - 1];
      CountImage(init, f, kind, test, both);
      assert both(last) == (kind(last) && test(f(last)));
      if kind(last) {
        assert Image(Keep(s, kind), f) == Image(Keep(init, kind), f) + [f(last)];
        CountSnoc(Image(Keep(init, kind), f), f(last), test);
      }
    }
  }
}
