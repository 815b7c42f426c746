/**
 * What `dpl_insert_sorted` is measured against: stable sorting under a
 * comparison callback of which only the answer 1 ("greater") is ever used.
 */
module StableSorting {
  import opened Sequences

  type Compare<!T> = (T, T) -> int

  predicate Greater<T>(cmp: Compare<T>, x: T, y: T) {
    cmp(x, y) == 1
  }

  /** `Greater` is a strict weak order on the elements of `s`. */
  ghost predicate WeakOrderOn<T>(cmp: Compare<T>, s: seq<T>) {
    && (forall x, y {:trigger Greater(cmp, x, y)} ::
          x in s && y in s && Greater(cmp, x, y) ==> !Greater(cmp, y, x))
    && (forall x, y, z {:trigger Greater(cmp, x, y), Greater(cmp, y, z)} ::
          x in s && y in s && z in s && Greater(cmp, x, z) ==>
            Greater(cmp, x, y) || Greater(cmp, y, z))
  }

  ghost predicate Sorted<T>(cmp: Compare<T>, s: seq<T>) {
    forall i, j :: 0 <= i < j < |s| ==> !Greater(cmp, s[i], s[j])
  }

  predicate Tie<T>(cmp: Compare<T>, x: T, y: T) {
    !Greater(cmp, x, y) && !Greater(cmp, y, x)
  }

  /** The elements of `s` that tie with `x`, in the order they have in `s`. */
  function Ties<T>(cmp: Compare<T>, s: seq<T>, x: T): seq<T> {
    Filter(s, y => Tie(cmp, x, y))
  }

  /** `r` has the elements of `s`, and those that tie with a member of `dom` keep their order. */
  ghost predicate StablyPermutes<T>(cmp: Compare<T>, r: seq<T>, s: seq<T>, dom: seq<T>) {
    && multiset(r) == multiset(s)
    && forall x :: x in dom ==> Ties(cmp, r, x) == Ties(cmp, s, x)
  }

  function StableInsert<T>(cmp: Compare<T>, s: seq<T>, e: T): seq<T> {
    if s == [] || Greater(cmp, s[0], e) then [e] + s
    else [s[0]] + StableInsert(cmp, s[1..], e)
  }

  /** The reference: insertion sort. */
  function StableSort<T>(cmp: Compare<T>, s: seq<T>): seq<T> {
    if s == [] then [] else StableInsert(cmp, StableSort(cmp, s[..|s| - 1]), s[|s| - 1])
  }

  // ------------------------------------------------------------------- lemmas

  /** The scan of `dpl_insert_sorted` finds the place of a stable insertion. */
  lemma {:induction false} StableInsertAt<T>(cmp: Compare<T>, s: seq<T>, e: T, i: nat)
    requires i <= |s|
    requires forall j :: 0 <= j < i ==> !Greater(cmp, s[j], e)
    requires i < |s| ==> Greater(cmp, s[i], e)
    ensures StableInsert(cmp, s, e) == s[..i] + [e] + s[i..]
  {
    if i > 0 {
      StableInsertAt(cmp, s[1..], e, i - 1);
      assert s[..i] == [s[0]] + s[1..][..i - 1];
    }
  }

  lemma InsertPosition<T>(cmp: Compare<T>, s: seq<T>, e: T) returns (i: nat)
    ensures i <= |s|
    ensures forall j :: 0 <= j < i ==> !Greater(cmp, s[j], e)
    ensures i < |s| ==> Greater(cmp, s[i], e)
    ensures StableInsert(cmp, s, e) == s[..i] + [e] + s[i..]
  {
    i := 0;
    while i < |s| && !Greater(cmp, s[i], e)
      invariant i <= |s| && forall j :: 0 <= j < i ==> !Greater(cmp, s[j], e)
    {
      i := i + 1;
    }
    StableInsertAt(cmp, s, e, i);
  }

  lemma TiesOfInsert<T>(cmp: Compare<T>, s: seq<T>, e: T, i: nat, x: T)
    requires i <= |s|
    requires forall j :: i <= j < |s| && Tie(cmp, x, s[j]) ==> !Tie(cmp, x, e)
    ensures Ties(cmp, s[..i] + [e] + s[i..], x) == Ties(cmp, s + [e], x)
  {
    var p := y => Tie(cmp, x, y);
    FilterConcat(s[..i] + [e], s[i..], p);
    FilterConcat(s[..i], [e], p);
    FilterConcat(s, [e], p);
    FilterConcat(s[..i], s[i..], p);
    assert s == s[..i] + s[i..];
    if p(e) {
      FilterNone(s[i..], p);
    }
  }

  lemma SameElements<T>(r: seq<T>, s: seq<T>)
    requires multiset(r) == multiset(s)
    ensures |r| == |s|
    ensures forall j :: 0 <= j < |r| ==> r[j] in s
    ensures forall j :: 0 <= j < |s| ==> s[j] in r
  {
    assert |r| == |multiset(r)| && |s| == |multiset(s)|;
    forall j | 0 <= j < |r| ensures r[j] in s {
      assert r[j] in multiset(r);
    }
    forall j | 0 <= j < |s| ensures s[j] in r {
      assert s[j] in multiset(s);
    }
  }

  /** A stable insertion into a sorted list: sorted again, and last among its equals. */
  lemma StableInsertSorts<T>(cmp: Compare<T>, s: seq<T>, e: T, dom: seq<T>)
    requires WeakOrderOn(cmp, dom) && Sorted(cmp, s)
    requires e in dom && forall j :: 0 <= j < |s| ==> s[j] in dom
    ensures Sorted(cmp, StableInsert(cmp, s, e))
    ensures StablyPermutes(cmp, StableInsert(cmp, s, e), s + [e], dom)
  {
    var i := InsertPosition(cmp, s, e);
    GreaterFrom(cmp, s, e, i, dom);
    InsertKeepsSorted(cmp, s, e, i);
    InsertPermutes(s, e, i);
    forall x | x in dom ensures Ties(cmp, s[..i] + [e] + s[i..], x) == Ties(cmp, s + [e], x) {
      InsertKeepsTies(cmp, s, e, i, dom, x);
    }
  }

  lemma InsertPermutes<T>(s: seq<T>, e: T, i: nat)
    requires i <= |s|
    ensures multiset(s[..i] + [e] + s[i..]) == multiset(s + [e])
  {
    assert s == s[..i] + s[i..];
  }

  lemma InsertKeepsSorted<T>(cmp: Compare<T>, s: seq<T>, e: T, i: nat)
    requires Sorted(cmp, s) && i <= |s|
    requires forall j :: 0 <= j < i ==> !Greater(cmp, s[j], e)
    requires forall j :: i <= j < |s| ==> !Greater(cmp, e, s[j])
    ensures Sorted(cmp, s[..i] + [e] + s[i..])
  {
  }

  lemma InsertKeepsTies<T>(cmp: Compare<T>, s: seq<T>, e: T, i: nat, dom: seq<T>, x: T)
    requires WeakOrderOn(cmp, dom)
    requires e in dom && x in dom && forall j :: 0 <= j < |s| ==> s[j] in dom
    requires i <= |s| && forall j :: i <= j < |s| ==> Greater(cmp, s[j], e)
    ensures Ties(cmp, s[..i] + [e] + s[i..], x) == Ties(cmp, s + [e], x)
  {
    forall j | i <= j < |s| && Tie(cmp, x, s[j]) ensures !Tie(cmp, x, e) {
      assert s[j] in dom && !Greater(cmp, s[j], x);
    }
    TiesOfInsert(cmp, s, e, i, x);
  }

  lemma GreaterFrom<T>(cmp: Compare<T>, s: seq<T>, e: T, i: nat, dom: seq<T>)
    requires WeakOrderOn(cmp, dom) && Sorted(cmp, s)
    requires e in dom && forall j :: 0 <= j < |s| ==> s[j] in dom
    requires i < |s| ==> Greater(cmp, s[i], e)
    ensures forall j :: i <= j < |s| ==> Greater(cmp, s[j], e) && !Greater(cmp, e, s[j])
  {
    forall j | i <= j < |s| ensures Greater(cmp, s[j], e) && !Greater(cmp, e, s[j]) {
      assert s[i] in dom && s[j] in dom;
      assert !Greater(cmp, s[i], s[j]) || i == j;
    }
  }

  /** Insertion sort meets the definition of a stable sort. */
  lemma {:induction false} StableSortSorts<T>(cmp: Compare<T>, s: seq<T>, dom: seq<T>)
    requires WeakOrderOn(cmp, dom) && forall x :: x in s ==> x in dom
    ensures Sorted(cmp, StableSort(cmp, s))
    ensures StablyPermutes(cmp, StableSort(cmp, s), s, dom)
  {
    if s != [] {
      var front, e := s[..|s| - 1], s[|s| - 1];
      var t := StableSort(cmp, front);
      assert s == front + [e];
      StableSortSorts(cmp, front, dom);
      SameElements(t, front);
      forall j | 0 <= j < |t| ensures t[j] in dom {
        assert t[j] in front;
      }
      StableInsertSorts(cmp, t, e, dom);
      assert multiset(t + [e]) == multiset(s);
      forall x | x in dom ensures Ties(cmp, t + [e], x) == Ties(cmp, s, x) {
        FilterAppend(t, e, y => Tie(cmp, x, y));
        FilterAppend(front, e, y => Tie(cmp, x, y));
      }
    }
  }

  /** Two sorted stable permutations of one list are the same list. */
  lemma {:induction false} SortedUnique<T>(cmp: Compare<T>, r: seq<T>, t: seq<T>, dom: seq<T>)
    requires WeakOrderOn(cmp, dom) && forall j :: 0 <= j < |r| ==> r[j] in dom
    requires Sorted(cmp, r) && Sorted(cmp, t) && StablyPermutes(cmp, r, t, dom)
    ensures r == t
  {
    SameElements(r, t);
    if r != [] {
      SameHead(cmp, r, t, dom);
      TailsPermute(r, t);
      forall y | y in dom ensures Ties(cmp, r[1..], y) == Ties(cmp, t[1..], y) {
        var first := if Tie(cmp, y, r[0]) then [r[0]] else [];
        assert Ties(cmp, r[1..], y) == Ties(cmp, r, y)[|first|..];
        assert Ties(cmp, t[1..], y) == Ties(cmp, t, y)[|first|..];
      }
      SortedUnique(cmp, r[1..], t[1..], dom);
      assert r == [r[0]] + r[1..] && t == [t[0]] + t[1..];
    }
  }

  lemma TailsPermute<T>(r: seq<T>, t: seq<T>)
    requires r != [] && t != [] && r[0] == t[0] && multiset(r) == multiset(t)
    ensures multiset(r[1..]) == multiset(t[1..])
  {
    assert r == [r[0]] + r[1..] && t == [t[0]] + t[1..];
    assert multiset(r[1..]) == multiset(r) - multiset{r[0]};
    assert multiset(t[1..]) == multiset(t) - multiset{t[0]};
  }

  lemma SameHead<T>(cmp: Compare<T>, r: seq<T>, t: seq<T>, dom: seq<T>)
    requires WeakOrderOn(cmp, dom) && forall j :: 0 <= j < |r| ==> r[j] in dom
    requires Sorted(cmp, r) && Sorted(cmp, t) && StablyPermutes(cmp, r, t, dom)
    requires r != [] && t != []
    ensures r[0] == t[0]
  {
    SameElements(r, t);
    var x := r[0];
    HeadIsLeast(cmp, r, t[0]);
    HeadIsLeast(cmp, t, x);
    assert !Greater(cmp, x, x);
    assert Tie(cmp, x, x) && Tie(cmp, x, t[0]);
    assert Ties(cmp, r, x)[0] == x && Ties(cmp, t, x)[0] == t[0];
  }

  lemma HeadIsLeast<T>(cmp: Compare<T>, s: seq<T>, x: T)
    requires Sorted(cmp, s) && x in s
    ensures x == s[0] || !Greater(cmp, s[0], x)
  {
  }

  /** Being sorted and a stable permutation says exactly: is the insertion sort. */
  lemma StableSortCharacterised<T>(cmp: Compare<T>, r: seq<T>, s: seq<T>)
    requires WeakOrderOn(cmp, s)
    ensures r == StableSort(cmp, s) <==> Sorted(cmp, r) && StablyPermutes(cmp, r, s, s)
  {
    StableSortSorts(cmp, s, s);
    if Sorted(cmp, r) && StablyPermutes(cmp, r, s, s) {
      SameElements(r, s);
      SortedUnique(cmp, r, StableSort(cmp, s), s);
    }
  }

  /** What one swap of the bubble sort keeps: it never reorders two elements that tie. */
  lemma SwapIsStable<T>(cmp: Compare<T>, s: seq<T>, i: nat, dom: seq<T>)
    requires WeakOrderOn(cmp, dom) && forall j :: 0 <= j < |s| ==> s[j] in dom
    requires i + 1 < |s| && Greater(cmp, s[i], s[i + 1])
    ensures StablyPermutes(cmp, Swapped(s, i), s, dom)
  {
    SwappedPermutes(s, i);
    forall x | x in dom ensures Ties(cmp, Swapped(s, i), x) == Ties(cmp, s, x) {
      assert s[i] in dom && s[i + 1] in dom;
      SwapKeepsFilter(s, i, w => Tie(cmp, x, w));
    }
  }

  lemma {:induction false} SwapKeepsFilter<T>(s: seq<T>, i: nat, p: T -> bool)
    requires i + 1 < |s| && !(p(s[i]) && p(s[i + 1]))
    ensures Filter(Swapped(s, i), p) == Filter(s, p)
  {
    var t := Swapped(s, i);
    if i == 0 {
      assert t[1..][1..] == s[1..][1..];
    } else {
      assert t[1..] == Swapped(s[1..], i - 1);
      SwapKeepsFilter(s[1..], i - 1, p);
    }
  }

  lemma StablyPermutesTrans<T>(cmp: Compare<T>, r: seq<T>, s: seq<T>, t: seq<T>, dom: seq<T>)
    requires StablyPermutes(cmp, r, s, dom) && StablyPermutes(cmp, s, t, dom)
    ensures StablyPermutes(cmp, r, t, dom)
  {
  }

  lemma PermutationKeepsOrder<T>(cmp: Compare<T>, r: seq<T>, s: seq<T>)
    requires multiset(r) == multiset(s)
    ensures WeakOrderOn(cmp, s) ==> WeakOrderOn(cmp, r)
    ensures forall j :: 0 <= j < |r| ==> r[j] in s
  {
    SameElements(r, s);
    assert forall x :: x in r ==> x in multiset(r);
    assert forall x :: x in r ==> x in s;
  }

  // ------------------------------------------------------------- bubble sort

  function Swapped<T>(s: seq<T>, i: nat): seq<T>
    requires i + 1 < |s|
  {
    s[i := s[i + 1]][i + 1 := s[i]]
  }

  /** From `end` on, every element is in its final place. */
  ghost predicate Settled<T>(cmp: Compare<T>, s: seq<T>, end: nat) {
    forall p, q {:trigger Greater(cmp, s[p], s[q])} ::
      0 <= p < q < |s| && q >= end ==> !Greater(cmp, s[p], s[q])
  }

  /** The pass has reached position `i`: what is behind it is no greater. */
  ghost predicate PassInvariant<T>(cmp: Compare<T>, s: seq<T>, i: nat, end: nat, swapped: bool)
    requires i < |s|
  {
    && Settled(cmp, s, end)
    && (forall p :: 0 <= p < i ==> !Greater(cmp, s[p], s[i]))
    && (!swapped ==> forall p, q :: 0 <= p < q <= i ==> !Greater(cmp, s[p], s[q]))
  }

  lemma PassStep<T>(cmp: Compare<T>, s: seq<T>, i: nat, end: nat, swapped: bool)
    requires WeakOrderOn(cmp, s) && i + 1 < end <= |s|
    requires PassInvariant(cmp, s, i, end, swapped)
    ensures if Greater(cmp, s[i], s[i + 1])
            then PassInvariant(cmp, Swapped(s, i), i + 1, end, true)
            else PassInvariant(cmp, s, i + 1, end, swapped)
  {
    if !Greater(cmp, s[i], s[i + 1]) {
      forall p | 0 <= p < i ensures !Greater(cmp, s[p], s[i + 1]) {
        assert !Greater(cmp, s[p], s[i]);
      }
    }
  }

  lemma SwappedPermutes<T>(s: seq<T>, i: nat)
    requires i + 1 < |s|
    ensures multiset(Swapped(s, i)) == multiset(s)
  {
  }

  /** One pass from position `i` up to `end`, and whether it has swapped anything. */
  function Pass<T>(cmp: Compare<T>, s: seq<T>, i: nat, end: nat, swapped: bool): (r: (seq<T>, bool))
    requires i < end <= |s|
    ensures |r.0| == |s|
    ensures i + 1 == end ==> r == (s, swapped)
    decreases end - i
  {
    if i + 1 == end then (s, swapped)
    else if Greater(cmp, s[i], s[i + 1]) then Pass(cmp, Swapped(s, i), i + 1, end, true)
    else Pass(cmp, s, i + 1, end, swapped)
  }

  /** Passes with an end that moves left, until one swaps nothing. */
  function Bubble<T>(cmp: Compare<T>, s: seq<T>, end: nat): (r: seq<T>)
    requires 1 <= end <= |s|
    ensures |r| == |s|
    decreases end
  {
    var (t, swapped) := Pass(cmp, s, 0, end, false);
    if swapped then Bubble(cmp, t, end - 1) else t
  }

  /** A pass settles one more element, and has sorted everything if it swapped nothing. */
  lemma {:induction false} PassSettles<T>(cmp: Compare<T>, s: seq<T>, i: nat, end: nat, swapped: bool, dom: seq<T>)
    requires i < end <= |s| && PassInvariant(cmp, s, i, end, swapped)
    requires WeakOrderOn(cmp, dom) && multiset(s) == multiset(dom)
    ensures var (t, swapped') := Pass(cmp, s, i, end, swapped);
      && Settled(cmp, t, end - 1)
      && (!swapped' ==> Sorted(cmp, t))
      && StablyPermutes(cmp, t, s, dom)
    decreases end - i
  {
    PermutationKeepsOrder(cmp, s, dom);
    if i + 1 < end {
      PassStep(cmp, s, i, end, swapped);
      if Greater(cmp, s[i], s[i + 1]) {
        SwapIsStable(cmp, s, i, dom);
        PassSettles(cmp, Swapped(s, i), i + 1, end, true, dom);
        StablyPermutesTrans(cmp, Pass(cmp, s, i, end, swapped).0, Swapped(s, i), s, dom);
      } else {
        PassSettles(cmp, s, i + 1, end, swapped, dom);
      }
    }
  }

  /** The bubble sort is a stable sort. */
  lemma {:induction false} BubbleSorts<T>(cmp: Compare<T>, s: seq<T>, end: nat, dom: seq<T>)
    requires 1 <= end <= |s| && Settled(cmp, s, end)
    requires WeakOrderOn(cmp, dom) && multiset(s) == multiset(dom)
    ensures Sorted(cmp, Bubble(cmp, s, end))
    ensures StablyPermutes(cmp, Bubble(cmp, s, end), s, dom)
    decreases end
  {
    PassSettles(cmp, s, 0, end, false, dom);
    var (t, swapped) := Pass(cmp, s, 0, end, false);
    if swapped {
      BubbleSorts(cmp, t, end - 1, dom);
      StablyPermutesTrans(cmp, Bubble(cmp, s, end), t, s, dom);
    }
  }

  lemma BubbleIsStableSort<T>(cmp: Compare<T>, s: seq<T>)
    requires s != [] && WeakOrderOn(cmp, s)
    ensures Bubble(cmp, s, |s|) == StableSort(cmp, s)
  {
    BubbleSorts(cmp, s, |s|, s);
    StableSortCharacterised(cmp, Bubble(cmp, s, |s|), s);
  }

  /** Whatever the comparison answers, no element is lost or invented. */
  lemma {:induction false} PassPermutes<T>(cmp: Compare<T>, s: seq<T>, i: nat, end: nat, swapped: bool)
    requires i < end <= |s|
    ensures multiset(Pass(cmp, s, i, end, swapped).0) == multiset(s)
    decreases end - i
  {
    if i + 1 < end {
      if Greater(cmp, s[i], s[i + 1]) {
        SwappedPermutes(s, i);
        PassPermutes(cmp, Swapped(s, i), i + 1, end, true);
      } else {
        PassPermutes(cmp, s, i + 1, end, swapped);
      }
    }
  }

  lemma {:induction false} BubblePermutes<T>(cmp: Compare<T>, s: seq<T>, end: nat)
    requires 1 <= end <= |s|
    ensures multiset(Bubble(cmp, s, end)) == multiset(s)
    decreases end
  {
    PassPermutes(cmp, s, 0, end, false);
    var (t, swapped) := Pass(cmp, s, 0, end, false);
    if swapped {
      BubblePermutes(cmp, t, end - 1);
    }
  }

  /** What `dpl_insert_sorted` makes of a list. */
  function SortedInsertion<T>(cmp: Compare<T>, s: seq<T>, e: T): seq<T> {
    StableInsert(cmp, Bubbled(cmp, s), e)
  }

  /** The payloads after its sorting loop, which an empty list does not reach. */
  function Bubbled<T>(cmp: Compare<T>, s: seq<T>): (r: seq<T>)
    ensures |r| == |s|
  {
    if s == [] then [] else Bubble(cmp, s, |s|)
  }

  /** It keeps every element, and nothing else is new. */
  lemma SortedInsertionPermutes<T>(cmp: Compare<T>, s: seq<T>, e: T)
    ensures multiset(SortedInsertion(cmp, s, e)) == multiset(s + [e])
  {
    var t := Bubbled(cmp, s);
    var i := InsertPosition(cmp, t, e);
    InsertPermutes(t, e, i);
    if s != [] {
      BubblePermutes(cmp, s, |s|);
    }
  }

  /** Sorted or not before, the list becomes the stable sort of itself with the new element appended. */
  lemma SortedInsertionIsStableSort<T>(cmp: Compare<T>, s: seq<T>, e: T)
    requires WeakOrderOn(cmp, s + [e])
    ensures SortedInsertion(cmp, s, e) == StableSort(cmp, s + [e])
    ensures Sorted(cmp, SortedInsertion(cmp, s, e))
  {
    assert (s + [e])[..|s|] == s;
    WeakOrderPrefix(cmp, s, e);
    if s != [] {
      BubbleIsStableSort(cmp, s);
    }
    StableSortSorts(cmp, s + [e], s + [e]);
  }

  lemma WeakOrderPrefix<T>(cmp: Compare<T>, s: seq<T>, e: T)
    requires WeakOrderOn(cmp, s + [e])
    ensures WeakOrderOn(cmp, s)
  {
    assert forall x :: x in s ==> x in s + [e];
  }
}
