/**
 * The shape of the array-backed binary heap of lander.h (priorityQ), stated
 * over the sequence of stored items: slot c > 0 has parent (c - 1) / 2, and
 * the heap property is "no child outranks its parent". The sift-up and
 * sift-down loops of the heap move one swap at a time between the weaker
 * shapes below; each swap is justified by one lemma here.
 */
module HeapShape {
  import opened Orderings

  /** Index of the parent of a non-root slot (the source's (index - 1) / 2). */
  function Parent(c: nat): nat
    requires 0 < c
  {
    (c - 1) / 2
  }

  /** The other child of slot i, given one child m. */
  function Sibling(i: nat, m: nat): nat {
    if m == 2 * i + 1 then 2 * i + 2 else 2 * i + 1
  }

  lemma ParentOfChild(c: nat, i: nat)
    requires 0 < c
    ensures Parent(c) == i <==> c == 2 * i + 1 || c == 2 * i + 2
    ensures Parent(c) < c
  {
  }

  /** s with the items in slots i and j exchanged (the source's swap). */
  function Swapped<T>(s: seq<T>, i: nat, j: nat): (r: seq<T>)
    requires i < |s| && j < |s|
    ensures |r| == |s| && r[i] == s[j] && r[j] == s[i]
    ensures forall k :: 0 <= k < |s| && k != i && k != j ==> r[k] == s[k]
    ensures multiset(r) == multiset(s)
  {
    s[i := s[j]][j := s[i]]
  }

  /** The heap property: no child outranks its parent. */
  ghost predicate HeapOrdered<T>(greater: (T, T) -> bool, s: seq<T>) {
    forall c :: 0 < c < |s| ==> !greater(s[c], s[Parent(c)])
  }

  /**
   * The shape during sift-up of the item at slot i: only the link between i
   * and its parent may be broken, and i's children do not outrank that parent.
   */
  ghost predicate OrderedExceptAt<T>(greater: (T, T) -> bool, s: seq<T>, i: nat) {
    && (forall c :: 0 < c < |s| && c != i ==> !greater(s[c], s[Parent(c)]))
    && (0 < i < |s| ==> forall c :: 0 < c < |s| && Parent(c) == i ==> !greater(s[c], s[Parent(i)]))
  }

  /**
   * The shape during sift-down of the item at slot i: only the links between
   * i and its children may be broken, and those children do not outrank the
   * parent of i.
   */
  ghost predicate OrderedExceptBelow<T>(greater: (T, T) -> bool, s: seq<T>, i: nat) {
    && (forall c :: 0 < c < |s| && Parent(c) != i ==> !greater(s[c], s[Parent(c)]))
    && (0 < i < |s| ==> forall c :: 0 < c < |s| && Parent(c) == i ==> !greater(s[c], s[Parent(i)]))
  }

  /** Any ordered heap is in sift-up shape for its last slot, once an item is appended there. */
  lemma AppendedIsOrderedExceptAt<T>(greater: (T, T) -> bool, s: seq<T>, x: T)
    requires HeapOrdered(greater, s)
    ensures OrderedExceptAt(greater, s + [x], |s|)
  {
    var t := s + [x];
    forall c | 0 < c < |t| && c != |s|
      ensures !greater(t[c], t[Parent(c)])
    {
      ParentOfChild(c, Parent(c));
      assert t[c] == s[c] && t[Parent(c)] == s[Parent(c)];
    }
    forall c | 0 < c < |t| && Parent(c) == |s|
      ensures false
    {
      ParentOfChild(c, |s|);
    }
  }

  /** One sift-up swap: the item at i outranks its parent p and trades places with it. */
  lemma {:induction false} SiftUpStep<T(!new)>(greater: (T, T) -> bool, s: seq<T>, i: nat)
    requires StrictWeakOrder(greater)
    requires 0 < i < |s| && OrderedExceptAt(greater, s, i)
    requires greater(s[i], s[Parent(i)])
    ensures OrderedExceptAt(greater, Swapped(s, i, Parent(i)), Parent(i))
  {
    var p := Parent(i);
    var x, y := s[i], s[p];
    var t := Swapped(s, i, p);
    ParentOfChild(i, p);
    forall c | 0 < c < |t| && c != p
      ensures !greater(t[c], t[Parent(c)])
    {
      if c == i {
        // y now sits below x, which outranks it
      } else if Parent(c) == p {
        // the sibling of i did not outrank y, and y does not outrank x
        assert t[c] == s[c] && !greater(s[c], y);
        assert NegativelyTransitiveAt(greater, s[c], y, x);
      } else if Parent(c) == i {
        // a child of i did not outrank y
        ParentOfChild(c, i);
      } else {
        ParentOfChild(c, Parent(c));
      }
    }
    if 0 < p {
      var g := Parent(p);
      ParentOfChild(p, g);
      forall c | 0 < c < |t| && Parent(c) == p
        ensures !greater(t[c], t[g])
      {
        ParentOfChild(c, p);
        assert !greater(y, s[g]);
        if c != i {
          assert !greater(s[c], y);
          assert NegativelyTransitiveAt(greater, s[c], y, s[g]);
        }
      }
    }
  }

  /** Sift-up stops at the root or where the item does not outrank its parent; the heap is then ordered. */
  lemma SiftUpDone<T>(greater: (T, T) -> bool, s: seq<T>, i: nat)
    requires i < |s| && OrderedExceptAt(greater, s, i)
    requires 0 < i ==> !greater(s[i], s[Parent(i)])
    ensures HeapOrdered(greater, s)
  {
  }

  /** One sift-down swap: the higher-ranked child m of i outranks the item at i and trades places with it. */
  lemma SiftDownStep<T>(greater: (T, T) -> bool, s: seq<T>, i: nat, m: nat)
    requires m < |s| && (m == 2 * i + 1 || m == 2 * i + 2)
    requires OrderedExceptBelow(greater, s, i)
    requires greater(s[m], s[i]) && !greater(s[i], s[m])
    requires Sibling(i, m) < |s| ==> !greater(s[Sibling(i, m)], s[m])
    ensures OrderedExceptBelow(greater, Swapped(s, i, m), m)
  {
    var t := Swapped(s, i, m);
    var big := s[m];
    ParentOfChild(m, i);
    forall c | 0 < c < |t| && Parent(c) != m
      ensures !greater(t[c], t[Parent(c)])
    {
      ParentOfChild(c, i);
      if c == m {
        // the old item of i now sits below big, which outranks it
      } else if Parent(c) == i {
        // the sibling of m does not outrank big
        assert c == Sibling(i, m);
      } else if c == i {
        // big did not outrank the parent of i
        assert !greater(big, s[Parent(i)]);
      } else {
        ParentOfChild(c, Parent(c));
      }
    }
    forall c | 0 < c < |t| && Parent(c) == m
      ensures !greater(t[c], t[i])
    {
      ParentOfChild(c, m);
    }
  }

  /**
   * Sift-down stops when the chosen child (the right one only if it outranks
   * the left one) does not outrank the item at i, or when i has no children;
   * the heap is then ordered.
   */
  lemma SiftDownDone<T(!new)>(greater: (T, T) -> bool, s: seq<T>, i: nat, max: nat)
    requires StrictWeakOrder(greater)
    requires OrderedExceptBelow(greater, s, i)
    requires max == 2 * i + 1 || max == 2 * i + 2
    requires max == 2 * i + 2 ==> max < |s| && greater(s[max], s[2 * i + 1])
    requires max == 2 * i + 1 && 2 * i + 2 < |s| ==> !greater(s[2 * i + 2], s[max])
    requires max < |s| ==> !greater(s[max], s[i])
    ensures HeapOrdered(greater, s)
  {
    forall c | 0 < c < |s| && Parent(c) == i
      ensures !greater(s[c], s[i])
    {
      ParentOfChild(c, i);
      if c != max {
        assert !greater(s[c], s[max]);
        assert NegativelyTransitiveAt(greater, s[c], s[max], s[i]);
      }
    }
  }

  /** No item of an ordered heap outranks the root. */
  lemma {:induction false} NothingOutranksRoot<T(!new)>(greater: (T, T) -> bool, s: seq<T>, c: nat)
    requires StrictWeakOrder(greater) && HeapOrdered(greater, s)
    requires c < |s|
    ensures !greater(s[c], s[0])
    decreases c
  {
    if 0 < c {
      var p := Parent(c);
      NothingOutranksRoot(greater, s, p);
      assert !greater(s[c], s[p]);
      assert NegativelyTransitiveAt(greater, s[c], s[p], s[0]);
    }
  }

  /**
   * Overwriting the root with the last item and dropping the last slot
   * removes exactly one copy of the old root and leaves the rest in
   * sift-down shape at the root.
   */
  lemma RootReplacedByLast<T>(greater: (T, T) -> bool, s: seq<T>, t: seq<T>)
    requires 0 < |s| && HeapOrdered(greater, s)
    requires t == s[0 := s[|s| - 1]][..|s| - 1]
    ensures multiset(t) == multiset(s) - multiset{s[0]}
    ensures OrderedExceptBelow(greater, t, 0)
  {
    if 1 < |s| {
      assert t == [s[|s| - 1]] + s[1..|s| - 1];
      assert s == [s[0]] + s[1..|s| - 1] + [s[|s| - 1]];
      forall c | 0 < c < |t| && Parent(c) != 0
        ensures !greater(t[c], t[Parent(c)])
      {
        ParentOfChild(c, Parent(c));
        assert t[c] == s[c] && t[Parent(c)] == s[Parent(c)];
      }
    }
  }
}
