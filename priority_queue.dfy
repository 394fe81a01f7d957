/**
 * priorityQ<Type> of lander.h: an array-backed binary max-heap whose order is
 * the element type's "outranks" relation, here injected as the `greater`
 * field. The heap property is stated as "no child outranks its parent", which
 * holds for any strict weak order, not only a total one.
 */
module PriorityQueues {
  import opened Orderings
  import opened Growth
  import opened HeapShape

  class PriorityQ<T(0,!new)> {
    ghost var Repr: set<object>

    const greater: (T, T) -> bool
    var capacity: nat
    var items: nat
    var heapArray: array<T>

    /** The bookkeeping numbers that Growth reasons about. */
    ghost function Layout(): Buffer
      reads this
    {
      Buffer(capacity, items, heapArray.Length)
    }

    ghost predicate Valid()
      reads this, Repr
      ensures Valid() ==> this in Repr
    {
      Repr == {this, heapArray} &&
      Sound(Layout()) &&
      StrictWeakOrder(greater) &&
      HeapOrdered(greater, heapArray[..items])
    }

    /** The stored elements, heapArray[0 .. items). */
    ghost function Elements(): multiset<T>
      reads this, heapArray
      requires items <= heapArray.Length
    {
      multiset(heapArray[..items])
    }

    /** priorityQ(capacity): empty, with capacity + 1 slots. */
    constructor (capacity: nat, greater: (T, T) -> bool)
      requires 1 <= capacity
      requires StrictWeakOrder(greater)
      ensures Valid() && fresh(Repr)
      ensures Elements() == multiset{} && Layout() == Fresh(capacity)
      ensures this.greater == greater
    {
      this.greater := greater;
      this.capacity := capacity;
      items := 0;
      heapArray := new T[capacity + 1];
      new;
      Repr := {this, heapArray};
    }

    /** isEmpty. */
    function IsEmpty(): (r: bool)
      reads this, Repr
      requires Valid()
      ensures r <==> Elements() == multiset{}
    {
      assert |Elements()| == items;
      items == 0
    }

    /** getSize. */
    function GetSize(): (n: nat)
      reads this, Repr
      requires Valid()
      ensures n == |Elements()|
      ensures n == 0 <==> IsEmpty()
    {
      items
    }

    /**
     * getHighestPriority: the root slot. On a non-empty heap it is a stored
     * element that no stored element outranks; on an empty heap the source
     * returns whatever slot 0 holds, and so does the model.
     */
    function GetHighestPriority(): (top: T)
      reads this, Repr
      requires Valid()
      ensures 0 < items ==> top in Elements() && forall x :: x in Elements() ==> !greater(x, top)
    {
      if 0 < items then
        assert forall c :: 0 <= c < items ==> !greater(heapArray[c], heapArray[0]) by {
          forall c | 0 <= c < items ensures !greater(heapArray[c], heapArray[0]) {
            NothingOutranksRoot(greater, heapArray[..items], c);
          }
        }
        assert heapArray[0] == heapArray[..items][0];
        heapArray[0]
      else
        heapArray[0]
    }

    /**
     * insert: store the element after the last item, growing the array first
     * when it is full, and sift it up. The growth doubles the recorded
     * capacity together with the array (see Growth).
     */
    method Insert(element: T)
      requires Valid()
      modifies Repr
      ensures Valid() && fresh(Repr - old(Repr))
      ensures Elements() == old(Elements()) + multiset{element}
      ensures Layout() == CorrectedInsert(old(Layout()))
      ensures 0 < old(items) && !greater(element, old(heapArray[0])) ==> heapArray[0] == old(heapArray[0])
    {
      ghost var before := heapArray[..items];
      if items == capacity {
        Grow();
      }
      StoreLast(element);
      ghost var h := heapArray[..items];
      assert h == before + [element];
      assert h[items - 1] == element && (0 < |before| ==> h[0] == before[0]);
      AppendedIsOrderedExceptAt(greater, before, element);
      BubbleUp(items - 1);
    }

    /** The store of insert: heapArray[items] = element, then items++. */
    method StoreLast(element: T)
      requires items < heapArray.Length
      modifies this, heapArray
      ensures heapArray == old(heapArray) && capacity == old(capacity) && Repr == old(Repr)
      ensures items == old(items) + 1
      ensures heapArray[..items] == old(heapArray[..items]) + [element]
    {
      ghost var before := heapArray[..items];
      heapArray[items] := element;
      items := items + 1;
      assert heapArray[..items] == before + [element];
    }

    /**
     * The reallocation inside insert: copy the items into an array of
     * capacity*2 slots and, unlike the source, record the doubled capacity.
     */
    method Grow()
      requires Valid() && items == capacity
      modifies this
      ensures Valid() && fresh(heapArray) && Repr == {this, heapArray}
      ensures heapArray[..items] == old(heapArray[..items])
      ensures Layout() == CorrectedGrow(old(Layout()))
    {
      var grown := new T[capacity * 2];
      var i := 0;
      while i < items
        invariant 0 <= i <= items <= heapArray.Length
        invariant items <= grown.Length
        invariant grown[..i] == heapArray[..i]
        modifies grown
      {
        grown[i] := heapArray[i];
        i := i + 1;
      }
      assert grown[..items] == heapArray[..items];
      heapArray := grown;
      capacity := capacity * 2;
      Repr := {this, heapArray};
    }

    /**
     * deleteHighestPriority: on a non-empty heap, move the last item to the
     * root and sift it down; on an empty heap, do nothing.
     */
    method DeleteHighestPriority()
      requires Valid()
      modifies Repr
      ensures Valid() && Repr == old(Repr)
      ensures old(items) == 0 ==> Elements() == old(Elements()) && items == 0
      ensures 0 < old(items) ==> Elements() == old(Elements()) - multiset{old(heapArray[0])}
      ensures 0 < old(items) ==> items == old(items) - 1
      ensures capacity == old(capacity)
    {
      if !IsEmpty() {
        ghost var before := heapArray[..items];
        MoveLastToRoot();
        RootReplacedByLast(greater, before, heapArray[..items]);
        BubbleDown(0);
      }
    }

    /** The first two steps of deleteHighestPriority: heapArray[0] = heapArray[items - 1]; items--. */
    method MoveLastToRoot()
      requires items <= heapArray.Length && 0 < items
      modifies this, heapArray
      ensures heapArray == old(heapArray) && capacity == old(capacity) && Repr == old(Repr)
      ensures items == old(items) - 1
      ensures heapArray[..items] == old(heapArray[..items])[0 := old(heapArray[items - 1])][..items]
    {
      ghost var before := heapArray[..items];
      heapArray[0] := heapArray[items - 1];
      items := items - 1;
      assert heapArray[..items] == before[0 := before[items]][..items];
    }

    /**
     * bubbleUp: swap the element at `index` with its parent while it
     * outranks the parent. Beforehand the heap may be out of order only
     * between `index` and its parent (HeapShape.OrderedExceptAt).
     */
    method BubbleUp(index: nat)
      requires Repr == {this, heapArray} && Sound(Layout()) && StrictWeakOrder(greater)
      requires index < items
      requires OrderedExceptAt(greater, heapArray[..items], index)
      modifies heapArray
      ensures Valid()
      ensures Elements() == old(Elements())
      ensures 0 < index && !greater(old(heapArray[index]), old(heapArray[0])) ==> heapArray[0] == old(heapArray[0])
    {
      ghost var h := heapArray[..items];
      ghost var x := h[index];
      ghost var root := h[0];
      var i: nat := index;
      while 0 < i && greater(heapArray[i], heapArray[Parent(i)])
        invariant items <= heapArray.Length && heapArray[..items] == h
        invariant i < |h| && h[i] == x
        invariant multiset(h) == old(multiset(heapArray[..items]))
        invariant OrderedExceptAt(greater, h, i)
        invariant 0 < i ==> h[0] == root
        invariant i == 0 < index ==> greater(x, root)
        decreases i
      {
        var p := Parent(i);
        assert heapArray[i] == h[i] && heapArray[p] == h[p];
        SiftUpStep(greater, h, i);
        Swap(i, p);
        h := Swapped(h, i, p);
        i := p;
      }
      assert 0 < i ==> heapArray[i] == h[i] && heapArray[Parent(i)] == h[Parent(i)];
      SiftUpDone(greater, h, i);
    }

    /**
     * bubbleDown: while the element at `index` has a child that outranks it,
     * swap it with the higher-ranked child (the right one only if it outranks
     * the left one); stop once `index` reaches items / 2. Beforehand the heap
     * may be out of order only between `index` and its children
     * (HeapShape.OrderedExceptBelow).
     */
    method BubbleDown(index: nat)
      requires Repr == {this, heapArray} && Sound(Layout()) && StrictWeakOrder(greater)
      requires OrderedExceptBelow(greater, heapArray[..items], index)
      modifies heapArray
      ensures Valid()
      ensures Elements() == old(Elements())
    {
      var i: nat := index;
      while true
        invariant items <= heapArray.Length
        invariant multiset(heapArray[..items]) == old(multiset(heapArray[..items]))
        invariant OrderedExceptBelow(greater, heapArray[..items], i)
        decreases items - i
      {
        var max, swapped := SinkOnce(i);
        if !swapped {
          break;
        }
        i := max;
        if !(i < items / 2) {
          SiftDownDone(greater, heapArray[..items], i, 2 * i + 1);
          break;
        }
      }
    }

    /**
     * One pass of bubbleDown's loop body at slot i: pick the higher-ranked
     * child `max` and swap with it if it outranks slot i; otherwise the heap
     * is already ordered and nothing moves.
     */
    method SinkOnce(i: nat) returns (max: nat, swapped: bool)
      requires items <= heapArray.Length && StrictWeakOrder(greater)
      requires OrderedExceptBelow(greater, heapArray[..items], i)
      modifies heapArray
      ensures swapped ==> i < max < items && OrderedExceptBelow(greater, heapArray[..items], max)
      ensures swapped ==> heapArray[..items] == Swapped(old(heapArray[..items]), i, max)
      ensures !swapped ==> HeapOrdered(greater, heapArray[..items]) && heapArray[..items] == old(heapArray[..items])
    {
      ghost var h := heapArray[..items];
      var ltChild := 2 * i + 1;
      var rtChild := 2 * i + 2;
      if rtChild < items && greater(heapArray[rtChild], heapArray[ltChild]) {
        assert greater(h[rtChild], h[ltChild]);
        max := rtChild;
        assert !greater(h[Sibling(i, max)], h[max]);
      } else {
        assert rtChild < items ==> !greater(h[rtChild], h[ltChild]);
        max := ltChild;
        assert Sibling(i, max) < items ==> !greater(h[Sibling(i, max)], h[max]);
      }
      if max < items && greater(heapArray[max], heapArray[i]) {
        assert greater(h[max], h[i]);
        assert !greater(h[i], h[max]);
        SiftDownStep(greater, h, i, max);
        Swap(i, max);
        swapped := true;
      } else {
        assert max < items ==> !greater(h[max], h[i]);
        SiftDownDone(greater, h, i, max);
        swapped := false;
      }
    }

    /** The source's swap(heapArray[i], heapArray[j]) on two stored slots. */
    method Swap(i: nat, j: nat)
      requires items <= heapArray.Length && i < items && j < items
      modifies heapArray
      ensures heapArray[..items] == Swapped(old(heapArray[..items]), i, j)
    {
      ghost var s := heapArray[..items];
      heapArray[i], heapArray[j] := heapArray[j], heapArray[i];
      assert heapArray[..items] == Swapped(s, i, j);
    }
  }
}
