/**
 * The command and drain loops of simulateLanding (lander.h:367-431), with the
 * command file replaced by a sequence of flow rates and the console output
 * replaced by returned sequences: the lander selected for each command, the
 * crashed copies that were dropped, and the landers reported as "mission
 * aborted" when the heap is drained.
 */
module Simulation {
  import opened Orderings
  import opened Landers
  import opened PriorityQueues

  /** Every lander in the collection can be stepped. */
  ghost predicate AllFlyable(e: multiset<Lander>) {
    forall x :: x in e ==> Flyable(x)
  }

  /** No element of e outranks a. */
  ghost predicate Maximal<T>(greater: (T, T) -> bool, e: multiset<T>, a: T) {
    forall x :: x in e ==> !greater(x, a)
  }

  /** The heap's contents after one command cycle whose root was `top` and whose stepped copy is `stepped`. */
  function AfterCommand(e: multiset<Lander>, top: Lander, stepped: Lander): (r: multiset<Lander>)
    requires top in e
    ensures |r| == if Status(stepped) == 'c' then |e| - 1 else |e|
    ensures Status(stepped) != 'c' ==> stepped in r
    ensures forall x :: x in r ==> x in e || x == stepped
  {
    if Status(stepped) == 'c' then e - multiset{top} else e - multiset{top} + multiset{stepped}
  }

  /** The default queue of the program: capacity 10, ordered by operator>. */
  method NewLanderQueue() returns (q: PriorityQ<Lander>)
    ensures q.Valid() && fresh(q.Repr) && q.greater == Outranks
    ensures q.Elements() == multiset{} && q.capacity == 10
  {
    OutranksIsStrictWeakOrder();
    q := new PriorityQ(10, Outranks);
  }

  /**
   * One command of the loop: take the highest-priority lander, offer it the
   * flow rate (a rejection is ignored), step the copy, insert the copy
   * unless it crashed, and delete the old root. The deleted entry is the
   * selected lander because its stepped copy never outranks it.
   */
  method ProcessCommand(q: PriorityQ<Lander>, rate: real) returns (top: Lander, stepped: Lander, crashed: bool)
    requires q.Valid() && q.greater == Outranks && !q.IsEmpty()
    requires AllFlyable(q.Elements())
    modifies q.Repr
    ensures q.Valid() && fresh(q.Repr - old(q.Repr))
    ensures top in old(q.Elements()) && Maximal(Outranks, old(q.Elements()), top)
    ensures stepped == Stepped(top, rate)
    ensures crashed <==> Status(stepped) == 'c'
    ensures q.Elements() == AfterCommand(old(q.Elements()), top, stepped)
    ensures AllFlyable(q.Elements())
  {
    ghost var before := q.Elements();
    top := q.GetHighestPriority();
    var adjusted := ChangeFlowRate(top, rate).1;  // whether the rate was accepted is ignored
    stepped := Simulate(adjusted);
    crashed := Status(stepped) == 'c';
    if !crashed {
      SteppedNeverOutranks(top, rate);
      q.Insert(stepped);
    }
    ghost var inserted := q.Elements();
    q.DeleteHighestPriority();
    RootReplaced(before, top, stepped, inserted, q.Elements());
  }

  /** Inserting the stepped copy (unless it crashed) and then deleting the old root yields AfterCommand. */
  lemma RootReplaced(before: multiset<Lander>, top: Lander, stepped: Lander,
                     inserted: multiset<Lander>, after: multiset<Lander>)
    requires top in before
    requires inserted == if Status(stepped) == 'c' then before else before + multiset{stepped}
    requires after == inserted - multiset{top}
    ensures after == AfterCommand(before, top, stepped)
    ensures AllFlyable(before) && Flyable(stepped) ==> AllFlyable(after)
  {
  }

  /**
   * The drain loop: report and delete the root until the heap is empty. The
   * reported landers are exactly the stored ones, highest priority first.
   */
  method Drain<T(0,!new)>(q: PriorityQ<T>) returns (aborted: seq<T>)
    requires q.Valid()
    modifies q.Repr
    ensures q.Valid() && q.Repr == old(q.Repr) && q.IsEmpty()
    ensures multiset(aborted) == old(q.Elements())
    ensures forall i, j :: 0 <= i < j < |aborted| ==> !q.greater(aborted[j], aborted[i])
  {
    aborted := [];
    while !q.IsEmpty()
      invariant q.Valid() && q.Repr == old(q.Repr)
      invariant multiset(aborted) + q.Elements() == old(q.Elements())
      invariant ReportedInOrder(q.greater, aborted, q.Elements())
      decreases q.items
    {
      var top := q.GetHighestPriority();
      ghost var rest := q.Elements();
      q.DeleteHighestPriority();
      ReportedInOrderExtends(q.greater, aborted, rest, top);
      aborted := aborted + [top];
    }
  }

  /** No later report outranks an earlier one, and nothing still stored outranks any report. */
  ghost predicate ReportedInOrder<T>(greater: (T, T) -> bool, reported: seq<T>, rest: multiset<T>) {
    && (forall i, j :: 0 <= i < j < |reported| ==> !greater(reported[j], reported[i]))
    && (forall i, x :: 0 <= i < |reported| && x in rest ==> !greater(x, reported[i]))
  }

  /** Reporting and removing a stored element that nothing stored outranks keeps the reports in order. */
  lemma ReportedInOrderExtends<T>(greater: (T, T) -> bool, reported: seq<T>, rest: multiset<T>, top: T)
    requires ReportedInOrder(greater, reported, rest)
    requires top in rest && Maximal(greater, rest, top)
    ensures ReportedInOrder(greater, reported + [top], rest - multiset{top})
    ensures multiset(reported + [top]) + (rest - multiset{top}) == multiset(reported) + rest
  {
    var r := reported + [top];
    forall i, j | 0 <= i < j < |r|
      ensures !greater(r[j], r[i])
    {
      if j == |reported| {
        assert r[j] == top && r[i] == reported[i];
      } else {
        assert r[j] == reported[j] && r[i] == reported[i];
      }
    }
    forall i, x | 0 <= i < |r| && x in rest - multiset{top}
      ensures !greater(x, r[i])
    {
      assert x in rest;
    }
  }

  /** Landers with the same rank key are interchangeable for operator>. */
  lemma SameKeySameRank(a: Lander, b: Lander)
    requires RankKey(a) == RankKey(b)
    ensures forall x :: Outranks(x, a) == Outranks(x, b) && Outranks(a, x) == Outranks(b, x)
  {
    assert RankKey(a)[0] == RankKey(b)[0] && RankKey(a)[4] == RankKey(b)[4];
    assert RankKey(a)[3] == RankKey(b)[3];
  }

  /** Two landers neither of which outranks the other have the same rank key. */
  lemma TiedShareKey(a: Lander, b: Lander)
    requires !Outranks(a, b) && !Outranks(b, a)
    ensures RankKey(a) == RankKey(b)
  {
    if RankKey(a) != RankKey(b) {
      OutranksConnected(a, b);
    }
  }

  /**
   * A landed lander that no stored lander outranks keeps that place through
   * a command cycle: the selected root has its rank key, and afterwards the
   * landed lander (or its reinserted copy, when it was the one selected) is
   * still stored, still landed and still outranked by nothing.
   */
  lemma {:induction false} LandedKeepsTop(e: multiset<Lander>, top: Lander, rate: real, anchor: Lander)
    requires AllFlyable(e) && StrictWeakOrder(Outranks)
    requires top in e && Maximal(Outranks, e, top)
    requires anchor in e && Status(anchor) == 'l' && Maximal(Outranks, e, anchor)
    ensures RankKey(top) == RankKey(anchor)
    ensures var stepped := Stepped(top, rate);
            var next := if top == anchor then stepped else anchor;
            && next in AfterCommand(e, top, stepped)
            && Status(next) == 'l' && RankKey(next) == RankKey(anchor)
            && Maximal(Outranks, AfterCommand(e, top, stepped), next)
  {
    assert !Outranks(top, anchor) && !Outranks(anchor, top);
    TiedShareKey(top, anchor);
    var stepped := Stepped(top, rate);
    var after := AfterCommand(e, top, stepped);
    var next := if top == anchor then stepped else anchor;
    SteppedNeverOutranks(top, rate);
    SameKeySameRank(top, anchor);
    if top == anchor {
      assert RankKey(stepped) == RankKey(top);
      SameKeySameRank(stepped, top);
    } else {
      assert anchor in e - multiset{top};
    }
    forall x | x in after
      ensures !Outranks(x, next)
    {
      if x != stepped {
        assert x in e;
      }
    }
  }

  /**
   * The state of the command loop once a landed lander has been selected (at
   * command `first`): a landed lander with the same rank key is stored and
   * outranked by nothing, no earlier selection was landed, and every
   * selection since has had that rank key.
   */
  ghost predicate Anchored(e: multiset<Lander>, anchor: Lander, selected: seq<Lander>, first: nat) {
    && anchor in e && Status(anchor) == 'l' && Maximal(Outranks, e, anchor)
    && first < |selected| && Status(selected[first]) == 'l'
    && (forall k :: 0 <= k < first ==> Status(selected[k]) != 'l')
    && (forall j :: first <= j < |selected| ==> RankKey(selected[j]) == RankKey(anchor))
  }

  /** Anchored carries over one command cycle, with the anchor replaced by its copy when it was the one selected. */
  lemma AnchoredAdvances(e: multiset<Lander>, top: Lander, rate: real, anchor: Lander, selected: seq<Lander>, first: nat)
    requires AllFlyable(e) && StrictWeakOrder(Outranks)
    requires top in e && Maximal(Outranks, e, top)
    requires Anchored(e, anchor, selected, first)
    ensures var stepped := Stepped(top, rate);
            Anchored(AfterCommand(e, top, stepped), if top == anchor then stepped else anchor, selected + [top], first)
  {
    LandedKeepsTop(e, top, rate, anchor);
  }

  /** The first landed selection starts Anchored, with its own reinserted copy as the anchor. */
  lemma AnchoredStarts(e: multiset<Lander>, top: Lander, rate: real, selected: seq<Lander>)
    requires AllFlyable(e) && StrictWeakOrder(Outranks)
    requires top in e && Maximal(Outranks, e, top) && Status(top) == 'l'
    requires forall k :: 0 <= k < |selected| ==> Status(selected[k]) != 'l'
    ensures var stepped := Stepped(top, rate);
            Anchored(AfterCommand(e, top, stepped), stepped, selected + [top], |selected|)
  {
    LandedKeepsTop(e, top, rate, top);
  }

  /** What the command loop knows about landed selections: none so far, or Anchored. */
  ghost predicate LandedSoFar(e: multiset<Lander>, selected: seq<Lander>, anchored: bool, anchor: Lander, first: nat) {
    if anchored then Anchored(e, anchor, selected, first)
    else forall k :: 0 <= k < |selected| ==> Status(selected[k]) != 'l'
  }

  /**
   * LandedSoFar carries over one command cycle. The first landed selection
   * anchors on its own reinserted copy; after that the anchor is kept, or
   * replaced by its copy when it is the one selected.
   */
  lemma LandedSoFarAdvances(e: multiset<Lander>, top: Lander, rate: real, selected: seq<Lander>,
                            anchored: bool, anchor: Lander, first: nat)
      returns (anchored': bool, anchor': Lander, first': nat)
    requires AllFlyable(e) && StrictWeakOrder(Outranks)
    requires top in e && Maximal(Outranks, e, top)
    requires LandedSoFar(e, selected, anchored, anchor, first)
    ensures LandedSoFar(AfterCommand(e, top, Stepped(top, rate)), selected + [top], anchored', anchor', first')
  {
    var stepped := Stepped(top, rate);
    if anchored {
      AnchoredAdvances(e, top, rate, anchor, selected, first);
      anchored', anchor', first' := true, if top == anchor then stepped else anchor, first;
    } else if Status(top) == 'l' {
      AnchoredStarts(e, top, rate, selected);
      anchored', anchor', first' := true, stepped, |selected|;
    } else {
      anchored', anchor', first' := false, anchor, first;
    }
  }

  /** One command cycle: `top` is a stored lander that nothing outranks, and `after` is what the command leaves. */
  ghost predicate CommandStep(before: multiset<Lander>, top: Lander, rate: real, after: multiset<Lander>) {
    && AllFlyable(before) && top in before && Flyable(top) && Maximal(Outranks, before, top)
    && after == AfterCommand(before, top, Stepped(top, rate))
  }

  /**
   * The queue's contents over the command loop: states[k] is what it holds
   * before command k and states[|selected|] what it holds after the last one;
   * each command selects a stored lander that nothing outranks and leaves
   * the next state.
   */
  ghost predicate Trace(states: seq<multiset<Lander>>, selected: seq<Lander>, rates: seq<real>) {
    && |states| == |selected| + 1 && |selected| <= |rates|
    && AllFlyable(states[|selected|])
    && (forall k :: 0 <= k < |selected| ==> Flyable(selected[k]))
    && (forall k :: 0 <= k < |selected| ==> CommandStep(states[k], selected[k], rates[k], states[k + 1]))
  }

  /** The stepped copies of the selected landers that crashed, in command order. */
  function CrashedCopies(selected: seq<Lander>, rates: seq<real>): (r: seq<Lander>)
    requires |selected| <= |rates|
    requires forall k :: 0 <= k < |selected| ==> Flyable(selected[k])
    ensures |r| <= |selected|
    ensures forall i :: 0 <= i < |r| ==> Status(r[i]) == 'c'
    decreases |selected|
  {
    if selected == [] then []
    else
      var n := |selected| - 1;
      assert Flyable(selected[n]);
      var copy := Stepped(selected[n], rates[n]);
      CrashedCopies(selected[..n], rates) + if Status(copy) == 'c' then [copy] else []
  }

  /** One more command cycle extends the trace by the state it leaves. */
  lemma TraceExtends(states: seq<multiset<Lander>>, selected: seq<Lander>, rates: seq<real>,
                     top: Lander, after: multiset<Lander>)
    requires Trace(states, selected, rates) && |selected| < |rates|
    requires CommandStep(states[|selected|], top, rates[|selected|], after)
    requires AllFlyable(after)
    ensures Trace(states + [after], selected + [top], rates)
  {
    var states', selected' := states + [after], selected + [top];
    forall k | 0 <= k < |selected'|
      ensures Flyable(selected'[k]) && CommandStep(states'[k], selected'[k], rates[k], states'[k + 1])
    {
      if k < |selected| {
        assert selected'[k] == selected[k] && states'[k] == states[k] && states'[k + 1] == states[k + 1];
      }
    }
  }

  /** Stored plus crashed landers account for the initial ones at every point of the trace. */
  lemma {:induction false} TraceAccounts(states: seq<multiset<Lander>>, selected: seq<Lander>, rates: seq<real>, n: nat)
    requires Trace(states, selected, rates) && n <= |selected|
    ensures |states[n]| + |CrashedCopies(selected[..n], rates)| == |states[0]|
    decreases n
  {
    if 0 < n {
      TraceAccounts(states, selected, rates, n - 1);
      assert CommandStep(states[n - 1], selected[n - 1], rates[n - 1], states[n]);
      var copy := Stepped(selected[n - 1], rates[n - 1]);
      assert |states[n]| == if Status(copy) == 'c' then |states[n - 1]| - 1 else |states[n - 1]|;
      assert selected[..n][..n - 1] == selected[..n - 1] && selected[..n][n - 1] == selected[n - 1];
    }
  }

  /** A lander stored at the start and never selected is still stored at every later point of the trace. */
  lemma {:induction false} TraceKeepsUnselected(states: seq<multiset<Lander>>, selected: seq<Lander>, rates: seq<real>,
                                               x: Lander, n: nat)
    requires Trace(states, selected, rates) && n <= |selected|
    requires x in states[0] && x !in selected[..n]
    ensures x in states[n]
    decreases n
  {
    if 0 < n {
      assert selected[..n - 1] == selected[..n][..n - 1];
      TraceKeepsUnselected(states, selected, rates, x, n - 1);
      assert selected[..n][n - 1] == selected[n - 1];
    }
  }

  /**
   * What LandedSoFar says once the loop is over: every selection from the
   * first landed one on has its rank key, and a landed lander with that key
   * is still stored.
   */
  lemma LandedSoFarConcludes(e: multiset<Lander>, selected: seq<Lander>, anchored: bool, anchor: Lander, first: nat)
    requires LandedSoFar(e, selected, anchored, anchor, first)
    ensures (exists k :: 0 <= k < |selected| && Status(selected[k]) == 'l') ==> anchored && anchor in e
    ensures forall k :: 0 <= k < |selected| && Status(selected[k]) == 'l' ==>
      && (forall j :: k <= j < |selected| ==> RankKey(selected[j]) == RankKey(selected[k]))
      && (exists l :: l in e && Status(l) == 'l' && RankKey(l) == RankKey(selected[k]))
  {
    if anchored {
      forall k | 0 <= k < |selected| && Status(selected[k]) == 'l'
        ensures && (forall j :: k <= j < |selected| ==> RankKey(selected[j]) == RankKey(selected[k]))
                && (exists l :: l in e && Status(l) == 'l' && RankKey(l) == RankKey(selected[k]))
      {
        assert first <= k && RankKey(selected[k]) == RankKey(anchor);
      }
    }
  }

  /**
   * One pass of the command loop's body: ProcessCommand, then the selected
   * lander is reported and a crashed copy recorded. The trace gains the
   * state the command leaves.
   */
  method Command(q: PriorityQ<Lander>, rate: real, selected: seq<Lander>, crashes: seq<Lander>,
                 ghost commands: seq<real>, ghost states: seq<multiset<Lander>>,
                 ghost anchored: bool, ghost anchor: Lander, ghost first: nat)
      returns (selected': seq<Lander>, crashes': seq<Lander>, ghost states': seq<multiset<Lander>>,
               ghost anchored': bool, ghost anchor': Lander, ghost first': nat)
    requires q.Valid() && q.greater == Outranks && !q.IsEmpty() && AllFlyable(q.Elements())
    requires Trace(states, selected, commands) && |selected| < |commands| && rate == commands[|selected|]
    requires q.Elements() == states[|selected|] && crashes == CrashedCopies(selected, commands)
    requires LandedSoFar(q.Elements(), selected, anchored, anchor, first)
    modifies q.Repr
    ensures q.Valid() && fresh(q.Repr - old(q.Repr)) && AllFlyable(q.Elements())
    ensures |selected'| == |selected| + 1 && selected'[..|selected|] == selected
    ensures Trace(states', selected', commands) && states'[..|states|] == states
    ensures q.Elements() == states'[|selected'|] && crashes' == CrashedCopies(selected', commands)
    ensures LandedSoFar(q.Elements(), selected', anchored', anchor', first')
  {
    ghost var before := q.Elements();
    var top, stepped, crashed := ProcessCommand(q, rate);
    anchored', anchor', first' := LandedSoFarAdvances(before, top, rate, selected, anchored, anchor, first);
    TraceExtends(states, selected, commands, top, q.Elements());
    selected' := selected + [top];
    states' := states + [q.Elements()];
    assert selected'[..|selected|] == selected;
    crashes' := if crashed then crashes + [stepped] else crashes;
  }

  /**
   * The command loop of simulateLanding: one ProcessCommand cycle per
   * command until the commands run out or the heap is empty. The ghost
   * `states` traces the queue's contents: each selection is a stored lander
   * that nothing outranks, each state is what the previous command left,
   * and the crashes are the stepped copies that crashed. Once a landed
   * lander is selected it absorbs every later command: the loop runs to the
   * last command, every later selection has its rank key, and a landed
   * lander with that key is still stored at the end.
   */
  method RunCommands(commands: seq<real>, q: PriorityQ<Lander>)
      returns (selected: seq<Lander>, crashes: seq<Lander>, ghost states: seq<multiset<Lander>>,
               ghost anchored: bool, ghost anchor: Lander, ghost first: nat)
    requires q.Valid() && q.greater == Outranks && AllFlyable(q.Elements())
    modifies q.Repr
    ensures q.Valid() && q.greater == Outranks && fresh(q.Repr - old(q.Repr))
    ensures Trace(states, selected, commands) && states[0] == old(q.Elements())
    ensures q.Elements() == states[|selected|]
    ensures crashes == CrashedCopies(selected, commands)
    ensures |selected| < |commands| ==> q.IsEmpty()
    ensures LandedSoFar(q.Elements(), selected, anchored, anchor, first)
  {
    OutranksIsStrictWeakOrder();
    selected, crashes := [], [];
    states := [q.Elements()];
    anchored, anchor, first := false, NewLander(0.0, 0.0, 0.0, 0.0, 0.0, 0), 0;
    var n := 0;
    while n < |commands| && !q.IsEmpty()
      invariant q.Valid() && q.greater == Outranks && fresh(q.Repr - old(q.Repr))
      invariant AllFlyable(q.Elements())
      invariant n == |selected| <= |commands|
      invariant Trace(states, selected, commands) && states[0] == old(q.Elements())
      invariant q.Elements() == states[|selected|] && crashes == CrashedCopies(selected, commands)
      invariant LandedSoFar(q.Elements(), selected, anchored, anchor, first)
      decreases |commands| - n
    {
      selected, crashes, states, anchored, anchor, first :=
        Command(q, commands[n], selected, crashes, commands, states, anchored, anchor, first);
      n := n + 1;
    }
  }

  /**
   * simulateLanding with the command file as `commands`, each a flow rate in
   * [0, 1] (the source spins forever on any other value): the command loop,
   * then the drain of the landers still trying to land. The ghost `states`
   * is the command loop's trace of the queue's contents.
   */
  method SimulateLanding(commands: seq<real>, q: PriorityQ<Lander>)
      returns (selected: seq<Lander>, crashes: seq<Lander>, aborted: seq<Lander>, ghost states: seq<multiset<Lander>>)
    requires forall i :: 0 <= i < |commands| ==> 0.0 <= commands[i] <= 1.0
    requires q.Valid() && q.greater == Outranks && AllFlyable(q.Elements())
    modifies q.Repr
    ensures q.Valid() && q.IsEmpty()
    ensures Trace(states, selected, commands) && states[0] == old(q.Elements())
    ensures crashes == CrashedCopies(selected, commands)
    ensures multiset(aborted) == states[|selected|]
    ensures |selected| < |commands| ==> states[|selected|] == multiset{} && |crashes| == |old(q.Elements())|
    ensures |crashes| + |aborted| == |old(q.Elements())|
    ensures forall x :: x in old(q.Elements()) && x !in selected ==> x in aborted
    ensures forall i, j :: 0 <= i < j < |aborted| ==> !Outranks(aborted[j], aborted[i])
    ensures forall k :: 0 <= k < |selected| && Status(selected[k]) == 'l' ==>
      && |selected| == |commands|
      && (forall j :: k <= j < |selected| ==> RankKey(selected[j]) == RankKey(selected[k]))
      && (exists i :: 0 <= i < |aborted| && Status(aborted[i]) == 'l' && RankKey(aborted[i]) == RankKey(selected[k]))
  {
    ghost var anchored, anchor, first;
    selected, crashes, states, anchored, anchor, first := RunCommands(commands, q);
    ghost var remaining := q.Elements();
    LandedSoFarConcludes(remaining, selected, anchored, anchor, first);
    aborted := Drain(q);
    TraceAccounts(states, selected, commands, |selected|);
    assert selected[..|selected|] == selected;
    forall x | x in states[0] && x !in selected
      ensures x in multiset(aborted)
    {
      TraceKeepsUnselected(states, selected, commands, x, |selected|);
    }
    forall k | 0 <= k < |selected| && Status(selected[k]) == 'l'
      ensures exists i :: 0 <= i < |aborted| && Status(aborted[i]) == 'l' && RankKey(aborted[i]) == RankKey(selected[k])
    {
      var l :| l in remaining && Status(l) == 'l' && RankKey(l) == RankKey(selected[k]);
      assert l in multiset(aborted);
      var i :| 0 <= i < |aborted| && aborted[i] == l;
    }
  }
}
