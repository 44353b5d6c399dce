/**
 How the exchange opens. Until a first batch is executed a chain may lock its first batch in answer to an empty one; if
 both chains do so, neither lock answers the other, and nothing is ever executed.
 */
module Opening {
  import opened Options
  import opened Ledger
  import opened Amm
  import opened Batches
  import opened Conservation
  import opened Pipeline

  // ---------------------------------------------------------------------------------------------
  // Paths
  // ---------------------------------------------------------------------------------------------

  ghost predicate Path(worlds: seq<World>, events: seq<Event>) {
    && |worlds| == |events| + 1
    && forall k :: 0 <= k < |events| ==> Enabled(worlds[k], events[k]) && worlds[k + 1] == Step(worlds[k], events[k])
  }

  /** Some steps lead from one world to the other. */
  ghost predicate Leads(w: World, w': World) {
    exists worlds, events :: Path(worlds, events) && worlds[0] == w && worlds[|events|] == w'
  }

  lemma LeadsToItself(w: World)
    ensures Leads(w, w)
  {
    assert Path([w], []) && [w][0] == w;
  }

  lemma PathExtends(worlds: seq<World>, events: seq<Event>, e: Event)
    requires Path(worlds, events) && Enabled(worlds[|events|], e)
    ensures Path(worlds + [Step(worlds[|events|], e)], events + [e])
  {
    var worlds', events' := worlds + [Step(worlds[|events|], e)], events + [e];
    forall k | 0 <= k < |events'|
      ensures Enabled(worlds'[k], events'[k]) && worlds'[k + 1] == Step(worlds'[k], events'[k])
    {
      if k < |events| {
        assert worlds'[k] == worlds[k] && worlds'[k + 1] == worlds[k + 1] && events'[k] == events[k];
      }
    }
  }

  lemma LeadsByStep(w: World, w': World, e: Event)
    requires Leads(w, w') && Enabled(w', e)
    ensures Leads(w, Step(w', e))
  {
    var worlds, events :| Path(worlds, events) && worlds[0] == w && worlds[|events|] == w';
    PathExtends(worlds, events, e);
    var worlds', events' := worlds + [Step(w', e)], events + [e];
    assert worlds'[0] == w && worlds'[|events'|] == Step(w', e);
  }

  // ---------------------------------------------------------------------------------------------
  // The deadlock
  // ---------------------------------------------------------------------------------------------

  /** Both chains have locked a first batch, and nothing has been executed. */
  predicate Deadlocked(w: World) {
    w.history == [] && w.root.locked.Some? && w.nested.locked.Some?
  }

  /** A first lock answers nothing: it is a receipt for an empty batch, while the lock that it would have to answer is not empty. */
  lemma FirstLocksDoNotAnswer(w: World, m0: Market, s: Side, batch: Batch)
    requires Inv(w, m0) && Deadlocked(w) && Shown(w.At(s.Other()), batch) && !batch.IsEmpty()
    ensures !Answers(batch, w.At(s).Locked())
  {
    var c := w.At(s);
    assert Fresh(c, m0, s);
    PlainHash(c.locked.value);
    assert Depth(batch.receiptHash) == 1;
  }

  /** No step resolves the deadlock, and no delivery changes anything. */
  lemma DeadlockStays(w: World, m0: Market, e: Event)
    requires Inv(w, m0) && Deadlocked(w) && Enabled(w, e)
    ensures Deadlocked(Step(w, e))
    ensures e.Deliver? ==> Step(w, e) == w
  {
    if e.Deliver? {
      var c := w.At(e.s);
      assert Shown(w.At(e.s.Other()), e.batch);
      if e.batch.IsEmpty() {
        HoldsIsPositive(w, m0, e.s);
        assert Fresh(c, m0, e.s) && !c.Locked().IsEmpty();
        assert HandleDexBatch(c, Some(e.batch), e.queue) == Some(c);
        assert w.With(e.s, c) == w;
      } else {
        FirstLocksDoNotAnswer(w, m0, e.s, e.batch);
        UntimelyDelivery(w, m0, e.s, e.batch, e.queue);
      }
    } else if !e.Publish? {
      LocalStepEvolves(w.At(e.s), e);
    }
  }

  /** From a deadlock on, no run ever executes a batch or moves the reserves. */
  lemma {:induction false} DeadlockIsForever(m0: Market, worlds: seq<World>, events: seq<Event>, k: nat)
    requires Path(worlds, events) && Inv(worlds[0], m0) && Deadlocked(worlds[0]) && k <= |events|
    ensures Inv(worlds[k], m0) && Deadlocked(worlds[k])
    ensures Holds(worlds[k].root, m0, Root) && Holds(worlds[k].nested, m0, Nested)
  {
    if k != 0 {
      DeadlockIsForever(m0, worlds, events, k - 1);
      StepKeepsInv(worlds[k - 1], m0, events[k - 1]);
      DeadlockStays(worlds[k - 1], m0, events[k - 1]);
    }
  }

  // ---------------------------------------------------------------------------------------------
  // The start
  // ---------------------------------------------------------------------------------------------

  /** The first execution: a batch with something in it reaches a chain that has locked nothing, and the market accepts it. */
  lemma FirstExecutionExactlyWhen(w: World, m0: Market, s: Side, batch: Batch, queue: seq<nat>)
    requires Inv(w, m0) && w.history == []
    requires Enabled(w, Deliver(s, batch, queue)) && !batch.IsEmpty()
    ensures Step(w, Deliver(s, batch, queue)).history != [] <==>
      w.At(s).locked.None? && RunEntry(m0, Entry(s.Other(), batch, queue)).Some?
  {
    if w.At(s).locked.None? {
      FirstDelivery(w, m0, s, batch, queue);
    } else {
      assert Fresh(w.At(s), m0, s) && Fresh(w.At(s.Other()), m0, s.Other()) && Shown(w.At(s.Other()), batch);
      FirstLocksDoNotAnswer(w, m0, s, batch);
      UntimelyDelivery(w, m0, s, batch, queue);
    }
  }

  predicate WithoutOperations(b: Batch) {
    b.orders == [] && b.deposits == [] && b.withdrawals == []
  }

  /** No operations are pending on either chain. */
  predicate Idle(w: World) {
    && w.root.next.None? && w.nested.next.None?
    && WithoutOperations(w.root.Locked()) && WithoutOperations(w.nested.Locked())
  }

  /** A lock without anything collected beside it can be shown after its block. */
  lemma LockIsShown(w: World, m0: Market, o: Side) returns (w': World)
    requires Inv(w, m0) && w.history == []
    requires w.At(o).locked.Some? && w.At(o).next.None?
    ensures Leads(w, w') && Inv(w', m0) && w'.history == []
    ensures w'.At(o).locked == w.At(o).locked && w'.At(o.Other()) == w.At(o.Other())
    ensures w.At(o).Locked() in w'.Archive(o)
  {
    var w1 := Step(w, EndBlock(o));
    LeadsToItself(w);
    LeadsByStep(w, w, EndBlock(o));
    StepKeepsInv(w, m0, EndBlock(o));
    assert IncludeSameBlock(w.At(o)) == w.At(o);
    assert w1 == w.With(o, w.At(o).(height := w.At(o).height + 1));
    LeadsByStep(w, w1, Publish(o));
    PublishKeepsInv(w1, m0, o);
    w' := Step(w1, Publish(o));
  }

  /** If one chain has locked a batch without operations and the other none, the batch can be executed. */
  lemma LoneLockStarts(w: World, m0: Market, s: Side)
    requires Inv(w, m0) && w.history == []
    requires w.At(s).locked.None? && w.At(s.Other()).locked.Some?
    requires WithoutOperations(w.At(s.Other()).Locked()) && w.At(s.Other()).next.None?
    ensures exists w' :: Leads(w, w') && |w'.history| == 1
  {
    var o := s.Other();
    var batch := w.At(o).Locked();
    var w2 := LockIsShown(w, m0, o);
    assert Fresh(w.At(o), m0, o) && !batch.IsEmpty();
    IdleBatchIsAccepted(m0, o, batch);
    FirstExecutionExactlyWhen(w2, m0, s, batch, []);
    LeadsByStep(w, w2, Deliver(s, batch, []));
    DeliveryOutcome(w2, m0, s, batch, []);
    assert |Step(w2, Deliver(s, batch, [])).history| == 1;
  }

  lemma LeadsOn(w: World, v: World, w': World)
    requires Leads(w, v) && Leads(v, w')
    ensures Leads(w, w')
  {
    var worlds, events :| Path(worlds, events) && worlds[0] == v && worlds[|events|] == w';
    LeadsAlong(w, worlds, events, |events|);
  }

  lemma {:induction false} LeadsAlong(w: World, worlds: seq<World>, events: seq<Event>, k: nat)
    requires Path(worlds, events) && Leads(w, worlds[0]) && k <= |events|
    ensures Leads(w, worlds[k])
  {
    if k != 0 {
      LeadsAlong(w, worlds, events, k - 1);
      LeadsByStep(w, worlds[k - 1], events[k - 1]);
    }
  }

  /** Without any lock, the nested chain can lock its first batch in answer to the root chain's empty one. */
  lemma UnlockedStarts(w: World, m0: Market)
    requires Inv(w, m0) && w.history == []
    requires w.root.locked.None? && w.nested.locked.None? && w.nested.next.None?
    ensures exists w' :: Leads(w, w') && |w'.history| == 1
  {
    var empty := NewBatch(w.root.amount);
    var w1 := Step(w, Publish(Root));
    LeadsToItself(w);
    LeadsByStep(w, w, Publish(Root));
    PublishKeepsInv(w, m0, Root);
    assert empty in w1.Archive(Root) && empty.IsEmpty();
    HoldsIsPositive(w1, m0, Nested);
    var locked := NewBatch(w.nested.amount).(receiptHash := empty.LinkHash(), lockedHeight := w.nested.height);
    assert HandleDexBatch(w1.nested, Some(empty), []) == Some(w1.nested.(locked := Some(locked)));
    LeadsByStep(w, w1, Deliver(Nested, empty, []));
    EmptyDelivery(w1, m0, Nested, empty, []);
    var w2 := Step(w1, Deliver(Nested, empty, []));
    assert w2.nested == w1.nested.(locked := Some(locked)) && w2.root == w.root;
    LoneLockStarts(w2, m0, Root);
    var w' :| Leads(w2, w') && |w'.history| == 1;
    LeadsOn(w, w2, w');
  }

  /**
   When the exchange can still start: from a world before the first execution in which no operations are pending, some steps
   execute a first batch if and only if not both chains have locked one.
   */
  lemma ExchangeStartsExactlyWhen(w: World, m0: Market)
    requires Inv(w, m0) && w.history == [] && Idle(w)
    ensures (exists w' :: Leads(w, w') && w'.history != []) <==> !Deadlocked(w)
  {
    if Deadlocked(w) {
      forall w' | Leads(w, w')
        ensures w'.history == []
      {
        var worlds, events :| Path(worlds, events) && worlds[0] == w && worlds[|events|] == w';
        DeadlockIsForever(m0, worlds, events, |events|);
      }
    } else {
      if w.root.locked.Some? {
        LoneLockStarts(w, m0, Nested);
      } else if w.nested.locked.Some? {
        LoneLockStarts(w, m0, Root);
      } else {
        UnlockedStarts(w, m0);
      }
      var w' :| Leads(w, w') && |w'.history| == 1;
      assert w'.history != [];
    }
  }

  /** From every initial world without pending operations of the nested chain, some run executes a first batch. */
  lemma ExchangeStarts(w: World, m0: Market)
    requires Init(w, m0) && w.nested.next.None?
    ensures exists w' :: Leads(w, w') && |w'.history| == 1
  {
    UnlockedStarts(w, m0);
  }

  /** And so can the deadlock be reached: both chains lock their first batch in answer to the other's empty one. */
  lemma DeadlockIsReachable(w: World, m0: Market)
    requires Init(w, m0)
    ensures exists w' :: Leads(w, w') && Deadlocked(w')
  {
    LeadsToItself(w);
    var w1 := Step(w, Publish(Root));
    LeadsByStep(w, w, Publish(Root));
    PublishKeepsInv(w, m0, Root);
    var w2 := Step(w1, Publish(Nested));
    LeadsByStep(w, w1, Publish(Nested));
    PublishKeepsInv(w1, m0, Nested);
    assert NewBatch(w.root.amount) in w2.Archive(Root) && NewBatch(w.nested.amount) in w2.Archive(Nested);
    var w3 := LockFirst(w, w2, m0, Nested, NewBatch(w.root.amount));
    var w4 := LockFirst(w, w3, m0, Root, NewBatch(w.nested.amount));
    assert Deadlocked(w4);
  }

  lemma LockFirst(start: World, w: World, m0: Market, s: Side, empty: Batch) returns (w': World)
    requires Leads(start, w) && Inv(w, m0) && w.history == []
    requires w.At(s).locked.None? && empty in w.Archive(s.Other()) && empty.IsEmpty()
    ensures Leads(start, w') && Inv(w', m0) && w'.history == []
    ensures w'.At(s).locked.Some? && w'.At(s.Other()) == w.At(s.Other()) && w'.Archive(s) == w.Archive(s)
  {
    var e := Deliver(s, empty, []);
    w' := Step(w, e);
    assert Shown(w.At(s.Other()), empty);
    LeadsByStep(start, w, e);
    EmptyDelivery(w, m0, s, empty, []);
    HoldsIsPositive(w, m0, s);
  }
}
