/**
 Two chains that run the exchange against each other: users, blocks, publication of locked batches and
 their delivery in any order, late, repeatedly or never. The alternating pipeline refines one market
 that runs the delivered batches one after the other, each exactly once.
 */
module Pipeline {
  import opened Options
  import opened Ledger
  import opened PoolPoints
  import opened Amm
  import opened Batches
  import opened Conservation

  datatype Side = Root | Nested {
    function Other(): Side {
      if Root? then Nested else Root
    }
  }

  /** A batch that the counter chain has executed, and the pseudorandom order in which it did. */
  datatype Entry = Entry(of: Side, batch: Batch, queue: seq<nat>)

  /** The archives hold every locked batch that a chain has ever shown to the other one. */
  datatype World = World(root: Chain, nested: Chain, rootArchive: set<Batch>, nestedArchive: set<Batch>, history: seq<Entry>) {

    function At(s: Side): Chain {
      if s.Root? then root else nested
    }

    function With(s: Side, c: Chain): World {
      if s.Root? then this.(root := c) else this.(nested := c)
    }

    function Archive(s: Side): set<Batch> {
      if s.Root? then rootArchive else nestedArchive
    }

    function Archiving(s: Side, b: Batch): World {
      if s.Root? then this.(rootArchive := rootArchive + {b}) else this.(nestedArchive := nestedArchive + {b})
    }
  }

  // ---------------------------------------------------------------------------------------------
  // The abstract market
  // ---------------------------------------------------------------------------------------------

  /** The market as one side sees it: its own reserve first. The abstract market has the root chain's reserve first. */
  function SeenFrom(m: Market, s: Side): Market {
    if s.Root? then m else m.Mirrored()
  }

  ghost function RunEntry(m: Market, e: Entry): Option<BatchRun> {
    if !Permutation(e.queue, |e.batch.orders|) then None
    else RunBatch(SeenFrom(m, e.of), e.batch.orders, e.batch.withdrawals, e.batch.deposits, e.queue)
  }

  /** The abstract market after running a history of batches; None if it rejects one of them. */
  ghost function MarketAfter(m0: Market, history: seq<Entry>): Option<Market> {
    if history == [] then Some(m0)
    else
      var last := history[|history| - 1];
      var before :- MarketAfter(m0, history[..|history| - 1]);
      var run :- RunEntry(before, last);
      Some(SeenFrom(run.market, last.of))
  }

  lemma {:induction false} MarketStaysSound(m0: Market, history: seq<Entry>)
    requires m0.Sound()
    requires MarketAfter(m0, history).Some?
    ensures MarketAfter(m0, history).value.Sound()
    decreases |history|
  {
    if history != [] {
      var last, prefix := history[|history| - 1], history[..|history| - 1];
      MarketStaysSound(m0, prefix);
      var before := SeenFrom(MarketAfter(m0, prefix).value, last.of);
      assert before.Sound() by {
        assert before.x * before.y == before.y * before.x;
      }
      BatchKeepsSound(before, last.batch.orders, last.batch.withdrawals, last.batch.deposits, last.queue);
      var after := RunEntry(MarketAfter(m0, prefix).value, last).value.market;
      assert after.x * after.y == after.y * after.x;
    }
  }

  // ---------------------------------------------------------------------------------------------
  // Steps
  // ---------------------------------------------------------------------------------------------

  datatype Event =
    | Sell(s: Side, order: Order)
    | Provide(s: Side, deposit: Deposit)
    | Leave(s: Side, withdrawal: Withdrawal)
    | Outside(s: Side, accounts: map<Address, nat>)
    | EndBlock(s: Side)
    | Publish(s: Side)
    | Deliver(s: Side, batch: Batch, queue: seq<nat>)

  /**
   Whatever else moves a chain's balances keeps them within 64 bits; a batch is only shown once its block
   has ended; a delivered batch has been shown by the other side.
   */
  ghost predicate Enabled(w: World, e: Event) {
    match e
    case Outside(s, accounts) => Funds(w.At(s).(accounts := accounts)) <= MAX_UINT64
    case Publish(s) => w.At(s).locked.Some? ==> w.At(s).locked.value.lockedHeight < w.At(s).height
    case Deliver(s, batch, queue) => batch in w.Archive(s.Other()) && Permutation(queue, |batch.orders|)
    case _ => true
  }

  /** A handler that fails leaves no trace. */
  function Attempt(c: Chain, r: Option<Chain>): Chain {
    if r.Some? then r.value else c
  }

  /** The delivery is neither empty nor early, and its handling succeeds. */
  predicate Executes(c: Chain, batch: Batch, queue: seq<nat>)
    requires Queueable(queue, batch.orders)
  {
    && !batch.IsEmpty()
    && (c.Locked().IsEmpty() || Answers(batch.Copy(), c.Locked()))
    && HandleDexBatch(c, Some(batch), queue).Some?
  }

  /** A step of one chain alone. */
  function Local(c: Chain, e: Event): Chain {
    match e
    case Sell(_, o) => Attempt(c, LimitOrder(c, o))
    case Provide(_, d) => Attempt(c, LiquidityDeposit(c, d))
    case Leave(_, l) => Attempt(c, LiquidityWithdraw(c, l))
    case Outside(_, accounts) => c.(accounts := accounts)
    case EndBlock(_) => IncludeSameBlock(c).(height := c.height + 1)
    case _ => c
  }

  ghost function Step(w: World, e: Event): World
    requires Enabled(w, e)
  {
    match e
    case Publish(s) => w.Archiving(s, w.At(s).Locked())
    case Deliver(s, batch, queue) => Delivered(w, s, batch, queue)
    case _ => w.With(e.s, Local(w.At(e.s), e))
  }

  function Delivered(w: World, s: Side, batch: Batch, queue: seq<nat>): World
    requires Queueable(queue, batch.orders)
  {
    var c := w.At(s);
    var w1 := w.With(s, Attempt(c, HandleDexBatch(c, Some(batch), queue)));
    if Executes(c, batch, queue) then w1.(history := w.history + [Entry(s.Other(), batch, queue)]) else w1
  }

  // ---------------------------------------------------------------------------------------------
  // What every reachable world keeps
  // ---------------------------------------------------------------------------------------------

  /** How many batches a hash is a receipt for, directly or through its receipts. */
  function Depth(h: Hash): nat {
    match h
    case HashOf(b) => 1 + Depth(b.receiptHash)
    case _ => 0
  }

  /** Nothing of a fallback is attached. */
  predicate Plain(b: Batch) {
    !b.livenessFallback && b.poolPoints.None?
  }

  /** One chain on its own: money is accounted for, and the collected batch carries no receipts yet. */
  ghost predicate Healthy(c: Chain) {
    && HoldingExact(c) && Funds(c) <= MAX_UINT64
    && (c.next.Some? ==> Plain(c.next.value) && c.next.value.receiptHash == NoHash && c.next.value.receipts == [])
    && (c.locked.Some? ==> Plain(c.locked.value) && Depth(c.locked.value.receiptHash) > 0 && c.locked.value.lockedHeight <= c.height)
  }

  /** Whatever a chain has shown is empty, still locked, or an ancestor of what is locked. */
  predicate Shown(c: Chain, b: Batch) {
    && Plain(b)
    && (b.IsEmpty()
        || (&& c.locked.Some?
            && 0 < Depth(b.receiptHash) <= Depth(c.locked.value.receiptHash)
            && (Depth(b.receiptHash) == Depth(c.locked.value.receiptHash) ==> b == c.locked.value && b.lockedHeight < c.height)))
  }

  /** The chain's reserve and points are those of the market. */
  predicate Holds(c: Chain, m: Market, s: Side) {
    c.amount == SeenFrom(m, s).x && c.points == m.points
  }

  /** Before the first execution: a chain may have locked a first batch in answer to an empty one. */
  predicate Fresh(c: Chain, m: Market, s: Side) {
    && Holds(c, m, s)
    && (c.locked.Some? ==> Depth(c.locked.value.receiptHash) == 1 && c.locked.value.poolSize == c.amount)
  }

  /** The chain whose batch was executed last still waits at the market before it. */
  predicate Waits(c: Chain, e: Entry, before: Market) {
    Holds(c, before, e.of) && c.locked == Some(e.batch) && e.batch.lockedHeight < c.height
  }

  /** The chain that executed it is at the market after it, and has locked an answer with the receipts and the reserve before it. */
  predicate HasAnswered(c: Chain, e: Entry, before: Market, run: BatchRun) {
    && c.amount == run.market.y && c.points == run.market.points
    && c.locked.Some?
    && var answer := c.locked.value;
    && answer.receiptHash == HashOf(e.batch) && answer.receipts == run.receipts && answer.poolSize == SeenFrom(before, e.of.Other()).x
  }

  ghost predicate Engaged(w: World, m0: Market) {
    var n := |w.history|;
    && n > 0
    && var last := w.history[n - 1];
    && Depth(last.batch.receiptHash) == n
    && MarketAfter(m0, w.history[..n - 1]).Some?
    && var before := MarketAfter(m0, w.history[..n - 1]).value;
    && RunEntry(before, last).Some?
    && Waits(w.At(last.of), last, before)
    && HasAnswered(w.At(last.of.Other()), last, before, RunEntry(before, last).value)
  }

  ghost predicate HealthyWith(c: Chain, archive: set<Batch>) {
    Healthy(c) && forall b :: b in archive ==> Shown(c, b)
  }

  /** The executed batches come from the two sides in turn, and each is the answer to the one before it. */
  predicate Linked(history: seq<Entry>) {
    && (forall i :: 0 <= i < |history| ==> Depth(history[i].batch.receiptHash) == i + 1)
    && (forall i :: 0 < i < |history| ==>
          history[i].of == history[i - 1].of.Other() && history[i].batch.receiptHash == HashOf(history[i - 1].batch))
  }

  ghost predicate Inv(w: World, m0: Market) {
    && m0.Sound()
    && HealthyWith(w.root, w.rootArchive) && HealthyWith(w.nested, w.nestedArchive)
    && Linked(w.history)
    && (if w.history == [] then Fresh(w.root, m0, Root) && Fresh(w.nested, m0, Nested) else Engaged(w, m0))
  }

  /** Both chains start from the same market with nothing locked; users may have begun to collect. */
  ghost predicate Init(w: World, m0: Market) {
    && m0.Sound()
    && Healthy(w.root) && w.root.locked.None? && Holds(w.root, m0, Root)
    && Healthy(w.nested) && w.nested.locked.None? && Holds(w.nested, m0, Nested)
    && w.rootArchive == {} && w.nestedArchive == {} && w.history == []
  }

  // ---------------------------------------------------------------------------------------------
  // Steps that touch one chain's users and blocks only
  // ---------------------------------------------------------------------------------------------

  /** Reserve and points stay, and so does the lock, except that a batch locked in this block may still take in operations. */
  predicate Evolves(c: Chain, d: Chain) {
    && d.amount == c.amount && d.points == c.points && c.height <= d.height
    && (c.locked.None? ==> d.locked.None?)
    && (c.locked.Some? ==>
          && d.locked.Some?
          && (c.locked.value.lockedHeight < c.height ==> d.locked == c.locked)
          && var a, b := c.locked.value, d.locked.value;
          (a.receiptHash, a.receipts, a.poolSize) == (b.receiptHash, b.receipts, b.poolSize))
  }

  lemma EvolutionKeepsInv(w: World, m0: Market, s: Side, d: Chain)
    requires Inv(w, m0)
    requires Healthy(d) && Evolves(w.At(s), d)
    ensures Inv(w.With(s, d), m0)
  {
    assert HealthyWith(d, w.Archive(s));
    if w.history != [] {
      EvolutionKeepsEngaged(w, m0, s, d);
    }
  }

  lemma EvolutionKeepsEngaged(w: World, m0: Market, s: Side, d: Chain)
    requires Engaged(w, m0)
    requires Evolves(w.At(s), d)
    ensures Engaged(w.With(s, d), m0)
  {
    var w' := w.With(s, d);
    var n := |w.history|;
    var last, before := w.history[n - 1], MarketAfter(m0, w.history[..n - 1]).value;
    assert w'.At(s) == d && w'.At(s.Other()) == w.At(s.Other());
    assert Waits(w'.At(last.of), last, before);
    assert HasAnswered(w'.At(last.of.Other()), last, before, RunEntry(before, last).value);
  }

  lemma LocalStepEvolves(c: Chain, e: Event)
    requires Healthy(c)
    requires e.Outside? ==> Funds(c.(accounts := e.accounts)) <= MAX_UINT64
    ensures Healthy(Local(c, e)) && Evolves(c, Local(c, e))
    ensures !e.Outside? ==> Funds(Local(c, e)) == Funds(c)
  {
    match e
    case Sell(_, o) => OrderKeepsHolding(c, o);
    case Provide(_, p) => DepositKeepsHolding(c, p);
    case EndBlock(_) => InclusionKeepsHolding(c);
    case _ =>
  }

  lemma ArchivingKeepsEngaged(w: World, m0: Market, s: Side)
    requires Engaged(w, m0)
    ensures Engaged(w.Archiving(s, w.At(s).Locked()), m0)
  {
    var w' := w.Archiving(s, w.At(s).Locked());
    assert w'.At(s) == w.At(s) && w'.At(s.Other()) == w.At(s.Other());
  }

  lemma PublishKeepsInv(w: World, m0: Market, s: Side)
    requires Inv(w, m0)
    requires Enabled(w, Publish(s))
    ensures Inv(Step(w, Publish(s)), m0)
  {
    var w' := w.Archiving(s, w.At(s).Locked());
    assert Shown(w.At(s), w.At(s).Locked());
    assert HealthyWith(w'.root, w'.rootArchive) && HealthyWith(w'.nested, w'.nestedArchive);
    if w.history != [] {
      ArchivingKeepsEngaged(w, m0, s);
    }
  }

  // ---------------------------------------------------------------------------------------------
  // Deliveries
  // ---------------------------------------------------------------------------------------------

  /** A batch nothing of which is a fallback's is hashed as it is. */
  lemma PlainHash(b: Batch)
    requires Plain(b)
    ensures b.Copy() == b
    ensures b.LinkHash() == b.Hashed()
    ensures !b.IsEmpty() ==> b.Hashed() == HashOf(b)
    ensures b.IsEmpty() ==> Depth(b.Hashed()) == 1
    ensures Depth(b.Hashed()) == 1 + Depth(b.receiptHash)
  {
    assert b == b.(poolPoints := None);
    assert b == b.(livenessFallback := false);
  }

  /** A delivery opens the exchange, runs the delivered batch as the next one of the history, or changes nothing. */
  ghost predicate Outcome(w: World, w': World, s: Side, batch: Batch, queue: seq<nat>) {
    && Funds(w'.At(s)) == Funds(w.At(s)) && w'.At(s.Other()) == w.At(s.Other())
    && (|| w' == w
        || (batch.IsEmpty() && w.At(s).locked.None? && w'.history == w.history == [])
        || (!batch.IsEmpty() && w'.history == w.history + [Entry(s.Other(), batch, queue)]))
  }

  /** An empty batch only makes a chain without a lock lock its first batch. */
  lemma EmptyDelivery(w: World, m0: Market, s: Side, batch: Batch, queue: seq<nat>)
    requires Inv(w, m0)
    requires Enabled(w, Deliver(s, batch, queue)) && batch.IsEmpty()
    ensures var w' := Step(w, Deliver(s, batch, queue));
      && Inv(w', m0) && Outcome(w, w', s, batch, queue)
  {
    var c := w.At(s);
    assert Shown(w.At(s.Other()), batch);
    PlainHash(batch);
    HoldsIsPositive(w, m0, s);
    var d := Rotate(c, batch.LinkHash(), c.amount, []);
    assert HandleDexBatch(c, Some(batch), queue) == Some(d);
    if c.locked.None? {
      RotateKeepsHolding(c, batch.LinkHash(), c.amount, []);
      assert HealthyWith(d, w.Archive(s));
    } else {
      assert w.With(s, c) == w;
    }
  }

  /** No chain's reserve is ever zero. */
  lemma HoldsIsPositive(w: World, m0: Market, s: Side)
    requires Inv(w, m0)
    ensures w.At(s).amount > 0
  {
    if w.history != [] {
      MarketStaysSound(m0, w.history);
      MarketStaysSound(m0, w.history[..|w.history| - 1]);
    }
  }

  /** What the counter chain's archive can contain for a chain: its answer or, before any execution, its first batch. */
  lemma OnlyTheAnswerAnswers(w: World, m0: Market, s: Side, batch: Batch)
    requires Inv(w, m0)
    requires batch in w.Archive(s.Other()) && !batch.IsEmpty()
    requires var c := w.At(s); c.locked.Some? ==> Answers(batch, c.locked.value)
    ensures var c, other := w.At(s), w.At(s.Other());
      && other.locked == Some(batch) && batch.lockedHeight < other.height
      && Depth(batch.receiptHash) == |w.history| + 1
      && (c.locked.Some? <==> w.history != [])
      && (w.history != [] ==> var last := w.history[|w.history| - 1]; last.of == s && batch.receiptHash == HashOf(last.batch))
  {
    var c, other := w.At(s), w.At(s.Other());
    assert Shown(other, batch);
    if c.locked.Some? {
      PlainHash(c.locked.value);
    }
    if w.history != [] {
      var last := w.history[|w.history| - 1];
      assert last.of == s || last.of == s.Other();
    }
  }

  /** A batch that does not answer the locked one is too early or too late: nothing happens. */
  lemma UntimelyDelivery(w: World, m0: Market, s: Side, batch: Batch, queue: seq<nat>)
    requires Inv(w, m0)
    requires Enabled(w, Deliver(s, batch, queue)) && !batch.IsEmpty()
    requires var c := w.At(s); c.locked.Some? && !Answers(batch, c.locked.value)
    ensures Step(w, Deliver(s, batch, queue)) == w
    ensures Outcome(w, w, s, batch, queue)
  {
    var c := w.At(s);
    assert Shown(w.At(s.Other()), batch);
    PlainHash(batch);
    HoldsIsPositive(w, m0, s);
    assert HandleDexBatch(c, Some(batch), queue) == Some(c);
    assert w.With(s, c) == w;
  }

  /** The chain after executing a batch has locked the answer to it. */
  predicate AnswersLocked(c: Chain, d: Chain, batch: Batch, receipts: seq<nat>) {
    && d.height == c.height
    && d.locked.Some?
    && var answer := d.locked.value;
    && answer.receiptHash == HashOf(batch) && answer.receipts == receipts && answer.poolSize == c.amount
  }

  /** Executing a batch on a chain without a lock is running it on the market, and locks the answer. */
  lemma ExecuteAndLock(c: Chain, batch: Batch, queue: seq<nat>, mirror: nat)
    requires Healthy(c) && c.locked.None?
    requires Plain(batch) && !batch.IsEmpty()
    requires Permutation(queue, |batch.orders|)
    requires Market(mirror, c.amount, c.points).Sound()
    ensures var run := RunBatch(Market(mirror, c.amount, c.points), batch.orders, batch.withdrawals, batch.deposits, queue);
      && (ExecuteRemote(c, batch, queue, mirror).Some? <==> run.Some?)
      && (run.Some? ==>
        var e := ExecuteRemote(c, batch, queue, mirror).value;
        var d := Rotate(e.chain, batch.LinkHash(), c.amount, e.receipts);
        Healthy(d) && Funds(d) == Funds(c) && AnswersLocked(c, d, batch, run.value.receipts)
        && d.amount == run.value.market.y && d.points == run.value.market.points)
  {
    ExecuteRefinesMarket(c, batch, queue, mirror);
    PlainHash(batch);
    var e := ExecuteRemote(c, batch, queue, mirror);
    if e.Some? {
      RotateKeepsHolding(e.value.chain, batch.LinkHash(), c.amount, e.value.receipts);
    }
  }

  /** The chain that has executed a batch is after it on the market, and the chain that locked it waits before it. */
  lemma EntryEngages(w: World, m0: Market, e: Entry, before: Market, c: Chain)
    requires |w.history| > 0 && w.history[|w.history| - 1] == e
    requires MarketAfter(m0, w.history[..|w.history| - 1]) == Some(before)
    requires RunEntry(before, e).Some?
    requires Waits(w.At(e.of), e, before)
    requires Depth(e.batch.receiptHash) == |w.history|
    requires var run := RunEntry(before, e).value;
      && Holds(c, before, e.of.Other()) && AnswersLocked(c, w.At(e.of.Other()), e.batch, run.receipts)
      && w.At(e.of.Other()).amount == run.market.y && w.At(e.of.Other()).points == run.market.points
    ensures Engaged(w, m0)
  {
  }

  lemma EntryKeepsInv(w: World, m0: Market, s: Side, batch: Batch, queue: seq<nat>, c: Chain, d: Chain, before: Market)
    requires Inv(w, m0)
    requires batch in w.Archive(s.Other()) && !batch.IsEmpty()
    requires w.At(s).locked.Some? ==> Answers(batch, w.At(s).locked.value)
    requires MarketAfter(m0, w.history) == Some(before)
    requires Holds(c, before, s) && Holds(w.At(s.Other()), before, s.Other()) && c.height == w.At(s).height
    requires var run := RunEntry(before, Entry(s.Other(), batch, queue));
      && run.Some? && Healthy(d) && AnswersLocked(c, d, batch, run.value.receipts)
      && d.amount == run.value.market.y && d.points == run.value.market.points
    ensures Inv(w.With(s, d).(history := w.history + [Entry(s.Other(), batch, queue)]), m0)
  {
    var entry := Entry(s.Other(), batch, queue);
    var w' := w.With(s, d).(history := w.history + [entry]);
    OnlyTheAnswerAnswers(w, m0, s, batch);
    assert w'.history[..|w.history|] == w.history;
    assert w'.At(s) == d && w'.At(s.Other()) == w.At(s.Other());
    LinkedGrows(w.history, entry);
    EntryEngages(w', m0, entry, before, c);
    ArchiveStaysShown(w, m0, s, d, |w.history| + 2);
  }

  lemma LinkedGrows(history: seq<Entry>, e: Entry)
    requires Linked(history)
    requires Depth(e.batch.receiptHash) == |history| + 1
    requires history != [] ==> var last := history[|history| - 1]; e.of == last.of.Other() && e.batch.receiptHash == HashOf(last.batch)
    ensures Linked(history + [e])
  {
  }

  /** A deeper lock leaves everything that was shown before behind it. */
  lemma ArchiveStaysShown(w: World, m0: Market, s: Side, d: Chain, depth: nat)
    requires Inv(w, m0)
    requires depth > |w.history| + 1
    requires Healthy(d) && d.locked.Some? && Depth(d.locked.value.receiptHash) == depth
    ensures HealthyWith(d, w.Archive(s))
  {
    forall b | b in w.Archive(s)
      ensures Shown(d, b)
    {
      assert Shown(w.At(s), b);
      if w.At(s).locked.Some? {
        DepthOfLock(w, m0, s);
      }
    }
  }

  /** A lock is never more than one link ahead of the history. */
  lemma DepthOfLock(w: World, m0: Market, s: Side)
    requires Inv(w, m0)
    requires w.At(s).locked.Some?
    ensures Depth(w.At(s).locked.value.receiptHash) <= |w.history| + 1
  {
    if w.history != [] {
      var last := w.history[|w.history| - 1];
      assert s == last.of || s == last.of.Other();
    }
  }

  /** Before any execution, the first batch of either chain is run on the starting market. */
  lemma FirstDelivery(w: World, m0: Market, s: Side, batch: Batch, queue: seq<nat>)
    requires Inv(w, m0) && w.history == []
    requires Enabled(w, Deliver(s, batch, queue)) && !batch.IsEmpty() && w.At(s).locked.None?
    ensures var w' := Step(w, Deliver(s, batch, queue));
      && Inv(w', m0) && Outcome(w, w', s, batch, queue)
      && (w' == w <==> RunEntry(m0, Entry(s.Other(), batch, queue)).None?)
  {
    var c := w.At(s);
    OnlyTheAnswerAnswers(w, m0, s, batch);
    assert Shown(w.At(s.Other()), batch);
    PlainHash(batch);
    HoldsIsPositive(w, m0, s);
    MirroredIsSound(m0);
    assert SeenFrom(m0, s.Other()) == Market(batch.poolSize, c.amount, c.points);
    ExecuteAndLock(c, batch, queue, batch.poolSize);
    assert ReceiptsForOurs(c, batch, batch.poolSize) == Some(Receipted(false, c, batch.poolSize));
    var r := HandleDexBatch(c, Some(batch), queue);
    if r.Some? {
      EntryKeepsInv(w, m0, s, batch, queue, c, r.value, m0);
    } else {
      assert w.With(s, c) == w;
    }
  }

  /** The receipts for a locked batch never fail, and bring the waiting chain to the market after its batch. */
  lemma ReceiptsCatchUp(w: World, m0: Market, batch: Batch)
    requires Inv(w, m0) && w.history != []
    requires var s := w.history[|w.history| - 1].of;
      && w.At(s.Other()).locked == Some(batch) && Answers(batch, w.At(s).Locked()) && Plain(batch)
    ensures var s := w.history[|w.history| - 1].of;
      && ReceiptsForOurs(w.At(s), batch, batch.poolSize).Some?
      && var r := ReceiptsForOurs(w.At(s), batch, batch.poolSize).value;
      && !r.waiting && r.chain.locked.None? && r.chain.height == w.At(s).height
      && Healthy(r.chain) && Funds(r.chain) == Funds(w.At(s))
      && Holds(r.chain, MarketAfter(m0, w.history).value, s)
      && r.mirror == SeenFrom(MarketAfter(m0, w.history).value, s).y
  {
    var n := |w.history|;
    var last := w.history[n - 1];
    var c := w.At(last.of);
    var before := MarketAfter(m0, w.history[..n - 1]).value;
    MarketStaysSound(m0, w.history[..n - 1]);
    MirroredIsSound(before);
    assert SeenFrom(before, last.of) == Market(c.amount, batch.poolSize, c.points);
    ReceiptsRefineMarket(c, batch, batch.poolSize, last.queue);
  }

  /** The answer to the waiting chain's batch lifts its lock and is run as the next batch of the history. */
  lemma AnswerDelivery(w: World, m0: Market, s: Side, batch: Batch, queue: seq<nat>)
    requires Inv(w, m0) && w.history != []
    requires Enabled(w, Deliver(s, batch, queue)) && !batch.IsEmpty()
    requires w.At(s).locked.Some? && Answers(batch, w.At(s).locked.value)
    ensures var w' := Step(w, Deliver(s, batch, queue));
      && Inv(w', m0) && Outcome(w, w', s, batch, queue)
      && MarketAfter(m0, w.history).Some?
      && (w' == w <==> RunEntry(MarketAfter(m0, w.history).value, Entry(s.Other(), batch, queue)).None?)
  {
    var c := w.At(s);
    OnlyTheAnswerAnswers(w, m0, s, batch);
    assert Shown(w.At(s.Other()), batch);
    PlainHash(batch);
    HoldsIsPositive(w, m0, s);
    ReceiptsCatchUp(w, m0, batch);
    var r := ReceiptsForOurs(c, batch, batch.poolSize).value;
    var after := MarketAfter(m0, w.history).value;
    MarketStaysSound(m0, w.history);
    MirroredIsSound(after);
    assert SeenFrom(after, s.Other()) == Market(r.mirror, r.chain.amount, r.chain.points);
    ExecuteAndLock(r.chain, batch, queue, r.mirror);
    var h := HandleDexBatch(c, Some(batch), queue);
    if h.Some? {
      EntryKeepsInv(w, m0, s, batch, queue, r.chain, h.value, after);
    } else {
      assert w.With(s, c) == w;
    }
  }

  lemma MirroredIsSound(m: Market)
    requires m.Sound()
    ensures m.Mirrored().Sound() && m.Mirrored().Mirrored() == m
  {
    assert m.x * m.y == m.y * m.x;
  }

  // ---------------------------------------------------------------------------------------------
  // Every run
  // ---------------------------------------------------------------------------------------------

  lemma DeliveryOutcome(w: World, m0: Market, s: Side, batch: Batch, queue: seq<nat>)
    requires Inv(w, m0)
    requires Enabled(w, Deliver(s, batch, queue))
    ensures Inv(Step(w, Deliver(s, batch, queue)), m0)
    ensures Outcome(w, Step(w, Deliver(s, batch, queue)), s, batch, queue)
  {
    var c := w.At(s);
    if batch.IsEmpty() {
      EmptyDelivery(w, m0, s, batch, queue);
    } else if c.locked.None? {
      OnlyTheAnswerAnswers(w, m0, s, batch);
      FirstDelivery(w, m0, s, batch, queue);
    } else if Answers(batch, c.locked.value) {
      OnlyTheAnswerAnswers(w, m0, s, batch);
      AnswerDelivery(w, m0, s, batch, queue);
    } else {
      UntimelyDelivery(w, m0, s, batch, queue);
    }
  }

  lemma LocalStepKeepsInv(w: World, m0: Market, e: Event)
    requires Inv(w, m0)
    requires Enabled(w, e) && !e.Publish? && !e.Deliver?
    ensures Inv(Step(w, e), m0)
    ensures !e.Outside? ==> Funds(Step(w, e).At(e.s)) == Funds(w.At(e.s))
  {
    var d := Local(w.At(e.s), e);
    LocalStepEvolves(w.At(e.s), e);
    EvolutionKeepsInv(w, m0, e.s, d);
    assert Step(w, e) == w.With(e.s, d);
  }

  lemma StepKeepsInv(w: World, m0: Market, e: Event)
    requires Inv(w, m0)
    requires Enabled(w, e)
    ensures Inv(Step(w, e), m0)
    ensures !e.Outside? ==> Funds(Step(w, e).At(e.s)) == Funds(w.At(e.s))
  {
    if e.Publish? {
      PublishKeepsInv(w, m0, e.s);
    } else if e.Deliver? {
      DeliveryOutcome(w, m0, e.s, e.batch, e.queue);
    } else {
      LocalStepKeepsInv(w, m0, e);
    }
  }

  /** A run: worlds linked by enabled steps, from a common starting market. */
  ghost predicate Run(m0: Market, worlds: seq<World>, events: seq<Event>) {
    && |worlds| == |events| + 1
    && Init(worlds[0], m0)
    && forall k :: 0 <= k < |events| ==> Enabled(worlds[k], events[k]) && worlds[k + 1] == Step(worlds[k], events[k])
  }

  lemma {:induction false} RunKeepsInv(m0: Market, worlds: seq<World>, events: seq<Event>, k: nat)
    requires Run(m0, worlds, events) && k <= |events|
    ensures Inv(worlds[k], m0)
  {
    if k != 0 {
      RunKeepsInv(m0, worlds, events, k - 1);
      StepKeepsInv(worlds[k - 1], m0, events[k - 1]);
    }
  }

  /** How many batches of the history a side has accounted for: all but its own last one, if that is still unanswered. */
  function Progress(w: World, s: Side): nat {
    var n := |w.history|;
    if n > 0 && w.history[n - 1].of == s then n - 1 else n
  }

  /**
   Refinement: in every run, whatever is delivered when, each side's reserve and points are exactly
   those of one abstract market after its prefix of the executed batches; the market is sound at both
   prefixes; and the reserve that a side reports with its answer is the one before the answered batch.
   */
  lemma RefinementTheorem(m0: Market, worlds: seq<World>, events: seq<Event>, k: nat, s: Side)
    requires Run(m0, worlds, events) && k <= |events|
    ensures var w := worlds[k];
      && Linked(w.history)
      && var m := MarketAfter(m0, w.history[..Progress(w, s)]);
      && m.Some? && m.value.Sound()
      && Holds(w.At(s), m.value, s)
      && (w.history != [] && Progress(w, s) == |w.history| ==>
            var before := MarketAfter(m0, w.history[..|w.history| - 1]);
            w.At(s).locked.Some? && before.Some? && w.At(s).locked.value.poolSize == SeenFrom(before.value, s).x)
  {
    RunKeepsInv(m0, worlds, events, k);
    SideFollows(worlds[k], m0, s);
  }

  lemma SideFollows(w: World, m0: Market, s: Side)
    requires Inv(w, m0)
    ensures var m := MarketAfter(m0, w.history[..Progress(w, s)]);
      && m.Some? && m.value.Sound()
      && Holds(w.At(s), m.value, s)
  {
    var n := |w.history|;
    assert w.history[..n] == w.history;
    if n > 0 {
      var last, before := w.history[n - 1], MarketAfter(m0, w.history[..n - 1]).value;
      MarketGrows(m0, w.history, before);
      assert if s == last.of then Waits(w.At(s), last, before)
             else HasAnswered(w.At(s), last, before, RunEntry(before, last).value);
    }
    MarketStaysSound(m0, w.history[..Progress(w, s)]);
  }

  lemma MarketGrows(m0: Market, history: seq<Entry>, before: Market)
    requires history != [] && MarketAfter(m0, history[..|history| - 1]) == Some(before)
    requires RunEntry(before, history[|history| - 1]).Some?
    ensures var last := history[|history| - 1];
      MarketAfter(m0, history) == Some(SeenFrom(RunEntry(before, last).value.market, last.of))
  {
  }

  /** Exactly once: no batch occurs twice in the history, and delivering an executed batch again changes nothing. */
  lemma ExactlyOnceTheorem(m0: Market, worlds: seq<World>, events: seq<Event>, k: nat, i: nat, s: Side, queue: seq<nat>)
    requires Run(m0, worlds, events) && k <= |events|
    requires i < |worlds[k].history|
    ensures forall j :: 0 <= j < |worlds[k].history| && worlds[k].history[j].batch == worlds[k].history[i].batch ==> j == i
    ensures var again := Deliver(s, worlds[k].history[i].batch, queue);
      Enabled(worlds[k], again) ==> Step(worlds[k], again) == worlds[k]
  {
    RunKeepsInv(m0, worlds, events, k);
    var w, batch := worlds[k], worlds[k].history[i].batch;
    if Enabled(w, Deliver(s, batch, queue)) {
      DeliveryOutcome(w, m0, s, batch, queue);
      if Linked(w.history + [Entry(s.Other(), batch, queue)]) {
        NoRepetition(w.history, Entry(s.Other(), batch, queue), i);
      }
    }
  }

  lemma NoRepetition(history: seq<Entry>, e: Entry, i: nat)
    requires Linked(history + [e])
    requires i < |history|
    ensures history[i].batch != e.batch
  {
    assert (history + [e])[i] == history[i];
    assert (history + [e])[|history|] == e;
  }

  /**
   The answer is handled exactly when the market accepts it: applying the receipts never fails, so the
   only way to refuse the counter chain's answer is that its own operations are refused.
   */
  lemma AnswerIsHandledExactlyWhen(m0: Market, worlds: seq<World>, events: seq<Event>, k: nat, queue: seq<nat>)
    requires Run(m0, worlds, events) && k <= |events|
    requires worlds[k].history != []
    requires var w := worlds[k];
      var s := w.history[|w.history| - 1].of;
      && w.At(s.Other()).locked.Some?
      && w.At(s.Other()).locked.value in w.Archive(s.Other())
      && Permutation(queue, |w.At(s.Other()).locked.value.orders|)
    ensures var w := worlds[k];
      var s := w.history[|w.history| - 1].of;
      var answer := w.At(s.Other()).locked.value;
      var w' := Step(w, Deliver(s, answer, queue));
      && MarketAfter(m0, w.history).Some?
      && (RunEntry(MarketAfter(m0, w.history).value, Entry(s.Other(), answer, queue)).Some? <==>
          w'.history == w.history + [Entry(s.Other(), answer, queue)])
      && (w'.history == w.history ==> w' == w)
  {
    RunKeepsInv(m0, worlds, events, k);
    var w := worlds[k];
    var last := w.history[|w.history| - 1];
    var answer := w.At(last.of.Other()).locked.value;
    PlainHash(last.batch);
    ReceiptsMatchOrders(MarketAfter(m0, w.history[..|w.history| - 1]).value, last);
    AnswerDelivery(w, m0, last.of, answer, queue);
  }

  lemma ReceiptsMatchOrders(m: Market, e: Entry)
    requires RunEntry(m, e).Some?
    ensures |RunEntry(m, e).value.receipts| == |e.batch.orders|
  {
    var seen := SeenFrom(m, e.of);
    ReceiptsPerOrder(e.batch.orders, e.queue, seen.x, seen.y, NoReceipts(|e.batch.orders|));
  }

  /** In every run each holding pool is exactly what the pending operations put there, and no step of the exchange creates or destroys tokens. */
  lemma TokensAreConserved(m0: Market, worlds: seq<World>, events: seq<Event>, k: nat, s: Side)
    requires Run(m0, worlds, events) && k < |events|
    ensures HoldingExact(worlds[k].At(s)) && HoldingExact(worlds[k + 1].At(s))
    ensures events[k] == Outside(s, worlds[k + 1].At(s).accounts) || Funds(worlds[k + 1].At(s)) == Funds(worlds[k].At(s))
  {
    RunKeepsInv(m0, worlds, events, k);
    RunKeepsInv(m0, worlds, events, k + 1);
    StepKeepsInv(worlds[k], m0, events[k]);
    if events[k].s == s.Other() {
      OtherSideStays(worlds[k], events[k]);
    }
  }

  lemma OtherSideStays(w: World, e: Event)
    requires Enabled(w, e)
    ensures Step(w, e).At(e.s.Other()) == w.At(e.s.Other())
  {
  }

  /** A batch without operations is never refused and leaves the market as it is. */
  lemma IdleBatchIsAccepted(m: Market, of: Side, batch: Batch)
    requires m.Sound()
    requires batch.orders == [] && batch.withdrawals == [] && batch.deposits == []
    ensures RunEntry(m, Entry(of, batch, [])) == Some(BatchRun(SeenFrom(m, of), []))
  {
    assert NoReceipts(0) == [];
  }
}
