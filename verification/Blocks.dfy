/**
 The two state machines at work: every step of a chain, taken by the objects that the handlers update in place, is a step
 of the run of which `Supply` speaks, and leaves books that are right.
 */
module Blocks {
  import opened Options
  import opened Ledger
  import opened Batches
  import opened Books
  import Amm
  import Bookkeeper
  import Exchange
  import Pipeline
  import Solvency
  import Supply

  /** Takes back whatever a failed handler of the exchange has written. */
  method Restore(ex: Exchange.StateMachine, c: Chain)
    modifies ex
    ensures ex.State() == c
  {
    ex.accounts, ex.holding, ex.amount, ex.points := c.accounts, c.holding, c.amount, c.points;
    ex.locked, ex.next, ex.height := c.locked, c.next, c.height;
  }

  /** One event of the exchange with a counter chain. */
  method Face(ex: Exchange.StateMachine, e: Pipeline.Event)
    requires !e.Outside? && (e.Deliver? ==> Amm.Permutation(e.queue, |e.batch.orders|))
    modifies ex
    ensures ex.State() == Solvency.Facing(old(ex.State()), e)
  {
    var c := Chain(ex.accounts, ex.holding, ex.amount, ex.points, ex.locked, ex.next, ex.height);
    var ok := true;
    match e {
      case Sell(_, o) => ok := ex.HandleMessageDexLimitOrder(o);
      case Provide(_, d) => ok := ex.HandleMessageDexLiquidityDeposit(d);
      case Leave(_, w) => ok := ex.HandleMessageDexLiquidityWithdraw(w);
      case EndBlock(_) =>
        ex.IncludeSameBlockDex();
        ex.height := ex.height + 1;
      case Deliver(_, batch, queue) => ok := ex.Handle(Some(batch), queue);
      case _ =>
    }
    if !ok {
      Restore(ex, c);
    }
  }

  /** One event of the exchange, on the money that the chain keeps in its accounts and pools. */
  method Trade(m: Bookkeeper.StateMachine, chain: ChainId, e: Pipeline.Event)
    requires Supply.Tradable(m.State(), chain, e)
    modifies m
    ensures m.State() == Supply.WithChain(old(m.State()), chain, Solvency.Facing(Supply.ChainOf(old(m.State()), chain), e))
  {
    var c := Supply.ChainOf(m.State(), chain);
    var ex := new Exchange.StateMachine(c.accounts, c.amount);
    Restore(ex, c);
    Face(ex, e);
    m.accounts := ex.accounts;
    m.pools := SetBalance(SetBalance(m.pools, HoldingPool(chain), ex.holding), LiquidityPool(chain), ex.amount);
    m.dex := m.dex[chain := Dex(ex.points, ex.locked, ex.next, ex.height)];
  }

  method RollBack(m: Bookkeeper.StateMachine, s: State)
    requires m.selfChain == s.selfChain
    modifies m
    ensures m.State() == s
  {
    m.height, m.params, m.accounts, m.pools, m.validators := s.height, s.params, s.accounts, s.pools, s.validators;
    m.orders, m.committees, m.dex, m.slashTracker, m.total, m.staked := s.orders, s.committees, s.dex, s.slashes, s.total, s.staked;
  }

  method TakeStep(m: Bookkeeper.StateMachine, step: Supply.Step)
    requires step.Trade? ==> Supply.Tradable(m.State(), step.chain, step.event)
    modifies m
    ensures m.State() == Supply.Next(old(m.State()), step)
  {
    var s, ok := m.State(), true;
    match step {
      case Deliver(t) => ok := m.ApplyTransaction(t);
      case Fund(amount, paid) => m.FundCommitteeRewardPools(amount, paid);
      case Certify(r) => ok := m.HandleCertificateResults(r);
      case Distribute => ok := m.DistributeCommitteeRewards();
      case Finish(due) => ok := m.DeleteFinishedUnstaking(due);
      case Trade(chain, event) => Trade(m, chain, event);
      case NextBlock(params) =>
        m.height, m.params, m.slashTracker := m.height + 1, params, map[];
    }
    if !ok {
      RollBack(m, s);
    }
  }

  /**
   Whatever step the objects take from right books, as long as its mint fits: the books are right again, and tokens have
   come and gone exactly as minted and burned.
   */
  method Advance(m: Bookkeeper.StateMachine, step: Supply.Step, ghost gifts: map<nat, nat>)
    requires Supply.Inv(m.State(), gifts) && Supply.MintFits(m.State(), step) && Supply.Covering(step)
    requires step.Trade? ==> Supply.Tradable(m.State(), step.chain, step.event)
    modifies m
    ensures m.State() == Supply.Next(old(m.State()), step)
    ensures Supply.Inv(m.State(), old(Supply.Given(m.State(), step, gifts)))
    ensures Supply.Conserves(old(m.State()), step, m.State())
  {
    Supply.StepConserves(m.State(), step, gifts);
    TakeStep(m, step);
  }
}
