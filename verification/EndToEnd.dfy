/**
 From the flow tables to the kernel: what holds of every cached flow once the barrier of
 a connection has been answered.
 */
module EndToEnd {
  import opened Keys
  import opened Pipeline
  import opened MegaflowExactness
  import opened Decision
  import opened CacheCoherence
  import opened Barrier
  import Kflow
  import F = FlowState
  import FlowMatch
  import FlowTables

  /** The sixteen tables of the switch, and the configuration the pipeline reads off them. */
  ghost predicate Serves(tables: seq<FlowTables.Table>, c: Config, version: FlowMatch.Version)
    reads tables, set t | t in tables :: t.tcam
  {
    && |tables| == NUM_TABLES && |c.tables| == NUM_TABLES
    && forall t :: 0 <= t < NUM_TABLES ==>
         && tables[t].Valid() && tables[t].id == t && tables[t].version == version
         && tables[t].tcam.mm == c.mm && c.tables[t] == tables[t].Snapshot()
  }

  ghost predicate FlowMeansIfSettled(c: Config, ib: Inband, f: F.Kflow) {
    ConfigOk(c) && Sized(f.raw.key.cells) && (Settled(c, ib, f.raw.key) ==> FlowMeans(c, ib, f))
  }

  lemma MeansIfSettled(cache: Kflow.Cache, c: Config, ib: Inband, f: F.Kflow)
    requires Implements(cache.pipeline, c, ib) && ConfigOk(c) && FlowHolds(cache, c, ib, f)
    ensures FlowMeansIfSettled(c, ib, f)
  {
    hide ConfigOk, FlowMeans, Settled;
    if Settled(c, ib, f.raw.key) {
      HeldFlowMeans(cache, c, ib, f);
    }
  }

  /**
   The timer, a barrier or a full table revalidates, over tables reached by any run of
   flow-mods.  Every kernel flow that the switch manages then does to every packet it covers
   what the flow tables say, exactly when the decision on its own key is settled; from
   OpenFlow 1.2 on the tables are scoped, so that only a TTL can be unsettled.  What the
   tables say is what they mean for the packet: which packets leave, where, and in which order.
   */
  method RevalidateRight(s: Scheduler, ghost tables: seq<FlowTables.Table>, ghost c: Config, ghost ib: Inband,
                         ghost version: FlowMatch.Version)
    requires s.Valid() && Serves(tables, c, version)
    requires ConfigOk(c) ==> Implements(s.cache.pipeline, c, ib)
    modifies s, s.blocked, s.cache, s.cache.tcam
    ensures s.Valid() && (forall cxn :: !s.Blocked(cxn)) && s.floor == s.cache.Version()
    ensures ConfigOk(c) && (!FlowMatch.Early(version) ==> TablesScoped(c))
    ensures forall id :: id in s.cache.flows ==> FlowHolds(s.cache, c, ib, s.cache.flows[id])
    ensures forall id :: id in s.cache.flows ==> FlowMeansIfSettled(c, ib, s.cache.flows[id])
  {
    FlowTables.TablesMakeConfig(tables, c);
    hide Kflow.Cache.Valid, ConfigOk, Implements, TablesScoped, FlowHolds, NotBefore, GuardsBut, FlowTables.Table.Valid,
      FlowMeansIfSettled;
    s.Revalidate();
    RevalidatedCacheIsRight(s.cache, c, ib);
    forall id | id in s.cache.flows ensures FlowMeansIfSettled(c, ib, s.cache.flows[id]) {
      MeansIfSettled(s.cache, c, ib, s.cache.flows[id]);
    }
  }
}
