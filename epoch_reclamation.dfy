/**
 * The per-thread bookkeeping of `EpochBasedReclaimationManager`
 * (include/reclaimer/epoch_based_reclamation.hpp): an epoch snapshot, an
 * "in critical section" flag and a retire list freed in one batch once it has
 * grown to twice the threshold.  Epochs and the active flag are recorded but
 * never consulted when freeing, and nothing ever advances the global epoch.
 *
 * As for hazard pointers, "freed" is a ghost log of the `delete[]` calls.
 */
module EpochReclamation {
  import opened Common

  const EBR_RETIRE_THRESHOLD: nat := 50

  /** Value view of a ThreadContext plus its freed log. */
  datatype Context = Context(currentEpoch: int, active: bool, retireList: seq<NodeId>, freed: seq<NodeId>)

  ghost predicate Inv(c: Context)
  {
    |c.retireList| < EBR_RETIRE_THRESHOLD * 2 && NoDups(c.freed + c.retireList)
  }

  /** A context as first used by a thread (include/reclaimer/epoch_based_reclamation.hpp:24-26). */
  function Fresh(): (c: Context)
    ensures Inv(c) && c.currentEpoch == 0 && !c.active
  {
    Context(0, false, [], [])
  }

  /** enter_critical: snapshot the global epoch and become active. */
  function AfterEnter(c: Context, globalEpoch: int): (r: Context)
    ensures r.currentEpoch == globalEpoch && r.active
    ensures r.retireList == c.retireList && r.freed == c.freed
  {
    c.(currentEpoch := globalEpoch, active := true)
  }

  /** exit_critical: become inactive and nothing else. */
  function AfterExit(c: Context): (r: Context)
    ensures !r.active && r == c.(active := false)
  {
    c.(active := false)
  }

  /** scan_and_retire: at 2 * threshold pending entries all are freed in list
      order and the list is emptied; below that nothing changes.  Neither the
      epoch nor the active flag is looked at. */
  function AfterScan(c: Context): (r: Context)
    ensures r.currentEpoch == c.currentEpoch && r.active == c.active
    ensures r.freed + r.retireList == c.freed + c.retireList
    ensures |r.retireList| < EBR_RETIRE_THRESHOLD * 2
    ensures r.retireList == c.retireList || r.retireList == []
    ensures r.retireList == [] && c.retireList != [] ==> |c.retireList| >= EBR_RETIRE_THRESHOLD * 2
  {
    if |c.retireList| >= EBR_RETIRE_THRESHOLD * 2 then
      c.(retireList := [], freed := c.freed + c.retireList)
    else c
  }

  /** retire_node(p): append p, then scan once the list holds the threshold.  The retire that brings the list to twice
      the threshold frees the whole batch, p included, and empties it. */
  function AfterRetire(c: Context, p: NodeId): (r: Context)
    ensures r.currentEpoch == c.currentEpoch && r.active == c.active
    ensures r.freed + r.retireList == c.freed + c.retireList + [p]
    ensures |c.retireList| < EBR_RETIRE_THRESHOLD * 2 ==> |r.retireList| < EBR_RETIRE_THRESHOLD * 2
    ensures |c.retireList| + 1 < EBR_RETIRE_THRESHOLD * 2 ==> r.retireList == c.retireList + [p]
    ensures |c.retireList| + 1 >= EBR_RETIRE_THRESHOLD * 2 ==> r.retireList == [] && r.freed == c.freed + c.retireList + [p]
  {
    var c1 := c.(retireList := c.retireList + [p]);
    if |c1.retireList| >= EBR_RETIRE_THRESHOLD then AfterScan(c1) else c1
  }

  /** quiescent_state: become inactive, then scan once the list holds the
      threshold.  The scan itself only frees at twice the threshold. */
  function AfterQuiescentState(c: Context): (r: Context)
    ensures !r.active && r.currentEpoch == c.currentEpoch
    ensures r.retireList == AfterScan(c).retireList && r.freed == AfterScan(c).freed
  {
    var c1 := c.(active := false);
    if |c1.retireList| >= EBR_RETIRE_THRESHOLD then AfterScan(c1) else c1
  }

  /** One call on a thread's context. */
  datatype Call = EnterCall | ExitCall | RetireCall(p: NodeId) | QuiescentCall | ScanCall

  function Step(c: Context, globalEpoch: int, call: Call): Context
  {
    match call
    case EnterCall => AfterEnter(c, globalEpoch)
    case ExitCall => AfterExit(c)
    case RetireCall(p) => AfterRetire(c, p)
    case QuiescentCall => AfterQuiescentState(c)
    case ScanCall => AfterScan(c)
  }

  function RetiredBy(calls: seq<Call>): seq<NodeId>
  {
    if calls == [] then []
    else (if calls[0].RetireCall? then [calls[0].p] else []) + RetiredBy(calls[1..])
  }

  /** A history of calls against a global epoch that, as in the source,
      nothing ever writes. */
  function Run(c: Context, globalEpoch: int, calls: seq<Call>): Context
    decreases |calls|
  {
    if calls == [] then c else Run(Step(c, globalEpoch, calls[0]), globalEpoch, calls[1..])
  }

  /** Over any history in which no node is retired twice: at most 99 entries
      pending, the freed log followed by the pending list is exactly what was
      retired, in order, and the epoch snapshot is only ever the global
      epoch (or what it started as). */
  lemma {:induction false} RunKeepsInv(c: Context, g: int, calls: seq<Call>)
    requires Inv(c)
    requires NoDups(c.freed + c.retireList + RetiredBy(calls))
    ensures Inv(Run(c, g, calls))
    ensures Run(c, g, calls).freed + Run(c, g, calls).retireList == c.freed + c.retireList + RetiredBy(calls)
    ensures Run(c, g, calls).currentEpoch in {c.currentEpoch, g}
    decreases |calls|
  {
    if calls != [] {
      var c1 := Step(c, g, calls[0]);
      var mine := if calls[0].RetireCall? then [calls[0].p] else [];
      assert RetiredBy(calls) == mine + RetiredBy(calls[1..]);
      assert c1.freed + c1.retireList == c.freed + c.retireList + mine;
      assert c.freed + c.retireList + RetiredBy(calls) == c1.freed + c1.retireList + RetiredBy(calls[1..]);
      NoDupsPrefix(c1.freed + c1.retireList, RetiredBy(calls[1..]));
      RunKeepsInv(c1, g, calls[1..]);
    }
  }

  /** From a fresh context and the global epoch as initialised (0): the
      snapshot is always 0, at most 99 entries are pending, and nothing is
      freed twice. */
  lemma FreshHistory(calls: seq<Call>)
    requires NoDups(RetiredBy(calls))
    ensures Run(Fresh(), 0, calls).currentEpoch == 0
    ensures |Run(Fresh(), 0, calls).retireList| < EBR_RETIRE_THRESHOLD * 2
    ensures Run(Fresh(), 0, calls).freed + Run(Fresh(), 0, calls).retireList == RetiredBy(calls)
    ensures NoDups(Run(Fresh(), 0, calls).freed)
  {
    assert Fresh().freed + Fresh().retireList + RetiredBy(calls) == RetiredBy(calls);
    RunKeepsInv(Fresh(), 0, calls);
    var r := Run(Fresh(), 0, calls);
    NoDupsPrefix(r.freed, r.retireList);
  }

  /** `EpochBasedReclaimationManager::ThreadContext`. */
  class ThreadContext {
    var currentEpoch: int
    var active: bool
    var retireList: seq<NodeId>
    ghost var freed: seq<NodeId>   // every delete[] so far, in order

    ghost function View(): Context
      reads this
    {
      Context(currentEpoch, active, retireList, freed)
    }

    ghost predicate Valid()
      reads this
    {
      Inv(View())
    }

    constructor ()
      ensures Valid() && View() == Fresh()
    {
      currentEpoch := 0;
      active := false;
      retireList := [];
      freed := [];
    }
  }

  /** The manager: its only state is `global_epoch_`, which starts at 0 and
      which no method writes.  Its methods act on the calling thread's
      context, passed here as `ctx`. */
  class EpochManager {
    var globalEpoch: int

    constructor ()
      ensures globalEpoch == 0
    {
      globalEpoch := 0;
    }

    /** What holds between calls: the global epoch is still 0, and so is
        the thread's snapshot of it. */
    ghost predicate Governs(ctx: ThreadContext)
      reads this, ctx
    {
      globalEpoch == 0 && ctx.Valid() && ctx.currentEpoch == 0
    }

    method EnterCritical(ctx: ThreadContext)
      requires Governs(ctx)
      modifies ctx
      ensures Governs(ctx)
      ensures ctx.View() == AfterEnter(old(ctx.View()), globalEpoch)
    {
      ctx.currentEpoch := globalEpoch;
      ctx.active := true;
    }

    method ExitCritical(ctx: ThreadContext)
      requires Governs(ctx)
      modifies ctx
      ensures Governs(ctx)
      ensures ctx.View() == AfterExit(old(ctx.View()))
    {
      ctx.active := false;
    }

    /** scan_and_retire; the loop is the `delete[]` of each pending entry. */
    method ScanAndRetire(ctx: ThreadContext)
      requires globalEpoch == 0 && ctx.currentEpoch == 0
      requires NoDups(ctx.freed + ctx.retireList)
      modifies ctx
      ensures Governs(ctx)
      ensures ctx.View() == AfterScan(old(ctx.View()))
    {
      if |ctx.retireList| >= EBR_RETIRE_THRESHOLD * 2 {
        var i := 0;
        while i < |ctx.retireList|
          invariant 0 <= i <= |ctx.retireList|
          invariant ctx.retireList == old(ctx.retireList)
          invariant ctx.currentEpoch == old(ctx.currentEpoch) && ctx.active == old(ctx.active)
          invariant ctx.freed == old(ctx.freed) + ctx.retireList[..i]
        {
          ctx.freed := ctx.freed + [ctx.retireList[i]];
          i := i + 1;
        }
        assert ctx.retireList[..i] == ctx.retireList;
        ctx.retireList := [];
        assert ctx.freed + ctx.retireList == old(ctx.freed) + old(ctx.retireList);
      }
    }

    /** retire_node(p); the allocation `p` must not have been retired before. */
    method RetireNode(ctx: ThreadContext, p: NodeId)
      requires Governs(ctx)
      requires p !in ctx.freed && p !in ctx.retireList
      modifies ctx
      ensures Governs(ctx)
      ensures ctx.View() == AfterRetire(old(ctx.View()), p)
    {
      ctx.retireList := ctx.retireList + [p];
      assert ctx.freed + ctx.retireList == old(ctx.freed + ctx.retireList) + [p];
      if |ctx.retireList| >= EBR_RETIRE_THRESHOLD {
        ScanAndRetire(ctx);
      }
    }

    /** quiescent_state (what epoch_based_reclamation::quiescent calls). */
    method QuiescentState(ctx: ThreadContext)
      requires Governs(ctx)
      modifies ctx
      ensures Governs(ctx)
      ensures ctx.View() == AfterQuiescentState(old(ctx.View()))
    {
      ctx.active := false;
      if |ctx.retireList| >= EBR_RETIRE_THRESHOLD {
        ScanAndRetire(ctx);
      }
    }
  }
}
