/**
 * The per-thread bookkeeping of `HazardPointerManager`
 * (include/reclaimer/hazard_pointers.hpp): three hazard slots and a retire
 * list that is freed in one batch once it has grown to twice the threshold.
 *
 * Nodes are `NodeId`s, one per allocation.  "Freed" is a ghost log of the `delete[]`
 * calls, in the order they happen; the invariant that everything the thread
 * ever retired is exactly the freed log followed by the pending list gives
 * "pending or freed, never both, freed at most once" in one equation.
 */
module HazardPointers {
  import opened Common

  const HP_COUNT_PER_THREAD: nat := 3
  const HP_RETIRE_THRESHOLD: nat := 50

  /** Value view of a ThreadContext: the slots `hp`, the pending
      `retire_list`, and the log of freed nodes. */
  datatype Context = Context(hp: seq<NodeId>, retireList: seq<NodeId>, freed: seq<NodeId>)

  /** What holds between calls. */
  ghost predicate Inv(c: Context)
  {
    && |c.hp| == HP_COUNT_PER_THREAD
    && |c.retireList| < HP_RETIRE_THRESHOLD * 2
    && NoDups(c.freed + c.retireList)
  }

  /** A context as constructed: null slots, nothing pending, nothing freed
      (include/reclaimer/hazard_pointers.hpp:26-28). */
  function Fresh(): (c: Context)
    ensures Inv(c)
  {
    Context([NULL, NULL, NULL], [], [])
  }

  /** protect(idx, p): slot idx holds p when idx is a slot index; otherwise a no-op. */
  function AfterProtect(c: Context, idx: nat, p: NodeId): (r: Context)
    requires |c.hp| == HP_COUNT_PER_THREAD
    ensures r.retireList == c.retireList && r.freed == c.freed && |r.hp| == |c.hp|
    ensures forall k :: 0 <= k < |r.hp| ==> r.hp[k] == if k == idx then p else c.hp[k]
  {
    if idx < HP_COUNT_PER_THREAD then c.(hp := c.hp[idx := p]) else c
  }

  /** clear(idx): slot idx is null when idx is a slot index; otherwise a no-op. */
  function AfterClear(c: Context, idx: nat): (r: Context)
    requires |c.hp| == HP_COUNT_PER_THREAD
    ensures r.retireList == c.retireList && r.freed == c.freed && |r.hp| == |c.hp|
    ensures forall k :: 0 <= k < |r.hp| ==> r.hp[k] == if k == idx then NULL else c.hp[k]
  {
    if idx < HP_COUNT_PER_THREAD then c.(hp := c.hp[idx := NULL]) else c
  }

  /** scan_and_retire: all or nothing.  At 2 * threshold pending entries every
      one of them is freed, in list order, and the list is emptied; below
      that nothing changes.  The slots play no part. */
  function AfterScan(c: Context): (r: Context)
    ensures r.hp == c.hp
    ensures r.freed + r.retireList == c.freed + c.retireList
    ensures |r.retireList| < HP_RETIRE_THRESHOLD * 2
    ensures r.retireList == c.retireList || r.retireList == []
    ensures r.retireList == [] && c.retireList != [] ==> |c.retireList| >= HP_RETIRE_THRESHOLD * 2
  {
    if |c.retireList| >= HP_RETIRE_THRESHOLD * 2 then
      c.(retireList := [], freed := c.freed + c.retireList)
    else c
  }

  /** retire_node(p): p joins the end of the list; a scan is attempted only
      once the list holds at least the threshold.  The retire that brings the list to twice
      the threshold frees the whole batch, p included, and empties it. */
  function AfterRetire(c: Context, p: NodeId): (r: Context)
    ensures r.hp == c.hp
    ensures r.freed + r.retireList == c.freed + c.retireList + [p]
    ensures |c.retireList| < HP_RETIRE_THRESHOLD * 2 ==> |r.retireList| < HP_RETIRE_THRESHOLD * 2
    ensures |c.retireList| + 1 < HP_RETIRE_THRESHOLD * 2 ==> r.retireList == c.retireList + [p]
    ensures |c.retireList| + 1 >= HP_RETIRE_THRESHOLD * 2 ==> r.retireList == [] && r.freed == c.freed + c.retireList + [p]
  {
    var c1 := c.(retireList := c.retireList + [p]);
    if |c1.retireList| >= HP_RETIRE_THRESHOLD then AfterScan(c1) else c1
  }

  /** hazard_pointers::quiescent: null every slot, then scan.  What is freed
      is exactly what a scan of the same list frees, whatever the slots held. */
  function AfterQuiescent(c: Context): (r: Context)
    ensures r.hp == [NULL, NULL, NULL]
    ensures r.retireList == AfterScan(c).retireList && r.freed == AfterScan(c).freed
  {
    AfterScan(c.(hp := [NULL, NULL, NULL]))
  }

  /** One call on a thread's context. */
  datatype Call = ProtectCall(idx: nat, p: NodeId) | ClearCall(idx: nat) | RetireCall(p: NodeId)
                | ScanCall | QuiescentCall

  function Step(c: Context, call: Call): Context
    requires |c.hp| == HP_COUNT_PER_THREAD
  {
    match call
    case ProtectCall(idx, p) => AfterProtect(c, idx, p)
    case ClearCall(idx) => AfterClear(c, idx)
    case RetireCall(p) => AfterRetire(c, p)
    case ScanCall => AfterScan(c)
    case QuiescentCall => AfterQuiescent(c)
  }

  /** The nodes a history of calls retires, in order. */
  function RetiredBy(calls: seq<Call>): seq<NodeId>
  {
    if calls == [] then []
    else (if calls[0].RetireCall? then [calls[0].p] else []) + RetiredBy(calls[1..])
  }

  function Run(c: Context, calls: seq<Call>): (r: Context)
    requires |c.hp| == HP_COUNT_PER_THREAD
    ensures |r.hp| == HP_COUNT_PER_THREAD
    decreases |calls|
  {
    if calls == [] then c else Run(Step(c, calls[0]), calls[1..])
  }

  /** Over any history in which no node is retired twice (the lock-free queue
      retires each old head exactly once), the pending list stays below
      2 * threshold, and the freed log followed by the pending list is exactly
      everything retired so far, in order: nothing is lost, nothing freed
      twice, nothing both pending and freed, and frees follow retire order. */
  lemma {:induction false} RunKeepsInv(c: Context, calls: seq<Call>)
    requires Inv(c)
    requires NoDups(c.freed + c.retireList + RetiredBy(calls))
    ensures Inv(Run(c, calls))
    ensures Run(c, calls).freed + Run(c, calls).retireList == c.freed + c.retireList + RetiredBy(calls)
    decreases |calls|
  {
    if calls != [] {
      var c1 := Step(c, calls[0]);
      var mine := if calls[0].RetireCall? then [calls[0].p] else [];
      assert RetiredBy(calls) == mine + RetiredBy(calls[1..]);
      assert c1.freed + c1.retireList == c.freed + c.retireList + mine;
      assert c.freed + c.retireList + RetiredBy(calls) == c1.freed + c1.retireList + RetiredBy(calls[1..]);
      NoDupsPrefix(c1.freed + c1.retireList, RetiredBy(calls[1..]));
      RunKeepsInv(c1, calls[1..]);
    }
  }

  /** From a fresh context: at most 99 pending, and every retired node is
      freed at most once. */
  lemma FreshHistory(calls: seq<Call>)
    requires NoDups(RetiredBy(calls))
    ensures |Run(Fresh(), calls).retireList| < HP_RETIRE_THRESHOLD * 2
    ensures Run(Fresh(), calls).freed + Run(Fresh(), calls).retireList == RetiredBy(calls)
    ensures NoDups(Run(Fresh(), calls).freed)
  {
    assert Fresh().freed + Fresh().retireList + RetiredBy(calls) == RetiredBy(calls);
    RunKeepsInv(Fresh(), calls);
    var r := Run(Fresh(), calls);
    NoDupsPrefix(r.freed, r.retireList);
  }

  /** `HazardPointerManager::ThreadContext` together with the manager's
      methods, which only ever act on the calling thread's context. */
  class ThreadContext {
    const hp: array<NodeId>            // hazard slots
    var retireList: seq<NodeId>        // retire_list
    ghost var freed: seq<NodeId>       // every delete[] so far, in order

    ghost function View(): Context
      reads this, hp
    {
      Context(hp[..], retireList, freed)
    }

    /** The invariant of a consistent context, allowing the pending list to
        exceed its bound (as it briefly does inside retire_node). */
    ghost predicate Consistent()
      reads this, hp
    {
      hp.Length == HP_COUNT_PER_THREAD && NoDups(freed + retireList)
    }

    ghost predicate Valid()
      reads this, hp
    {
      Consistent() && Inv(View())
    }

    constructor ()
      ensures Valid() && fresh(hp)
      ensures View() == Fresh()
    {
      hp := new NodeId[HP_COUNT_PER_THREAD](_ => NULL);
      retireList := [];
      freed := [];
    }

    /** protect(idx, ptr).  A negative index would be out of bounds in the
        source, so callers must not pass one. */
    method Protect(idx: int, p: NodeId)
      requires Valid() && idx >= 0
      modifies hp
      ensures Valid()
      ensures View() == AfterProtect(old(View()), idx, p)
    {
      if idx < HP_COUNT_PER_THREAD {
        hp[idx] := p;
      }
    }

    /** clear(idx). */
    method Clear(idx: int)
      requires Consistent() && idx >= 0
      modifies hp
      ensures Consistent() && retireList == old(retireList) && freed == old(freed)
      ensures View() == AfterClear(old(View()), idx)
    {
      if idx < HP_COUNT_PER_THREAD {
        hp[idx] := NULL;
      }
    }

    /** scan_and_retire.  The loop is the `delete[]` of each pending entry. */
    method ScanAndRetire()
      requires Consistent()
      modifies this
      ensures Valid()
      ensures View() == AfterScan(old(View()))
    {
      if |retireList| >= HP_RETIRE_THRESHOLD * 2 {
        var i := 0;
        while i < |retireList|
          invariant 0 <= i <= |retireList|
          invariant retireList == old(retireList)
          invariant freed == old(freed) + retireList[..i]
        {
          freed := freed + [retireList[i]];
          i := i + 1;
        }
        assert retireList[..i] == retireList;
        retireList := [];
        assert freed + retireList == old(freed) + old(retireList);
      }
    }

    /** retire_node(p).  The allocation `p` must not have been retired before:
        retiring a node twice would free it twice. */
    method RetireNode(p: NodeId)
      requires Valid()
      requires p !in freed && p !in retireList
      modifies this
      ensures Valid()
      ensures View() == AfterRetire(old(View()), p)
    {
      retireList := retireList + [p];
      assert freed + retireList == old(freed + retireList) + [p];
      if |retireList| >= HP_RETIRE_THRESHOLD {
        ScanAndRetire();
      }
    }

    /** hazard_pointers::quiescent. */
    method Quiescent()
      requires Valid()
      modifies this, hp
      ensures Valid()
      ensures View() == AfterQuiescent(old(View()))
    {
      var i := 0;
      while i < HP_COUNT_PER_THREAD
        invariant 0 <= i <= HP_COUNT_PER_THREAD
        invariant Consistent() && retireList == old(retireList) && freed == old(freed)
        invariant forall k :: 0 <= k < i ==> hp[k] == NULL
        invariant forall k :: i <= k < HP_COUNT_PER_THREAD ==> hp[k] == old(hp[k])
      {
        Clear(i);
        i := i + 1;
      }
      assert hp[..] == [NULL, NULL, NULL];
      ScanAndRetire();
    }
  }
}
