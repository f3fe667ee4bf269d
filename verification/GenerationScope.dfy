/** The cleanup scope of one activated add-on generation.

    Disposal is asynchronous: it suspends while a disposer runs. `Dispose` is the synchronous part up to
    the first suspension and `Settled` is what happens when the running disposer settles. */
module GenerationScopes {
  import opened Collections

  datatype Registered = Registered(active: bool, title: string)
  datatype ScopeState = Active | Disposing | Disposed
  datatype AddResult = Added(handle: nat) | Closed | EmptyLabel

  class GenerationScope {
    var disposers: seq<Registered>
    var state: ScopeState
    /** The drain has passed every disposer from here on; the one at `cursor` is running while disposing. */
    var cursor: nat
    /** Disposers that threw, in the order they ran. */
    var failures: seq<nat>
    /** Every disposer that was started, in order. */
    ghost var runs: seq<nat>
    /** Disposers whose ownership was transferred away before they were started. */
    ghost var released: set<nat>

    /** What holds between two disposers: each is started at most once, in reverse order of registration. */
    ghost predicate InOrder()
      reads this
    {
      && cursor <= |disposers|
      && (forall i <- released :: i < |disposers|)
      && (forall a, b | 0 <= a < b < |runs| :: runs[b] < runs[a])
      && (forall a | 0 <= a < |runs| :: cursor <= runs[a] < |disposers| && runs[a] !in released)
      && (forall i | 0 <= i < |disposers| :: !disposers[i].active <==> i in runs || i in released)
      && (forall i | cursor <= i < |disposers| :: !disposers[i].active)
      && (forall i <- failures :: i in runs)
    }

    ghost predicate Valid()
      reads this
    {
      && InOrder()
      && (state == Active ==> runs == [] && cursor == |disposers|)
      && (state == Disposing ==> runs != [] && runs[|runs| - 1] == cursor)
      && (state == Disposed ==> cursor == 0)
    }

    constructor ()
      ensures Valid() && state == Active && disposers == [] && released == {}
    {
      disposers, state, cursor, failures := [], Active, 0, [];
      runs, released := [], {};
    }

    method Add(title: string) returns (result: AddResult)
      requires Valid()
      modifies this
      ensures Valid()
      ensures result.Closed? <==> old(state) != Active
      ensures result.EmptyLabel? <==> old(state) == Active && title == ""
      ensures result.Added? ==> result.handle == |old(disposers)| && disposers == old(disposers) + [Registered(true, title)]
      ensures !result.Added? ==> disposers == old(disposers) && cursor == old(cursor)
      ensures state == old(state) && failures == old(failures) && runs == old(runs) && released == old(released)
    {
      if state != Active { return Closed; }
      if title == "" { return EmptyLabel; }
      result := Added(|disposers|);
      disposers := disposers + [Registered(true, title)];
      cursor := |disposers|;
    }

    /** The function `Add` returns: it transfers ownership away, unless the disposer has been started. */
    method Release(handle: nat)
      requires Valid() && handle < |disposers|
      modifies `disposers, `released
      ensures Valid()
      ensures released == old(released) + (if handle in runs then {} else {handle})
      ensures disposers == old(disposers)[handle := Registered(false, old(disposers)[handle].title)]
    {
      if disposers[handle].active {
        released := released + {handle};
      }
      disposers := disposers[handle := disposers[handle].(active := false)];
    }

    /** Starts the next disposer that is still owned, or ends the disposal when there is none. */
    method Advance()
      requires InOrder() && state == Disposing
      modifies `disposers, `state, `cursor, `runs
      ensures Valid()
      ensures state == Disposing || state == Disposed
      ensures |disposers| == |old(disposers)|
      ensures state == Disposing ==> cursor < old(cursor) && runs == old(runs) + [cursor]
      ensures state == Disposed ==> runs == old(runs) && disposers == old(disposers)
    {
      while cursor > 0
        invariant InOrder() && cursor <= old(cursor)
        invariant disposers == old(disposers) && runs == old(runs) && state == Disposing
      {
        cursor := cursor - 1;
        if disposers[cursor].active {
          disposers := disposers[cursor := disposers[cursor].(active := false)];
          runs := runs + [cursor];
          return;
        }
      }
      state := Disposed;
    }

    /** Only the first call starts the disposal; later calls share its outcome. */
    method Dispose()
      requires Valid()
      modifies `disposers, `state, `cursor, `runs
      ensures Valid()
      ensures state != Active
      ensures old(state) != Active ==> disposers == old(disposers) && state == old(state) && cursor == old(cursor) && runs == old(runs)
      ensures |disposers| == |old(disposers)|
    {
      if state != Active { return; }
      state := Disposing;
      Advance();
    }

    /** The running disposer settled; a failure is kept and the drain goes on. */
    method Settled(failed: bool)
      requires Valid() && state == Disposing
      modifies this
      ensures Valid()
      ensures released == old(released) && |disposers| == |old(disposers)|
      ensures failures == if failed then old(failures) + [old(cursor)] else old(failures)
      ensures state == Disposing ==> cursor < old(cursor)
      ensures state == Disposing || state == Disposed
      ensures old(runs) <= runs
    {
      if failed {
        failures := failures + [cursor];
      }
      Advance();
    }

    /** Runs a disposal to its end, whatever fails on the way. */
    method Drain(failing: set<nat>)
      requires Valid()
      modifies this
      ensures Valid() && state == Disposed
      ensures released == old(released) && |disposers| == |old(disposers)|
      ensures old(state) == Active ==> IsReverseOfOwned(runs, |disposers|, released)
    {
      Dispose();
      while state == Disposing
        invariant Valid() && state != Active
        invariant released == old(released) && |disposers| == |old(disposers)|
        decreases if state == Disposing then cursor + 1 else 0
      {
        Settled(cursor in failing);
      }
      DisposedRanEveryOwned();
    }

    /** A disposed scope has started exactly the disposers it still owned, each once, last first. */
    lemma DisposedRanEveryOwned()
      requires Valid() && state == Disposed
      ensures IsReverseOfOwned(runs, |disposers|, released)
    {
      forall i | 0 <= i < |disposers|
        ensures i in runs <==> i !in released
      {
        assert !disposers[i].active;
      }
    }
  }

  /** `runs` lists, strictly decreasing, exactly the numbers below `count` that were not released. */
  ghost predicate IsReverseOfOwned(runs: seq<nat>, count: nat, released: set<nat>) {
    && (forall a, b | 0 <= a < b < |runs| :: runs[b] < runs[a])
    && (forall i: nat :: i in runs <==> i < count && i !in released)
  }

  /** There is only one such list, so the order of cleanup is fully determined. */
  lemma {:induction false} ReverseOrderIsUnique(left: seq<nat>, right: seq<nat>, count: nat, released: set<nat>)
    requires IsReverseOfOwned(left, count, released) && IsReverseOfOwned(right, count, released)
    ensures left == right
    decreases count
  {
    if count == 0 {
      NothingBelowZero(left, released);
      NothingBelowZero(right, released);
    } else if count - 1 in released {
      ReverseOrderIsUnique(left, right, count - 1, released);
    } else {
      StartsWithLast(left, count, released);
      StartsWithLast(right, count, released);
      forall i: nat
        ensures i in left[1..] <==> i < count - 1 && i !in released
        ensures i in right[1..] <==> i < count - 1 && i !in released
      {
        assert i in left <==> i == left[0] || i in left[1..];
        assert i in right <==> i == right[0] || i in right[1..];
      }
      ReverseOrderIsUnique(left[1..], right[1..], count - 1, released);
    }
  }

  lemma NothingBelowZero(runs: seq<nat>, released: set<nat>)
    requires IsReverseOfOwned(runs, 0, released)
    ensures runs == []
  {
    EmptyOrInhabited(runs);
  }

  lemma StartsWithLast(runs: seq<nat>, count: nat, released: set<nat>)
    requires IsReverseOfOwned(runs, count, released) && count > 0 && count - 1 !in released
    ensures runs != [] && runs[0] == count - 1
  {
    var last: nat := count - 1;
    assert last in runs;
    assert runs[0] in runs;
  }
}
