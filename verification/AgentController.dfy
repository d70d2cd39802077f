/** The agent controller's pipeline: handlers do their work for an edge node in order, and undo it in
    reverse order once the node is gone. */
module AgentController {

  type Name = string

  /** How a handler's `Do` ends: well, asking that the agent be restarted, or with another error. */
  datatype Outcome = Done | Restart | Failed

  /** What the API server says about a node. */
  datatype Lookup = LookupFailed | Gone | NotReady | EdgeNode

  /** A record of one reconcile that reached the handlers: with which restart flag each handler's
      `Do` was called, or how many handlers undid their work, counted from the last. */
  datatype Record = DoRun(node: Name, flags: seq<bool>) | UndoRun(node: Name, undone: nat)

  // ---------- specification ----------

  /** Handler `i` is called unless an earlier one failed. */
  predicate Called(outcomes: seq<Outcome>, i: nat) {
    i < |outcomes| && forall j :: 0 <= j < i ==> outcomes[j] != Failed
  }

  /** A restart was asked for by an earlier handler of the same reconcile. */
  predicate RestartAsked(outcomes: seq<Outcome>, i: nat) {
    exists j :: 0 <= j < i && j < |outcomes| && outcomes[j] == Restart
  }

  /** The node's work is in place, in part or in full: some `Do` was attempted after the last time
      every handler undid its work. */
  predicate Pending(log: seq<Record>, n: Name, handlers: nat)
    decreases |log|
  {
    log != [] &&
    (var last := log[|log| - 1];
     if last == UndoRun(n, handlers) then false
     else (last.DoRun? && last.node == n) || Pending(log[..|log| - 1], n, handlers))
  }

  /** The same, said about positions in the log. */
  lemma {:induction false} PendingIff(log: seq<Record>, n: Name, handlers: nat)
    ensures Pending(log, n, handlers) <==> exists i :: Open(log, i, n, handlers)
    decreases |log|
  {
    if log != [] {
      var init, last := log[..|log| - 1], log[|log| - 1];
      PendingIff(init, n, handlers);
      PendingAt(log, n, handlers);
    }
  }

  /** A `Do` at position `i` has not been undone completely since. */
  ghost predicate Open(log: seq<Record>, i: int, n: Name, handlers: nat) {
    && 0 <= i < |log| && log[i].DoRun? && log[i].node == n
    && forall j :: i < j < |log| ==> log[j] != UndoRun(n, handlers)
  }

  lemma PendingAt(log: seq<Record>, n: Name, handlers: nat)
    requires log != []
    ensures
      var init, last := log[..|log| - 1], log[|log| - 1];
      (exists i :: Open(log, i, n, handlers)) <==>
      last != UndoRun(n, handlers) && ((last.DoRun? && last.node == n) || exists i :: Open(init, i, n, handlers))
  {
    var init, last := log[..|log| - 1], log[|log| - 1];
    forall i | 0 <= i < |init|
      ensures Open(log, i, n, handlers) <==> Open(init, i, n, handlers) && last != UndoRun(n, handlers)
    {
      assert forall j :: 0 <= j < |init| ==> log[j] == init[j];
    }
    assert Open(log, |log| - 1, n, handlers) <==> last.DoRun? && last.node == n;
  }

  /** Every handler up to the first failure was called, with the flag it should see. */
  ghost predicate Performed(r: Record, n: Name, outcomes: seq<Outcome>) {
    && r.DoRun? && r.node == n
    && |r.flags| <= |outcomes|
    && (forall i :: 0 <= i < |outcomes| ==> (i < |r.flags| <==> Called(outcomes, i)))
    && forall i :: 0 <= i < |r.flags| ==> r.flags[i] == RestartAsked(outcomes, i)
  }

  /** The handlers from the last down to the first that cannot undo its work did undo it. */
  ghost predicate Reverted(r: Record, n: Name, undoes: seq<bool>) {
    && r.UndoRun? && r.node == n && r.undone <= |undoes|
    && (forall i :: |undoes| - r.undone <= i < |undoes| ==> undoes[i])
    && (r.undone < |undoes| ==> !undoes[|undoes| - r.undone - 1])
  }

  // ---------- the controller ----------

  class Controller {
    const handlers: nat
    var edgeNameSet: set<Name>
    /** Every reconcile so far that reached the handlers. */
    ghost var log: seq<Record>

    /** A node is remembered exactly while work for it may be in place. */
    ghost predicate Valid()
      reads this
    {
      forall n :: n in edgeNameSet <==> Pending(log, n, handlers)
    }

    constructor (handlers: nat)
      ensures Valid() && log == [] && this.handlers == handlers
    {
      this.handlers := handlers;
      edgeNameSet, log := {}, [];
    }

    /** The forward loop over the handlers, with a restart request carried along. */
    method DoAll(outcomes: seq<Outcome>) returns (ok: bool, flags: seq<bool>)
      requires |outcomes| == handlers
      ensures forall i :: 0 <= i < handlers ==> (i < |flags| <==> Called(outcomes, i))
      ensures |flags| <= handlers && forall i :: 0 <= i < |flags| ==> flags[i] == RestartAsked(outcomes, i)
      ensures ok <==> Failed !in outcomes
    {
      flags := [];
      var restart := false;
      for i := 0 to handlers
        invariant |flags| == i && restart == RestartAsked(outcomes, i)
        invariant forall j :: 0 <= j < i ==> outcomes[j] != Failed && flags[j] == RestartAsked(outcomes, j)
      {
        flags := flags + [restart];
        if outcomes[i] == Restart {
          restart := true;
        } else if outcomes[i] == Failed {
          return false, flags;
        }
      }
      return true, flags;
    }

    /** The reverse loop: stops at the first handler that cannot undo its work. `undoes[i]` says whether
        handler `i` can. */
    method UndoAll(undoes: seq<bool>) returns (undone: nat)
      requires |undoes| == handlers
      ensures undone <= handlers
      ensures forall i :: handlers - undone <= i < handlers ==> undoes[i]
      ensures undone < handlers ==> !undoes[handlers - undone - 1]
    {
      undone := 0;
      var i := handlers;
      while i > 0
        invariant 0 <= i <= handlers && undone == handlers - i
        invariant forall k :: i <= k < handlers ==> undoes[k]
      {
        i := i - 1;
        if !undoes[i] {
          return;
        }
        undone := undone + 1;
      }
    }

    /** `n` leaves the set only when every handler has undone its work, and enters it before the first
        handler is called. */
    method Reconcile(n: Name, got: Lookup, outcomes: seq<Outcome>, undoes: seq<bool>) returns (ok: bool)
      requires Valid() && |outcomes| == handlers && |undoes| == handlers
      modifies this
      ensures Valid()
      ensures got.EdgeNode? ==> n in edgeNameSet
      ensures got.EdgeNode? ==>
        exists r :: log == old(log) + [r] && Performed(r, n, outcomes)
      ensures got.Gone? && n in old(edgeNameSet) ==>
        exists r :: log == old(log) + [r] && Reverted(r, n, undoes)
      ensures !got.EdgeNode? && !(got.Gone? && n in old(edgeNameSet)) ==>
        log == old(log) && edgeNameSet == old(edgeNameSet)
      ensures ok <==>
        || got.NotReady?
        || (got.Gone? && n !in edgeNameSet)
        || (got.EdgeNode? && Failed !in outcomes)
      ensures n in old(edgeNameSet) && n !in edgeNameSet <==>
        got.Gone? && n in old(edgeNameSet) && forall i :: 0 <= i < handlers ==> undoes[i]
      ensures forall m :: m != n ==> (m in edgeNameSet <==> m in old(edgeNameSet))
    {
      match got
      case LookupFailed => return false;
      case NotReady => return true;
      case Gone =>
        if n !in edgeNameSet {
          return true;
        }
        var undone := UndoAll(undoes);
        assert Reverted(UndoRun(n, undone), n, undoes);
        log := log + [UndoRun(n, undone)];
        assert log[..|log| - 1] == old(log);
        if undone < handlers {
          return false;
        }
        edgeNameSet := edgeNameSet - {n};
        return true;
      case EdgeNode =>
        edgeNameSet := edgeNameSet + {n};
        var flags;
        ok, flags := DoAll(outcomes);
        assert Performed(DoRun(n, flags), n, outcomes);
        log := log + [DoRun(n, flags)];
        assert log[..|log| - 1] == old(log);
    }
  }
}
