/** The life of the engine thread: any number of polls with other threads running, then the shutdown. */
module EngineRuns {
  import opened Wrappers
  import opened Rings
  import opened Sharing
  import opened Chronicles
  import opened Index
  import opened Abandoned
  import opened Backlogs
  import opened History
  import opened Output
  import opened Effects
  import opened EngineThread
  import opened Guarantees

  /**
    * What may be said about an engine whenever it is between polls.  From every ring a prefix of what
    * was published has been delivered, and its regular records have been written in that order; if the ring
    * was added since start-up, each of them is exactly what some thread's post has passed.  The lines of all
    * rings together stand in time order under the conditions of TimeOrder.
    */
  ghost predicate Promised(e: Engine)
    reads e
  {
    && (forall k :: k in e.sh.mem ==>
          && Proj(e.log, k) <= e.sh.mem[k].pub
          && (Added(e.sh.acts, k) ==> AllPosted(Proj(e.log, k), RingActs(e.sh.acts, k)))
          && LinesOf(Lines(e.output), k) == RegularOnly(Proj(e.log, k)))
    && (e.tsoFull == 0 && AllSteady(e.sh.mem) && NothingLate(e.polls, e.log, e.sh.mem) ==>
          LinesInOrder(Lines(e.output)))
  }

  lemma BetweenPolls(e: Engine)
    requires e.Idle()
    ensures Promised(e)
  {
    hide Core, PollOk, TsoInv, PollsOk, NothingLate, AllSteady, LinesOf, Lines, Regulars, RegularOnly, Proj, InOrder,
      LinesInOrder, Recorded, AllPosted, RingActs, Added;
    forall k | k in e.sh.mem
      ensures Proj(e.log, k) <= e.sh.mem[k].pub && LinesOf(Lines(e.output), k) == RegularOnly(Proj(e.log, k))
      ensures Added(e.sh.acts, k) ==> AllPosted(Proj(e.log, k), RingActs(e.sh.acts, k))
    {
      if Added(e.sh.acts, k) { DeliveredAsPosted(e.sh, e.es, e.done, e.owed, e.log, e.base, k); }
      ExactlyOnce(e.sh, e.es, e.done, e.owed, e.log, e.base, k);
      LinesAreRegulars(e.log, k);
    }
    if e.tsoFull == 0 && AllSteady(e.sh.mem) && NothingLate(e.polls, e.log, e.sh.mem) {
      CoreIndex(e.sh, e.es, e.done, e.owed, e.log, e.base);
      TimeOrder(e.polls, e.log, e.sh.mem, e.done);
      OrderedLines(e.log);
    }
  }

  /** Everything that was ever published to ring k has been delivered, and its regular records written. */
  ghost predicate AllOut(e: Engine, k: RingId)
    reads e
  {
    && k in e.sh.mem && Proj(e.log, k) == e.sh.mem[k].pub
    && LinesOf(Lines(e.output), k) == RegularOnly(e.sh.mem[k].pub)
  }

  lemma IsOut(e: Engine, k: RingId)
    requires Promised(e) && k in e.sh.mem && Proj(e.log, k) == e.sh.mem[k].pub
    ensures AllOut(e, k)
  {
    hide Proj, LinesOf, Lines, RegularOnly;
  }

  /** A ring map that is not all orphans has a ring that somebody holds. */
  lemma Held(e: Engine)
    requires e.Idle() && !Lonely(e.sh)
    ensures exists n :: n in e.sh.regs && e.sh.regs[n] in e.sh.life && !e.sh.Orphan(e.sh.regs[n])
  {
    hide PollOk, TsoInv, PollsOk, MemInv, LogInv, IndexOk, EntriesOk, DropInv, Buried;
  }

  /**
    * A whole run: from start-up, polls while other threads take any steps they like, the end of those
    * threads, and the drain.  `left` is what they left behind.  If none of them still holds a
    * registered ring, then the drain ends, every ring has gone, and everything ever published to a ring
    * that was registered is out.  If one does, the drain does not end, and the run stops anywhere in it.
    */
  method RunEngine(sh0: Shared, tsoCapacity: nat) returns (e: Engine, drained: bool, ghost left: Shared)
    requires SharedInv(sh0, map[], None) && sh0.regs == map[] && sh0.dirty && sh0.acts == []
    requires tsoCapacity != 1
    requires forall k :: k in sh0.mem ==> sh0.mem[k].h == 0
    ensures e.Idle() && Promised(e)
    ensures drained <==> Lonely(left)
    ensures drained ==> e.es == [] && e.sh.regs == map[] && SamePubs(left.mem, e.sh.mem)
    ensures drained ==> forall n :: n in left.regs ==> AllOut(e, left.regs[n])
    ensures !drained ==> e.sh.regs != map[]
  {
    hide Core, PollOk, TsoInv, PollsOk, NothingLate, AllSteady, LinesOf, Lines, Regulars, RegularOnly, Proj, InOrder,
      SharedInv, QuietPoll, StillHeld, AllIndexed, Lonely, PubsGrow, SamePubs, Buried, Promised, LinesInOrder, Covers,
      Recorded, AllPosted, RingActs, Added, EnvRely, Reached;
    e := new Engine(sh0, tsoCapacity);
    var more: nat := *;
    while more > 0
      invariant e.Idle() && fresh(e) && fresh(e.tso) && fresh(e.tso.entry) && e.tso.Capacity() >= 2
    {
      var lockFree: bool := *;
      var killFree: nat -> bool := *;
      var quiet := e.sh.quiet;
      var _, _ := e.ProcessRings(lockFree || quiet, (i: nat) => killFree(i) || quiet);
      more := more - 1;
    }
    e.EndOthers();
    left := e.sh;
    drained := Lonely(e.sh);
    if drained {
      e.DrainRings();
      BetweenPolls(e);
      forall n | n in left.regs ensures AllOut(e, left.regs[n]) {
        assert left.regs[n] in e.sh.mem;
        IsOut(e, left.regs[n]);
      }
    } else {
      Held(e);
      var n :| n in e.sh.regs && e.sh.regs[n] in e.sh.life && !e.sh.Orphan(e.sh.regs[n]);
      var turns: nat := *;
      e.DrainInVain(n, turns);
      BetweenPolls(e);
    }
  }
}
