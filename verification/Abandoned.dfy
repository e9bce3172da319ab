/**
  * What becomes of a ring that is taken out of the ring map: other threads may have come back to it
  * between the orphan test and the lock.
  */
module Abandoned {
  import opened Wrappers
  import opened Rings
  import opened Sharing
  import opened Index
  import opened Orphans
  import opened Chronicles

  // ---------------------------------------------------------------- rings nobody can get at

  /** No thread holds ring k and none can find it. */
  predicate OutOfReach(sh: Shared, k: RingId)
  {
    k in sh.mem && k in sh.life && sh.life[k].holders == 0 && !Registered(sh.life, sh.regs, k)
  }

  /** No step of another thread changes a ring that is out of reach, or brings it back. */
  lemma StaysOutOfReach(sh: Shared, a: EnvAct, done: map<RingId, nat>, owed: Option<RingId>, k: RingId)
    requires SharedInv(sh, done, owed) && EnvEnabled(sh, a) && OutOfReach(sh, k)
    ensures OutOfReach(EnvDo(sh, a), k) && EnvDo(sh, a).mem[k] == sh.mem[k]
    ensures EnvDo(sh, a).life[k] == sh.life[k]
  {
    hide MemInv, Do, Enabled;
    assert LifeOk(sh.life, sh.regs, owed, k);
  }

  lemma {:induction false} RunOutOfReach(sh: Shared, acts: seq<EnvAct>, done: map<RingId, nat>, owed: Option<RingId>,
                                         k: RingId)
    requires SharedInv(sh, done, owed) && Runs(sh, acts) && OutOfReach(sh, k)
    ensures OutOfReach(After(sh, acts), k) && After(sh, acts).mem[k] == sh.mem[k]
    decreases |acts|
  {
    hide EnvDo, EnvEnabled, SharedInv, OutOfReach;
    if acts != [] {
      StaysOutOfReach(sh, acts[0], done, owed, k);
      EnvSafe(sh, acts[0], done, owed);
      RunOutOfReach(EnvDo(sh, acts[0]), acts[1..], done, owed, k);
    }
  }

  // ---------------------------------------------------------------- when a kill loses a record

  /**
    * Ring k is killed in state sh, other threads take the steps `acts`, and the engine drops the map's
    * reference: then nobody can get at the ring any more although a published record is undelivered.
    */
  ghost predicate Loses(sh: Shared, done: map<RingId, nat>, k: RingId, acts: seq<EnvAct>)
    requires k in sh.life
  {
    && Runs(KilledShared(sh, k), acts)
    && var sh' := After(KilledShared(sh, k), acts);
       OutOfReach(sh', k) && Done(done, k) < |sh'.mem[k].pub|
  }

  /** Every thread that holds ring k lets go of it. */
  lemma {:induction false} AllRelease(sh: Shared, k: RingId, n: nat) returns (acts: seq<EnvAct>)
    requires !sh.quiet && k in sh.life && sh.life[k].holders == n
    ensures Runs(sh, acts)
    ensures After(sh, acts) == sh.(life := After(sh, acts).life, acts := After(sh, acts).acts)
    ensures k in After(sh, acts).life && After(sh, acts).life[k].holders == 0
    ensures After(sh, acts).life[k].name == sh.life[k].name
    decreases n
  {
    if n == 0 {
      acts := [];
    } else {
      var rest := AllRelease(EnvDo(sh, Release(k)), k, n - 1);
      acts := [Release(k)] + rest;
      assert acts[1..] == rest;
    }
  }

  /** A holder of a ring with room can publish a record, whatever it is in the middle of. */
  lemma OneMore(sh: Shared, k: RingId, done: map<RingId, nat>, owed: Option<RingId>) returns (acts: seq<EnvAct>)
    requires SharedInv(sh, done, owed) && !sh.quiet && k in sh.mem && k in sh.life && sh.life[k].holders > 0
    requires sh.mem[k].Shaped() && !sh.mem[k].Full()
    ensures Runs(sh, acts) && After(sh, acts) == sh.(mem := After(sh, acts).mem, acts := After(sh, acts).acts)
    ensures k in After(sh, acts).mem && |After(sh, acts).mem[k].pub| == |sh.mem[k].pub| + 1
  {
    hide SharedInv;
    var r := sh.mem[k];
    match r.pc
    case Idle => acts := PostOne(sh, k);
    case Filling =>
      var a, b := RingAct(k, Fill(0, 0, [])), RingAct(k, Commit);
      RunsOne(sh, a);
      RunsOne(EnvDo(sh, a), b);
      RunsConcat(sh, [a], [b]);
      acts := [a] + [b];
    case Filled =>
      acts := [RingAct(k, Commit)];
      RunsOne(sh, acts[0]);
    case SpecialFilled =>
      acts := [RingAct(k, SpecialCommit)];
      RunsOne(sh, acts[0]);
    case RoomWait(_) =>
      var a, b := RingAct(k, SpecialFill(0, 0, 0)), RingAct(k, SpecialCommit);
      RunsOne(sh, a);
      RunsOne(EnvDo(sh, a), b);
      RunsConcat(sh, [a], [b]);
      acts := [a] + [b];
    case AckWait(_) =>
      var a := RingAct(k, AckGiveUp);
      RunsOne(sh, a);
      var more := PostOne(EnvDo(sh, a), k);
      RunsConcat(sh, [a], more);
      acts := [a] + more;
  }

  lemma PostEnabled(r: Ring)
    requires r.Shaped() && r.pc == Idle
    ensures Enabled(r, Begin(0, 1, 0))
    ensures forall q: Ring :: q.Shaped() && q.pc == Filling ==> Enabled(q, Fill(0, 0, []))
    ensures forall q: Ring :: q.Shaped() && q.pc == Filled ==> Enabled(q, Commit)
  {
  }

  lemma PostOne(sh: Shared, k: RingId) returns (acts: seq<EnvAct>)
    requires !sh.quiet && k in sh.mem && k in sh.life && sh.life[k].holders > 0
    requires sh.mem[k].Shaped() && !sh.mem[k].Full() && sh.mem[k].pc == Idle
    ensures Runs(sh, acts) && After(sh, acts) == sh.(mem := After(sh, acts).mem, acts := After(sh, acts).acts)
    ensures k in After(sh, acts).mem && |After(sh, acts).mem[k].pub| == |sh.mem[k].pub| + 1
    ensures After(sh, acts).mem == sh.mem[k := After(sh, acts).mem[k]]
    ensures After(sh, acts).mem[k].h == sh.mem[k].h && After(sh, acts).mem[k].pc == Idle
  {
    hide Do, Enabled;
    acts := PostActs(k, 0, 1, 0, 0, 0, []);
    RingPost(sh.mem[k], 0, 1, 0, 0, 0, []);
    PostEnabled(sh.mem[k]);
    RunsThree(sh, acts[0], acts[1], acts[2]);
  }

  /** Publish one more record, then let go: how a ring with holders can lose one. */
  lemma PostAndLeave(sh: Shared, k: RingId, done: map<RingId, nat>, owed: Option<RingId>) returns (acts: seq<EnvAct>)
    requires SharedInv(sh, done, owed) && !sh.quiet && k in sh.mem && k in sh.life && sh.life[k].holders > 0
    requires sh.mem[k].Shaped() && !sh.mem[k].Full() && !Registered(sh.life, sh.regs, k)
    ensures Runs(sh, acts) && OutOfReach(After(sh, acts), k) && |After(sh, acts).mem[k].pub| == |sh.mem[k].pub| + 1
  {
    hide SharedInv, Runs, After, EnvDo, EnvEnabled;
    var a := OneMore(sh, k, done, owed);
    var b := AllRelease(After(sh, a), k, sh.life[k].holders);
    RunsConcat(sh, a, b);
    acts := a + b;
  }

  /** A kill under the lock of a ring that is still empty and still an orphan, or has no usable slot, is safe. */
  predicate SafeToKill(sh: Shared, k: RingId)
    requires k in sh.mem && k in sh.life
  {
    sh.mem[k].Empty() && (sh.Orphan(k) || sh.mem[k].cap == 1)
  }

  /**
    * Killing a ring whose delivered records are all committed can lose a record if and only if, when
    * the lock is taken, the ring is not empty any more, or some thread holds it and it has a slot to
    * publish into.  The source tests neither again.
    */
  lemma KillDecides(sh: Shared, done: map<RingId, nat>, k: RingId)
    requires SharedInv(sh, done, None) && !sh.quiet && k in sh.mem && k in sh.life && Registered(sh.life, sh.regs, k)
    requires Done(done, k) == sh.mem[k].h
    ensures (exists acts :: Loses(sh, done, k, acts)) <==> !SafeToKill(sh, k)
  {
    hide Runs, After, MemInv, LifeInv, RingInv, EnvDo, EnvEnabled;
    var sh1 := KilledShared(sh, k);
    KillLife(sh.life, sh.regs, k);
    RingFacts(sh, done, k);
    if SafeToKill(sh, k) {
      forall acts ensures !Loses(sh, done, k, acts) {
        if Runs(sh1, acts) { SafeRun(sh, done, k, acts); }
      }
    } else if sh.mem[k].Empty() {
      var acts := PostAndLeave(sh1, k, done, Some(k));
      assert Loses(sh, done, k, acts);
    } else {
      var acts := AllRelease(sh1, k, sh1.life[k].holders);
      assert Loses(sh, done, k, acts);
    }
  }

  lemma RingFacts(sh: Shared, done: map<RingId, nat>, k: RingId)
    requires SharedInv(sh, done, None) && k in sh.mem && k in sh.life && Registered(sh.life, sh.regs, k)
    ensures sh.mem[k].Shaped() && sh.mem[k].h <= |sh.mem[k].pub| <= sh.mem[k].h + sh.mem[k].cap - 1
    ensures sh.life[k].refs == sh.life[k].holders + 1
  {
    assert RingInv(sh.mem[k], Done(done, k)) && LifeOk(sh.life, sh.regs, None, k);
  }

  lemma SafeRun(sh: Shared, done: map<RingId, nat>, k: RingId, acts: seq<EnvAct>)
    requires SharedInv(sh, done, None) && k in sh.mem && k in sh.life && Registered(sh.life, sh.regs, k)
    requires SharedInv(KilledShared(sh, k), done, Some(k)) && Runs(KilledShared(sh, k), acts)
    requires Done(done, k) == sh.mem[k].h && SafeToKill(sh, k)
    ensures k in After(KilledShared(sh, k), acts).mem
    ensures |After(KilledShared(sh, k), acts).mem[k].pub| == Done(done, k)
  {
    hide Runs, After, LifeInv, EnvDo, EnvEnabled;
    var sh1 := KilledShared(sh, k);
    RingFacts(sh, done, k);
    RunSafe(sh1, acts, done, Some(k));
    if sh.Orphan(k) {
      RunOutOfReach(sh1, acts, done, Some(k), k);
    } else {
      assert RingInv(After(sh1, acts).mem[k], Done(done, k));
    }
  }

  /**
    * Between the orphan test and the lock a thread can find an empty orphan again, publish into it and
    * leave.  The ring is an orphan once more and its delivered records are all committed, so that a
    * second look at the reference count alone would not notice.
    */
  lemma FoundAgain(sh: Shared, done: map<RingId, nat>, k: RingId) returns (acts: seq<EnvAct>)
    requires SharedInv(sh, done, None) && !sh.quiet && k in sh.mem && k in sh.life && Registered(sh.life, sh.regs, k)
    requires sh.Orphan(k) && sh.mem[k].Empty() && sh.mem[k].cap > 1 && sh.mem[k].pc == Idle
    ensures Runs(sh, acts)
    ensures var sh' := After(sh, acts);
            && SharedInv(sh', done, None) && k in sh'.mem && k in sh'.life && Registered(sh'.life, sh'.regs, k)
            && sh'.Orphan(k) && sh'.mem[k].h == sh.mem[k].h && |sh'.mem[k].pub| == sh'.mem[k].h + 1
            && !SafeToKill(sh', k)
  {
    hide MemInv, LifeInv, RingInv, Do, Enabled, Runs, After;
    RingFacts(sh, done, k);
    var a := Hold(sh.life[k].name, k);
    RunsOne(sh, a);
    var sh1 := EnvDo(sh, a);
    var b := PostOne(sh1, k);
    var sh2 := After(sh1, b);
    var c := Release(k);
    RunsOne(sh2, c);
    RunsConcat(sh1, b, [c]);
    RunsConcat(sh, [a], b + [c]);
    acts := [a] + (b + [c]);
    RunSafe(sh, acts, done, None);
  }

  // ---------------------------------------------------------------- rings that are gone

  /** What a ring held, and how much of it had been delivered, when it went out of reach. */
  datatype Grave = Grave(pub: seq<Record>, delivered: nat)

  /** Rings that are gone stay as they were: out of reach, nothing published, nothing delivered. */
  ghost predicate Buried(sh: Shared, done: map<RingId, nat>, graves: map<RingId, Grave>)
  {
    forall k :: k in graves ==>
      OutOfReach(sh, k) && sh.mem[k].pub == graves[k].pub && Done(done, k) == graves[k].delivered
  }

  /** Ring k, killed in state sh with so much delivered: nobody held it and it is buried, or somebody holds it. */
  ghost predicate LaidOut(sh: Shared, k: RingId, delivered: nat, graves: map<RingId, Grave>)
  {
    && k in sh.mem && k in sh.life
    && if sh.Orphan(k) then k in graves && graves[k] == Grave(sh.mem[k].pub, delivered) else sh.life[k].holders > 0
  }

  lemma BuriedRun(sh: Shared, a: EnvAct, done: map<RingId, nat>, owed: Option<RingId>, graves: map<RingId, Grave>)
    requires SharedInv(sh, done, owed) && EnvEnabled(sh, a) && Buried(sh, done, graves)
    ensures Buried(EnvDo(sh, a), done, graves)
  {
    hide SharedInv, EnvDo, EnvEnabled;
    forall k | k in graves
      ensures OutOfReach(EnvDo(sh, a), k) && EnvDo(sh, a).mem[k].pub == graves[k].pub
    {
      StaysOutOfReach(sh, a, done, owed, k);
    }
  }

  /** Graves are never opened. */
  ghost predicate StillBuried(graves: map<RingId, Grave>, graves': map<RingId, Grave>)
  {
    forall k :: k in graves ==> k in graves' && graves'[k] == graves[k]
  }

  lemma BuriedSelf(graves: map<RingId, Grave>)
    ensures StillBuried(graves, graves)
  {
  }

  /** Steps of the engine that deliver from registered rings only. */
  lemma BuriedKept(sh: Shared, sh': Shared, done: map<RingId, nat>, done': map<RingId, nat>, graves: map<RingId, Grave>)
    requires Buried(sh, done, graves) && sh'.life == sh.life && sh'.regs == sh.regs && sh'.mem.Keys == sh.mem.Keys
    requires forall k :: k in sh.mem ==> sh'.mem[k].pub == sh.mem[k].pub
    requires forall k :: k in sh.mem && k in sh.life ==>
      Done(done', k) == Done(done, k) || Registered(sh.life, sh.regs, k)
    ensures Buried(sh', done', graves)
  {
  }

  lemma BuriedKilled(sh: Shared, done: map<RingId, nat>, graves: map<RingId, Grave>, k: RingId)
    requires Buried(sh, done, graves) && k in sh.life
    ensures Buried(KilledShared(sh, k), done, graves)
  {
  }

  lemma BuriedReleased(sh: Shared, done: map<RingId, nat>, graves: map<RingId, Grave>, k: RingId)
    requires Buried(sh, done, graves) && k in sh.life
    ensures Buried(ReleasedShared(sh, k), done, graves)
  {
  }

  /** A ring that nobody holds when it is killed is out of reach at once. */
  lemma BuriedNew(sh: Shared, done: map<RingId, nat>, graves: map<RingId, Grave>, k: RingId)
    requires SharedInv(sh, done, None) && Buried(sh, done, graves) && k in sh.mem && k in sh.life
    requires Registered(sh.life, sh.regs, k) && sh.Orphan(k)
    ensures k !in graves && Buried(KilledShared(sh, k), done, graves[k := Grave(sh.mem[k].pub, Done(done, k))])
  {
    hide MemInv;
    assert LifeOk(sh.life, sh.regs, None, k);
  }

  lemma HolderLeft(sh: Shared, done: map<RingId, nat>, k: RingId)
    requires SharedInv(sh, done, None) && k in sh.life && Registered(sh.life, sh.regs, k) && !sh.Orphan(k)
    ensures sh.life[k].holders > 0
  {
    hide MemInv;
    assert LifeOk(sh.life, sh.regs, None, k);
  }
}
