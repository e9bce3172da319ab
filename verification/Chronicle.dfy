/**
  * What other threads have done, step by step, and what the shared state owes to it: which records have
  * been posted, how many references are held, and which rings there are.
  */
module Chronicles {
  import opened Wrappers
  import opened Rings
  import opened Sharing

  // ---------------------------------------------------------------- runs of other threads

  predicate Runs(sh: Shared, acts: seq<EnvAct>)
    decreases |acts|
  {
    acts == [] || (EnvEnabled(sh, acts[0]) && Runs(EnvDo(sh, acts[0]), acts[1..]))
  }

  function After(sh: Shared, acts: seq<EnvAct>): Shared
    requires Runs(sh, acts)
    decreases |acts|
  {
    if acts == [] then sh else After(EnvDo(sh, acts[0]), acts[1..])
  }

  lemma {:induction false} RunsConcat(sh: Shared, a: seq<EnvAct>, b: seq<EnvAct>)
    requires Runs(sh, a) && Runs(After(sh, a), b)
    ensures Runs(sh, a + b) && After(sh, a + b) == After(After(sh, a), b)
    decreases |a|
  {
    hide EnvDo, EnvEnabled;
    if a == [] {
      assert a + b == b;
    } else {
      RunsConcat(EnvDo(sh, a[0]), a[1..], b);
      assert (a + b)[1..] == a[1..] + b;
    }
  }

  lemma RunsOne(sh: Shared, a: EnvAct)
    requires EnvEnabled(sh, a)
    ensures Runs(sh, [a]) && After(sh, [a]) == EnvDo(sh, a)
  {
    hide EnvDo, EnvEnabled;
    assert [a][1..] == [];
  }

  lemma {:induction false} RunSafe(sh: Shared, acts: seq<EnvAct>, done: map<RingId, nat>, owed: Option<RingId>)
    requires SharedInv(sh, done, owed) && Runs(sh, acts)
    ensures SharedInv(After(sh, acts), done, owed) && EnvRely(sh, After(sh, acts))
    decreases |acts|
  {
    hide EnvDo, EnvEnabled, SharedInv, EnvRely;
    if acts == [] {
      Reflexive(sh, done, owed);
    } else {
      EnvSafe(sh, acts[0], done, owed);
      RunSafe(EnvDo(sh, acts[0]), acts[1..], done, owed);
      EnvRelyTransitive(sh, EnvDo(sh, acts[0]), After(sh, acts));
    }
  }

  lemma Reflexive(sh: Shared, done: map<RingId, nat>, owed: Option<RingId>)
    requires SharedInv(sh, done, owed)
    ensures EnvRely(sh, sh)
  {
    hide SharedInv, EnvRely;
    RelyReflexive(sh, done, owed);
  }

  /** The state remembers a run as it was. */
  lemma {:induction false} RunRemembered(sh: Shared, acts: seq<EnvAct>)
    requires Runs(sh, acts)
    ensures After(sh, acts).acts == sh.acts + acts
    decreases |acts|
  {
    hide EnvEffect, EnvEnabled;
    if acts != [] {
      RunRemembered(EnvDo(sh, acts[0]), acts[1..]);
      assert sh.acts + acts == sh.acts + [acts[0]] + acts[1..];
    }
  }

  // ---------------------------------------------------------------- whole posts

  /** Begin, set_args, finish. */
  function PostActs(k: RingId, ts: nat, area: nat, section: nat, argtype: nat, arg0: nat, rest: seq<nat>): seq<EnvAct>
  {
    [RingAct(k, Begin(ts, area, section)), RingAct(k, Fill(argtype, arg0, rest)), RingAct(k, Commit)]
  }

  lemma RunsThree(sh: Shared, a: EnvAct, b: EnvAct, c: EnvAct)
    requires EnvEnabled(sh, a) && EnvEnabled(EnvDo(sh, a), b) && EnvEnabled(EnvDo(EnvDo(sh, a), b), c)
    ensures Runs(sh, [a, b, c]) && After(sh, [a, b, c]) == EnvDo(EnvDo(EnvDo(sh, a), b), c)
  {
    hide EnvDo, EnvEnabled;
    RunsOne(EnvDo(EnvDo(sh, a), b), c);
    RunsOne(EnvDo(sh, a), b);
    RunsOne(sh, a);
    RunsConcat(EnvDo(sh, a), [b], [c]);
    RunsConcat(sh, [a], [b] + [c]);
    assert [a, b, c] == [a] + ([b] + [c]);
  }

  /** What a whole post makes of a ring: rec is what the caller passed, with the next sequence number. */
  predicate PostMade(r: Ring, r': Ring, rec: Record)
  {
    && r'.seqnum == r.seqnum + 1 && r'.h == r.h && r'.timeouts == r.timeouts
    && r'.pub == r.pub + (if r.Full() then [] else [rec])
    && r'.dropcnt == r.dropcnt + (if r.Full() && !r.blocking then 1 else 0)
    && r'.pc == (if r.Full() && r.blocking then Filled else Idle)
  }

  lemma RingPost(r: Ring, ts: nat, area: nat, section: nat, argtype: nat, arg0: nat, rest: seq<nat>)
    requires r.Shaped() && r.pc == Idle && !(area == 0 && section == SPECIAL_SECTION)
    ensures var r1 := Do(r, Begin(ts, area, section));
            var r2 := Do(r1, Fill(argtype, arg0, rest));
            && r1.Shaped() && r1.pc == Filling && r2.Shaped() && r2.pc == Filled
            && PostMade(r, Do(r2, Commit), Record(area, section, ts, r.seqnum, argtype, arg0, rest))
  {
  }

  /**
    * A post into a ring with room appends exactly the record with what the caller passed and the next
    * sequence number.  A full ring that does not block counts a drop, one that blocks keeps the record
    * ready; either way the sequence number is used up.
    */
  lemma PostPublishes(sh: Shared, k: RingId, ts: nat, area: nat, section: nat, argtype: nat, arg0: nat, rest: seq<nat>)
    requires !sh.quiet && k in sh.mem && k in sh.life && sh.life[k].holders > 0
    requires sh.mem[k].Shaped() && sh.mem[k].pc == Idle && !(area == 0 && section == SPECIAL_SECTION)
    ensures var acts := PostActs(k, ts, area, section, argtype, arg0, rest);
            && Runs(sh, acts) && k in After(sh, acts).mem
            && PostMade(sh.mem[k], After(sh, acts).mem[k],
                        Record(area, section, ts, sh.mem[k].seqnum, argtype, arg0, rest))
  {
    hide Do, PostMade;
    var acts := PostActs(k, ts, area, section, argtype, arg0, rest);
    RingPost(sh.mem[k], ts, area, section, argtype, arg0, rest);
    RunsThree(sh, acts[0], acts[1], acts[2]);
  }

  /** A special record is published likewise, once there is room for it; then its poster waits for the ack. */
  lemma SpecialPublishes(sh: Shared, k: RingId, ts: nat, kind: nat, arg1: nat)
    requires !sh.quiet && k in sh.mem && k in sh.life && sh.life[k].holders > 0
    requires sh.mem[k].Shaped() && sh.mem[k].pc == Idle && !sh.mem[k].Full()
    ensures var acts := [RingAct(k, SpecialBegin), RingAct(k, SpecialFill(ts, kind, arg1)), RingAct(k, SpecialCommit)];
            Runs(sh, acts) && k in After(sh, acts).mem
            && var r, r' := sh.mem[k], After(sh, acts).mem[k];
               && r'.seqnum == r.seqnum + 1 && r'.h == r.h && r'.dropcnt == r.dropcnt && r'.timeouts == r.timeouts
               && r'.pub == r.pub + [Record(0, SPECIAL_SECTION, ts, r.seqnum, kind, 0, [arg1, 0])]
               && r'.pc == AckWait(|r.pub|)
  {
    var acts := [RingAct(k, SpecialBegin), RingAct(k, SpecialFill(ts, kind, arg1)), RingAct(k, SpecialCommit)];
    RunsThree(sh, acts[0], acts[1], acts[2]);
  }

  /** What any thread may do at any time: find a registered ring, let go of one it holds, add one, register one. */
  lemma AlwaysEnabled(sh: Shared, done: map<RingId, nat>, owed: Option<RingId>)
    requires SharedInv(sh, done, owed) && !sh.quiet
    ensures forall n :: n in sh.regs ==> EnvEnabled(sh, Hold(n, sh.regs[n]))
    ensures forall k :: k in sh.life && sh.life[k].holders > 0 ==>
      EnvEnabled(sh, Release(k)) && (sh.life[k].name !in sh.regs ==> EnvEnabled(sh, Register(k)))
    ensures forall k: RingId, cap, blocking, name, prio, immortal ::
      k !in sh.mem && cap >= 1 && name !in sh.regs ==> EnvEnabled(sh, AddRing(k, cap, blocking, name, prio, immortal))
  {
    hide MemInv;
  }

  /** What a thread may do with a ring it holds, by where its last steps have left it. */
  lemma WriterEnabled(sh: Shared, k: RingId)
    requires !sh.quiet && k in sh.mem && k in sh.life && sh.life[k].holders > 0 && sh.mem[k].Shaped()
    ensures var pc := sh.mem[k].pc;
            && (pc == Idle ==> EnvEnabled(sh, RingAct(k, SpecialBegin)))
            && (pc == Idle ==> forall ts, area, section :: area != 0 || section != 0xfff ==>
                  EnvEnabled(sh, RingAct(k, Begin(ts, area, section))))
            && (pc.RoomWait? ==> EnvEnabled(sh, RingAct(k, RoomTimeout)))
            && (pc.RoomWait? && !sh.mem[k].Full() ==> forall ts, kind, arg1 ::
                  EnvEnabled(sh, RingAct(k, SpecialFill(ts, kind, arg1))))
            && (pc.AckWait? ==> EnvEnabled(sh, RingAct(k, AckGiveUp)))
  {
  }

  // ---------------------------------------------------------------- what was posted

  /** The steps on ring k. */
  function RingActs(acts: seq<EnvAct>, k: RingId): seq<Act>
  {
    if acts == [] then []
    else
      var n := |acts| - 1;
      RingActs(acts[..n], k) + (if acts[n].RingAct? && acts[n].k == k then [acts[n].a] else [])
  }

  /** How many sequence numbers a ring's steps have taken. */
  function Taken(steps: seq<Act>): nat
  {
    if steps == [] then 0
    else Taken(steps[..|steps| - 1]) + (if steps[|steps| - 1].Begin? || steps[|steps| - 1].SpecialBegin? then 1 else 0)
  }

  /** How many flushes have given up waiting for room. */
  function Timeouts(steps: seq<Act>): nat
  {
    if steps == [] then 0 else Timeouts(steps[..|steps| - 1]) + (if steps[|steps| - 1].RoomTimeout? then 1 else 0)
  }

  /** The record that the post starting with step i passes, when its second step has been made. */
  predicate Passes(steps: seq<Act>, i: nat, rec: Record)
  {
    && i + 1 < |steps|
    && match steps[i]
       case Begin(ts, area, section) =>
         steps[i + 1].Fill? && rec == Record(area, section, ts, Taken(steps[..i]),
                                          steps[i + 1].argtype, steps[i + 1].arg0, steps[i + 1].rest)
       case SpecialBegin =>
         steps[i + 1].SpecialFill? && rec == Record(0, SPECIAL_SECTION, steps[i + 1].ts, Taken(steps[..i]),
                                                 steps[i + 1].kind, 0, [steps[i + 1].arg1, 0])
       case _ => false
  }

  /** Step i starts a post that passes record rec and goes on to publish it. */
  predicate PostedAt(steps: seq<Act>, i: nat, rec: Record)
  {
    Passes(steps, i, rec) && i + 2 < |steps| && steps[i + 2] == (if steps[i].Begin? then Commit else SpecialCommit)
  }

  /** Some post passed exactly this record. */
  ghost predicate Posted(steps: seq<Act>, rec: Record)
  {
    exists i: nat :: PostedAt(steps, i, rec)
  }

  /** The number of steps in front of the attempts to commit at the end. */
  function Prepared(steps: seq<Act>): (n: nat)
    ensures n <= |steps| && (forall i :: n <= i < |steps| ==> steps[i] == Commit) && (n > 0 ==> steps[n - 1] != Commit)
  {
    if steps != [] && steps[|steps| - 1] == Commit then Prepared(steps[..|steps| - 1]) else |steps|
  }

  /** Where a ring's writer stands is where its last steps have brought it. */
  ghost predicate Progress(r: Ring, steps: seq<Act>)
    requires r.Shaped()
  {
    var n, t := |steps|, r.Slot(|r.pub|);
    match r.pc
    case Idle =>
      n > 0 ==>
        || steps[n - 1] == Commit || steps[n - 1] == RoomTimeout
        || steps[n - 1] == AckSeen || steps[n - 1] == AckGiveUp
    case Filling =>
      n > 0 && steps[n - 1] == Begin(t.timestamp, t.area, t.section) && t.seqnum == Taken(steps[..n - 1])
    case Filled => Prepared(steps) >= 2 && steps[Prepared(steps) - 2].Begin? && Passes(steps, Prepared(steps) - 2, t)
    case RoomWait(s) => n > 0 && steps[n - 1] == SpecialBegin && s == Taken(steps[..n - 1])
    case SpecialFilled => n >= 2 && steps[n - 2] == SpecialBegin && Passes(steps, n - 2, t)
    case AckWait(_) => n > 0 && steps[n - 1] == SpecialCommit
  }

  /** Ring r is what its steps have made of it: every record published to it is what some post passed. */
  ghost predicate Told(r: Ring, steps: seq<Act>)
    requires r.Shaped()
  {
    && r.seqnum == Taken(steps) && r.timeouts == Timeouts(steps) && Progress(r, steps)
    && (forall p :: 0 <= p < |r.pub| ==> Posted(steps, r.pub[p]))
  }

  lemma TakenMore(steps: seq<Act>, a: Act)
    ensures Taken(steps + [a]) == Taken(steps) + (if a.Begin? || a.SpecialBegin? then 1 else 0)
    ensures Timeouts(steps + [a]) == Timeouts(steps) + (if a.RoomTimeout? then 1 else 0)
  {
    assert (steps + [a])[..|steps|] == steps;
  }

  lemma PassesMore(steps: seq<Act>, a: Act, i: nat, rec: Record)
    requires Passes(steps, i, rec)
    ensures Passes(steps + [a], i, rec)
  {
    assert (steps + [a])[..i] == steps[..i];
  }

  lemma PostedMore(steps: seq<Act>, a: Act, rec: Record)
    requires Posted(steps, rec)
    ensures Posted(steps + [a], rec)
  {
    var i: nat :| PostedAt(steps, i, rec);
    PassesMore(steps, a, i, rec);
    assert PostedAt(steps + [a], i, rec);
  }

  lemma SettledMore(steps: seq<Act>, a: Act)
    ensures Prepared(steps + [a]) == if a == Commit then Prepared(steps) else |steps| + 1
  {
    assert (steps + [a])[..|steps|] == steps;
  }

  /** One more step of a writer. */
  lemma ToldStep(r: Ring, a: Act, steps: seq<Act>, done: nat)
    requires RingInv(r, done) && Enabled(r, a) && Told(r, steps)
    ensures Do(r, a).Shaped() && Told(Do(r, a), steps + [a])
  {
    hide Taken, Timeouts, SeqnumsOk, SlotOk;
    var r', steps' := Do(r, a), steps + [a];
    TakenMore(steps, a);
    SettledMore(steps, a);
    assert steps'[..|steps|] == steps;
    ProgressStep(r, a, steps);
    forall p | 0 <= p < |r'.pub| ensures Posted(steps', r'.pub[p]) {
      if p < |r.pub| {
        PostedMore(steps, a, r.pub[p]);
      } else {
        var i := if a == Commit then Prepared(steps) - 2 else |steps| - 2;
        PassesMore(steps, a, i, r'.pub[p]);
        assert PostedAt(steps', i, r'.pub[p]);
      }
    }
  }

  lemma ProgressStep(r: Ring, a: Act, steps: seq<Act>)
    requires r.Shaped() && Enabled(r, a) && r.seqnum == Taken(steps) && Progress(r, steps)
    requires r.pc == SpecialFilled ==> !r.Full()
    ensures Do(r, a).Shaped() && Progress(Do(r, a), steps + [a])
  {
    hide Taken, Timeouts;
    var steps' := steps + [a];
    SettledMore(steps, a);
    assert steps'[..|steps|] == steps;
    match a
    case Fill(_, _, _) => assert steps'[..|steps| - 1] == steps[..|steps| - 1];
    case SpecialFill(_, _, _) => assert steps'[..|steps| - 1] == steps[..|steps| - 1];
    case Commit => if r.Full() && r.blocking { PassesMore(steps, a, Prepared(steps) - 2, r.Slot(|r.pub|)); }
    case _ =>
  }

  lemma {:induction false} TakenGrows(steps: seq<Act>, i: nat, j: nat)
    requires i <= j <= |steps|
    ensures Taken(steps[..i]) <= Taken(steps[..j])
  {
    if i < j {
      TakenGrows(steps, i, j - 1);
      assert steps[..j] == steps[..j - 1] + [steps[j - 1]];
      TakenMore(steps[..j - 1], steps[j - 1]);
    }
  }

  /** Published records come from different posts, in the order in which the posts began. */
  lemma PostOrder(r: Ring, done: nat, steps: seq<Act>, p: nat, q: nat, i: nat, j: nat)
    requires RingInv(r, done) && p < q < |r.pub|
    requires PostedAt(steps, i, r.pub[p]) && PostedAt(steps, j, r.pub[q])
    ensures i < j
  {
    hide Taken, SlotOk, TailOk;
    if j <= i { TakenGrows(steps, j, i); }
  }

  // ---------------------------------------------------------------- references and rings

  /** The references to ring k that the steps `acts` have taken, less those they have given back. */
  function Net(acts: seq<EnvAct>, k: RingId): int
  {
    if acts == [] then 0
    else
      var n := |acts| - 1;
      Net(acts[..n], k) + (match acts[n]
                           case AddRing(x, _, _, _, _, _) => if x == k then 1 else 0
                           case Hold(_, x) => if x == k then 1 else 0
                           case Release(x) => if x == k then -1 else 0
                           case _ => 0)
  }

  lemma {:induction false} NetConcat(a: seq<EnvAct>, b: seq<EnvAct>, k: RingId)
    ensures Net(a + b, k) == Net(a, k) + Net(b, k)
    decreases |b|
  {
    if b == [] {
      assert a + b == a;
    } else {
      var n := |b| - 1;
      assert (a + b)[..|a| + n] == a + b[..n];
      NetConcat(a, b[..n], k);
    }
  }

  function Holders(sh: Shared, k: RingId): nat { if k in sh.life then sh.life[k].holders else 0 }

  lemma HoldersStep(sh: Shared, a: EnvAct, k: RingId)
    requires EnvEnabled(sh, a)
    ensures Holders(EnvDo(sh, a), k) == Holders(sh, k) + Net([a], k)
  {
    hide Do, Enabled;
    assert [a][..0] == [];
  }

  /**
    * Over any run, the references to a ring held by other threads change by those taken (one by whoever adds
    * the ring, one by every find_ring that returns it) less those released; and the reference count is
    * that number, plus one for a registered ring, plus the one the engine may owe.
    */
  lemma {:induction false} HoldersCounted(sh: Shared, acts: seq<EnvAct>, done: map<RingId, nat>, owed: Option<RingId>,
                                          k: RingId)
    requires SharedInv(sh, done, owed) && Runs(sh, acts)
    ensures var sh' := After(sh, acts);
            && Holders(sh', k) == Holders(sh, k) + Net(acts, k)
            && (k in sh'.life ==>
                  sh'.life[k].refs == Holders(sh, k) + Net(acts, k)
                    + (if Registered(sh'.life, sh'.regs, k) then 1 else 0) + (if owed == Some(k) then 1 else 0))
    decreases |acts|
  {
    hide EnvDo, EnvEnabled, MemInv, Net, EnvRely;
    HoldersRun(sh, acts, k);
    RunSafe(sh, acts, done, owed);
    if k in After(sh, acts).life { LifeOkOf(After(sh, acts).life, After(sh, acts).regs, owed, k); }
  }

  lemma {:induction false} HoldersRun(sh: Shared, acts: seq<EnvAct>, k: RingId)
    requires Runs(sh, acts)
    ensures Holders(After(sh, acts), k) == Holders(sh, k) + Net(acts, k)
    decreases |acts|
  {
    hide EnvDo, EnvEnabled, Holders;
    if acts != [] {
      HoldersStep(sh, acts[0], k);
      HoldersRun(EnvDo(sh, acts[0]), acts[1..], k);
      assert acts == [acts[0]] + acts[1..];
      NetConcat([acts[0]], acts[1..], k);
    }
  }

  /** What step a promises about the map of registered rings, however long ago it was. */
  ghost predicate Standing(sh: Shared, a: EnvAct)
  {
    match a
    case AddRing(k, _, _, name, _, _) => name in sh.regs && sh.regs[name] == k
    case Register(k) => k in sh.life && Registered(sh.life, sh.regs, k) && sh.dirty
    case SetDirty => sh.dirty
    case _ => true
  }

  lemma StandingStep(sh: Shared, a: EnvAct)
    requires EnvEnabled(sh, a)
    ensures Standing(EnvDo(sh, a), a)
  {
    hide Do, Enabled;
  }

  lemma StandingStays(sh: Shared, sh': Shared, a: EnvAct)
    requires Standing(sh, a) && EnvRely(sh, sh')
    ensures Standing(sh', a)
  {
    hide MemRely;
  }

  /** While only other threads run, whatever has been registered stays registered, and the index stays dirty. */
  lemma {:induction false} RunRegisters(sh: Shared, acts: seq<EnvAct>, i: nat, done: map<RingId, nat>,
                                        owed: Option<RingId>)
    requires SharedInv(sh, done, owed) && Runs(sh, acts) && i < |acts|
    ensures Standing(After(sh, acts), acts[i])
    decreases |acts|
  {
    hide SharedInv, EnvRely, EnvDo, EnvEnabled, Standing;
    EnvSafe(sh, acts[0], done, owed);
    var sh1 := EnvDo(sh, acts[0]);
    if i > 0 {
      RunRegisters(sh1, acts[1..], i - 1, done, owed);
    } else {
      StandingStep(sh, acts[0]);
      RunSafe(sh1, acts[1..], done, owed);
      StandingStays(sh1, After(sh, acts), acts[0]);
    }
  }

  /** The add_ring calls that the steps `acts` have begun, less those that have set `dirty`. */
  function Unset(acts: seq<EnvAct>): int
  {
    if acts == [] then 0
    else Unset(acts[1..]) + (if acts[0].AddRing? then 1 else if acts[0].SetDirty? then -1 else 0)
  }

  lemma {:induction false} UnsetCounted(sh: Shared, acts: seq<EnvAct>)
    requires Runs(sh, acts)
    ensures After(sh, acts).unset == sh.unset + Unset(acts)
    decreases |acts|
  {
    hide Do, Enabled;
    if acts != [] { UnsetCounted(EnvDo(sh, acts[0]), acts[1..]); }
  }

  /** Some step added ring k. */
  predicate Added(acts: seq<EnvAct>, k: RingId)
  {
    exists i :: 0 <= i < |acts| && acts[i].AddRing? && acts[i].k == k
  }

  /** The ring that step a added is there as it was asked for. */
  predicate AsAdded(sh: Shared, a: EnvAct)
    requires a.AddRing?
  {
    && a.k in sh.mem && a.k in sh.life && sh.mem[a.k].cap == a.cap && sh.mem[a.k].blocking == a.blocking
    && sh.life[a.k].name == a.name && sh.life[a.k].prio == a.prio && sh.life[a.k].immortal == a.immortal
  }

  /** The remembered steps explain ring k, if they have added it. */
  ghost predicate Explained(sh: Shared, k: RingId)
  {
    if k in sh.mem && k in sh.life then
      Added(sh.acts, k) ==>
        && sh.mem[k].Shaped() && Told(sh.mem[k], RingActs(sh.acts, k))
        && sh.life[k].holders == Net(sh.acts, k)
    else
      !Added(sh.acts, k) && RingActs(sh.acts, k) == [] && Net(sh.acts, k) == 0
  }

  /** The remembered steps explain every ring that they have added. */
  ghost predicate Recorded(sh: Shared)
  {
    && (forall k: RingId :: Explained(sh, k))
    && (forall i :: 0 <= i < |sh.acts| && sh.acts[i].AddRing? ==> AsAdded(sh, sh.acts[i]))
  }

  /** Where remembering begins, there is nothing to explain. */
  lemma RecordedStart(sh: Shared)
    requires sh.acts == []
    ensures Recorded(sh)
  {
  }

  lemma ActsMore(acts: seq<EnvAct>, a: EnvAct, k: RingId)
    ensures RingActs(acts + [a], k) == RingActs(acts, k) + (if a.RingAct? && a.k == k then [a.a] else [])
    ensures Net(acts + [a], k) == Net(acts, k) + Net([a], k)
    ensures Added(acts + [a], k) <==> Added(acts, k) || (a.AddRing? && a.k == k)
  {
    assert (acts + [a])[..|acts|] == acts;
    NetConcat(acts, [a], k);
    if Added(acts, k) {
      var i :| 0 <= i < |acts| && acts[i].AddRing? && acts[i].k == k;
      assert (acts + [a])[i] == acts[i];
    }
    if a.AddRing? && a.k == k { assert (acts + [a])[|acts|] == a; }
  }

  lemma FreshTold(cap: nat, blocking: bool)
    requires cap >= 1
    ensures FreshRing(cap, blocking).Shaped() && Told(FreshRing(cap, blocking), [])
  {
  }

  lemma ExplainedRun(sh: Shared, a: EnvAct, done: map<RingId, nat>, owed: Option<RingId>, k: RingId)
    requires SharedInv(sh, done, owed) && EnvEnabled(sh, a) && Explained(sh, k)
    ensures Explained(EnvDo(sh, a), k)
  {
    hide Do, Enabled, Told, LifeInv, RingInv, Net, RingActs, Added;
    ActsMore(sh.acts, a, k);
    HoldersStep(sh, a, k);
    assert RingActs(sh.acts, k) + [] == RingActs(sh.acts, k);
    if a.AddRing? && a.k == k { FreshTold(a.cap, a.blocking); }
    if a.RingAct? && a.k == k && Added(sh.acts, k) {
      ToldStep(sh.mem[k], a.a, RingActs(sh.acts, k), Done(done, k));
    }
  }

  lemma AddedRun(sh: Shared, a: EnvAct, b: EnvAct)
    requires EnvEnabled(sh, a) && b.AddRing? && (AsAdded(sh, b) || b == a)
    ensures AsAdded(EnvDo(sh, a), b)
  {
    hide Enabled;
    if a.RingAct? { StepKeepsShape(sh.mem[a.k], a.a); }
  }

  lemma StepKeepsShape(r: Ring, a: Act)
    requires r.Shaped() && Enabled(r, a)
    ensures Do(r, a).cap == r.cap && Do(r, a).blocking == r.blocking
  {
  }

  /** Every step of another thread keeps the rings explained by what has been done. */
  lemma RecordedRun(sh: Shared, a: EnvAct, done: map<RingId, nat>, owed: Option<RingId>)
    requires SharedInv(sh, done, owed) && EnvEnabled(sh, a) && Recorded(sh)
    ensures Recorded(EnvDo(sh, a))
  {
    hide SharedInv, EnvEffect, EnvEnabled, Explained, AsAdded;
    forall k: RingId ensures Explained(EnvDo(sh, a), k) {
      ExplainedRun(sh, a, done, owed, k);
    }
    var acts' := EnvDo(sh, a).acts;
    forall i | 0 <= i < |acts'| && acts'[i].AddRing? ensures AsAdded(EnvDo(sh, a), acts'[i]) {
      AddedRun(sh, a, acts'[i]);
    }
  }

  // ---------------------------------------------------------------- steps of the engine

  /** Nothing about the ring that its writer made has changed. */
  predicate SameStory(r: Ring, r': Ring)
  {
    && r.Shaped() && r'.Shaped() && r'.cap == r.cap && r'.blocking == r.blocking && r'.pub == r.pub
    && r'.seqnum == r.seqnum && r'.timeouts == r.timeouts && r'.pc == r.pc && r'.Slot(|r.pub|) == r.Slot(|r.pub|)
  }

  lemma ToldSame(r: Ring, r': Ring, steps: seq<Act>)
    requires SameStory(r, r') && Told(r, steps)
    ensures Told(r', steps)
  {
  }

  lemma RecordedSame(sh: Shared, sh': Shared)
    requires Recorded(sh) && sh'.acts == sh.acts && sh'.mem.Keys == sh.mem.Keys && sh'.life.Keys == sh.life.Keys
    requires forall k :: k in sh.mem ==> sh'.mem[k] == sh.mem[k] || SameStory(sh.mem[k], sh'.mem[k])
    requires forall k :: k in sh.life ==>
      sh'.life[k] == sh.life[k].(refs := sh'.life[k].refs, alive := sh'.life[k].alive)
    ensures Recorded(sh')
  {
    hide Told, RingActs, Net, Added;
    forall k: RingId ensures Explained(sh', k) {
      assert Explained(sh, k);
      if k in sh.mem && k in sh.life && Added(sh.acts, k) && sh'.mem[k] != sh.mem[k] {
        ToldSame(sh.mem[k], sh'.mem[k], RingActs(sh.acts, k));
      }
    }
    forall i | 0 <= i < |sh'.acts| && sh'.acts[i].AddRing? ensures AsAdded(sh', sh'.acts[i]) {
      assert AsAdded(sh, sh.acts[i]);
    }
  }

  /** flush_record's ack does not touch the record that is being prepared. */
  lemma AckStory(r: Ring, done: nat)
    requires RingInv(r, done) && done < |r.pub|
    ensures SameStory(r, AckSlot(r, done))
  {
    hide SeqnumsOk, TailOk, SlotOk;
    AddrDistinct(done, |r.pub|, r.cap);
  }

  lemma CommitStory(r: Ring, h: nat)
    requires r.Shaped()
    ensures SameStory(r, CommitHead(r, h))
  {
  }
}
