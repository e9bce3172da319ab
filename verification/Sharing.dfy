/**
  * What the engine thread shares with the rest of the process: the rings, their reference counts,
  * the map of registered rings and the index's dirty flag, with every step another thread can take.
  */
module Sharing {
  import opened Wrappers
  import opened Rings

  type RingId = nat

  /** Identity and reference count of a ring; `holders` counts the references held outside the engine. */
  datatype Life = Life(name: string, prio: int, immortal: bool, refs: int, holders: nat, alive: bool)

  /**
    * `unset` counts the add_ring calls that have unlocked the ring map but not yet set `dirty`.
    * `quiet` says that no other thread runs any more.  `acts` remembers what other threads have done;
    * no step reads it.
    */
  datatype Shared = Shared(mem: map<RingId, Ring>, life: map<RingId, Life>, regs: map<string, RingId>,
                           dirty: bool, unset: nat, quiet: bool, acts: seq<EnvAct>)
  {
    /** The ring is referenced only by the engine. */
    predicate Orphan(k: RingId)
      requires k in life
    {
      life[k].refs == 1
    }
  }

  /** How many records of ring k have been through flush_record. */
  function Done(done: map<RingId, nat>, k: RingId): nat { if k in done then done[k] else 0 }

  // ---------------------------------------------------------------- steps of other threads

  datatype EnvAct =
    | RingAct(k: RingId, a: Act)
    | AddRing(k: RingId, cap: nat, blocking: bool, name: string, prio: int, immortal: bool)
    | SetDirty
    | Register(k: RingId)
    | Hold(name: string, k: RingId)   // find_ring, and what it returned
    | Release(k: RingId)

  const ZERO_RECORD := Record(0, 0, 0, 0, 0, 0, [])

  function FreshRing(cap: nat, blocking: bool): Ring
  {
    Ring(cap, blocking, seq(cap, _ => ZERO_RECORD), 0, [], 0, 0, 0, Idle)
  }

  predicate EnvEnabled(sh: Shared, a: EnvAct)
  {
    !sh.quiet &&
    match a
    case RingAct(k, act) =>
      k in sh.mem && k in sh.life && sh.life[k].holders > 0 && sh.mem[k].Shaped() && Enabled(sh.mem[k], act)
    case AddRing(k, cap, _, name, _, _) => k !in sh.mem && k !in sh.life && cap >= 1 && name !in sh.regs
    case SetDirty => sh.unset > 0
    case Register(k) => k in sh.life && sh.life[k].holders > 0 && sh.life[k].name !in sh.regs
    case Hold(name, k) => name in sh.regs && sh.regs[name] == k && k in sh.life
    case Release(k) => k in sh.life && sh.life[k].holders > 0
  }

  /** release(): one reference less; the last one deletes the ring unless it is immortal. */
  function DropRef(l: Life): Life
  {
    l.(refs := l.refs - 1, alive := l.alive && (l.refs > 1 || l.immortal))
  }

  function EnvDo(sh: Shared, a: EnvAct): Shared
    requires EnvEnabled(sh, a)
  {
    EnvEffect(sh, a).(acts := sh.acts + [a])
  }

  function EnvEffect(sh: Shared, a: EnvAct): Shared
    requires EnvEnabled(sh, a)
  {
    match a
    case RingAct(k, act) => sh.(mem := sh.mem[k := Do(sh.mem[k], act)])
    case AddRing(k, cap, blocking, name, prio, immortal) =>
      // one reference for the caller, one for the map; dirty is set only after the unlock
      sh.(mem := sh.mem[k := FreshRing(cap, blocking)],
          life := sh.life[k := Life(name, prio, immortal, 2, 1, true)],
          regs := sh.regs[name := k], unset := sh.unset + 1)
    case SetDirty => sh.(dirty := true, unset := sh.unset - 1)
    case Register(k) =>
      var l := sh.life[k];
      sh.(life := sh.life[k := l.(refs := l.refs + 1)], regs := sh.regs[l.name := k], dirty := true)
    case Hold(_, k) =>
      var l := sh.life[k];
      sh.(life := sh.life[k := l.(refs := l.refs + 1, holders := l.holders + 1)])
    case Release(k) =>
      var l := sh.life[k];
      sh.(life := sh.life[k := DropRef(l.(holders := l.holders - 1))])
  }

  // ---------------------------------------------------------------- invariant

  predicate Registered(life: map<RingId, Life>, regs: map<string, RingId>, k: RingId)
    requires k in life
  {
    life[k].name in regs && regs[life[k].name] == k
  }

  /**
    * The reference count of a ring is its registration plus its outside holders, plus the reference
    * `owed` that the engine still has to drop after taking the ring out of the map.
    */
  ghost predicate LifeOk(life: map<RingId, Life>, regs: map<string, RingId>, owed: Option<RingId>, k: RingId)
    requires k in life
  {
    var l := life[k];
    && l.refs == l.holders + (if Registered(life, regs, k) then 1 else 0) + (if owed == Some(k) then 1 else 0)
    && (l.alive <==> l.refs > 0 || l.immortal)
  }

  ghost predicate LifeInv(life: map<RingId, Life>, regs: map<string, RingId>, owed: Option<RingId>)
  {
    && (forall k :: k in life ==> LifeOk(life, regs, owed, k))
    && (forall n :: n in regs ==> regs[n] in life && life[regs[n]].name == n)
    && (owed.Some? ==> owed.value in life)
  }

  ghost predicate MemInv(mem: map<RingId, Ring>, done: map<RingId, nat>)
  {
    && done.Keys <= mem.Keys
    && (forall k :: k in mem ==> RingInv(mem[k], Done(done, k)))
  }

  ghost predicate SharedInv(sh: Shared, done: map<RingId, nat>, owed: Option<RingId>)
  {
    && sh.mem.Keys == sh.life.Keys
    && MemInv(sh.mem, done)
    && LifeInv(sh.life, sh.regs, owed)
  }

  /** Every ring is either in the index `dirty` describes, or the flag is set or about to be set. */
  predicate Settled(sh: Shared) { !sh.dirty && sh.unset == 0 }

  ghost predicate MemRely(mem: map<RingId, Ring>, mem': map<RingId, Ring>)
  {
    && (forall k :: k in mem ==> k in mem' && Rely(mem[k], mem'[k]))
    && (forall k :: k in mem' && k !in mem ==> mem'[k].h == 0)
  }

  ghost predicate LifeRely(life: map<RingId, Life>, life': map<RingId, Life>)
  {
    forall k :: k in life ==> k in life' && life'[k].name == life[k].name && life'[k].prio == life[k].prio
  }

  ghost predicate EnvRely(sh: Shared, sh': Shared)
  {
    && (sh.quiet ==> sh' == sh)
    && sh'.quiet == sh.quiet
    && (sh.dirty ==> sh'.dirty)
    && MemRely(sh.mem, sh'.mem)
    && LifeRely(sh.life, sh'.life)
    && (forall n :: n in sh.regs ==> n in sh'.regs && sh'.regs[n] == sh.regs[n])
    && (Settled(sh') ==> Settled(sh) && sh'.regs == sh.regs)
  }

  lemma RelyReflexive(sh: Shared, done: map<RingId, nat>, owed: Option<RingId>)
    requires SharedInv(sh, done, owed)
    ensures MemRely(sh.mem, sh.mem) && EnvRely(sh, sh)
  {
    hide RingInv, Rely, LifeOk;
    forall k | k in sh.mem ensures Rely(sh.mem[k], sh.mem[k]) {
      RelySelf(sh.mem[k], Done(done, k));
    }
  }

  lemma EnvRelyTransitive(a: Shared, b: Shared, c: Shared)
    requires EnvRely(a, b) && EnvRely(b, c)
    ensures EnvRely(a, c)
  {
    forall k | k in a.mem ensures k in c.mem && Rely(a.mem[k], c.mem[k]) {
      RelyTransitive(a.mem[k], b.mem[k], c.mem[k]);
    }
    forall k | k in c.mem && k !in a.mem ensures c.mem[k].h == 0 {
      if k in b.mem { assert Rely(b.mem[k], c.mem[k]); }
    }
  }

  lemma FreshRingOk(cap: nat, blocking: bool)
    requires cap >= 1
    ensures RingInv(FreshRing(cap, blocking), 0)
  {
  }

  /** Replacing or adding one ring keeps the memory invariant when that ring is fine. */
  lemma MemUpdate(mem: map<RingId, Ring>, k: RingId, r: Ring, done: map<RingId, nat>)
    requires MemInv(mem, done) && RingInv(r, Done(done, k))
    requires if k in mem then Rely(mem[k], r) else r.h == 0
    ensures MemInv(mem[k := r], done) && MemRely(mem, mem[k := r])
  {
    hide RingInv, Rely;
    forall j | j in mem ensures Rely(mem[j], mem[k := r][j]) {
      if j != k { RelySelf(mem[j], Done(done, j)); }
    }
  }

  lemma RingActSafe(sh: Shared, k: RingId, act: Act, done: map<RingId, nat>, owed: Option<RingId>)
    requires SharedInv(sh, done, owed) && EnvEnabled(sh, RingAct(k, act))
    ensures var sh' := EnvDo(sh, RingAct(k, act)); SharedInv(sh', done, owed) && EnvRely(sh, sh')
  {
    hide RingInv, Rely, Do, LifeOk;
    ActSafe(sh.mem[k], act, Done(done, k));
    MemUpdate(sh.mem, k, Do(sh.mem[k], act), done);
    assert EnvDo(sh, RingAct(k, act)).mem.Keys == sh.mem.Keys;
  }

  /** One ring's reference count and holders move together. */
  lemma LifeUpdate(life: map<RingId, Life>, regs: map<string, RingId>, owed: Option<RingId>, k: RingId, l: Life)
    requires LifeInv(life, regs, owed) && k in life && l.name == life[k].name && l.prio == life[k].prio
    requires LifeOk(life[k := l], regs, owed, k)
    ensures LifeInv(life[k := l], regs, owed) && LifeRely(life, life[k := l])
  {
    var life' := life[k := l];
    forall j | j in life' ensures LifeOk(life', regs, owed, j) {
      assert LifeOk(life, regs, owed, j);
    }
  }

  /** A name that is not in the map gets registered, which counts one reference. */
  lemma LifeRegister(life: map<RingId, Life>, regs: map<string, RingId>, owed: Option<RingId>, k: RingId, l: Life)
    requires LifeInv(life, regs, owed) && k in life && life[k].name !in regs
    requires l == life[k].(refs := life[k].refs + 1) && l.refs > 0 && l.alive
    ensures LifeInv(life[k := l], regs[l.name := k], owed) && LifeRely(life, life[k := l])
  {
    var life', regs' := life[k := l], regs[l.name := k];
    forall j | j in life' ensures LifeOk(life', regs', owed, j) {
      assert LifeOk(life, regs, owed, j);
    }
  }

  lemma LifeAdd(life: map<RingId, Life>, regs: map<string, RingId>, owed: Option<RingId>, k: RingId, l: Life)
    requires LifeInv(life, regs, owed) && k !in life && l.name !in regs
    requires l.refs == 2 && l.holders == 1 && l.alive
    ensures LifeInv(life[k := l], regs[l.name := k], owed) && LifeRely(life, life[k := l])
  {
    var life', regs' := life[k := l], regs[l.name := k];
    forall j | j in life' ensures LifeOk(life', regs', owed, j) {
      assert j != k ==> LifeOk(life, regs, owed, j);
    }
  }

  lemma LifeOkOf(life: map<RingId, Life>, regs: map<string, RingId>, owed: Option<RingId>, k: RingId)
    requires LifeInv(life, regs, owed) && k in life
    ensures LifeOk(life, regs, owed, k)
    ensures forall n :: n in regs && regs[n] == k ==> Registered(life, regs, k)
  {
  }

  lemma AddRingSafe(sh: Shared, a: EnvAct, done: map<RingId, nat>, owed: Option<RingId>)
    requires SharedInv(sh, done, owed) && a.AddRing? && EnvEnabled(sh, a)
    ensures SharedInv(EnvDo(sh, a), done, owed) && EnvRely(sh, EnvDo(sh, a))
  {
    hide RingInv, Rely, Do, MemRely, LifeInv, LifeRely;
    FreshRingOk(a.cap, a.blocking);
    MemUpdate(sh.mem, a.k, FreshRing(a.cap, a.blocking), done);
    LifeAdd(sh.life, sh.regs, owed, a.k, Life(a.name, a.prio, a.immortal, 2, 1, true));
  }

  lemma LifeActSafe(sh: Shared, a: EnvAct, done: map<RingId, nat>, owed: Option<RingId>)
    requires SharedInv(sh, done, owed) && EnvEnabled(sh, a) && !a.RingAct? && !a.AddRing?
    ensures SharedInv(EnvDo(sh, a), done, owed) && EnvRely(sh, EnvDo(sh, a))
  {
    hide Do, MemInv, MemRely, LifeRely, LifeInv, Enabled;
    RelyReflexive(sh, done, owed);
    match a
    case SetDirty =>
    case Register(k) =>
      LifeOkOf(sh.life, sh.regs, owed, k);
      LifeRegister(sh.life, sh.regs, owed, k, EnvDo(sh, a).life[k]);
    case Hold(_, k) =>
      LifeOkOf(sh.life, sh.regs, owed, k);
      LifeUpdate(sh.life, sh.regs, owed, k, EnvDo(sh, a).life[k]);
    case Release(k) =>
      LifeOkOf(sh.life, sh.regs, owed, k);
      LifeUpdate(sh.life, sh.regs, owed, k, EnvDo(sh, a).life[k]);
  }

  /** Every step of another thread keeps the shared state consistent and is one the engine can rely on. */
  lemma EnvSafe(sh: Shared, a: EnvAct, done: map<RingId, nat>, owed: Option<RingId>)
    requires SharedInv(sh, done, owed) && EnvEnabled(sh, a)
    ensures SharedInv(EnvDo(sh, a), done, owed) && EnvRely(sh, EnvDo(sh, a))
  {
    hide MemInv, MemRely, LifeInv, Do;
    match a
    case RingAct(k, act) => RingActSafe(sh, k, act, done, owed);
    case AddRing(_, _, _, _, _, _) => AddRingSafe(sh, a, done, owed);
    case _ => LifeActSafe(sh, a, done, owed);
  }

  /** The abort() in release() is unreachable: whoever releases finds its own reference counted. */
  lemma ReleaseNeverAborts(sh: Shared, k: RingId, done: map<RingId, nat>, owed: Option<RingId>)
    requires SharedInv(sh, done, owed) && k in sh.life
    requires sh.life[k].holders > 0 || owed == Some(k)
    ensures sh.life[k].alive && sh.life[k].refs - 1 >= 0
    ensures DropRef(sh.life[k]).alive <==> sh.life[k].refs > 1 || sh.life[k].immortal
  {
    hide MemInv;
    assert LifeOk(sh.life, sh.regs, owed, k);
  }
}
