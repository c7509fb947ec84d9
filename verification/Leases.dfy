/** Distributed leases: acquire or steal, renew, release and reclaim, each one atomic statement on
    the table of locks, and what any run of them keeps. Times and durations are microseconds. */
module Leases {
  import opened Common

  /** A row of `distributed_locks`; `key` is its primary key. */
  datatype LockRow = LockRow(owner: string, until: int, heartbeat: int, acquired: int)

  type Locks = map<string, LockRow>

  datatype Lease = Lease(key: string, owner: string, until: int, heartbeat: int, acquired: int)

  datatype Op =
    | Acquire(key: string, owner: string, lease: int)
    | Renew(held: Lease, leaseFor: int)
    | Release(held: Lease)
    | Reclaim(at: Option<int>)

  /** An operation at a reading of the database clock, which is taken when its transaction starts: the
      readings of statements that run one after the other need not be in order. */
  datatype Event = Event(now: int, op: Op)

  datatype Reply = Granted(lease: Lease) | Refused | NotPositive | CheckFailed | Released(freed: bool) | Reclaimed(count: nat)

  function LeaseOf(key: string, row: LockRow): Lease {
    Lease(key, row.owner, row.until, row.heartbeat, row.acquired)
  }

  predicate Live(row: LockRow, now: int) {
    row.until > now
  }

  /** `lease_until < now`, which is not the opposite of being live. */
  predicate Expired(row: LockRow, now: int) {
    row.until < now
  }

  function ExpiredKeys(t: Locks, now: int): set<string> {
    set k | k in t && Expired(t[k], now)
  }

  predicate Owns(t: Locks, key: string, owner: string) {
    key in t && t[key].owner == owner
  }

  // ---- What each statement does ----------------------------------------------------------------------

  function Apply(t: Locks, e: Event): (Locks, Reply) {
    match e.op
    case Acquire(key, owner, lease) =>
      if lease <= 0 then (t, NotPositive)
      else if key !in t || Expired(t[key], e.now) then
        var row := LockRow(owner, e.now + lease, e.now, e.now);
        (t[key := row], Granted(LeaseOf(key, row)))
      else (t, Refused)
    case Renew(held, leaseFor) =>
      if leaseFor <= 0 then (t, NotPositive)
      else if Owns(t, held.key, held.owner) && Live(t[held.key], e.now) then
        var row := t[held.key].(until := e.now + leaseFor, heartbeat := e.now);
        if row.until <= row.acquired then (t, CheckFailed) else (t[held.key := row], Granted(LeaseOf(held.key, row)))
      else (t, Refused)
    case Release(held) =>
      if Owns(t, held.key, held.owner) then (t - {held.key}, Released(true)) else (t, Released(false))
    case Reclaim(at) =>
      var gone := ExpiredKeys(t, if at.Some? then at.value else e.now);
      (t - gone, Reclaimed(|gone|))
  }

  class LockManager {
    var locks: Locks

    constructor ()
      ensures locks == map[]
    {
      locks := map[];
    }

    method AcquireLock(now: int, key: string, owner: string, lease: int) returns (r: Reply)
      modifies this
      ensures (locks, r) == Apply(old(locks), Event(now, Acquire(key, owner, lease)))
    {
      if lease <= 0 {
        return NotPositive;
      }
      if key in locks && !(locks[key].until < now) {
        return Refused;
      }
      locks := locks[key := LockRow(owner, now + lease, now, now)];
      r := Granted(LeaseOf(key, locks[key]));
    }

    method RenewLock(now: int, held: Lease, leaseFor: int) returns (r: Reply)
      modifies this
      ensures (locks, r) == Apply(old(locks), Event(now, Renew(held, leaseFor)))
    {
      if leaseFor <= 0 {
        return NotPositive;
      }
      if held.key !in locks || locks[held.key].owner != held.owner || !(locks[held.key].until > now) {
        return Refused;
      }
      if now + leaseFor <= locks[held.key].acquired {
        return CheckFailed;
      }
      locks := locks[held.key := locks[held.key].(until := now + leaseFor, heartbeat := now)];
      r := Granted(LeaseOf(held.key, locks[held.key]));
    }

    method ReleaseLock(now: int, held: Lease) returns (r: Reply)
      modifies this
      ensures (locks, r) == Apply(old(locks), Event(now, Release(held)))
    {
      r := Released(held.key in locks && locks[held.key].owner == held.owner);
      if r.freed {
        locks := locks - {held.key};
      }
    }

    method ReclaimExpired(now: int, at: Option<int>) returns (r: Reply)
      modifies this
      ensures (locks, r) == Apply(old(locks), Event(now, Reclaim(at)))
    {
      var limit := if at.Some? then at.value else now;
      var gone := set k | k in locks && locks[k].until < limit;
      locks := locks - gone;
      assert gone == ExpiredKeys(old(locks), limit);
      r := Reclaimed(|gone|);
    }
  }

  // ---- Runs --------------------------------------------------------------------------------------------

  /** The table, the latest time seen, and for every key and owner the last lease that owner was given and has
      not given up: a renewal that fails, or a release, gives it up. */
  datatype World = World(locks: Locks, clock: int, held: map<(string, string), Lease>)

  function HeldAfter(held: map<(string, string), Lease>, op: Op, reply: Reply): map<(string, string), Lease> {
    match op
    case Acquire(key, owner, _) => if reply.Granted? then held[(key, owner) := reply.lease] else held
    case Renew(h, _) =>
      if reply.Granted? then held[(h.key, h.owner) := reply.lease]
      else if reply.Refused? then held - {(h.key, h.owner)} else held
    case Release(h) => held - {(h.key, h.owner)}
    case Reclaim(_) => held
  }

  function Max(a: int, b: int): int { if a >= b then a else b }

  function Next(w: World, e: Event): World {
    var (locks, reply) := Apply(w.locks, e);
    World(locks, Max(w.clock, e.now), HeldAfter(w.held, e.op, reply))
  }

  function After(w: World, events: seq<Event>): World {
    if events == [] then w else Next(After(w, events[..|events| - 1]), events[|events| - 1])
  }

  /** The janitor is not told a time that has not come. */
  predicate ReclaimsThePast(e: Event) {
    e.op.Reclaim? && e.op.at.Some? ==> e.op.at.value <= e.now
  }

  ghost predicate Prudent(events: seq<Event>) {
    forall i :: 0 <= i < |events| ==> ReclaimsThePast(events[i])
  }

  predicate RowSound(row: LockRow, clock: int) {
    row.acquired <= clock && row.acquired < row.until
  }

  /** An owner counts on a lease it was given, has not given up, and that has not run out. */
  predicate CountsOn(w: World, key: string, owner: string) {
    (key, owner) in w.held && w.held[(key, owner)].until > w.clock
  }

  predicate Backed(w: World, key: string, owner: string) {
    CountsOn(w, key, owner) ==>
      Owns(w.locks, key, owner) && w.held[(key, owner)] == LeaseOf(key, w.locks[key])
  }

  ghost predicate Inv(w: World) {
    && (forall k :: k in w.locks ==> RowSound(w.locks[k], w.clock))
    && (forall key, owner :: Backed(w, key, owner))
  }

  /** Every statement keeps the invariant, whatever its reading of the clock: a lease ends after it was
      acquired, and every lease an owner counts on is the row in the table. */
  lemma StepKeepsInv(w: World, e: Event)
    requires Inv(w) && ReclaimsThePast(e)
    ensures Inv(Next(w, e))
  {
    var w' := Next(w, e);
    forall key, owner ensures Backed(w', key, owner) {
      assert Backed(w, key, owner);
    }
  }

  lemma {:induction false} RunKeepsInv(w: World, events: seq<Event>)
    requires Inv(w) && Prudent(events)
    ensures Inv(After(w, events))
  {
    if events != [] {
      RunKeepsInv(w, events[..|events| - 1]);
      StepKeepsInv(After(w, events[..|events| - 1]), events[|events| - 1]);
    }
  }

  /** Mutual exclusion over every run, in whatever order the clock was read: two owners never both count
      on a lease of one key. */
  lemma {:induction false} MutualExclusion(w: World, events: seq<Event>, key: string, a: string, b: string)
    requires Inv(w) && Prudent(events)
    requires CountsOn(After(w, events), key, a) && CountsOn(After(w, events), key, b)
    ensures a == b
    ensures var now := After(w, events); Owns(now.locks, key, a) && now.locks[key].acquired < now.locks[key].until
  {
    RunKeepsInv(w, events);
    var now := After(w, events);
    assert Backed(now, key, a) && Backed(now, key, b);
    assert RowSound(now.locks[key], now.clock);
  }

  /** With a clock that does not go back the table's CHECK never fires: no renewal ends before its lease
      began. */
  lemma {:induction false} CheckNeverFires(w: World, events: seq<Event>, e: Event)
    requires Inv(w) && Prudent(events) && After(w, events).clock <= e.now
    ensures !Apply(After(w, events).locks, e).1.CheckFailed?
  {
    RunKeepsInv(w, events);
  }

  ghost predicate TwoHolders(w: World) {
    exists key, a, b :: a != b && CountsOn(w, key, a) && CountsOn(w, key, b)
  }

  /** What a run from here can come to. */
  ghost predicate CanClash(w: World) {
    exists events :: Prudent(events) && TwoHolders(After(w, events))
  }

  ghost predicate HeldUntilBefore(w: World, key: string, owner: string, at: int) {
    CountsOn(w, key, owner) && w.held[(key, owner)].until < at
  }

  lemma SparedKeepsInv(w: World, now: int, at: int)
    requires Inv(w)
    requires forall key, owner :: !HeldUntilBefore(w.(clock := Max(w.clock, now)), key, owner, at)
    ensures Inv(Next(w, Event(now, Reclaim(Some(at)))))
  {
    var w' := Next(w, Event(now, Reclaim(Some(at))));
    forall key, owner ensures Backed(w', key, owner) {
      assert Backed(w, key, owner);
      assert !HeldUntilBefore(w.(clock := Max(w.clock, now)), key, owner, at);
    }
  }

  lemma FreedForAnother(w: World, now: int, at: int, key: string, owner: string)
    requires Inv(w) && HeldUntilBefore(w.(clock := Max(w.clock, now)), key, owner, at)
    ensures CanClash(Next(w, Event(now, Reclaim(Some(at)))))
  {
    var w' := Next(w, Event(now, Reclaim(Some(at))));
    assert Backed(w, key, owner);
    assert key in ExpiredKeys(w.locks, at) && key !in w'.locks;
    var other := owner + "x";
    var e := Event(w'.clock, Acquire(key, other, 1));
    assert |other| == |owner| + 1;
    AfterOne(w', e);
    assert CountsOn(After(w', [e]), key, owner) && CountsOn(After(w', [e]), key, other);
    assert Prudent([e]);
  }

  lemma {:induction false} AfterOne(w: World, e: Event)
    ensures After(w, [e]) == Next(w, e)
  {
    assert [e][..0] == [] && After(w, []) == w;
  }

  /** Reclaiming can be followed by a run in which two owners count on one key exactly when a lease that
      an owner still counts on ends before the time it was told. */
  lemma ReclaimExposesIff(w: World, now: int, at: int)
    requires Inv(w)
    ensures CanClash(Next(w, Event(now, Reclaim(Some(at)))))
       <==> exists key, owner :: HeldUntilBefore(w.(clock := Max(w.clock, now)), key, owner, at)
  {
    var w' := Next(w, Event(now, Reclaim(Some(at))));
    if key, owner :| HeldUntilBefore(w.(clock := Max(w.clock, now)), key, owner, at) {
      FreedForAnother(w, now, at, key, owner);
    } else {
      SparedKeepsInv(w, now, at);
      forall events, key, a, b | Prudent(events) && CountsOn(After(w', events), key, a) && CountsOn(After(w', events), key, b)
        ensures a == b
      {
        MutualExclusion(w', events, key, a, b);
      }
    }
  }

  /** A live row stays with its owner through any statement but two: its own owner's release, and a
      janitor told a time after the lease ends. */
  lemma LiveRowStays(t: Locks, e: Event, key: string)
    requires key in t && Live(t[key], e.now)
    ensures Owns(Apply(t, e).0, key, t[key].owner) <==>
              !(e.op.Release? && e.op.held.key == key && e.op.held.owner == t[key].owner)
              && !(e.op.Reclaim? && e.op.at.Some? && t[key].until < e.op.at.value)
    ensures key in Apply(t, e).0 ==> Owns(Apply(t, e).0, key, t[key].owner)
  {
  }

  /** Reclaiming deletes no live row exactly when no live row ends before the time it is given. With
      the default, the database clock, that is always so; with a time that has not come it may not. */
  lemma {:induction false} ReclaimIsSafeIff(t: Locks, now: int, at: Option<int>)
    ensures (forall k :: k in t && Live(t[k], now) ==> k in Apply(t, Event(now, Reclaim(at))).0)
       <==> forall k :: k in t && Live(t[k], now) ==> at.None? || at.value <= t[k].until
  {
    var limit := if at.Some? then at.value else now;
    forall k | k in t && Live(t[k], now)
      ensures k in Apply(t, Event(now, Reclaim(at))).0 <==> at.None? || at.value <= t[k].until
    {
      assert k in ExpiredKeys(t, limit) <==> Expired(t[k], limit);
    }
  }

  lemma {:induction false} RemovedCount(t: Locks, gone: set<string>)
    requires gone <= t.Keys
    ensures |t - gone| == |t| - |gone|
  {
    assert (t - gone).Keys == t.Keys - gone;
  }

  /** Reclaiming leaves exactly the rows that do not end before the time it is given, as they were, and
      counts the others. */
  lemma ReclaimsExactly(t: Locks, now: int, at: Option<int>)
    ensures var (left, reply) := Apply(t, Event(now, Reclaim(at)));
            && (forall k :: k in left <==> k in t && (if at.Some? then at.value else now) <= t[k].until)
            && (forall k :: k in left ==> left[k] == t[k])
            && reply == Reclaimed(|t| - |left|)
  {
    RemovedCount(t, ExpiredKeys(t, if at.Some? then at.value else now));
  }

  /** The documentation calls reclaiming cleanup that correctness does not depend on. Told a later
      time, it frees a live lease, and two owners then count on one key at the same instant. */
  lemma FutureReclaimBreaksExclusion(key: string, a: string, b: string)
    requires a != b
    ensures var run := [Event(0, Acquire(key, a, 10)), Event(1, Reclaim(Some(20))), Event(2, Acquire(key, b, 10))];
            var now := After(World(map[], 0, map[]), run);
            CountsOn(now, key, a) && CountsOn(now, key, b)
  {
    var w := World(map[], 0, map[]);
    var first, second, third := Event(0, Acquire(key, a, 10)), Event(1, Reclaim(Some(20))), Event(2, Acquire(key, b, 10));
    var run := [first, second, third];
    assert run[..2] == [first, second] && [first, second][..1] == [first];
    AfterOne(w, first);
    var one := After(w, [first]);
    var two := After(w, [first, second]);
    assert two == Next(one, second);
    assert ExpiredKeys(one.locks, 20) == {key};
    assert After(w, run) == Next(two, third);
  }

  /** At the very instant a lease ends it is neither live nor expired: nobody can renew it, nobody can
      take it, the janitor passes over it; only its owner can free it. */
  lemma BoundaryInstant(t: Locks, key: string, op: Op)
    requires key in t && op != Reclaim(None)
    requires op.Reclaim? ==> op.at.value <= t[key].until
    ensures var t' := Apply(t, Event(t[key].until, op)).0;
            if op.Release? && op.held.key == key && op.held.owner == t[key].owner then key !in t'
            else key in t' && t'[key] == t[key]
    ensures Apply(t, Event(t[key].until, Reclaim(None))).0.Keys >= {key}
  {
  }

  /** Who is granted what: an acquire of a key that is free or has run out, a renewal by the owner before the
      end; only a positive time, and none that ends a lease before it began. Whatever is not granted changes
      nothing, and a release frees the key exactly for its owner. */
  lemma GrantedIff(t: Locks, e: Event)
    ensures var (t', reply) := Apply(t, e);
            match e.op
            case Acquire(key, _, lease) =>
              && (reply.Granted? <==> lease > 0 && (key in t ==> t[key].until < e.now))
              && (!reply.Granted? ==> t' == t && reply == if lease <= 0 then NotPositive else Refused)
            case Renew(held, lease) =>
              && (reply.Granted? <==>
                    && lease > 0 && held.key in t && t[held.key].owner == held.owner && e.now < t[held.key].until
                    && t[held.key].acquired < e.now + lease)
              && (!reply.Granted? ==> t' == t)
            case Release(held) =>
              && (reply == Released(true) <==> held.key in t && t[held.key].owner == held.owner)
              && (reply == Released(true) ==> t' == t - {held.key})
              && (reply != Released(true) ==> t' == t && reply == Released(false))
            case Reclaim(_) => reply.Reclaimed?
  {
  }

  // ---- How long a grant holds --------------------------------------------------------------------------------

  predicate ByOwner(held: Lease, key: string, owner: string) {
    held.key == key && held.owner == owner
  }

  /** What is asked for a key of one owner: the lease that begins, or goes on. */
  predicate AsksFor(e: Event, key: string, owner: string, lease: int) {
    || (e.op.Acquire? && e.op.key == key && e.op.owner == owner && e.op.lease == lease)
    || (e.op.Renew? && ByOwner(e.op.held, key, owner) && e.op.leaseFor == lease)
  }

  /** The end of a lease, read off what is asked after it began: each renewal in time sets it anew. */
  function EndOf(until: int, acquired: int, events: seq<Event>, key: string, owner: string): int {
    if events == [] then until
    else
      var before, e := EndOf(until, acquired, events[..|events| - 1], key, owner), events[|events| - 1];
      if e.op.Renew? && ByOwner(e.op.held, key, owner) && e.op.leaseFor > 0 && e.now < before && acquired < e.now + e.op.leaseFor
      then e.now + e.op.leaseFor else before
  }

  /** Nobody asks for the key at a reading past its end, its owner does not release it, and no reclaim is
      told a time past its end. */
  predicate Spares(e: Event, key: string, owner: string, end: int) {
    match e.op
    case Acquire(k, _, _) => k == key ==> e.now <= end
    case Renew(_, _) => true
    case Release(h) => !ByOwner(h, key, owner)
    case Reclaim(at) => (if at.Some? then at.value else e.now) <= end
  }

  ghost predicate AllSpare(until: int, acquired: int, events: seq<Event>, key: string, owner: string) {
    forall i :: 0 <= i < |events| ==> Spares(events[i], key, owner, EndOf(until, acquired, events[..i], key, owner))
  }

  lemma SparedStep(t: Locks, e: Event, key: string, owner: string)
    requires Owns(t, key, owner) && Spares(e, key, owner, t[key].until)
    ensures var t' := Apply(t, e).0;
            && Owns(t', key, owner) && t'[key].acquired == t[key].acquired
            && t'[key].until == EndOf(t[key].until, t[key].acquired, [e], key, owner)
            && (e.op.Acquire? && e.op.key == key ==> !Apply(t, e).1.Granted?)
  {
    assert [e][..0] == [];
  }

  /** Over every run, in whatever order the clock was read: as long as it is spared, a key stays with its
      owner, its end is the one read off the owner's renewals, and nobody, the owner included, is granted it
      anew. So an owner that renews before each end keeps its key. */
  lemma {:induction false} KeptWhileSpared(w: World, events: seq<Event>, key: string, owner: string)
    requires Owns(w.locks, key, owner) && AllSpare(w.locks[key].until, w.locks[key].acquired, events, key, owner)
    ensures var t := After(w, events).locks;
            && Owns(t, key, owner) && t[key].acquired == w.locks[key].acquired
            && t[key].until == EndOf(w.locks[key].until, w.locks[key].acquired, events, key, owner)
    ensures forall i :: 0 <= i < |events| && events[i].op.Acquire? && events[i].op.key == key ==>
              !Apply(After(w, events[..i]).locks, events[i]).1.Granted?
  {
    if events != [] {
      var until, acquired := w.locks[key].until, w.locks[key].acquired;
      var n := |events| - 1;
      var front, e := events[..n], events[n];
      forall i | 0 <= i < n ensures Spares(front[i], key, owner, EndOf(until, acquired, front[..i], key, owner)) {
        assert front[..i] == events[..i];
      }
      KeptWhileSpared(w, front, key, owner);
      SparedStep(After(w, front).locks, e, key, owner);
      assert [e][..0] == [];
      forall i | 0 <= i < |events| && events[i].op.Acquire? && events[i].op.key == key
        ensures !Apply(After(w, events[..i]).locks, events[i]).1.Granted?
      {
        if i < n {
          assert front[..i] == events[..i] && front[i] == events[i];
        }
      }
    }
  }

  /** Over every run: a grant of `lease` at a reading of the clock ends `lease` after it, starts then unless
      it renews one, and until that end, or a later one the owner renews to, the key is nobody else's: no
      acquire at a reading up to it is granted, unless the owner releases it or a reclaim is told a later
      time. */
  lemma {:induction false} GrantHolds(w: World, before: seq<Event>, e: Event, key: string, owner: string, lease: int, after: seq<Event>)
    requires AsksFor(e, key, owner, lease) && Apply(After(w, before).locks, e).1.Granted?
    ensures var so := After(w, before).locks;
            var row := LockRow(owner, e.now + lease, e.now, if e.op.Acquire? then e.now else so[key].acquired);
            && (e.op.Renew? ==> key in so && so[key].until > e.now)
            && After(w, before + [e]).locks == so[key := row] && Apply(so, e).1 == Granted(LeaseOf(key, row))
            && (AllSpare(row.until, row.acquired, after, key, owner) ==>
                  var t := After(w, before + [e] + after).locks;
                  && Owns(t, key, owner) && t[key].until == EndOf(row.until, row.acquired, after, key, owner)
                  && forall i :: 0 <= i < |after| && after[i].op.Acquire? && after[i].op.key == key ==>
                       !Apply(After(w, before + [e] + after[..i]).locks, after[i]).1.Granted?)
  {
    var so := After(w, before);
    assert (before + [e])[..|before|] == before;
    var then_ := Next(so, e);
    var row := LockRow(owner, e.now + lease, e.now, if e.op.Acquire? then e.now else so.locks[key].acquired);
    assert then_.locks == so.locks[key := row];
    if AllSpare(row.until, row.acquired, after, key, owner) {
      hide Apply, Next, EndOf, Spares;
      KeptWhileSpared(then_, after, key, owner);
      AfterAppend(w, before + [e], after);
      forall i | 0 <= i < |after| ensures After(w, before + [e] + after[..i]) == After(then_, after[..i]) {
        AfterAppend(w, before + [e], after[..i]);
      }
    }
  }

  lemma {:induction false} AfterAppend(w: World, a: seq<Event>, b: seq<Event>)
    ensures After(w, a + b) == After(After(w, a), b)
  {
    if b == [] {
      assert a + b == a;
    } else {
      assert (a + b)[..|a + b| - 1] == a + b[..|b| - 1];
      AfterAppend(w, a, b[..|b| - 1]);
    }
  }

  // ---- Fencing -----------------------------------------------------------------------------------------------

  predicate Asks(e: Event, key: string, owner: string) {
    (e.op.Renew? || e.op.Release?) && e.op.held.key == key && e.op.held.owner == owner
  }

  predicate AcquiresFor(e: Event, key: string, owner: string) {
    e.op.Acquire? && e.op.key == key && e.op.owner == owner
  }

  lemma {:induction false} NotOwnedAgain(w: World, events: seq<Event>, key: string, owner: string)
    requires !Owns(w.locks, key, owner)
    requires forall i :: 0 <= i < |events| ==> !AcquiresFor(events[i], key, owner)
    ensures !Owns(After(w, events).locks, key, owner)
  {
    if events != [] {
      NotOwnedAgain(w, events[..|events| - 1], key, owner);
      assert !AcquiresFor(events[|events| - 1], key, owner);
    }
  }

  /** Fencing over every run, whatever the clock does: an owner whose key was taken, by theft or by
      the janitor, can neither renew nor release it again before acquiring it anew, with any handle. */
  lemma {:induction false} FencedOut(w: World, events: seq<Event>, key: string, owner: string, e: Event)
    requires !Owns(w.locks, key, owner)
    requires forall i :: 0 <= i < |events| ==> !AcquiresFor(events[i], key, owner)
    requires Asks(e, key, owner)
    ensures var now := After(w, events);
            && Apply(now.locks, e).0 == now.locks
            && (Apply(now.locks, e).1.Refused? || Apply(now.locks, e).1.NotPositive? || Apply(now.locks, e).1 == Released(false))
  {
    NotOwnedAgain(w, events, key, owner);
  }

  /** Fencing is by owner, not by lease: a worker that takes its own key back can still lose it to a
      handle of its earlier lease. Tokens have to be fresh for every holder. */
  lemma OldHandleOfSameOwner(t: Locks, key: string, row: LockRow, now: int, lease: int)
    requires key in t && t[key] == row && Expired(row, now) && lease > 0
    ensures var (t1, r1) := Apply(t, Event(now, Acquire(key, row.owner, lease)));
            && r1.Granted? && r1.lease != LeaseOf(key, row)
            && Apply(t1, Event(now, Release(LeaseOf(key, row)))) == (t1 - {key}, Released(true))
  {
  }

  /** An expired key is free to anyone: the next acquire wins, whoever asks. */
  lemma ExpiredKeyIsTaken(t: Locks, key: string, owner: string, now: int, lease: int)
    requires lease > 0 && (key !in t || Expired(t[key], now))
    ensures var (t', r) := Apply(t, Event(now, Acquire(key, owner, lease)));
            && Owns(t', key, owner) && r == Granted(LeaseOf(key, t'[key])) && Live(t'[key], now)
            && forall other, again: int :: other != owner && again > 0 ==>
                 Apply(t', Event(now, Acquire(key, other, again))).1 == Refused
  {
  }
}
