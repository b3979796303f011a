/**
 * Pending "leave" confirmations (src/services/leavingService.ts): the time at
 * which each user asked to leave, a query telling whether that request is
 * still fresh and a sweep that forgets stale requests. Clock readings are
 * integer parameters; the mutex makes each operation atomic, which is how
 * the methods here behave.
 */
module Leaving {

  /** Is the intention registered at `t` still fresh at `now`? */
  predicate Fresh(t: int, now: int, expirationDelay: int) {
    now - t < expirationDelay
  }

  /** The attempts `removeOldAttempts` keeps: those not older than the delay. */
  function Sweep(attempts: map<int, int>, now: int, expirationDelay: int): (kept: map<int, int>)
    ensures forall u :: u in kept <==> u in attempts && !(now - attempts[u] > expirationDelay)
    ensures forall u :: u in kept ==> kept[u] == attempts[u]
  {
    map u | u in attempts && !(now - attempts[u] > expirationDelay) :: attempts[u]
  }

  /** The sweep part-way: the users still `pending` are not yet examined. */
  function SweepExcept(attempts: map<int, int>, pending: seq<int>, now: int, expirationDelay: int): map<int, int>
  {
    map u | u in attempts && (u in pending || !(now - attempts[u] > expirationDelay)) :: attempts[u]
  }

  /** `didUserAlreadyRegisteredIntention` on a snapshot of the attempts. */
  predicate Registered(attempts: map<int, int>, userId: int, now: int, expirationDelay: int) {
    userId in attempts && Fresh(attempts[userId], now, expirationDelay)
  }

  predicate Distinct(s: seq<int>) {
    forall i, j :: 0 <= i < j < |s| ==> s[i] != s[j]
  }

  /** `s` without the element `x`, order kept. */
  function Without(s: seq<int>, x: int): (r: seq<int>)
    ensures forall u :: u in r <==> u in s && u != x
    ensures Distinct(s) ==> Distinct(r)
  {
    if s == [] then []
    else if s[0] == x then Without(s[1..], x)
    else
      assert Distinct(s) ==> s[0] !in s[1..];
      [s[0]] + Without(s[1..], x)
  }

  /**
   * The service's state: a JavaScript `Map` from user id to the time of the
   * request. `order` lists the keys in insertion order, which is the order
   * the sweep visits them in.
   */
  class LeavingService {
    const expirationDelay: int
    var leavingAttempts: map<int, int>
    var order: seq<int>

    /** Each user has one entry, listed once. */
    ghost predicate Valid()
      reads this
    {
      Distinct(order) && forall u :: u in leavingAttempts <==> u in order
    }

    constructor(expirationDelay: int)
      ensures Valid()
      ensures this.expirationDelay == expirationDelay && leavingAttempts == map[]
    {
      this.expirationDelay := expirationDelay;
      leavingAttempts := map[];
      order := [];
    }

    /** Records (or renews) the user's intention at time `now`. */
    method RegisterLeavingIntention(userId: int, now: int)
      requires Valid()
      modifies this
      ensures Valid()
      ensures leavingAttempts == old(leavingAttempts)[userId := now]
    {
      if userId !in leavingAttempts {
        order := order + [userId];
      }
      leavingAttempts := leavingAttempts[userId := now];
    }

    /** Forgets the user's intention; other users keep theirs. */
    method RemoveUserLeavingIntention(userId: int)
      requires Valid()
      modifies this
      ensures Valid()
      ensures leavingAttempts == old(leavingAttempts) - {userId}
    {
      leavingAttempts := leavingAttempts - {userId};
      order := Without(order, userId);
    }

    /** True iff the user registered an intention less than `expirationDelay` ago. */
    method DidUserAlreadyRegisteredIntention(userId: int, now: int) returns (registered: bool)
      ensures registered <==> Registered(leavingAttempts, userId, now, expirationDelay)
    {
      registered := userId in leavingAttempts && now - leavingAttempts[userId] < expirationDelay;
    }

    /** Visits the entries in order and deletes every attempt older than the delay. */
    method RemoveOldAttempts(now: int)
      requires Valid()
      modifies this
      ensures Valid()
      ensures leavingAttempts == Sweep(old(leavingAttempts), now, expirationDelay)
    {
      var keys := order;
      ghost var original := leavingAttempts;
      var kept: seq<int> := [];
      var i := 0;
      SweepExceptAll(original, keys, now, expirationDelay);
      assert keys[0..] == keys;
      while i < |keys|
        invariant 0 <= i <= |keys|
        invariant leavingAttempts == SweepExcept(original, keys[i..], now, expirationDelay)
        invariant Distinct(kept)
        invariant forall u :: u in kept <==> u in keys[..i] && u in leavingAttempts
      {
        var userId := keys[i];
        DistinctSplit(keys, i);
        SweepStep(original, keys[i..], now, expirationDelay);
        assert keys[i..][1..] == keys[i + 1..];
        if now - leavingAttempts[userId] > expirationDelay {
          leavingAttempts := leavingAttempts - {userId};
        } else {
          kept := kept + [userId];
        }
        assert keys[..i + 1] == keys[..i] + [userId];
        i := i + 1;
      }
      assert keys[..i] == keys;
      order := kept;
      SweepExceptNone(original, now, expirationDelay);
    }
  }

  /** In a list without repetition, the element at `i` occurs neither before nor after `i`. */
  lemma DistinctSplit(s: seq<int>, i: nat)
    requires Distinct(s) && i < |s|
    ensures s[i] !in s[..i] && s[i] !in s[i + 1..]
    ensures s[i..][0] == s[i]
  {
    forall j | 0 <= j < |s| && j != i
      ensures s[j] != s[i]
    {
      if j < i { assert s[j] != s[i]; } else { assert s[i] != s[j]; }
    }
  }

  /** Before any entry is examined, the partial sweep is the whole map. */
  lemma SweepExceptAll(attempts: map<int, int>, keys: seq<int>, now: int, expirationDelay: int)
    requires forall u :: u in attempts ==> u in keys
    ensures SweepExcept(attempts, keys, now, expirationDelay) == attempts
  {
    var m := SweepExcept(attempts, keys, now, expirationDelay);
    assert forall u :: u in m <==> u in attempts;
  }

  /** Examining the next entry removes it exactly when it is stale. */
  lemma SweepStep(attempts: map<int, int>, pending: seq<int>, now: int, expirationDelay: int)
    requires pending != [] && pending[0] in attempts && pending[0] !in pending[1..]
    ensures SweepExcept(attempts, pending[1..], now, expirationDelay)
         == if now - attempts[pending[0]] > expirationDelay
            then SweepExcept(attempts, pending, now, expirationDelay) - {pending[0]}
            else SweepExcept(attempts, pending, now, expirationDelay)
  {
  }

  /** Once every entry is examined, the partial sweep is the sweep. */
  lemma SweepExceptNone(attempts: map<int, int>, now: int, expirationDelay: int)
    ensures SweepExcept(attempts, [], now, expirationDelay) == Sweep(attempts, now, expirationDelay)
  {
  }

  /** The sweep never changes an answer of the query: it only drops entries already reported stale. */
  lemma SweepPreservesAnswers(attempts: map<int, int>, userId: int, now: int, expirationDelay: int)
    ensures Registered(Sweep(attempts, now, expirationDelay), userId, now, expirationDelay)
        <==> Registered(attempts, userId, now, expirationDelay)
  {
  }

  /**
   * At exactly `expirationDelay` after registration the entry is kept by the
   * sweep (strictly older entries only are deleted) yet already reported as
   * not registered (strictly younger entries only are reported).
   */
  lemma ExpiryBoundary(attempts: map<int, int>, userId: int, now: int, expirationDelay: int)
    requires userId in attempts && now - attempts[userId] == expirationDelay
    ensures userId in Sweep(attempts, now, expirationDelay)
    ensures !Registered(attempts, userId, now, expirationDelay)
  {
  }

  /** Registering at `now` makes the user registered at `now` exactly when the delay is positive. */
  lemma RegisterThenQuery(attempts: map<int, int>, userId: int, now: int, expirationDelay: int)
    ensures Registered(attempts[userId := now], userId, now, expirationDelay) <==> expirationDelay > 0
  {
  }

  /** Registering twice keeps a single entry per user, holding the later time. */
  lemma RegisterTwiceKeepsLatest(attempts: map<int, int>, userId: int, t1: int, t2: int)
    ensures attempts[userId := t1][userId := t2] == attempts[userId := t2]
    ensures |attempts[userId := t1][userId := t2].Keys| == |attempts[userId := t2].Keys|
  {
  }

  /** A sweep leaves only attempts that are not older than the delay, so sweeping again changes nothing. */
  lemma SweepIdempotent(attempts: map<int, int>, now: int, expirationDelay: int)
    ensures Sweep(Sweep(attempts, now, expirationDelay), now, expirationDelay) == Sweep(attempts, now, expirationDelay)
  {
  }

  /** Removing a user's intention makes the query false for that user and leaves the others' answers. */
  lemma RemoveThenQuery(attempts: map<int, int>, userId: int, other: int, now: int, expirationDelay: int)
    ensures !Registered(attempts - {userId}, userId, now, expirationDelay)
    ensures other != userId ==>
      (Registered(attempts - {userId}, other, now, expirationDelay) <==> Registered(attempts, other, now, expirationDelay))
  {
  }
}
