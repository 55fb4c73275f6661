/**
 Authentication over a recovery owner: the hot map that answers requests, credential
 proofs and epochs. Every method is proved to do what SessionModel.dfy specifies, to the
 process, to the disk, and in the order of its durable steps.
 */
module Authentication {
  import opened Wrappers
  import opened SessionModel
  import opened SessionRecoveryOwner

  class Auth {
    const recovery: SessionRecovery
    const store: Store
    var sessions: Rows
    var tickets: map<nat, Proof>
    var proofs: map<nat, Proof>
    var epochs: map<nat, nat>
    var nextHandle: nat
    var closing: bool
    var closed: bool
    var unaccounted: bool

    ghost function State(): AuthState
      reads this
    {
      AuthState(sessions, tickets, proofs, epochs, nextHandle, closing, closed, unaccounted)
    }

    ghost function Process(): Proc
      reads this, recovery
    {
      Proc(recovery.Abstract(), State())
    }

    ghost predicate Valid()
      reads this, recovery
    {
      recovery.store == store
    }

    /** The stores and this process are as `out` says, and the disks on the way were its cuts. */
    twostate predicate Performed(out: Outcome, answer: Answer)
      reads this, recovery, store
    {
      && store.Now() == out.disk && Process() == out.proc
      && store.trail == old(store.trail) + out.cuts
      && answer == out.answer
    }

    /** Hydrate the hot map from the rows a successful startup returned. */
    constructor (recovery: SessionRecovery, activeRows: Rows)
      ensures Valid() && this.recovery == recovery && store == recovery.store
      ensures Process() == Proc(recovery.Abstract(), AuthState(activeRows, map[], map[], map[], 0, false, false, false))
    {
      this.recovery, store := recovery, recovery.store;
      sessions, tickets, proofs, epochs := activeRows, map[], map[], map[];
      nextHandle, closing, closed, unaccounted := 0, false, false, false;
    }

    method RecordRevocations(entries: seq<Entry>, now: nat, o: WriteOutcome) returns (durable: bool)
      requires Valid()
      modifies this`unaccounted, recovery, store
      ensures var r := Revoke(old(store.Now()), old(recovery.Abstract()), entries, now, o);
        && store.Now() == r.disk && recovery.Abstract() == r.recovery && durable == r.ok
        && unaccounted == (old(unaccounted) || !r.ok)
      ensures store.trail == old(store.trail) + [store.Now()]
    {
      durable := recovery.Revoke(entries, now, o);
      if !durable {
        unaccounted := true;
      }
    }

    method GetCurrentUser(raw: Text, now: nat) returns (user: Option<nat>)
      requires Valid()
      modifies this`sessions
      ensures Performed(ResolveSpec(old(store.Now()), old(Process()), raw, now), User(user))
    {
      var id := recovery.LookupRaw(raw);
      if id.None? || id.value !in sessions {
        return None;
      }
      var s := sessions[id.value];
      if s.expiresAt < now {
        sessions := WithoutId(sessions, id.value);
        return None;
      }
      return if s.userId in store.users then Some(s.userId) else None;
    }

    method LoginRead(userId: nat) returns (answer: Answer)
      requires Valid()
      modifies this`tickets, this`nextHandle
      ensures Performed(LoginReadSpec(old(store.Now()), old(Process()), userId), answer)
    {
      if closing || closed {
        return Failure("auth_unavailable");
      }
      if userId !in store.users {
        return Failure("invalid_credentials");
      }
      var epoch := if userId in epochs then epochs[userId] else 0;
      tickets := tickets[nextHandle := Proof(userId, Some(store.users[userId]), epoch)];
      answer := Handle(nextHandle);
      nextHandle := nextHandle + 1;
    }

    method LoginFinish(handle: nat, passwordOk: bool) returns (answer: Answer)
      requires Valid()
      modifies this`tickets, this`proofs
      ensures Performed(LoginFinishSpec(old(store.Now()), old(Process()), handle, passwordOk), answer)
    {
      if handle !in tickets {
        return Failure("invalid_credentials");
      }
      var proof := tickets[handle];
      tickets := tickets - {handle};
      if !passwordOk {
        return Failure("invalid_credentials");
      }
      proofs := proofs[handle := proof];
      answer := Handle(handle);
    }

    method SessionUser(userId: nat, hashReadable: bool) returns (answer: Answer)
      requires Valid()
      modifies this`proofs, this`nextHandle
      ensures Performed(SessionUserSpec(old(store.Now()), old(Process()), userId, hashReadable), answer)
    {
      if closing || closed {
        return Failure("auth_unavailable");
      }
      if userId !in store.users {
        return Failure("session_state_changed");
      }
      if !hashReadable {
        return Failure("auth_unavailable");
      }
      var epoch := if userId in epochs then epochs[userId] else 0;
      proofs := proofs[nextHandle := Proof(userId, Some(store.users[userId]), epoch)];
      answer := Handle(nextHandle);
      nextHandle := nextHandle + 1;
    }

    /** `createSession`: the proof is consumed first, the row comes before the hot map. */
    method CreateSession(handle: nat, hashReadable: bool, token: nat, row: RowOutcome, now: nat)
      returns (answer: Answer)
      requires Valid() && !recovery.closed
      modifies this`sessions, this`proofs, store
      ensures Performed(MintSpec(old(store.Now()), old(Process()), handle, hashReadable, token, row, now), answer)
    {
      if closing || closed {
        return Failure("auth_unavailable");
      }
      if handle !in proofs || proofs[handle].passwordHash.None? {
        return Failure("session_state_changed");
      }
      var proof := proofs[handle];
      if proof.epoch != (if proof.userId in epochs then epochs[proof.userId] else 0) {
        return Failure("session_state_changed");
      }
      if !hashReadable {
        return Failure("auth_unavailable");
      }
      if proof.userId !in store.users || proof.passwordHash.value != store.users[proof.userId] {
        return Failure("session_state_changed");
      }
      proofs := proofs - {handle};
      var id := recovery.LookupRaw(Hex64(token));
      var s := Session(proof.userId, now + SESSION_TTL_MS);
      if row.RowRejected? {
        store.NothingDone();
      } else {
        store.KeepRows(store.rows[id.value := s]);
      }
      if !row.RowStored? {
        return Failure("session_persistence_failed");
      }
      sessions := sessions[id.value := s];
      answer := Cookie(token);
    }

    /** `destroySession`: journal, hot denial, then the row. */
    method DestroySession(raw: Text, write: WriteOutcome, rowDeleted: bool, now: nat) returns (answer: Answer)
      requires Valid()
      modifies this`sessions, this`unaccounted, recovery, store
      ensures Performed(DestroySpec(old(store.Now()), old(Process()), raw, write, rowDeleted, now), answer)
    {
      answer := Done;
      var id := recovery.LookupRaw(raw);
      if id.None? || id.value !in sessions {
        return;
      }
      var known := sessions[id.value];
      var durable := RecordRevocations([Entry(id.value, known.expiresAt)], now, write);
      sessions := WithoutId(sessions, id.value);
      if rowDeleted {
        store.KeepRows(WithoutId(store.rows, id.value));
      } else {
        store.NothingDone();
        if !durable {
          answer := Failure("session_persistence_failed");
        }
      }
    }

    /** The hot sessions of one user, in the order the map yields them. */
    method Affected(userId: nat) returns (affected: seq<Text>)
      requires Valid()
      ensures Enumerates(affected, OfUser(sessions, userId))
    {
      affected := [];
      var rest := sessions.Keys;
      while rest != {}
        invariant rest <= sessions.Keys
        invariant forall i | 0 <= i < |affected| :: affected[i] in OfUser(sessions, userId) && affected[i] !in rest
        invariant forall i, j | 0 <= i < j < |affected| :: affected[i] != affected[j]
        invariant forall t | t in OfUser(sessions, userId) :: t in affected || t in rest
        decreases |rest|
      {
        var t :| t in rest;
        rest := rest - {t};
        if sessions[t].userId == userId {
          affected := affected + [t];
        }
      }
    }

    /** The removal loop of `invalidateUserSessions`. */
    method DropHot(userId: nat, affected: seq<Text>) returns (removed: nat)
      requires Enumerates(affected, OfUser(sessions, userId))
      modifies this`sessions
      ensures sessions == WithoutUser(old(sessions), userId) && removed == |affected|
    {
      removed := 0;
      for i := 0 to |affected|
        invariant removed == i
        invariant sessions == map t | t in old(sessions) && t !in affected[..i] :: old(sessions)[t]
      {
        assert affected[..i + 1] == affected[..i] + [affected[i]];
        sessions := WithoutId(sessions, affected[i]);
        removed := removed + 1;
      }
      assert affected[..|affected|] == affected;
    }

    /** The hot half of the sweep. */
    method DropExpired(now: nat)
      modifies this`sessions
      ensures sessions == NotBefore(old(sessions), now)
    {
      var rest := sessions.Keys;
      while rest != {}
        invariant rest <= old(sessions).Keys
        invariant sessions
               == map t | t in old(sessions) && (t in rest || old(sessions)[t].expiresAt >= now) :: old(sessions)[t]
        decreases |rest|
      {
        var t :| t in rest;
        rest := rest - {t};
        if sessions[t].expiresAt < now {
          sessions := WithoutId(sessions, t);
        }
      }
    }

    /** The rows of a user, if the statement succeeds, and then his hot sessions. */
    method RemoveSessions(userId: nat, affected: seq<Text>, rowsDeleted: bool) returns (removed: nat)
      requires Enumerates(affected, OfUser(sessions, userId))
      modifies this`sessions, store`rows, store`trail
      ensures sessions == WithoutUser(old(sessions), userId) && removed == |affected|
      ensures store.rows == if rowsDeleted then WithoutUser(old(store.rows), userId) else old(store.rows)
      ensures store.trail == old(store.trail) + [store.Now()]
    {
      if rowsDeleted {
        store.KeepRows(WithoutUser(store.rows, userId));
      } else {
        store.NothingDone();
      }
      removed := DropHot(userId, affected);
    }

    /** The new epoch, and one journal write for every live session of the user. */
    method RetireUser(userId: nat, write: WriteOutcome, now: nat) returns (affected: seq<Text>, durable: bool)
      requires Valid()
      modifies this`epochs, this`unaccounted, recovery, store
      ensures Enumerates(affected, OfUser(sessions, userId))
      ensures var r := Revoke(old(store.Now()), old(recovery.Abstract()), EntriesOf(sessions, affected), now, write);
        store.Now() == r.disk && recovery.Abstract() == r.recovery && durable == r.ok
      ensures store.trail == old(store.trail) + [store.Now()]
      ensures epochs == old(epochs)[userId := EpochOf(old(State()), userId) + 1]
      ensures unaccounted == (old(unaccounted) || !durable)
    {
      epochs := epochs[userId := (if userId in epochs then epochs[userId] else 0) + 1];
      affected := Affected(userId);
      durable := RecordRevocations(EntriesOf(sessions, affected), now, write);
    }

    /** `invalidateUserSessions`: epoch, journal, rows, then the hot map. */
    method InvalidateUserSessions(userId: nat, write: WriteOutcome, rowsDeleted: bool, now: nat)
      returns (answer: Answer, affected: seq<Text>)
      requires Valid()
      modifies this`sessions, this`epochs, this`unaccounted, recovery, store
      ensures Enumerates(affected, OfUser(old(sessions), userId))
      ensures Performed(InvalidateSpec(old(store.Now()), old(Process()), userId, affected, write, rowsDeleted, now), answer)
    {
      var durable: bool;
      affected, durable := RetireUser(userId, write, now);
      var removed := RemoveSessions(userId, affected, rowsDeleted);
      assert State() == InvalidatedAuth(old(State()), userId, durable);
      answer := if !rowsDeleted && !durable then Failure("session_persistence_failed") else Removed(removed);
    }

    /** The hourly sweep of both stores. */
    method SweepExpired(rowsPruned: bool, now: nat)
      requires Valid()
      modifies this`sessions, store
      ensures Performed(SweepSpec(old(store.Now()), old(Process()), rowsPruned, now), Done)
    {
      DropExpired(now);
      if rowsPruned {
        store.KeepRows(Unexpired(store.rows, now));
      } else {
        store.NothingDone();
      }
    }

    method BeginShutdown()
      requires Valid()
      modifies this`closing
      ensures Performed(Perform(old(store.Now()), old(Process()), AuthOp.BeginShutdown, 0), Done)
    {
      closing := true;
    }

    method Shutdown(clean: bool, write: WriteOutcome) returns (trusted: bool)
      requires Valid()
      modifies this`sessions, this`closing, this`closed, recovery, store
      ensures Performed(ShutdownSpec(old(store.Now()), old(Process()), clean, write), Certified(trusted))
    {
      sessions := map[];
      trusted := recovery.Close(clean && closing && !unaccounted, write);
      closing := true;
      closed := true;
    }
  }
}
