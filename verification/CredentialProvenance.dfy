/** Where every minted session comes from: one credential check, still good when it is used. */
module CredentialProvenance {
  import opened Wrappers
  import opened SessionModel
  import opened SessionRuns
  import opened SessionTheorems

  /** This step takes the credential that `handle` stands for: the user's row as it is now, under the current epoch. */
  predicate Takes(w: World, e: Event, handle: nat, proof: Proof) {
    && e.Serve? && Serving(w)
    && (e.op.LoginRead? || e.op.Register? || e.op.SessionUser?)
    && e.op.userId == proof.userId && proof.userId in w.disk.users
    && w.proc.value.auth.nextHandle == handle
    && proof == Proof(proof.userId, Some(w.disk.users[proof.userId]), EpochOf(w.proc.value.auth, proof.userId))
  }

  /** The ticket or the proof behind a handle, if there is one. */
  function Held(a: AuthState, handle: nat): Option<Proof> {
    if handle in a.proofs then Some(a.proofs[handle])
    else if handle in a.tickets then Some(a.tickets[handle])
    else None
  }

  lemma NewHandleIsTaken(w: World, op: AuthOp, handle: nat)
    requires ServeEnabled(w, op) && handle >= w.proc.value.auth.nextHandle
    requires forall x | x in w.proc.value.auth.tickets || x in w.proc.value.auth.proofs :: x < w.proc.value.auth.nextHandle
    requires Held(Perform(w.disk, w.proc.value, op, w.clock).proc.auth, handle).Some?
    ensures Takes(w, Serve(op), handle, Held(Perform(w.disk, w.proc.value, op, w.clock).proc.auth, handle).value)
  {
    hide Revoke, WithoutId, WithoutUser, EntriesOf, Enumerates, LookupId;
  }

  /** One step back: the credential was there already, or this step took it. */
  lemma HeldBefore(w: World, e: Event, handle: nat)
    requires Inv(w) && Enabled(w, e) && Serving(Step(w, e)) && Held(Step(w, e).proc.value.auth, handle).Some?
    ensures Serving(w) && Step(w, e).hist.boots == w.hist.boots
    ensures var proof := Held(Step(w, e).proc.value.auth, handle);
      Held(w.proc.value.auth, handle) == proof || Takes(w, e, handle, proof.value)
  {
    if e.Serve? {
      if handle >= w.proc.value.auth.nextHandle {
        NewHandleIsTaken(w, e.op, handle);
      } else if e.op.Destroy? || e.op.Invalidate? || e.op.Mint? {
        RevocationCredentials(w.disk, w.proc.value, e.op, w.clock);
      } else {
        OtherCredentials(w.disk, w.proc.value, e.op, w.clock);
      }
    }
  }

  lemma {:induction false} TakenAt(ws: seq<World>, es: seq<Event>, j: nat, handle: nat) returns (i: nat)
    requires Run(ws, es) && j <= |es| && Serving(ws[j]) && Held(ws[j].proc.value.auth, handle).Some?
    ensures i < j && ws[i].hist.boots == ws[j].hist.boots
    ensures Takes(ws[i], es[i], handle, Held(ws[j].proc.value.auth, handle).value)
    decreases j
  {
    i := j - 1;
    RunInv(ws, es, i);
    HeldBefore(ws[i], es[i], handle);
    if !Takes(ws[i], es[i], handle, Held(ws[j].proc.value.auth, handle).value) {
      i := TakenAt(ws, es, i, handle);
    }
  }

  lemma EpochStep(w: World, e: Event, userId: nat)
    requires Inv(w) && Enabled(w, e) && Serving(w) && Serving(Step(w, e))
    ensures var before, after := EpochOf(w.proc.value.auth, userId), EpochOf(Step(w, e).proc.value.auth, userId);
      before + (if e.Serve? && e.op.Invalidate? && e.op.userId == userId then 1 else 0) <= after
  {
    if e.Serve? && !e.op.Invalidate? {
      if e.op.Destroy? || e.op.Mint? {
        RevocationCredentials(w.disk, w.proc.value, e.op, w.clock);
      } else {
        OtherCredentials(w.disk, w.proc.value, e.op, w.clock);
      }
    }
  }

  lemma {:induction false} EpochsGrow(ws: seq<World>, es: seq<Event>, i: nat, j: nat, userId: nat)
    requires Run(ws, es) && i <= j <= |es|
    requires Serving(ws[i]) && Serving(ws[j]) && ws[i].hist.boots == ws[j].hist.boots
    ensures EpochOf(ws[i].proc.value.auth, userId) <= EpochOf(ws[j].proc.value.auth, userId)
    decreases j
  {
    hide Inv, Step, EpochOf, Enabled, Serving;
    if i < j {
      BootsGrow(ws, es, i, j - 1);
      BootsGrow(ws, es, j - 1, j);
      RunInv(ws, es, j - 1);
      EpochsGrow(ws, es, i, j - 1, userId);
      EpochStep(ws[j - 1], es[j - 1], userId);
    }
  }

  lemma MintHolds(w: World, e: Event)
    requires Enabled(w, e) && e.Serve? && e.op.Mint?
    requires Perform(w.disk, w.proc.value, e.op, w.clock).answer.Cookie?
    ensures Held(w.proc.value.auth, e.op.handle).Some?
    ensures var proof := Held(w.proc.value.auth, e.op.handle).value;
      && Step(w, e).proc.Some?
      && Step(w, e).proc.value.auth.sessions
         == w.proc.value.auth.sessions[Lookup(w.proc.value.recovery.snapshot.key, e.op.token)
                                       := Session(proof.userId, w.clock + SESSION_TTL_MS)]
      && proof.userId in w.disk.users && Some(w.disk.users[proof.userId]) == proof.passwordHash
      && proof.epoch == EpochOf(w.proc.value.auth, proof.userId)
  {
    assert MayMint(w.disk, w.proc.value, e.op.handle);
  }

  /**
   Every session ever minted goes back to one reading of its user's row by the same process:
   the password hash read then is the one stored at the mint, and no
   `invalidateUserSessions` of that user came in between.
   */
  lemma MintHasProvenance(ws: seq<World>, es: seq<Event>, j: nat) returns (i: nat, proof: Proof)
    requires Run(ws, es) && j < |es| && es[j].Serve? && es[j].op.Mint?
    requires Perform(ws[j].disk, ws[j].proc.value, es[j].op, ws[j].clock).answer.Cookie?
    ensures i < j && ws[i].hist.boots == ws[j].hist.boots && Takes(ws[i], es[i], es[j].op.handle, proof)
    ensures ws[j + 1].proc.value.auth.sessions
         == ws[j].proc.value.auth.sessions[Lookup(ws[j].proc.value.recovery.snapshot.key, es[j].op.token)
                                           := Session(proof.userId, ws[j].clock + SESSION_TTL_MS)]
    ensures proof.userId in ws[j].disk.users && ws[j].disk.users[proof.userId] == ws[i].disk.users[proof.userId]
    ensures forall k | i < k < j :: !(es[k].Serve? && es[k].op.Invalidate? && es[k].op.userId == proof.userId)
  {
    var handle := es[j].op.handle;
    MintHolds(ws[j], es[j]);
    proof := Held(ws[j].proc.value.auth, handle).value;
    hide Perform, HistoryAfter, Takes, Held;
    i := TakenAt(ws, es, j, handle);
    forall k | i < k < j ensures !(es[k].Serve? && es[k].op.Invalidate? && es[k].op.userId == proof.userId) {
      hide Inv;
      if es[k].Serve? && es[k].op.Invalidate? && es[k].op.userId == proof.userId {
        BootsGrow(ws, es, i, k);
        BootsGrow(ws, es, k, k + 1);
        BootsGrow(ws, es, k + 1, j);
        RunInv(ws, es, k);
        EpochsGrow(ws, es, i, k, proof.userId);
        EpochStep(ws[k], es[k], proof.userId);
        EpochsGrow(ws, es, k + 1, j, proof.userId);
      }
    }
  }

  // ---- the password decides ---------------------------------------------------

  /** Nothing stands behind this handle any more, and no later credential gets it. */
  predicate Gone(a: AuthState, handle: nat) {
    handle < a.nextHandle && handle !in a.tickets && handle !in a.proofs
  }

  lemma GoneStays(w: World, e: Event, handle: nat)
    requires Enabled(w, e) && Serving(w) && Gone(w.proc.value.auth, handle) && Serving(Step(w, e))
    ensures Gone(Step(w, e).proc.value.auth, handle)
  {
    if e.Serve? {
      if e.op.Destroy? || e.op.Invalidate? || e.op.Mint? {
        RevocationCredentials(w.disk, w.proc.value, e.op, w.clock);
      } else {
        OtherCredentials(w.disk, w.proc.value, e.op, w.clock);
      }
    }
  }

  lemma {:induction false} GoneForever(ws: seq<World>, es: seq<Event>, i: nat, j: nat, handle: nat)
    requires Run(ws, es) && i <= j <= |es| && Serving(ws[i]) && Gone(ws[i].proc.value.auth, handle)
    requires Serving(ws[j]) && ws[j].hist.boots == ws[i].hist.boots
    ensures Gone(ws[j].proc.value.auth, handle)
    decreases j
  {
    hide Step, Enabled, Serving, Gone, Init;
    if i < j {
      BootsGrow(ws, es, i, j - 1);
      BootsGrow(ws, es, j - 1, j);
      GoneForever(ws, es, i, j - 1, handle);
      GoneStays(ws[j - 1], es[j - 1], handle);
    }
  }

  /** A login whose password was wrong is answered so, and never mints a session afterwards. */
  lemma WrongPasswordNeverMints(ws: seq<World>, es: seq<Event>, k: nat, j: nat, handle: nat)
    requires Run(ws, es) && k < j <= |es| && es[k] == Serve(LoginFinish(handle, false))
    requires handle in ws[k].proc.value.auth.tickets
    requires Serving(ws[j]) && ws[j].hist.boots == ws[k].hist.boots
    ensures Perform(ws[k].disk, ws[k].proc.value, es[k].op, ws[k].clock).answer == Failure("invalid_credentials")
    ensures !MayMint(ws[j].disk, ws[j].proc.value, handle)
  {
    RunInv(ws, es, k);
    BootStep(ws[k], es[k]);
    BootsGrow(ws, es, k + 1, j);
    assert Gone(ws[k + 1].proc.value.auth, handle);
    GoneForever(ws, es, k + 1, j, handle);
  }

  ghost predicate NoNewProof(a: AuthState, a': AuthState) {
    forall x | x in a'.proofs && x < a.nextHandle :: x in a.proofs
  }

  lemma RevocationAddsNoProof(d: Disk, p: Proc, op: AuthOp, now: nat)
    requires Possible(p, op) && (op.Destroy? || op.Invalidate? || op.Mint?)
    ensures NoNewProof(p.auth, Perform(d, p, op, now).proc.auth)
  {
    hide Revoke, WithoutId, WithoutUser, EntriesOf, Enumerates, LookupId;
  }

  lemma OtherAddsNoProof(d: Disk, p: Proc, op: AuthOp, now: nat)
    requires !op.Destroy? && !op.Invalidate? && !op.Mint? && !(op.LoginFinish? && op.passwordOk)
    ensures NoNewProof(p.auth, Perform(d, p, op, now).proc.auth)
  {
  }

  /** A proof appears behind a handle already given out only when its login's password compares equal. */
  lemma ProofAppears(w: World, e: Event, handle: nat)
    requires Enabled(w, e) && Serving(w) && Serving(Step(w, e)) && handle < w.proc.value.auth.nextHandle
    requires handle !in w.proc.value.auth.proofs && handle in Step(w, e).proc.value.auth.proofs
    ensures e == Serve(LoginFinish(handle, true))
  {
    if e.Serve? {
      var op := e.op;
      if op.Destroy? || op.Invalidate? || op.Mint? {
        RevocationAddsNoProof(w.disk, w.proc.value, op, w.clock);
      } else if !(op.LoginFinish? && op.passwordOk) {
        OtherAddsNoProof(w.disk, w.proc.value, op, w.clock);
      }
    }
  }

  lemma {:induction false} ProofNeedsPassword(ws: seq<World>, es: seq<Event>, i: nat, j: nat, handle: nat) returns (k: nat)
    requires Run(ws, es) && i <= j <= |es| && Serving(ws[i]) && Serving(ws[j]) && ws[j].hist.boots == ws[i].hist.boots
    requires handle < ws[i].proc.value.auth.nextHandle && handle !in ws[i].proc.value.auth.proofs
    requires handle in ws[j].proc.value.auth.proofs
    ensures i <= k < j && es[k] == Serve(LoginFinish(handle, true)) && ws[k].hist.boots == ws[j].hist.boots
    decreases j
  {
    hide Step, Enabled, Init;
    assert i < j;
    k := j - 1;
    BootsGrow(ws, es, i, k);
    BootsGrow(ws, es, k, j);
    if handle in ws[k].proc.value.auth.proofs {
      k := ProofNeedsPassword(ws, es, i, k, handle);
    } else {
      HandlesGrow(ws, es, i, k);
      ProofAppears(ws[k], es[k], handle);
    }
  }

  lemma {:induction false} HandlesGrow(ws: seq<World>, es: seq<Event>, i: nat, j: nat)
    requires Run(ws, es) && i <= j <= |es| && Serving(ws[i]) && Serving(ws[j]) && ws[j].hist.boots == ws[i].hist.boots
    ensures ws[i].proc.value.auth.nextHandle <= ws[j].proc.value.auth.nextHandle
    decreases j
  {
    hide Step, Enabled, Serving, Init;
    if i < j {
      BootsGrow(ws, es, i, j - 1);
      BootsGrow(ws, es, j - 1, j);
      HandlesGrow(ws, es, i, j - 1);
      HandleStep(ws[j - 1], es[j - 1]);
    }
  }

  lemma HandleStep(w: World, e: Event)
    requires Enabled(w, e) && Serving(w) && Serving(Step(w, e))
    ensures w.proc.value.auth.nextHandle <= Step(w, e).proc.value.auth.nextHandle
  {
    if e.Serve? {
      if e.op.Destroy? || e.op.Invalidate? || e.op.Mint? {
        RevocationCredentials(w.disk, w.proc.value, e.op, w.clock);
      } else {
        OtherCredentials(w.disk, w.proc.value, e.op, w.clock);
      }
    }
  }

  /** A login mints a session only if in between, in the same process, its password compared equal. */
  lemma LoginNeedsPassword(ws: seq<World>, es: seq<Event>, i: nat, j: nat) returns (k: nat)
    requires Run(ws, es) && i < j < |es| && ws[i].hist.boots == ws[j].hist.boots
    requires es[i].Serve? && es[i].op.LoginRead? && es[j].Serve? && es[j].op.Mint?
    requires Perform(ws[i].disk, ws[i].proc.value, es[i].op, ws[i].clock).answer == Answer.Handle(es[j].op.handle)
    requires Perform(ws[j].disk, ws[j].proc.value, es[j].op, ws[j].clock).answer.Cookie?
    ensures i < k < j && es[k] == Serve(LoginFinish(es[j].op.handle, true)) && ws[k].hist.boots == ws[j].hist.boots
  {
    var handle := es[j].op.handle;
    assert MayMint(ws[j].disk, ws[j].proc.value, handle);
    RunInv(ws, es, i);
    BootStep(ws[i], es[i]);
    BootsGrow(ws, es, i + 1, j);
    assert handle !in ws[i + 1].proc.value.auth.proofs && handle < ws[i + 1].proc.value.auth.nextHandle;
    k := ProofNeedsPassword(ws, es, i + 1, j, handle);
  }
}
