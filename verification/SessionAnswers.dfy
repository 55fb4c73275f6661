/** What the answers of the session operations promise to whoever gets them. */
module SessionAnswers {
  import opened Wrappers
  import opened SessionModel
  import opened JournalFormat
  import opened SessionRuns
  import opened SessionTheorems

  /** No later process can hydrate this session: its row is gone, or both files a reader may find journal it. */
  predicate Denied(d: Disk, lim: Limits, e: Entry) {
    || e.id !in d.rows
    || (JournaledIn(d.visible, lim, e) && JournaledIn(d.durable, lim, e))
  }

  predicate JournaledIn(f: File, lim: Limits, e: Entry) {
    Read(f, lim).Some? && e in Read(f, lim).value.revocations
  }

  /** A recorded revocation is in both files, and no revocation touches the rows. */
  lemma RecordedIsJournaled(d: Disk, r: Recovery, added: seq<Entry>, now: nat, write: WriteOutcome, e: Entry)
    requires WellFormed(r.snapshot, r.lim) && e in added && e.expiresAt > now
    requires forall a | a in added && a.id == e.id :: a == e
    ensures var out := Revoke(d, r, added, now, write);
      out.disk.rows == d.rows && (out.ok ==> JournaledIn(out.disk.visible, r.lim, e) && JournaledIn(out.disk.durable, r.lim, e))
  {
    if Revoke(d, r, added, now, write).ok {
      CheckpointReadsBack(d, r, added, now, write);
    }
    hide Read, NextSnapshot, WriteOk, WellFormed;
  }

  /** A logout leaves the hot map whatever happens, and is only acknowledged once a store has it. */
  lemma LogoutAnswersTruthfully(d: Disk, p: Proc, raw: Text, write: WriteOutcome, rowDeleted: bool, now: nat, t: Text)
    requires WellFormed(p.recovery.snapshot, p.recovery.lim)
    requires LookupId(p.recovery, raw) == Some(t) && t in p.auth.sessions && p.auth.sessions[t].expiresAt > now
    ensures var out := DestroySpec(d, p, raw, write, rowDeleted, now);
      && t !in out.proc.auth.sessions && ResolveSpec(out.disk, out.proc, raw, now).answer == User(None)
      && (out.answer == Done || out.answer == Failure("session_persistence_failed"))
      && (out.answer == Done ==> Denied(out.disk, p.recovery.lim, Entry(t, p.auth.sessions[t].expiresAt)))
      && (rowDeleted ==> out.answer == Done)
  {
    var e := Entry(t, p.auth.sessions[t].expiresAt);
    RecordedIsJournaled(d, p.recovery, [e], now, write, e);
    assert Revoke(d, p.recovery, [e], now, write).recovery.snapshot.key == p.recovery.snapshot.key by { hide WriteFile, WriteOk; }
    hide Revoke, JournaledIn, WellFormed;
  }

  /** Likewise for all sessions of a user at once; the count is the number that were live. */
  lemma InvalidationAnswersTruthfully(d: Disk, p: Proc, userId: nat, affected: seq<Text>, write: WriteOutcome,
                                      rowsDeleted: bool, now: nat, t: Text)
    requires WellFormed(p.recovery.snapshot, p.recovery.lim)
    requires Enumerates(affected, OfUser(p.auth.sessions, userId))
    requires t in OfUser(p.auth.sessions, userId) && p.auth.sessions[t].expiresAt > now
    requires t in d.rows ==> d.rows[t].userId == userId
    ensures var out := InvalidateSpec(d, p, userId, affected, write, rowsDeleted, now);
      && t !in out.proc.auth.sessions
      && (out.answer.Removed? || out.answer == Failure("session_persistence_failed"))
      && (out.answer.Removed? ==>
            && out.answer.count == |OfUser(p.auth.sessions, userId).Keys|
            && Denied(out.disk, p.recovery.lim, Entry(t, p.auth.sessions[t].expiresAt)))
      && (rowsDeleted ==> out.answer.Removed?)
  {
    hide Revoke, JournaledIn, WellFormed;
    EnumeratedOnce(affected, OfUser(p.auth.sessions, userId));
    var added := EntriesOf(p.auth.sessions, affected);
    var e := Entry(t, p.auth.sessions[t].expiresAt);
    var i :| 0 <= i < |affected| && affected[i] == t;
    assert added[i] == e;
    OneEntryEach(p.auth.sessions, affected, e);
    RecordedIsJournaled(d, p.recovery, added, now, write, e);
    hide EntriesOf, Enumerates;
  }

  lemma OneEntryEach(rows: Rows, ids: seq<Text>, e: Entry)
    requires forall i | 0 <= i < |ids| :: ids[i] in rows
    requires e in EntriesOf(rows, ids)
    ensures forall a | a in EntriesOf(rows, ids) && a.id == e.id :: a == e
  {
  }

  lemma {:induction false} EnumeratedOnce(ids: seq<Text>, rows: Rows)
    requires Enumerates(ids, rows)
    ensures |ids| == |rows.Keys|
    decreases |ids|
  {
    if ids == [] {
      assert rows.Keys == {};
    } else {
      var init, last := ids[..|ids| - 1], ids[|ids| - 1];
      var rest := rows - {last};
      assert rest.Keys == rows.Keys - {last};
      forall t | t in rest ensures t in init {
        assert t in ids;
      }
      EnumeratedOnce(init, rest);
    }
  }

  /** A login with the right password, minted before anything else happens, is believed at once. */
  lemma PromptLoginResolves(d: Disk, p: Proc, userId: nat, token: nat, now: nat)
    requires Writable(p.auth) && userId in d.users && !p.recovery.closed
    ensures var read := LoginReadSpec(d, p, userId);
      var handle := p.auth.nextHandle;
      var checked := LoginFinishSpec(read.disk, read.proc, handle, true);
      var minted := MintSpec(checked.disk, checked.proc, handle, true, token, RowStored, now);
      && read.answer == Answer.Handle(handle) == checked.answer && minted.answer == Cookie(token)
      && ResolveSpec(minted.disk, minted.proc, Hex64(token), now).answer == User(Some(userId))
  {
  }

  /** A sweep is invisible to every cookie, leaves nothing expired, and takes nothing a startup would load. */
  lemma SweepIsInvisible(d: Disk, p: Proc, rowsPruned: bool, now: nat, raw: Text)
    ensures var out := SweepSpec(d, p, rowsPruned, now);
      && ResolveSpec(out.disk, out.proc, raw, now).answer == ResolveSpec(d, p, raw, now).answer
      && (forall t | t in out.proc.auth.sessions :: out.proc.auth.sessions[t].expiresAt >= now)
      && (rowsPruned ==> forall t | t in out.disk.rows :: out.disk.rows[t].expiresAt > now)
      && Unexpired(out.disk.rows, now) == Unexpired(d.rows, now)
  {
  }

  // ---- what a failed revocation bars ------------------------------------------

  lemma UncertainStays(d: Disk, r: Recovery, added: seq<Entry>, now: nat, o: WriteOutcome)
    requires r.uncertain
    ensures Revoke(d, r, added, now, o).recovery.uncertain
  {
  }

  /**
   Once a revocation could not be recorded the owner never certifies by itself, even if it is
   asked to and later revocations succeed: closing leaves the disk as it was.
   */
  lemma FailedRevocationBarsCertificate(d: Disk, r: Recovery, added: seq<Entry>, now: nat, o: WriteOutcome,
                                        more: seq<Entry>, at: nat, o': WriteOutcome, write: WriteOutcome)
    requires !r.closed && !Revoke(d, r, added, now, o).ok
    ensures var failed := Revoke(d, r, added, now, o);
      var after := Revoke(failed.disk, failed.recovery, more, at, o');
      Close(after.disk, after.recovery, true, write) == RevokeResult(after.disk, after.recovery.(closed := true), false)
  {
    hide NextSnapshot, WriteFile, WriteOk;
  }

  /** A closed owner neither answers nor writes. */
  lemma ClosedOwnerIsInert(d: Disk, r: Recovery, added: seq<Entry>, now: nat, o: WriteOutcome, clean: bool, raw: Text)
    requires r.closed
    ensures Revoke(d, r, added, now, o) == RevokeResult(d, r, false) == Close(d, r, clean, o) && LookupId(r, raw) == None
  {
  }

  // ---- draining ---------------------------------------------------------------

  /** Nobody new is let in: no session, row or credential appears. */
  ghost predicate NobodyNew(w: World, w': World) {
    && w'.hist.ever == w.hist.ever && w'.hist.cookies == w.hist.cookies
    && (Serving(w) && Serving(w') && w.hist.boots == w'.hist.boots ==>
          && w'.proc.value.auth.nextHandle == w.proc.value.auth.nextHandle
          && w'.proc.value.auth.sessions.Keys <= w.proc.value.auth.sessions.Keys
          && (w.proc.value.auth.closing ==> w'.proc.value.auth.closing))
  }

  predicate Intake(op: AuthOp) {
    op.LoginRead? || op.Register? || op.SessionUser? || op.Mint?
  }

  predicate Stays(a: AuthState, a': AuthState) {
    a'.nextHandle == a.nextHandle && a'.sessions.Keys <= a.sessions.Keys && (a.closing ==> a'.closing)
  }

  lemma RevocationLetsNobodyIn(d: Disk, p: Proc, op: AuthOp, now: nat)
    requires Possible(p, op) && (op.Destroy? || op.Invalidate?)
    ensures Stays(p.auth, Perform(d, p, op, now).proc.auth)
  {
    hide Revoke, Enumerates, EntriesOf, LookupId;
  }

  lemma OtherLetsNobodyIn(d: Disk, p: Proc, op: AuthOp, now: nat)
    requires !Intake(op) && !op.Destroy? && !op.Invalidate?
    ensures Stays(p.auth, Perform(d, p, op, now).proc.auth)
  {
    hide Close, LookupId;
  }

  /** While draining, whoever asks to be let in is refused, and nothing changes. */
  lemma IntakeIsRefused(d: Disk, p: Proc, op: AuthOp, now: nat)
    requires Intake(op) && (p.auth.closing || p.auth.closed)
    ensures Perform(d, p, op, now) == Outcome(d, p, Failure("auth_unavailable"), [])
  {
  }

  /** Nor is anybody let in whose password hash cannot be read back. */
  lemma UnreadableHashIsRefused(d: Disk, p: Proc, op: AuthOp, now: nat)
    requires (op.SessionUser? || op.Mint?) && !op.hashReadable
    ensures var out := Perform(d, p, op, now);
      out.answer.Failure? && out.disk == d && out.proc == p
  {
  }

  lemma DrainingHistory(w: World, e: Event)
    requires Enabled(w, e) && Serving(w) && w.proc.value.auth.closing
    ensures Step(w, e).hist.ever == w.hist.ever && Step(w, e).hist.cookies == w.hist.cookies
  {
    hide Perform, StartCuts, AfterCrash, AfterStart, Started, Straddled, StartOk, ProofStands, RevokedBy;
  }

  lemma DrainingStep(w: World, e: Event)
    requires Enabled(w, e) && Serving(w) && w.proc.value.auth.closing
    ensures NobodyNew(w, Step(w, e))
  {
    DrainingHistory(w, e);
    if e.Serve? {
      if Intake(e.op) {
        IntakeIsRefused(w.disk, w.proc.value, e.op, w.clock);
      } else if e.op.Destroy? || e.op.Invalidate? {
        RevocationLetsNobodyIn(w.disk, w.proc.value, e.op, w.clock);
      } else {
        OtherLetsNobodyIn(w.disk, w.proc.value, e.op, w.clock);
      }
    }
    hide Perform, HistoryAfter, StartCuts, AfterCrash, AfterStart, Started, Straddled, StartOk;
  }

  /** From `beginShutdown` on a process takes in no login, proof or session, until it ends. */
  lemma {:induction false} DrainTakesNobody(ws: seq<World>, es: seq<Event>, i: nat, j: nat)
    requires Run(ws, es) && i <= j <= |es| && Serving(ws[i]) && ws[i].proc.value.auth.closing
    requires Serving(ws[j]) && ws[j].hist.boots == ws[i].hist.boots
    ensures ws[j].proc.value.auth.closing && NobodyNew(ws[i], ws[j])
    decreases j
  {
    hide Step, Enabled, Init;
    if i < j {
      BootsGrow(ws, es, i, j - 1);
      BootsGrow(ws, es, j - 1, j);
      DrainTakesNobody(ws, es, i, j - 1);
      DrainingStep(ws[j - 1], es[j - 1]);
    }
  }
}
