/**
 Runs whose stores do what they are told: writes complete or fail outright, rows deleted
 stay deleted. Processes may still crash anywhere. Such runs lose no session across a
 certified restart and bring back none that was revoked.
 */
module RestartContinuity {
  import opened Wrappers
  import opened SessionModel
  import opened JournalFormat
  import opened SessionRuns
  import opened SessionTheorems

  predicate ReliableOp(op: AuthOp) {
    match op
    case Mint(_, _, _, row) => !row.RowStoredThenFailed?
    case Destroy(_, write, rowDeleted) => rowDeleted && !write.Unsynced?
    case Invalidate(_, _, write, rowsDeleted) => rowsDeleted && !write.Unsynced?
    case Shutdown(_, write) => !write.Unsynced?
    case _ => true
  }

  predicate ReliableStart(io: StartIo, lim: Limits) {
    io.lim == lim && io.readable && !io.write.Unsynced?
  }

  predicate Reliable(e: Event, lim: Limits) {
    match e
    case Tamper(_) => false
    case Damage(_, _) => false
    case Startup(io) => ReliableStart(io, lim)
    case CrashInStartup(io, _, _) => ReliableStart(io, lim)
    case Serve(op) => ReliableOp(op)
    case CrashInServe(op, _, _) => ReliableOp(op)
    case _ => true
  }

  ghost predicate ReliableRun(ws: seq<World>, es: seq<Event>, lim: Limits) {
    && Run(ws, es)
    && ws[0].disk.rows == map[] && ws[0].disk.visible == Absent && ws[0].disk.durable == Absent
    && forall i | 0 <= i < |es| :: Reliable(es[i], lim)
  }

  /** The sessions of this key that were created, never revoked, and live past the given time. */
  function Owed(h: History, key: nat, time: int): Rows {
    map t | t in h.ever && t.Lookup? && t.key == key && t !in h.revoked && h.ever[t].expiresAt > time
      :: h.ever[t]
  }

  /** These rows are of one key and hold exactly what is owed, up to expired leftovers. */
  ghost predicate Exact(rows: Rows, h: History, key: nat, clock: int) {
    && (forall t | t in rows :: t.Lookup? && t.key == key && t in h.ever && rows[t] == h.ever[t])
    && Unexpired(rows, clock) == Owed(h, key, clock)
  }

  ghost predicate OnlyRevoked(s: Snapshot, h: History) {
    forall e | e in s.revocations :: e.id in h.revoked
  }

  ghost predicate CheckpointExact(d: Disk, h: History, clock: int, lim: Limits) {
    CleanFile(d.visible) ==>
      && Read(d.visible, lim).Some?
      && Exact(d.rows, h, Content(d.visible).value.key, clock)
      && OnlyRevoked(Content(d.visible).value, h)
  }

  ghost predicate ProcExact(p: Proc, d: Disk, h: History, clock: int, lim: Limits) {
    && p.recovery.lim == lim
    && Exact(d.rows, h, p.recovery.snapshot.key, clock)
    && Exact(p.auth.sessions, h, p.recovery.snapshot.key, clock)
    && OnlyRevoked(p.recovery.snapshot, h)
  }

  ghost predicate ExactInv(w: World, lim: Limits) {
    && w.disk.visible == w.disk.durable
    && CheckpointExact(w.disk, w.hist, w.clock, lim)
    && (Serving(w) ==> ProcExact(w.proc.value, w.disk, w.hist, w.clock, lim))
  }

  // ---- rows and what is owed --------------------------------------------------

  lemma ExactLater(rows: Rows, h: History, key: nat, clock: int, later: int)
    requires Exact(rows, h, key, clock) && clock <= later
    ensures Exact(rows, h, key, later)
  {
    assert Unexpired(rows, later) == Unexpired(Unexpired(rows, clock), later);
    assert Owed(h, key, later) == Unexpired(Owed(h, key, clock), later);
  }

  /** Dropping what has expired changes nothing that is owed. */
  lemma ExactPruned(rows: Rows, rows': Rows, h: History, key: nat, clock: int)
    requires Exact(rows, h, key, clock) && SubRows(rows', rows)
    requires forall t | t in rows && t !in rows' :: rows[t].expiresAt <= clock
    ensures Exact(rows', h, key, clock)
  {
    assert Unexpired(rows', clock) == Unexpired(rows, clock);
  }

  lemma ExactRevoked(rows: Rows, rows': Rows, h: History, gone: set<Text>, key: nat, clock: int)
    requires Exact(rows, h, key, clock) && SubRows(rows', rows)
    requires forall t | t in rows :: t in rows' <==> t !in gone
    ensures Exact(rows', h.(revoked := h.revoked + gone), key, clock)
  {
    var h' := h.(revoked := h.revoked + gone);
    assert Unexpired(rows', clock) == Unexpired(rows, clock) - gone;
    assert Owed(h', key, clock) == Owed(h, key, clock) - gone;
  }

  lemma ExactMinted(rows: Rows, h: History, h': History, id: Text, s: Session, key: nat, clock: int)
    requires Exact(rows, h, key, clock) && id !in h.ever && id !in h.revoked
    requires id.Lookup? && id.key == key && s.expiresAt > clock
    requires h'.ever == h.ever[id := s] && h'.revoked == h.revoked
    ensures Exact(rows[id := s], h', key, clock)
  {
    UnexpiredMinted(rows, id, s, clock);
    OwedMinted(h, h', id, s, key, clock);
    hide Unexpired, Owed;
  }

  lemma UnexpiredMinted(rows: Rows, id: Text, s: Session, clock: int)
    requires s.expiresAt > clock
    ensures Unexpired(rows[id := s], clock) == Unexpired(rows, clock)[id := s]
  {
  }

  lemma OwedMinted(h: History, h': History, id: Text, s: Session, key: nat, clock: int)
    requires id !in h.revoked && id.Lookup? && id.key == key && s.expiresAt > clock
    requires h'.ever == h.ever[id := s] && h'.revoked == h.revoked
    ensures Owed(h', key, clock) == Owed(h, key, clock)[id := s]
  {
  }

  lemma ExactSameOwed(rows: Rows, h: History, h': History, key: nat, clock: int)
    requires Exact(rows, h, key, clock) && h'.ever == h.ever && h'.revoked == h.revoked
    ensures Exact(rows, h', key, clock)
  {
    assert Owed(h', key, clock) == Owed(h, key, clock);
  }

  lemma NothingOwed(h: History, key: nat, clock: int)
    requires HistoryInv(h) && key !in h.keys
    ensures Exact(map[], h, key, clock)
  {
    assert Owed(h, key, clock) == map[];
  }

  // ---- one revocation ---------------------------------------------------------

  lemma RevokeOnlyRevoked(d: Disk, r: Recovery, added: seq<Entry>, now: nat, o: WriteOutcome, h: History, gone: set<Text>)
    requires WellFormed(r.snapshot, r.lim) && OnlyRevoked(r.snapshot, h)
    requires forall e | e in added :: e.id in gone
    ensures OnlyRevoked(Revoke(d, r, added, now, o).recovery.snapshot, h.(revoked := h.revoked + gone))
    ensures Revoke(d, r, added, now, o).recovery.lim == r.lim
    ensures Revoke(d, r, added, now, o).recovery.snapshot.key == r.snapshot.key
    ensures Revoke(d, r, added, now, o).recovery.closed == r.closed
  {
    var live := LiveEntries(r.snapshot.revocations, now);
    LiveEntriesExact(r.snapshot.revocations, now);
    if NextSnapshot(r, added, now).Some? {
      forall e | e in NextSnapshot(r, added, now).value.revocations ensures e.id in h.revoked + gone {
        MergeAddsNothingElse(live, added, now, e);
      }
    }
  }

  lemma RevokeFiles(d: Disk, r: Recovery, added: seq<Entry>, now: nat, o: WriteOutcome)
    requires d.visible == d.durable && !CleanFile(d.visible) && WellFormed(r.snapshot, r.lim) && !o.Unsynced?
    ensures var d' := Revoke(d, r, added, now, o).disk;
      d'.visible == d'.durable && !CleanFile(d'.visible) && d'.rows == d.rows
  {
    if NextSnapshot(r, added, now).Some? {
      NextSnapshotWellFormed(r, added, now);
      ContentOfWritten(NextSnapshot(r, added, now).value);
    }
  }

  // ---- every operation --------------------------------------------------------

  ghost predicate OutcomeExact(out: Outcome, h: History, clock: int, lim: Limits) {
    && out.disk.visible == out.disk.durable
    && CheckpointExact(out.disk, h, clock, lim)
    && (!out.proc.recovery.closed ==> ProcExact(out.proc, out.disk, h, clock, lim))
  }

  lemma DestroyExact(d: Disk, p: Proc, h: History, now: nat, lim: Limits, raw: Text, write: WriteOutcome)
    requires HistoryInv(h) && ProcInv(p, d, h, now) && !p.recovery.closed && d.visible == d.durable
    requires ProcExact(p, d, h, now, lim) && !write.Unsynced?
    ensures OutcomeExact(DestroySpec(d, p, raw, write, true, now),
              h.(revoked := h.revoked + RevokedBy(p, Destroy(raw, write, true))), now, lim)
  {
    hide Owed, Unexpired, NextSnapshot;
    var gone := RevokedBy(p, Destroy(raw, write, true));
    if gone == {} {
      assert h.(revoked := h.revoked + gone) == h;
    } else {
      var t := LookupId(p.recovery, raw).value;
      var added := [Entry(t, p.auth.sessions[t].expiresAt)];
      RevokeOnlyRevoked(d, p.recovery, added, now, write, h, gone);
      RevokeFiles(d, p.recovery, added, now, write);
      ExactRevoked(d.rows, WithoutId(d.rows, t), h, gone, p.recovery.snapshot.key, now);
      ExactRevoked(p.auth.sessions, WithoutId(p.auth.sessions, t), h, gone, p.recovery.snapshot.key, now);
    }
  }

  /** Deleting a user's rows deletes the live ones revoked and, besides, only expired leftovers. */
  lemma UserRowsExact(rows: Rows, sessions: Rows, h: History, userId: nat, key: nat, now: nat)
    requires Exact(rows, h, key, now) && Exact(sessions, h, key, now)
    ensures Exact(WithoutUser(rows, userId), h.(revoked := h.revoked + OfUser(sessions, userId).Keys), key, now)
    ensures Exact(WithoutUser(sessions, userId), h.(revoked := h.revoked + OfUser(sessions, userId).Keys), key, now)
  {
    var gone := OfUser(sessions, userId).Keys;
    var h' := h.(revoked := h.revoked + gone);
    ExactRevoked(sessions, WithoutUser(sessions, userId), h, gone, key, now);
    forall t | t in Unexpired(rows, now) ensures t in sessions && rows[t] == sessions[t] {
      assert t in Owed(h, key, now);
      assert t in Unexpired(sessions, now);
    }
    assert Unexpired(WithoutUser(rows, userId), now) == Unexpired(rows, now) - gone;
    assert Owed(h', key, now) == Owed(h, key, now) - gone;
  }

  lemma InvalidateExact(d: Disk, p: Proc, h: History, now: nat, lim: Limits, userId: nat, affected: seq<Text>,
                        write: WriteOutcome)
    requires HistoryInv(h) && ProcInv(p, d, h, now) && !p.recovery.closed && d.visible == d.durable
    requires ProcExact(p, d, h, now, lim) && !write.Unsynced?
    requires Enumerates(affected, OfUser(p.auth.sessions, userId))
    ensures OutcomeExact(InvalidateSpec(d, p, userId, affected, write, true, now),
              h.(revoked := h.revoked + OfUser(p.auth.sessions, userId).Keys), now, lim)
  {
    var gone := OfUser(p.auth.sessions, userId).Keys;
    var added := EntriesOf(p.auth.sessions, affected);
    EntriesOfUser(p.auth, userId, affected, h.ever);
    RevokeOnlyRevoked(d, p.recovery, added, now, write, h, gone);
    RevokeFiles(d, p.recovery, added, now, write);
    UserRowsExact(d.rows, p.auth.sessions, h, userId, p.recovery.snapshot.key, now);
  }

  lemma MintExact(d: Disk, p: Proc, h: History, now: nat, lim: Limits, handle: nat, token: nat, row: RowOutcome)
    requires HistoryInv(h) && ProcInv(p, d, h, now) && !p.recovery.closed && d.visible == d.durable
    requires ProcExact(p, d, h, now, lim) && !row.RowStoredThenFailed?
    requires token !in h.cookies && MayMint(d, p, handle)
    ensures OutcomeExact(MintSpec(d, p, handle, true, token, row, now),
              HistoryAfter(h, d, p, Mint(handle, true, token, row), now), now, lim)
  {
    var h' := HistoryAfter(h, d, p, Mint(handle, true, token, row), now);
    var key := p.recovery.snapshot.key;
    var id := Lookup(key, token);
    var s := Session(p.auth.proofs[handle].userId, now + SESSION_TTL_MS);
    assert h.revoked + {} == h.revoked;
    assert id !in h.ever;
    if row.RowStored? {
      ExactMinted(d.rows, h, h', id, s, key, now);
      ExactMinted(p.auth.sessions, h, h', id, s, key, now);
    } else {
      ExactSameOwed(d.rows, h, h', key, now);
      ExactSameOwed(p.auth.sessions, h, h', key, now);
    }
  }

  lemma ShutdownExact(d: Disk, p: Proc, h: History, now: nat, lim: Limits, clean: bool, write: WriteOutcome)
    requires ProcInv(p, d, h, now) && !p.recovery.closed && d.visible == d.durable
    requires ProcExact(p, d, h, now, lim) && !write.Unsynced?
    ensures OutcomeExact(ShutdownSpec(d, p, clean, write), h, now, lim)
  {
    var s := p.recovery.snapshot.(clean := true);
    ContentOfWritten(s);
    WrittenReadsBack(d, s, lim, write);
    CleanIsShorter(p.recovery.snapshot);
  }

  lemma HotPruned(d: Disk, rows: Rows, p: Proc, a': AuthState, h: History, now: nat, lim: Limits)
    requires ProcExact(p, d, h, now, lim)
    requires SubRows(a'.sessions, p.auth.sessions) && SubRows(rows, d.rows)
    requires forall t | t in p.auth.sessions && t !in a'.sessions :: p.auth.sessions[t].expiresAt <= now
    requires forall t | t in d.rows && t !in rows :: d.rows[t].expiresAt <= now
    ensures ProcExact(p.(auth := a'), d.(rows := rows), h, now, lim)
  {
    ExactPruned(p.auth.sessions, a'.sessions, h, p.recovery.snapshot.key, now);
    ExactPruned(d.rows, rows, h, p.recovery.snapshot.key, now);
  }

  lemma ResolveExact(d: Disk, p: Proc, h: History, now: nat, lim: Limits, raw: Text)
    requires ProcExact(p, d, h, now, lim)
    ensures ProcExact(ResolveSpec(d, p, raw, now).proc, d, h, now, lim)
  {
    HotPruned(d, d.rows, p, ResolveSpec(d, p, raw, now).proc.auth, h, now, lim);
  }

  lemma SweepExact(d: Disk, p: Proc, h: History, now: nat, lim: Limits, rowsPruned: bool)
    requires ProcExact(p, d, h, now, lim)
    ensures ProcExact(SweepSpec(d, p, rowsPruned, now).proc, SweepSpec(d, p, rowsPruned, now).disk, h, now, lim)
  {
    HotPruned(d, SweepSpec(d, p, rowsPruned, now).disk.rows, p, SweepSpec(d, p, rowsPruned, now).proc.auth, h, now, lim);
  }

  /** Credentials, epochs and the closing flag have no part in what is owed. */
  lemma CredentialsExact(d: Disk, p: Proc, h: History, now: nat, lim: Limits, op: AuthOp)
    requires ProcExact(p, d, h, now, lim) && !p.recovery.closed
    requires op.LoginRead? || op.LoginFinish? || op.Register? || op.SessionUser? || op.BeginShutdown?
    ensures ProcExact(Perform(d, p, op, now).proc, Perform(d, p, op, now).disk, h, now, lim)
    ensures Perform(d, p, op, now).disk == d
  {
  }

  lemma ServeExact(d: Disk, p: Proc, h: History, now: nat, lim: Limits, op: AuthOp)
    requires HistoryInv(h) && ProcInv(p, d, h, now) && !p.recovery.closed && d.visible == d.durable
    requires ProcExact(p, d, h, now, lim) && ReliableOp(op)
    requires Possible(p, op) && (op.Mint? ==> op.token !in h.cookies)
    ensures OutcomeExact(Perform(d, p, op, now), HistoryAfter(h, d, p, op, now), now, lim)
  {
    if op.Mint? && MayMint(d, p, op.handle) && op.hashReadable {
      MintExact(d, p, h, now, lim, op.handle, op.token, op.row);
    } else if op.Destroy? {
      DestroyExact(d, p, h, now, lim, op.raw, op.write);
    } else if op.Invalidate? {
      InvalidateExact(d, p, h, now, lim, op.userId, op.affected, op.write);
    } else {
      assert h.revoked + {} == h.revoked;
      if op.Shutdown? {
        ShutdownExact(d, p, h, now, lim, op.clean, op.write);
      } else if op.Resolve? {
        ResolveExact(d, p, h, now, lim, op.raw);
      } else if op.Sweep? {
        SweepExact(d, p, h, now, lim, op.rowsPruned);
      } else if !op.Mint? {
        CredentialsExact(d, p, h, now, lim, op);
      }
    }
  }

  // ---- starting ---------------------------------------------------------------

  lemma HydratedOwed(d: Disk, io: StartIo, h: History, clock: int, lim: Limits)
    requires CheckpointExact(d, h, clock, lim) && DiskInv(d, h, clock)
    requires ReliableStart(io, lim) && clock <= io.pruneAt <= io.loadAt <= io.filterAt
    requires Trusted(ReadAtStart(d, io), Loaded(d, io))
    ensures Hydrated(d, io) == Owed(h, StartSnapshot(d, io).key, io.loadAt)
    ensures OnlyRevoked(StartSnapshot(d, io), h)
  {
    var s := ReadAtStart(d, io).value;
    var key := s.key;
    ContentWellFormed(d.visible);
    LiveEntriesExact(s.revocations, io.filterAt);
    ExactLater(d.rows, h, key, clock, io.loadAt);
    assert Loaded(d, io) == Unexpired(d.rows, io.loadAt);
    var live := LiveEntries(s.revocations, io.filterAt);
    forall t | t in Ids(live) ensures t in h.revoked {
      var k :| 0 <= k < |live| && live[k].id == t;
      assert live[k] in s.revocations;
    }
  }

  lemma TrustedStartExact(w: World, io: StartIo, lim: Limits)
    requires Inv(w) && ExactInv(w, lim) && StartEnabled(w, io) && ReliableStart(io, lim)
    requires StartOk(w.disk, io) && Trusted(ReadAtStart(w.disk, io), Loaded(w.disk, io))
    ensures ProcExact(Started(w.disk, io), AfterStart(w.disk, io), HistoryAfterStart(w, io), io.filterAt, lim)
    ensures Hydrated(w.disk, io) == Owed(w.hist, StartSnapshot(w.disk, io).key, io.loadAt)
  {
    var d, h, h' := w.disk, w.hist, HistoryAfterStart(w, io);
    var key := StartSnapshot(d, io).key;
    HydratedOwed(d, io, h, w.clock, lim);
    ExactLater(d.rows, h, key, w.clock, io.filterAt);
    ExactPruned(d.rows, Unexpired(d.rows, io.pruneAt), h, key, io.filterAt);
    ExactSameOwed(Unexpired(d.rows, io.pruneAt), h, h', key, io.filterAt);
    OwedExact(h', key, io.loadAt, io.filterAt);
  }

  lemma UntrustedStartExact(w: World, io: StartIo, lim: Limits)
    requires Inv(w) && StartEnabled(w, io) && ReliableStart(io, lim)
    requires StartOk(w.disk, io) && !Trusted(ReadAtStart(w.disk, io), Loaded(w.disk, io))
    ensures ProcExact(Started(w.disk, io), AfterStart(w.disk, io), HistoryAfterStart(w, io), io.filterAt, lim)
    ensures Hydrated(w.disk, io) == Owed(w.hist, StartSnapshot(w.disk, io).key, io.loadAt)
  {
    NothingOwed(w.hist, io.freshKey, io.loadAt);
    NothingOwed(w.hist, io.freshKey, io.filterAt);
    ExactSameOwed(map[], w.hist, HistoryAfterStart(w, io), io.freshKey, io.filterAt);
  }

  lemma StartExact(w: World, io: StartIo, lim: Limits)
    requires Inv(w) && ExactInv(w, lim) && StartEnabled(w, io) && ReliableStart(io, lim)
    requires StartOk(w.disk, io)
    ensures ExactInv(Step(w, Startup(io)), lim)
    ensures Hydrated(w.disk, io) == Owed(w.hist, StartSnapshot(w.disk, io).key, io.loadAt)
  {
    hide Inv, Owed, Exact, Unexpired, Hydrated, StartSnapshot, Loaded, ReadAtStart, EncodeEntries, DecodeEntries;
    if Trusted(ReadAtStart(w.disk, io), Loaded(w.disk, io)) {
      TrustedStartExact(w, io, lim);
    } else {
      UntrustedStartExact(w, io, lim);
    }
    StartSnapshotWellFormed(w.disk, io);
    ContentOfWritten(StartSnapshot(w.disk, io));
  }

  lemma OwedExact(h: History, key: nat, time: int, clock: int)
    requires time <= clock
    ensures Exact(Owed(h, key, time), h, key, clock)
  {
    assert Unexpired(Owed(h, key, time), clock) == Owed(h, key, clock);
  }

  /** Every disk on the way of a startup keeps the trusted checkpoint exact. */
  lemma StartCutsExact(w: World, io: StartIo, lim: Limits, k: nat, h': History)
    requires Inv(w) && ExactInv(w, lim) && StartEnabled(w, io) && ReliableStart(io, lim)
    requires k < |StartCuts(w.disk, io)| && h'.ever == w.hist.ever && h'.revoked == w.hist.revoked
    ensures StartCuts(w.disk, io)[k].visible == StartCuts(w.disk, io)[k].durable
    ensures CheckpointExact(StartCuts(w.disk, io)[k], h', io.filterAt, lim)
  {
    hide Inv, Owed, Exact, EncodeEntries, DecodeEntries, Read, LiveEntries;
    var d := w.disk;
    StartSnapshotWellFormed(d, io);
    ContentOfWritten(StartSnapshot(d, io));
    if CleanFile(d.visible) { PrunedStaysExact(w, io, lim, h'); }
  }

  /** Where the checkpoint is clean the start trusts it, and pruning the rows keeps them exact. */
  lemma PrunedStaysExact(w: World, io: StartIo, lim: Limits, h': History)
    requires Inv(w) && ExactInv(w, lim) && StartEnabled(w, io) && ReliableStart(io, lim)
    requires h'.ever == w.hist.ever && h'.revoked == w.hist.revoked && CleanFile(w.disk.visible)
    ensures Trusted(ReadAtStart(w.disk, io), Loaded(w.disk, io))
    ensures CheckpointExact(w.disk.(rows := Unexpired(w.disk.rows, io.pruneAt)), h', io.filterAt, lim)
  {
    hide Inv, Owed;
    var d, h := w.disk, w.hist;
    var key := Content(d.visible).value.key;
    assert Trusted(ReadAtStart(d, io), Loaded(d, io));
    ExactLater(d.rows, h, key, w.clock, io.filterAt);
    ExactPruned(d.rows, Unexpired(d.rows, io.pruneAt), h, key, io.filterAt);
    ExactSameOwed(Unexpired(d.rows, io.pruneAt), h, h', key, io.filterAt);
  }

  lemma UntouchedExact(w: World, lim: Limits, now: int, h': History)
    requires ExactInv(w, lim) && w.clock <= now
    requires h'.ever == w.hist.ever && h'.revoked == w.hist.revoked
    ensures CheckpointExact(w.disk, h', now, lim)
    ensures Serving(w) ==> ProcExact(w.proc.value, w.disk, h', now, lim)
  {
    if CleanFile(w.disk.visible) {
      var key := Content(w.disk.visible).value.key;
      ExactLater(w.disk.rows, w.hist, key, w.clock, now);
      ExactSameOwed(w.disk.rows, w.hist, h', key, now);
    }
    if Serving(w) {
      var p := w.proc.value;
      ExactLater(w.disk.rows, w.hist, p.recovery.snapshot.key, w.clock, now);
      ExactSameOwed(w.disk.rows, w.hist, h', p.recovery.snapshot.key, now);
      ExactLater(p.auth.sessions, w.hist, p.recovery.snapshot.key, w.clock, now);
      ExactSameOwed(p.auth.sessions, w.hist, h', p.recovery.snapshot.key, now);
    }
  }

  lemma StartFailedExact(w: World, io: StartIo, lim: Limits)
    requires Inv(w) && ExactInv(w, lim) && StartEnabled(w, io) && ReliableStart(io, lim)
    requires !StartOk(w.disk, io)
    ensures ExactInv(Step(w, Startup(io)), lim)
  {
    var h' := HistoryAfterStart(w, io);
    var cuts := StartCuts(w.disk, io);
    if cuts == [] {
      UntouchedExact(w, lim, io.filterAt, h');
    } else {
      StartCutsExact(w, io, lim, |cuts| - 1, h');
    }
  }

  // ---- the whole run ----------------------------------------------------------

  /** Behind the fence there is no clean checkpoint to be wrong about. */
  lemma CrashInServeExact(w: World, op: AuthOp, cut: nat, lost: bool, lim: Limits)
    requires Inv(w) && ExactInv(w, lim) && Enabled(w, CrashInServe(op, cut, lost)) && ReliableOp(op)
    ensures ExactInv(Step(w, CrashInServe(op, cut, lost)), lim)
  {
    if op.Shutdown? {
      assert w.hist.revoked + {} == w.hist.revoked;
      ShutdownExact(w.disk, w.proc.value, w.hist, w.clock, lim, op.clean, op.write);
    } else {
      CutsStayDirty(w.disk, w.proc.value, op, w.clock);
    }
  }

  lemma CutsStayDirty(d: Disk, p: Proc, op: AuthOp, now: nat)
    requires Possible(p, op) && ReliableOp(op) && !op.Shutdown?
    requires d.visible == d.durable && !CleanFile(d.visible) && WellFormed(p.recovery.snapshot, p.recovery.lim)
    ensures forall c | c in Perform(d, p, op, now).cuts :: c.visible == c.durable && !CleanFile(c.visible)
  {
    if op.Destroy? && RevokedBy(p, op) != {} {
      var t := LookupId(p.recovery, op.raw).value;
      RevokeFiles(d, p.recovery, [Entry(t, p.auth.sessions[t].expiresAt)], now, op.write);
    } else if op.Invalidate? {
      RevokeFiles(d, p.recovery, EntriesOf(p.auth.sessions, op.affected), now, op.write);
    }
  }

  lemma ServeStepExact(w: World, op: AuthOp, lim: Limits)
    requires Inv(w) && ExactInv(w, lim) && ServeEnabled(w, op) && ReliableOp(op)
    ensures ExactInv(Step(w, Serve(op)), lim)
  {
    var h' := HistoryAfter(w.hist, w.disk, w.proc.value, op, w.clock);
    var out := Perform(w.disk, w.proc.value, op, w.clock);
    ServeExact(w.disk, w.proc.value, w.hist, w.clock, lim, op);
    assert Step(w, Serve(op)) == World(out.disk, Some(out.proc), w.clock, h');
  }

  lemma StepExact(w: World, e: Event, lim: Limits)
    requires Inv(w) && ExactInv(w, lim) && Enabled(w, e) && Reliable(e, lim)
    ensures ExactInv(Step(w, e), lim)
  {
    match e
    case Tick(now) => UntouchedExact(w, lim, now, w.hist);
    case Startup(io) => if StartOk(w.disk, io) { StartExact(w, io, lim); } else { StartFailedExact(w, io, lim); }
    case Serve(op) => ServeStepExact(w, op, lim);
    case CrashInStartup(io, cut, lost) =>
      StartCutsExact(w, io, lim, cut, w.hist.(keys := w.hist.keys + {io.freshKey}));
    case CrashInServe(op, cut, lost) => CrashInServeExact(w, op, cut, lost, lim);
    case _ =>
  }

  lemma {:induction false} ReliableRunExact(ws: seq<World>, es: seq<Event>, lim: Limits, i: nat)
    requires ReliableRun(ws, es, lim) && i <= |es|
    ensures ExactInv(ws[i], lim)
  {
    if i > 0 {
      ReliableRunExact(ws, es, lim, i - 1);
      RunInv(ws, es, i - 1);
      StepExact(ws[i - 1], es[i - 1], lim);
    }
  }

  /**
   Restart continuity: a startup hydrates precisely the sessions of its key that were created,
   never revoked, and unexpired when it loaded the rows. After an uncertified ending its key
   is new, so that is none of them.
   */
  lemma RestartIsExact(ws: seq<World>, es: seq<Event>, lim: Limits, i: nat, io: StartIo)
    requires ReliableRun(ws, es, lim) && i < |es| && es[i] == Startup(io) && StartOk(ws[i].disk, io)
    ensures ws[i + 1].proc.value.auth.sessions
         == Owed(ws[i].hist, ws[i + 1].proc.value.recovery.snapshot.key, io.loadAt)
    ensures CleanFile(ws[i].disk.visible)
         ==> ws[i + 1].proc.value.recovery.snapshot.key == Content(ws[i].disk.visible).value.key
    ensures !CleanFile(ws[i].disk.visible) ==> ws[i + 1].proc.value.auth.sessions == map[]
  {
    ReliableRunExact(ws, es, lim, i);
    RunInv(ws, es, i);
    StartExact(ws[i], io, lim);
  }

  /**
   A cookie is believed exactly if its user exists and its session was created, not revoked
   and not expired, or expires at this very instant and is still in the hot map.
   */
  lemma CookieResolvesIff(ws: seq<World>, es: seq<Event>, lim: Limits, i: nat, cookie: nat)
    requires ReliableRun(ws, es, lim) && i <= |es| && Serving(ws[i])
    ensures var w := ws[i];
      var key := w.proc.value.recovery.snapshot.key;
      var id := Lookup(key, cookie);
      && (Resolved(w, Hex64(cookie)).Some? <==>
            && id in w.hist.ever && w.hist.ever[id].userId in w.disk.users
            && (|| id in Owed(w.hist, key, w.clock)
                || (id in w.proc.value.auth.sessions && w.hist.ever[id].expiresAt == w.clock)))
      && (Resolved(w, Hex64(cookie)).Some? ==> Resolved(w, Hex64(cookie)) == Some(w.hist.ever[id].userId))
  {
    ReliableRunExact(ws, es, lim, i);
    var w := ws[i];
    var p := w.proc.value;
    var id := Lookup(p.recovery.snapshot.key, cookie);
    assert id in Unexpired(p.auth.sessions, w.clock) <==> id in Owed(w.hist, p.recovery.snapshot.key, w.clock);
  }
}
