/** What every run of the session protocol guarantees to the holder of a cookie. */
module SessionTheorems {
  import opened Wrappers
  import opened SessionModel
  import opened JournalFormat
  import opened SessionRuns

  /** The user a request carrying this cookie is taken for. */
  function Resolved(w: World, raw: Text): Option<nat> {
    if w.proc.None? then None
    else ResolveSpec(w.disk, w.proc.value, raw, w.clock).answer.user
  }

  // ---- history only grows -----------------------------------------------------

  ghost predicate Extends(h: History, h': History) {
    && SubRows(h.ever, h'.ever)
    && h.revoked <= h'.revoked
    && h.keys <= h'.keys
    && h.straddled <= h'.straddled
  }

  lemma HistoryStep(w: World, e: Event)
    requires Inv(w) && Enabled(w, e)
    ensures Extends(w.hist, Step(w, e).hist)
    ensures DistinctCookies(w.hist.ever) ==> DistinctCookies(Step(w, e).hist.ever)
  {
    hide ProcInv, DiskInv, Perform, StartCuts, AfterStart, Started, StartOk, Straddled, AfterCrash;
  }

  lemma {:induction false} HistoryGrows(ws: seq<World>, es: seq<Event>, i: nat, j: nat)
    requires Run(ws, es) && i <= j <= |es|
    ensures Extends(ws[i].hist, ws[j].hist)
    decreases j
  {
    if i < j {
      HistoryGrows(ws, es, i, j - 1);
      RunInv(ws, es, j - 1);
      HistoryStep(ws[j - 1], es[j - 1]);
    }
  }

  lemma {:induction false} CookiesStayDistinct(ws: seq<World>, es: seq<Event>, i: nat)
    requires Run(ws, es) && i <= |es|
    ensures DistinctCookies(ws[i].hist.ever)
  {
    if i > 0 {
      CookiesStayDistinct(ws, es, i - 1);
      RunInv(ws, es, i - 1);
      HistoryStep(ws[i - 1], es[i - 1]);
    }
  }

  // ---- revocation is permanent ------------------------------------------------

  /** `destroySession` or `invalidateUserSessions` was called on this live session at this step. */
  predicate RevokesAt(w: World, e: Event, t: Text) {
    match e
    case Serve(op) => ServeEnabled(w, op) && t in RevokedBy(w.proc.value, op)
    case CrashInServe(op, _, _) => ServeEnabled(w, op) && t in RevokedBy(w.proc.value, op)
    case _ => false
  }

  /**
   Once a live session is revoked its cookie never resolves again, whatever crashes,
   restarts, failed journal writes and lost or restored rows follow. The one exception
   the code leaves is the millisecond of the session's own expiry, and only after a startup
   whose two clock readings lay on both sides of it.
   */
  lemma RevocationIsPermanent(ws: seq<World>, es: seq<Event>, i: nat, j: nat, t: Text)
    requires Run(ws, es) && i < j <= |es|
    requires RevokesAt(ws[i], es[i], t) && t.Lookup?
    ensures Resolved(ws[j], Hex64(t.cookie)) == None
         || (t in ws[j].hist.straddled && t in ws[j].hist.ever && ws[j].clock == ws[j].hist.ever[t].expiresAt)
  {
    assert t in ws[i + 1].hist.revoked;
    HistoryGrows(ws, es, i + 1, j);
    RunInv(ws, es, j);
    CookiesStayDistinct(ws, es, j);
    var w := ws[j];
    if Resolved(w, Hex64(t.cookie)).Some? {
      var id := LookupId(w.proc.value.recovery, Hex64(t.cookie)).value;
      assert id in w.hist.ever && t in w.hist.ever;
      assert id == t;
    }
  }

  /** If no startup straddled this session's own expiry there is no exception at all. */
  lemma RevocationIsAbsolute(ws: seq<World>, es: seq<Event>, i: nat, j: nat, t: Text)
    requires Run(ws, es) && i < j <= |es|
    requires RevokesAt(ws[i], es[i], t) && t.Lookup?
    requires t !in ws[j].hist.straddled
    ensures Resolved(ws[j], Hex64(t.cookie)) == None
  {
    RevocationIsPermanent(ws, es, i, j, t);
  }

  /**
   The exact condition: a startup that trusts its checkpoint hydrates a journaled row if and
   only if it was unexpired when the rows were loaded and expired when the journal was filtered.
   */
  lemma HydratesJournaledIff(d: Disk, io: StartIo, t: Text, s: Snapshot)
    requires io.readable && Read(d.visible, io.lim) == Some(s) && Trusted(Some(s), Loaded(d, io))
    requires io.pruneAt <= io.loadAt <= io.filterAt
    requires t in d.rows && Entry(t, d.rows[t].expiresAt) in s.revocations
    ensures t in Hydrated(d, io) <==> io.loadAt < d.rows[t].expiresAt <= io.filterAt
  {
    ContentWellFormed(d.visible);
    LiveIdIff(s.revocations, io.filterAt, Entry(t, d.rows[t].expiresAt));
  }

  lemma LiveIdIff(es: seq<Entry>, now: int, x: Entry)
    requires WellFormedEntries(es) && x in es
    ensures x.id in Ids(LiveEntries(es, now)) <==> x.expiresAt > now
  {
    LiveEntriesExact(es, now);
    var live := LiveEntries(es, now);
    forall y | y in live && y.id == x.id ensures y == x { UniqueEntry(es, x, y); }
    if x in live { IdsContain(live, x); }
  }

  lemma UniqueEntry(es: seq<Entry>, x: Entry, y: Entry)
    requires UniqueIds(es) && x in es && y in es && x.id == y.id
    ensures x == y
  {
  }

  /** And the revoked cookie is then believed exactly if a request arrives at that instant. */
  lemma StraddledCookieResolvesIff(w: World, io: StartIo, t: Text, s: Snapshot)
    requires StartEnabled(w, io) && StartOk(w.disk, io)
    requires io.readable && Read(w.disk.visible, io.lim) == Some(s) && Trusted(Some(s), Loaded(w.disk, io))
    requires t in w.disk.rows && Entry(t, w.disk.rows[t].expiresAt) in s.revocations
    requires t.Lookup? && t.key == s.key && w.disk.rows[t].userId in w.disk.users
    ensures Resolved(Step(w, Startup(io)), Hex64(t.cookie)) == Some(w.disk.rows[t].userId)
       <==> io.loadAt < w.disk.rows[t].expiresAt == io.filterAt
  {
    HydratesJournaledIff(w.disk, io, t, s);
  }

  // ---- the fence --------------------------------------------------------------

  /** Whenever lookup can answer, no checkpoint a restart could find is clean. */
  lemma LookupOnlyBehindTheFence(ws: seq<World>, es: seq<Event>, i: nat, raw: Text)
    requires Run(ws, es) && i <= |es|
    requires ws[i].proc.Some? && LookupId(ws[i].proc.value.recovery, raw).Some?
    ensures !CleanFile(ws[i].disk.visible) && !CleanFile(ws[i].disk.durable)
  {
    RunInv(ws, es, i);
  }

  /** A closing process leaves a clean checkpoint exactly when it may and its write took effect. */
  lemma ShutdownCertifiesIff(ws: seq<World>, es: seq<Event>, i: nat, clean: bool, write: WriteOutcome)
    requires Run(ws, es) && i < |es| && es[i] == Serve(Shutdown(clean, write))
    ensures var p, d := ws[i].proc.value, ws[i + 1].disk;
      var may := clean && p.auth.closing && !p.auth.unaccounted && !p.recovery.uncertain;
      && (CleanFile(d.visible) <==> may && !write.Failed?)
      && (CleanFile(d.durable) <==> may && write.Synced?)
  {
    RunInv(ws, es, i);
    var p := ws[i].proc.value;
    ContentOfWritten(p.recovery.snapshot.(clean := true));
    CleanIsShorter(p.recovery.snapshot);
  }

  /** The certifying write of a serving process can never be refused for its size. */
  lemma CertificateAlwaysFits(ws: seq<World>, es: seq<Event>, i: nat)
    requires Run(ws, es) && i <= |es| && Serving(ws[i])
    ensures var r := ws[i].proc.value.recovery;
      WriteOk(r.snapshot.(clean := true), r.lim, Synced) && WellFormed(r.snapshot.(clean := true), r.lim)
  {
    RunInv(ws, es, i);
    CleanIsShorter(ws[i].proc.value.recovery.snapshot);
  }

  /** A process that dies without certifying leaves nothing a restart would trust. */
  lemma CrashLeavesTheFence(ws: seq<World>, es: seq<Event>, i: nat)
    requires Run(ws, es) && i < |es| && Serving(ws[i]) && es[i].Crash?
    ensures !CleanFile(ws[i + 1].disk.visible) && !CleanFile(ws[i + 1].disk.durable)
  {
    RunInv(ws, es, i);
  }

  /**
   An untrusted start hydrates nothing, and under its rotated key no cookie in the world
   matches an identity that was ever stored.
   */
  lemma UntrustedStartForgetsAll(ws: seq<World>, es: seq<Event>, i: nat, io: StartIo, cookie: nat)
    requires Run(ws, es) && i < |es| && es[i] == Startup(io) && StartOk(ws[i].disk, io)
    requires !io.readable || !CleanFile(ws[i].disk.visible)
    ensures ws[i + 1].proc.Some? && ws[i + 1].proc.value.auth.sessions == map[]
    ensures Lookup(ws[i + 1].proc.value.recovery.snapshot.key, cookie) !in ws[i + 1].hist.ever
  {
    RunInv(ws, es, i);
  }

  // ---- the checkpoint format --------------------------------------------------

  /**
   A completed startup or a recorded revocation leaves on disk exactly the snapshot in memory,
   and `read` gives it back.
   */
  lemma CheckpointReadsBack(d: Disk, r: Recovery, added: seq<Entry>, now: nat, o: WriteOutcome)
    requires WellFormed(r.snapshot, r.lim) && Revoke(d, r, added, now, o).ok
    ensures var out := Revoke(d, r, added, now, o);
      && Read(out.disk.visible, r.lim) == Some(out.recovery.snapshot)
      && Read(out.disk.durable, r.lim) == Some(out.recovery.snapshot)
      && (forall e | e in added && e.expiresAt > now && (forall a | a in added && a.id == e.id :: a == e) ::
            e in out.recovery.snapshot.revocations)
  {
    var s := NextSnapshot(r, added, now).value;
    NextSnapshotWellFormed(r, added, now);
    WrittenReadsBack(d, s, r.lim, o);
    LiveEntriesExact(r.snapshot.revocations, now);
    forall e | e in added && e.expiresAt > now && (forall a | a in added && a.id == e.id :: a == e)
      ensures e in s.revocations
    {
      MergeKeeps(LiveEntries(r.snapshot.revocations, now), added, now, e);
    }
  }

  // ---- credential proofs ------------------------------------------------------

  /** This login or proof for the user, if it still exists, is from before the current epoch. */
  ghost predicate Retired(a: AuthState, handle: nat, userId: nat) {
    && handle < a.nextHandle
    && (handle in a.tickets ==> a.tickets[handle].userId == userId && a.tickets[handle].epoch < EpochOf(a, userId))
    && (handle in a.proofs ==> a.proofs[handle].userId == userId && a.proofs[handle].epoch < EpochOf(a, userId))
  }

  /** How credentials may move in one operation: no old handle gains a proof it did not have. */
  ghost predicate CredentialStep(a: AuthState, a': AuthState) {
    && a.nextHandle <= a'.nextHandle
    && (forall u: nat :: EpochOf(a, u) <= EpochOf(a', u))
    && (forall x | x in a'.tickets && x < a.nextHandle :: x in a.tickets && a'.tickets[x] == a.tickets[x])
    && (forall x | x in a'.proofs && x < a.nextHandle ::
          || (x in a.proofs && a'.proofs[x] == a.proofs[x])
          || (x in a.tickets && a'.proofs[x] == a.tickets[x]))
  }

  lemma RevocationCredentials(d: Disk, p: Proc, op: AuthOp, now: nat)
    requires Possible(p, op) && (op.Destroy? || op.Invalidate? || op.Mint?)
    ensures CredentialStep(p.auth, Perform(d, p, op, now).proc.auth)
  {
    hide Revoke, WithoutId, WithoutUser, EntriesOf, Enumerates, LookupId;
  }

  lemma OtherCredentials(d: Disk, p: Proc, op: AuthOp, now: nat)
    requires Possible(p, op) && !op.Destroy? && !op.Invalidate? && !op.Mint?
    ensures CredentialStep(p.auth, Perform(d, p, op, now).proc.auth)
  {
  }

  lemma RetiredStep(a: AuthState, a': AuthState, handle: nat, userId: nat)
    requires CredentialStep(a, a') && Retired(a, handle, userId)
    ensures Retired(a', handle, userId)
  {
  }

  lemma RetiredStays(w: World, e: Event, handle: nat, userId: nat)
    requires Enabled(w, e) && Serving(w) && Retired(w.proc.value.auth, handle, userId)
    requires Serving(Step(w, e))
    ensures Retired(Step(w, e).proc.value.auth, handle, userId)
  {
    if e.Serve? {
      if e.op.Destroy? || e.op.Invalidate? || e.op.Mint? {
        RevocationCredentials(w.disk, w.proc.value, e.op, w.clock);
      } else {
        OtherCredentials(w.disk, w.proc.value, e.op, w.clock);
      }
      RetiredStep(w.proc.value.auth, Step(w, e).proc.value.auth, handle, userId);
    }
  }

  /** What one step keeps of the current process: its count, its handles spent, its being the one. */
  ghost predicate BootOrder(w: World, w': World) {
    && w.hist.boots <= w'.hist.boots
    && (w.hist.boots == w'.hist.boots ==> w.hist.spent <= w'.hist.spent && (Serving(w') ==> Serving(w)))
  }

  lemma BootStep(w: World, e: Event)
    requires Enabled(w, e)
    ensures BootOrder(w, Step(w, e))
  {
  }

  lemma {:induction false} BootChain(ws: seq<World>, i: nat, j: nat)
    requires i <= j < |ws| && forall k | i <= k < j :: BootOrder(ws[k], ws[k + 1])
    ensures BootOrder(ws[i], ws[j])
    decreases j
  {
    if i < j {
      BootChain(ws, i, j - 1);
      assert BootOrder(ws[j - 1], ws[j - 1 + 1]);
    }
  }

  lemma BootsGrow(ws: seq<World>, es: seq<Event>, i: nat, j: nat)
    requires Run(ws, es) && i <= j <= |es|
    ensures BootOrder(ws[i], ws[j])
  {
    forall k | i <= k < j ensures BootOrder(ws[k], ws[k + 1]) {
      BootStep(ws[k], es[k]);
    }
    BootChain(ws, i, j);
  }

  lemma {:induction false} RetiredForever(ws: seq<World>, es: seq<Event>, i: nat, j: nat, handle: nat, userId: nat)
    requires Run(ws, es) && i <= j <= |es|
    requires Serving(ws[i]) && Retired(ws[i].proc.value.auth, handle, userId)
    requires Serving(ws[j]) && ws[j].hist.boots == ws[i].hist.boots
    ensures Retired(ws[j].proc.value.auth, handle, userId)
    decreases j
  {
    hide Step, Enabled, Serving, Retired, Init;
    if i < j {
      BootsGrow(ws, es, i, j - 1);
      BootsGrow(ws, es, j - 1, j);
      RetiredForever(ws, es, i, j - 1, handle, userId);
      RetiredStays(ws[j - 1], es[j - 1], handle, userId);
    }
  }

  /**
   A login that read its row, or a proof taken, before `invalidateUserSessions(u)` never
   mints a session afterwards, whatever is interleaved.
   */
  lemma InvalidatedProofNeverMints(ws: seq<World>, es: seq<Event>, i: nat, j: nat, handle: nat, userId: nat)
    requires Run(ws, es) && i < j <= |es|
    requires es[i].Serve? && es[i].op.Invalidate? && es[i].op.userId == userId
    requires var a := ws[i].proc.value.auth;
      || (handle in a.tickets && a.tickets[handle].userId == userId)
      || (handle in a.proofs && a.proofs[handle].userId == userId)
    requires Serving(ws[j]) && ws[j].hist.boots == ws[i].hist.boots
    ensures !MayMint(ws[j].disk, ws[j].proc.value, handle)
  {
    RunInv(ws, es, i);
    BootStep(ws[i], es[i]);
    BootsGrow(ws, es, i + 1, j);
    assert Retired(ws[i + 1].proc.value.auth, handle, userId);
    RetiredForever(ws, es, i + 1, j, handle, userId);
  }

  /** Each proof mints at most one session. */
  lemma ProofMintsOnce(ws: seq<World>, es: seq<Event>, i: nat, j: nat)
    requires Run(ws, es) && i < j < |es|
    requires es[i].Serve? && es[i].op.Mint? && es[j].Serve? && es[j].op.Mint?
    requires es[i].op.handle == es[j].op.handle && ws[i].hist.boots == ws[j].hist.boots
    requires Perform(ws[i].disk, ws[i].proc.value, es[i].op, ws[i].clock).answer.Cookie?
    ensures !Perform(ws[j].disk, ws[j].proc.value, es[j].op, ws[j].clock).answer.Cookie?
  {
    var handle := es[i].op.handle;
    BootStep(ws[i], es[i]);
    assert handle in ws[i + 1].hist.spent;
    BootsGrow(ws, es, i + 1, j);
    RunInv(ws, es, j);
  }

  /** Every session this process minted still carries its user's current epoch. */
  lemma HotSessionsAreCurrent(ws: seq<World>, es: seq<Event>, i: nat, t: Text)
    requires Run(ws, es) && i <= |es| && Serving(ws[i])
    requires t in ws[i].proc.value.auth.sessions && t in ws[i].hist.mintEpoch
    ensures ws[i].hist.mintEpoch[t]
         == EpochOf(ws[i].proc.value.auth, ws[i].proc.value.auth.sessions[t].userId)
  {
    RunInv(ws, es, i);
  }
}
