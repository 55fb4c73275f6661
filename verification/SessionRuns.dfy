/**
 Whole runs: processes start, serve, crash anywhere and start again over one disk,
 while the row store is free to lose, restore or drop any row it ever held.
 */
module SessionRuns {
  import opened Wrappers
  import opened SessionModel
  import opened JournalFormat

  /**
   What a run remembers beyond the two stores: every row ever stored, every identity
   revoked while live, the keys and cookies drawn so far, the epoch each session was minted
   under, the handles that minted, how many processes started, and which journaled rows some
   startup met expiring between its two clock readings.
   */
  datatype History = History(
    ever: Rows,
    revoked: set<Text>,
    keys: set<nat>,
    cookies: set<nat>,
    mintEpoch: map<Text, nat>,
    spent: set<nat>,
    boots: nat,
    straddled: set<Text>)

  datatype World = World(disk: Disk, proc: Option<Proc>, clock: nat, hist: History)

  datatype Event =
    | Tick(now: nat)
    | Tamper(rows: Rows)
    | Damage(visible: bool, durable: bool)
    | EditUsers(users: map<nat, string>)
    | Crash(lost: bool)
    | Startup(io: StartIo)
    | Serve(op: AuthOp)
    | CrashInStartup(io: StartIo, cut: nat, lost: bool)
    | CrashInServe(op: AuthOp, cut: nat, lost: bool)

  predicate Serving(w: World) {
    w.proc.Some? && !w.proc.value.recovery.closed
  }

  // ---- the transition system --------------------------------------------------

  predicate SubRows(rows: Rows, ever: Rows) {
    forall t | t in rows :: t in ever && rows[t] == ever[t]
  }

  predicate StartEnabled(w: World, io: StartIo) {
    && !Serving(w)
    && w.clock <= io.pruneAt <= io.loadAt <= io.filterAt
    && io.freshKey !in w.hist.keys
  }

  predicate ServeEnabled(w: World, op: AuthOp) {
    && Serving(w)
    && Possible(w.proc.value, op)
    && (op.Mint? ==> op.token !in w.hist.cookies)
  }

  predicate Enabled(w: World, e: Event) {
    match e
    case Tick(now) => w.clock <= now
    case Tamper(rows) => SubRows(rows, w.hist.ever)
    case Damage(_, _) => true
    case EditUsers(_) => true
    case Crash(_) => true
    case Startup(io) => StartEnabled(w, io)
    case Serve(op) => ServeEnabled(w, op)
    case CrashInStartup(io, cut, _) => StartEnabled(w, io) && cut < |StartCuts(w.disk, io)|
    case CrashInServe(op, cut, _) =>
      ServeEnabled(w, op) && cut < |Perform(w.disk, w.proc.value, op, w.clock).cuts|
  }

  /** The identities an operation revokes: those live in the hot map when it is called. */
  function RevokedBy(p: Proc, op: AuthOp): set<Text> {
    match op
    case Destroy(raw, _, _) =>
      var id := LookupId(p.recovery, raw);
      if id.Some? && id.value in p.auth.sessions then {id.value} else {}
    case Invalidate(u, _, _, _) => OfUser(p.auth.sessions, u).Keys
    case _ => {}
  }

  function HistoryAfter(h: History, d: Disk, p: Proc, op: AuthOp, now: nat): History
    requires Possible(p, op)
  {
    var h' := h.(revoked := h.revoked + RevokedBy(p, op));
    if op.Mint? && MayMint(d, p, op.handle) && op.hashReadable then
      var id := Lookup(p.recovery.snapshot.key, op.token);
      var user := p.auth.proofs[op.handle].userId;
      var stored := if op.row.RowRejected? then h'.ever
                    else h'.ever[id := Session(user, now + SESSION_TTL_MS)];
      h'.(ever := stored, cookies := h'.cookies + {op.token},
          mintEpoch := h'.mintEpoch[id := EpochOf(p.auth, user)],
          spent := if op.row.RowStored? then h'.spent + {op.handle} else h'.spent)
    else h'
  }

  /** The rows this startup loads before their journal entries expire and filters after. */
  function Straddled(d: Disk, io: StartIo): set<Text> {
    if Trusted(ReadAtStart(d, io), Loaded(d, io)) then
      set t | t in Loaded(d, io) && t in Ids(ReadAtStart(d, io).value.revocations) && Loaded(d, io)[t].expiresAt <= io.filterAt
    else {}
  }

  function HistoryAfterStart(w: World, io: StartIo): History {
    var h := w.hist.(keys := w.hist.keys + {io.freshKey});
    if StartOk(w.disk, io)
    then h.(mintEpoch := map[], spent := {}, boots := h.boots + 1,
            straddled := h.straddled + Straddled(w.disk, io))
    else h
  }

  function Step(w: World, e: Event): World
    requires Enabled(w, e)
  {
    match e
    case Tick(now) => w.(clock := now)
    case Tamper(rows) => w.(disk := w.disk.(rows := rows))
    case Damage(v, u) =>
      w.(disk := w.disk.(visible := if v then Garbled else w.disk.visible,
                         durable := if u then Garbled else w.disk.durable))
    case EditUsers(users) => w.(disk := w.disk.(users := users))
    case Crash(lost) => w.(disk := AfterCrash(w.disk, lost), proc := None)
    case Startup(io) =>
      World(AfterStart(w.disk, io),
            if StartOk(w.disk, io) then Some(Started(w.disk, io)) else None,
            io.filterAt, HistoryAfterStart(w, io))
    case Serve(op) =>
      var out := Perform(w.disk, w.proc.value, op, w.clock);
      World(out.disk, Some(out.proc), w.clock,
            HistoryAfter(w.hist, w.disk, w.proc.value, op, w.clock))
    case CrashInStartup(io, cut, lost) =>
      World(AfterCrash(StartCuts(w.disk, io)[cut], lost), None, io.filterAt,
            w.hist.(keys := w.hist.keys + {io.freshKey}))
    case CrashInServe(op, cut, lost) =>
      World(AfterCrash(Perform(w.disk, w.proc.value, op, w.clock).cuts[cut], lost), None, w.clock,
            HistoryAfter(w.hist, w.disk, w.proc.value, op, w.clock))
  }

  ghost predicate KnownKey(f: File, h: History) {
    Content(f).Some? ==> Content(f).value.key in h.keys
  }

  /** Cookies are random draws: two identities never come from one cookie. */
  ghost predicate DistinctCookies(rows: Rows) {
    forall t, u | t in rows && u in rows && t.Lookup? && u.Lookup? && t.cookie == u.cookie :: t == u
  }

  /** Any disk at all: an old installation, a restored backup, or nothing. No process yet. */
  ghost predicate Init(w: World) {
    && w.proc.None?
    && w.hist.ever == w.disk.rows
    && w.hist.revoked == {} && w.hist.mintEpoch == map[] && w.hist.spent == {}
    && w.hist.boots == 0 && w.hist.straddled == {}
    && KnownKey(w.disk.visible, w.hist) && KnownKey(w.disk.durable, w.hist)
    && (forall t | t in w.disk.rows && t.Lookup? :: t.key in w.hist.keys && t.cookie in w.hist.cookies)
    && DistinctCookies(w.disk.rows)
  }

  ghost predicate Run(ws: seq<World>, es: seq<Event>) {
    && |ws| == |es| + 1
    && Init(ws[0])
    && forall i | 0 <= i < |es| :: Enabled(ws[i], es[i]) && ws[i + 1] == Step(ws[i], es[i])
  }

  // ---- what every run keeps ---------------------------------------------------

  /**
   The journal accounts for every revocation under its own key: the identity is listed
   with the expiry its row had, or that expiry has passed.
   */
  ghost predicate Covers(s: Snapshot, h: History, clock: int) {
    forall t | t in h.revoked && t.Lookup? && t.key == s.key ::
      t in h.ever && (h.ever[t].expiresAt <= clock || Entry(t, h.ever[t].expiresAt) in s.revocations)
  }

  ghost predicate TrustworthyIfClean(f: File, h: History, clock: int) {
    CleanFile(f) ==> Covers(Content(f).value, h, clock)
  }

  ghost predicate DiskInv(d: Disk, h: History, clock: int) {
    && SubRows(d.rows, h.ever)
    && KnownKey(d.visible, h) && KnownKey(d.durable, h)
    && TrustworthyIfClean(d.visible, h, clock) && TrustworthyIfClean(d.durable, h, clock)
  }

  ghost predicate HistoryInv(h: History) {
    && (forall t | t in h.ever && t.Lookup? :: t.key in h.keys && t.cookie in h.cookies)
    && (forall t | t in h.revoked :: t in h.ever)
  }

  /** While lookup can answer, no file a restart could find is clean. */
  ghost predicate Fenced(d: Disk) {
    !CleanFile(d.visible) && !CleanFile(d.durable)
  }

  /** A revoked identity of the current key is out of the hot map, or past its expiry. */
  ghost predicate HotDenied(p: Proc, h: History, clock: int) {
    forall t | t in h.revoked && t.Lookup? && t.key == p.recovery.snapshot.key && t in p.auth.sessions ::
      t in h.straddled && t in h.ever && h.ever[t].expiresAt <= clock
  }

  ghost predicate JournalSound(s: Snapshot, lim: Limits) {
    !s.clean && WellFormed(s, lim) && SnapshotBytes(s) <= lim.maxBytes
  }

  ghost predicate CredentialInv(a: AuthState, h: History) {
    && (forall x | x in a.tickets :: a.tickets[x].epoch <= EpochOf(a, a.tickets[x].userId) && x < a.nextHandle)
    && (forall x | x in a.proofs :: a.proofs[x].epoch <= EpochOf(a, a.proofs[x].userId) && x < a.nextHandle)
    && (forall x | x in h.spent :: x !in a.tickets && x !in a.proofs && x < a.nextHandle)
    && (forall x | x in a.tickets :: x !in a.proofs)
    && (forall t | t in a.sessions && t in h.mintEpoch :: h.mintEpoch[t] == EpochOf(a, a.sessions[t].userId))
  }

  ghost predicate ProcInv(p: Proc, d: Disk, h: History, clock: int) {
    && Fenced(d)
    && p.recovery.snapshot.key in h.keys
    && JournalSound(p.recovery.snapshot, p.recovery.lim)
    && ValidLimits(p.recovery.lim)
    && SubRows(p.auth.sessions, h.ever)
    && (forall t | t in p.auth.sessions :: t.Lookup?)
    && (!p.recovery.uncertain && !p.auth.unaccounted ==> Covers(p.recovery.snapshot, h, clock))
    && HotDenied(p, h, clock)
    && CredentialInv(p.auth, h)
  }

  /** A closed process believes no cookie; an open one keeps ProcInv. */
  ghost predicate ProcSound(p: Proc, d: Disk, h: History, clock: int) {
    if p.recovery.closed then p.auth.sessions == map[] else ProcInv(p, d, h, clock)
  }

  ghost predicate Inv(w: World) {
    && HistoryInv(w.hist)
    && DiskInv(w.disk, w.hist, w.clock)
    && (w.proc.Some? ==> ProcSound(w.proc.value, w.disk, w.hist, w.clock))
  }

  // ---- the invariant is inductive ---------------------------------------------

  lemma CrashKeepsDisk(d: Disk, h: History, clock: int, lost: bool)
    requires DiskInv(d, h, clock)
    ensures DiskInv(AfterCrash(d, lost), h, clock)
  {
  }

  /** Writing a well-formed snapshot keeps the disk sound if that snapshot may be trusted. */
  lemma WriteKeepsDisk(d: Disk, s: Snapshot, lim: Limits, o: WriteOutcome, h: History, clock: int)
    requires DiskInv(d, h, clock)
    requires WellFormed(s, lim) && s.key in h.keys
    requires s.clean ==> Covers(s, h, clock)
    ensures DiskInv(WriteFile(d, s, lim, o), h, clock)
    ensures Fenced(d) && !s.clean ==> Fenced(WriteFile(d, s, lim, o))
    ensures WriteOk(s, lim, o) && !s.clean ==> Fenced(WriteFile(d, s, lim, o))
  {
    ContentOfWritten(s);
  }

  /** The journal of a revocation: what it covered stays covered, and so is what was added. */
  lemma RevokeCovers(r: Recovery, added: seq<Entry>, h: History, h': History, now: nat)
    requires JournalSound(r.snapshot, r.lim) && Covers(r.snapshot, h, now)
    requires NextSnapshot(r, added, now).Some?
    requires h' == h.(revoked := h.revoked + set i | 0 <= i < |added| :: added[i].id)
    requires forall e | e in added :: e.id in h.ever && e.expiresAt == h.ever[e.id].expiresAt
    ensures Covers(NextSnapshot(r, added, now).value, h', now)
  {
    var next := NextSnapshot(r, added, now).value;
    var live := LiveEntries(r.snapshot.revocations, now);
    LiveEntriesExact(r.snapshot.revocations, now);
    forall t | t in h'.revoked && t.Lookup? && t.key == next.key
      ensures t in h.ever && (h.ever[t].expiresAt <= now || Entry(t, h.ever[t].expiresAt) in next.revocations)
    {
      if t !in h.revoked {
        var i :| 0 <= i < |added| && added[i].id == t;
        assert added[i] in added;
      }
      var x := Entry(t, h.ever[t].expiresAt);
      if x.expiresAt > now {
        MergeKeeps(live, added, now, x);
      }
    }
  }

  lemma RevokeKeeps(d: Disk, p: Proc, added: seq<Entry>, h: History, h': History, now: nat, o: WriteOutcome)
    requires HistoryInv(h) && DiskInv(d, h, now) && ProcInv(p, d, h, now) && !p.recovery.closed
    requires h' == h.(revoked := h.revoked + set i | 0 <= i < |added| :: added[i].id)
    requires forall e | e in added :: e.id in h.ever && e.expiresAt == h.ever[e.id].expiresAt
    ensures var r := Revoke(d, p.recovery, added, now, o);
      && DiskInv(r.disk, h', now) && Fenced(r.disk)
      && JournalSound(r.recovery.snapshot, r.recovery.lim)
      && r.recovery.snapshot.key == p.recovery.snapshot.key && r.recovery.lim == p.recovery.lim
      && !r.recovery.closed && r.disk.users == d.users && r.disk.rows == d.rows
      && (r.ok && !r.recovery.uncertain && !p.auth.unaccounted ==> Covers(r.recovery.snapshot, h', now))
  {
    if NextSnapshot(p.recovery, added, now).Some? {
      var s := NextSnapshot(p.recovery, added, now).value;
      NextSnapshotWellFormed(p.recovery, added, now);
      FencedStaysSound(d, h, h', now);
      WriteKeepsDisk(d, s, p.recovery.lim, o, h', now);
      if !p.recovery.uncertain && !p.auth.unaccounted {
        RevokeCovers(p.recovery, added, h, h', now);
      }
    } else {
      FencedStaysSound(d, h, h', now);
    }
  }

  /** Behind the fence the disk stays sound whatever is revoked. */
  lemma FencedStaysSound(d: Disk, h: History, h': History, clock: int)
    requires DiskInv(d, h, clock) && Fenced(d)
    requires SubRows(h.ever, h'.ever) && h.keys <= h'.keys
    ensures DiskInv(d, h', clock)
  {
  }

  /** What an operation on an open process must leave, at its end and at every cut. */
  ghost predicate OutcomeInv(out: Outcome, h: History, clock: nat) {
    && DiskInv(out.disk, h, clock)
    && (forall k | 0 <= k < |out.cuts| :: DiskInv(out.cuts[k], h, clock))
    && ProcSound(out.proc, out.disk, h, clock)
  }

  /** Sessions go, epochs of users left without sessions rise, credentials stay. */
  ghost predicate Shrinks(a: AuthState, a': AuthState, gone: set<Text>) {
    && a'.tickets == a.tickets && a'.proofs == a.proofs && a'.nextHandle == a.nextHandle
    && gone <= a.sessions.Keys && a'.sessions.Keys !! gone
    && SubRows(a'.sessions, a.sessions)
    && (forall u: nat :: EpochOf(a, u) <= EpochOf(a', u))
    && forall t | t in a'.sessions :: EpochOf(a', a'.sessions[t].userId) == EpochOf(a, a'.sessions[t].userId)
  }

  lemma FewerSessions(a: AuthState, a': AuthState, gone: set<Text>, h: History, h': History)
    requires CredentialInv(a, h) && Shrinks(a, a', gone)
    requires h'.spent == h.spent && h'.mintEpoch == h.mintEpoch
    ensures CredentialInv(a', h')
  {
  }

  lemma RowsDropped(d: Disk, rows: Rows, h: History, clock: int)
    requires DiskInv(d, h, clock) && SubRows(rows, d.rows)
    ensures DiskInv(d.(rows := rows), h, clock)
  {
  }

  /** What a revocation leaves in the process: its identities hot-denied, its journal accounted for. */
  lemma RevokedProcess(d: Disk, p: Proc, h: History, now: nat, gone: set<Text>, added: seq<Entry>,
                       o: WriteOutcome, a': AuthState)
    requires HistoryInv(h) && DiskInv(d, h, now) && ProcInv(p, d, h, now) && !p.recovery.closed
    requires gone == set i | 0 <= i < |added| :: added[i].id
    requires forall e | e in added :: e.id in h.ever && e.expiresAt == h.ever[e.id].expiresAt
    requires Shrinks(p.auth, a', gone)
    requires a'.unaccounted == (p.auth.unaccounted || !Revoke(d, p.recovery, added, now, o).ok)
    ensures var r, h' := Revoke(d, p.recovery, added, now, o), h.(revoked := h.revoked + gone);
      HistoryInv(h') && DiskInv(r.disk, h', now) && ProcInv(Proc(r.recovery, a'), r.disk, h', now)
  {
    var h' := h.(revoked := h.revoked + gone);
    RevokeKeeps(d, p, added, h, h', now, o);
    FewerSessions(p.auth, a', gone, h, h');
  }

  /** Pruning or deleting rows touches no file and no process state. */
  lemma OutcomeOf(d: Disk, rows: Rows, p: Proc, answer: Answer, h: History, now: nat)
    requires DiskInv(d, h, now) && ProcInv(p, d, h, now) && !p.recovery.closed
    requires SubRows(rows, d.rows)
    ensures var d' := d.(rows := rows); OutcomeInv(Outcome(d', p, answer, [d, d']), h, now)
    ensures OutcomeInv(Outcome(d, p, answer, [d, d]), h, now)
  {
    RowsDropped(d, rows, h, now);
  }

  lemma DestroyShrinks(d: Disk, p: Proc, raw: Text, write: WriteOutcome, rowDeleted: bool, now: nat)
    ensures var op := Destroy(raw, write, rowDeleted);
      Shrinks(p.auth, DestroySpec(d, p, raw, write, rowDeleted, now).proc.auth, RevokedBy(p, op))
  {
  }

  lemma InvalidateShrinks(d: Disk, p: Proc, userId: nat, affected: seq<Text>, write: WriteOutcome,
                          rowsDeleted: bool, now: nat)
    requires Enumerates(affected, OfUser(p.auth.sessions, userId))
    ensures Shrinks(p.auth, InvalidateSpec(d, p, userId, affected, write, rowsDeleted, now).proc.auth,
                    OfUser(p.auth.sessions, userId).Keys)
  {
  }

  lemma DestroyKeeps(d: Disk, p: Proc, h: History, now: nat, raw: Text, write: WriteOutcome, rowDeleted: bool)
    requires HistoryInv(h) && DiskInv(d, h, now) && ProcInv(p, d, h, now) && !p.recovery.closed
    ensures var h' := h.(revoked := h.revoked + RevokedBy(p, Destroy(raw, write, rowDeleted)));
      HistoryInv(h') && OutcomeInv(DestroySpec(d, p, raw, write, rowDeleted, now), h', now)
  {
    var gone := RevokedBy(p, Destroy(raw, write, rowDeleted));
    if gone == {} {
      assert h.(revoked := h.revoked + gone) == h;
    } else {
      var t := LookupId(p.recovery, raw).value;
      DestroyKnownKeeps(d, p, h, now, t, raw, write, rowDeleted);
    }
  }

  lemma EntryOfSession(a: AuthState, t: Text, ever: Rows)
    requires t in a.sessions && SubRows(a.sessions, ever)
    ensures var added := [Entry(t, a.sessions[t].expiresAt)];
      && {t} == (set i | 0 <= i < |added| :: added[i].id)
      && forall e | e in added :: e.id in ever && e.expiresAt == ever[e.id].expiresAt
  {
    var added := [Entry(t, a.sessions[t].expiresAt)];
    assert added[0].id == t;
  }

  lemma DestroyKnownKeeps(d: Disk, p: Proc, h: History, now: nat, t: Text, raw: Text, write: WriteOutcome,
                          rowDeleted: bool)
    requires HistoryInv(h) && DiskInv(d, h, now) && ProcInv(p, d, h, now) && !p.recovery.closed
    requires LookupId(p.recovery, raw) == Some(t) && t in p.auth.sessions
    ensures var h' := h.(revoked := h.revoked + {t});
      HistoryInv(h') && OutcomeInv(DestroySpec(d, p, raw, write, rowDeleted, now), h', now)
  {
    hide Covers, HotDenied, CredentialInv, TrustworthyIfClean, KnownKey, WellFormed;
    var out := DestroySpec(d, p, raw, write, rowDeleted, now);
    var added := [Entry(t, p.auth.sessions[t].expiresAt)];
    EntryOfSession(p.auth, t, h.ever);
    DestroyShrinks(d, p, raw, write, rowDeleted, now);
    RevokedProcess(d, p, h, now, {t}, added, write, out.proc.auth);
    var r := Revoke(d, p.recovery, added, now, write);
    OutcomeOf(r.disk, WithoutId(r.disk.rows, t), out.proc, out.answer, h.(revoked := h.revoked + {t}), now);
  }

  /** The entries journaled for a user are exactly his live sessions, each with its own expiry. */
  lemma EntriesOfUser(a: AuthState, userId: nat, affected: seq<Text>, ever: Rows)
    requires Enumerates(affected, OfUser(a.sessions, userId)) && SubRows(a.sessions, ever)
    ensures var added := EntriesOf(a.sessions, affected);
      && OfUser(a.sessions, userId).Keys == (set i | 0 <= i < |added| :: added[i].id)
      && forall e | e in added :: e.id in ever && e.expiresAt == ever[e.id].expiresAt
  {
    var added := EntriesOf(a.sessions, affected);
    forall t | t in OfUser(a.sessions, userId) ensures t in (set i | 0 <= i < |added| :: added[i].id) {
      var k :| 0 <= k < |affected| && affected[k] == t;
      assert added[k].id == t;
    }
  }

  lemma InvalidateKeeps(d: Disk, p: Proc, h: History, now: nat, userId: nat, affected: seq<Text>,
                        write: WriteOutcome, rowsDeleted: bool)
    requires HistoryInv(h) && DiskInv(d, h, now) && ProcInv(p, d, h, now) && !p.recovery.closed
    requires Enumerates(affected, OfUser(p.auth.sessions, userId))
    ensures var h' := h.(revoked := h.revoked + OfUser(p.auth.sessions, userId).Keys);
      HistoryInv(h') && OutcomeInv(InvalidateSpec(d, p, userId, affected, write, rowsDeleted, now), h', now)
  {
    var out := InvalidateSpec(d, p, userId, affected, write, rowsDeleted, now);
    var added := EntriesOf(p.auth.sessions, affected);
    var gone := OfUser(p.auth.sessions, userId).Keys;
    EntriesOfUser(p.auth, userId, affected, h.ever);
    InvalidateShrinks(d, p, userId, affected, write, rowsDeleted, now);
    RevokedProcess(d, p, h, now, gone, added, write, out.proc.auth);
    var r := Revoke(d, p.recovery, added, now, write);
    OutcomeOf(r.disk, WithoutUser(r.disk.rows, userId), out.proc, out.answer, h.(revoked := h.revoked + gone), now);
  }

  lemma ShutdownKeeps(d: Disk, p: Proc, h: History, now: nat, clean: bool, write: WriteOutcome)
    requires HistoryInv(h) && DiskInv(d, h, now) && ProcInv(p, d, h, now) && !p.recovery.closed
    ensures OutcomeInv(ShutdownSpec(d, p, clean, write), h, now)
  {
    if clean && p.auth.closing && !p.auth.unaccounted && !p.recovery.uncertain {
      WriteKeepsDisk(d, p.recovery.snapshot.(clean := true), p.recovery.lim, write, h, now);
    }
  }

  /** Credentials and flags may change freely while the hot map stays and CredentialInv holds. */
  lemma SameSessionsKeep(d: Disk, p: Proc, h: History, now: nat, a': AuthState)
    requires ProcInv(p, d, h, now) && CredentialInv(a', h)
    requires a'.sessions == p.auth.sessions && a'.unaccounted == p.auth.unaccounted
    ensures ProcInv(p.(auth := a'), d, h, now)
  {
  }

  lemma LoginReadKeeps(d: Disk, p: Proc, h: History, now: nat, userId: nat)
    requires DiskInv(d, h, now) && ProcInv(p, d, h, now) && !p.recovery.closed
    ensures OutcomeInv(LoginReadSpec(d, p, userId), h, now)
  {
    hide Covers, HotDenied, JournalSound, TrustworthyIfClean, Fenced, KnownKey, SubRows;
    SameSessionsKeep(d, p, h, now, LoginReadSpec(d, p, userId).proc.auth);
  }

  lemma LoginFinishKeeps(d: Disk, p: Proc, h: History, now: nat, handle: nat, passwordOk: bool)
    requires DiskInv(d, h, now) && ProcInv(p, d, h, now) && !p.recovery.closed
    ensures OutcomeInv(LoginFinishSpec(d, p, handle, passwordOk), h, now)
  {
    hide Covers, HotDenied, JournalSound, TrustworthyIfClean, Fenced, KnownKey, SubRows;
    SameSessionsKeep(d, p, h, now, LoginFinishSpec(d, p, handle, passwordOk).proc.auth);
  }

  lemma FreshProofKeeps(d: Disk, p: Proc, h: History, now: nat, userId: nat)
    requires DiskInv(d, h, now) && ProcInv(p, d, h, now) && !p.recovery.closed
    ensures OutcomeInv(FreshProof(d, p, userId), h, now)
  {
    SameSessionsKeep(d, p, h, now, FreshProof(d, p, userId).proc.auth);
  }

  lemma FewerSessionsKeep(d: Disk, p: Proc, h: History, now: nat, a': AuthState)
    requires ProcInv(p, d, h, now) && Shrinks(p.auth, a', {}) && a'.unaccounted == p.auth.unaccounted
    ensures ProcInv(p.(auth := a'), d, h, now)
  {
    FewerSessions(p.auth, a', {}, h, h);
  }

  lemma ResolveKeeps(d: Disk, p: Proc, h: History, now: nat, raw: Text)
    requires DiskInv(d, h, now) && ProcInv(p, d, h, now) && !p.recovery.closed
    ensures OutcomeInv(ResolveSpec(d, p, raw, now), h, now)
  {
    hide Covers, JournalSound, TrustworthyIfClean, Fenced, KnownKey;
    FewerSessionsKeep(d, p, h, now, ResolveSpec(d, p, raw, now).proc.auth);
  }

  lemma SweepKeeps(d: Disk, p: Proc, h: History, now: nat, rowsPruned: bool)
    requires DiskInv(d, h, now) && ProcInv(p, d, h, now) && !p.recovery.closed
    ensures OutcomeInv(SweepSpec(d, p, rowsPruned, now), h, now)
  {
    FewerSessionsKeep(d, p, h, now, SweepSpec(d, p, rowsPruned, now).proc.auth);
    RowsDropped(d, Unexpired(d.rows, now), h, now);
  }

  lemma BeginShutdownKeeps(d: Disk, p: Proc, h: History, now: nat)
    requires DiskInv(d, h, now) && ProcInv(p, d, h, now) && !p.recovery.closed
    ensures OutcomeInv(Perform(d, p, BeginShutdown, now), h, now)
  {
    FewerSessionsKeep(d, p, h, now, p.auth.(closing := true));
  }

  // ---- minting ----------------------------------------------------------------

  lemma MintedHistory(h: History, h': History, id: Text, s: Session, now: nat)
    requires HistoryInv(h) && id !in h.ever && id.Lookup? && id.key in h.keys
    requires h'.revoked == h.revoked && h'.keys == h.keys && h'.cookies == h.cookies + {id.cookie}
    requires h'.ever == h.ever || h'.ever == h.ever[id := s]
    ensures HistoryInv(h') && SubRows(h.ever, h'.ever)
    ensures forall j: Snapshot | Covers(j, h, now) :: Covers(j, h', now)
  {
  }

  lemma MintedCredentials(a: AuthState, a': AuthState, h: History, h': History, handle: nat, id: Text, s: Session)
    requires CredentialInv(a, h) && SubRows(a.sessions, h.ever) && id !in h.ever
    requires handle in a.proofs && s.userId == a.proofs[handle].userId
    requires a'.proofs == a.proofs - {handle} && a'.tickets == a.tickets
    requires a'.epochs == a.epochs && a'.nextHandle == a.nextHandle
    requires a'.sessions == a.sessions || a'.sessions == a.sessions[id := s]
    requires h'.mintEpoch == h.mintEpoch[id := EpochOf(a, s.userId)]
    requires h'.spent <= h.spent + {handle}
    ensures CredentialInv(a', h')
  {
  }

  lemma MintedProcess(d: Disk, d': Disk, p: Proc, a': AuthState, h: History, h': History, now: nat, id: Text,
                      s: Session)
    requires HistoryInv(h) && ProcInv(p, d, h, now) && Fenced(d') && CredentialInv(a', h')
    requires id.Lookup? && id !in h.ever && h'.revoked == h.revoked && h'.keys == h.keys
    requires h'.straddled == h.straddled && SubRows(h.ever, h'.ever)
    requires forall j: Snapshot | Covers(j, h, now) :: Covers(j, h', now)
    requires a'.unaccounted == p.auth.unaccounted
    requires a'.sessions == p.auth.sessions
          || (a'.sessions == p.auth.sessions[id := s] && h'.ever == h.ever[id := s])
    ensures ProcInv(p.(auth := a'), d', h', now)
  {
  }

  /** Minting: the new identity is fresh, so nothing revoked is revived and nothing else moves. */
  lemma MintKeeps(d: Disk, p: Proc, h: History, now: nat, handle: nat, token: nat, row: RowOutcome)
    requires HistoryInv(h) && DiskInv(d, h, now) && ProcInv(p, d, h, now) && !p.recovery.closed
    requires token !in h.cookies && MayMint(d, p, handle)
    ensures var h' := HistoryAfter(h, d, p, Mint(handle, true, token, row), now);
      HistoryInv(h') && OutcomeInv(MintSpec(d, p, handle, true, token, row, now), h', now)
  {
    hide ProcInv, DiskInv, HistoryInv, CredentialInv, SubRows, Covers, Fenced;
    var h' := HistoryAfter(h, d, p, Mint(handle, true, token, row), now);
    var out := MintSpec(d, p, handle, true, token, row, now);
    var id := Lookup(p.recovery.snapshot.key, token);
    var s := Session(p.auth.proofs[handle].userId, now + SESSION_TTL_MS);
    assert h.revoked + {} == h.revoked;
    FreshIdentity(d, p, h, now, token);
    MintedHistory(h, h', id, s, now);
    MintedCredentials(p.auth, out.proc.auth, h, h', handle, id, s);
    FencedStaysSound(d, h, h', now);
    MintedDisk(d, out.disk, h', now, id, s);
    MintedProcess(d, out.disk, p, out.proc.auth, h, h', now, id, s);
  }

  lemma FreshIdentity(d: Disk, p: Proc, h: History, now: nat, token: nat)
    requires HistoryInv(h) && ProcInv(p, d, h, now) && token !in h.cookies
    ensures Lookup(p.recovery.snapshot.key, token) !in h.ever && p.recovery.snapshot.key in h.keys
    ensures Fenced(d) && CredentialInv(p.auth, h) && SubRows(p.auth.sessions, h.ever)
  {
  }

  /** The row may or may not be stored; the checkpoints are untouched. */
  lemma MintedDisk(d: Disk, d': Disk, h: History, now: nat, id: Text, s: Session)
    requires DiskInv(d, h, now) && Fenced(d)
    requires d' == d || (d' == d.(rows := d.rows[id := s]) && id in h.ever && h.ever[id] == s)
    ensures DiskInv(d', h, now) && Fenced(d')
  {
  }

  lemma ProofTakenKeeps(d: Disk, p: Proc, h: History, now: nat, op: AuthOp)
    requires DiskInv(d, h, now) && ProcInv(p, d, h, now) && !p.recovery.closed
    requires HistoryInv(h) && Possible(p, op) && (op.Register? || op.SessionUser?)
    ensures OutcomeInv(Perform(d, p, op, now), h, now)
  {
    FreshProofKeeps(d, p, h, now, op.userId);
    hide ProcInv, DiskInv, FreshProof;
  }

  lemma MintRefusedKeeps(d: Disk, p: Proc, h: History, now: nat, op: AuthOp)
    requires DiskInv(d, h, now) && ProcInv(p, d, h, now) && !p.recovery.closed
    requires op.Mint? && !(MayMint(d, p, op.handle) && op.hashReadable)
    ensures OutcomeInv(MintSpec(d, p, op.handle, op.hashReadable, op.token, op.row, now), h, now)
  {
    hide ProcInv, DiskInv;
  }

  lemma ServeKeeps(d: Disk, p: Proc, h: History, now: nat, op: AuthOp)
    requires HistoryInv(h) && DiskInv(d, h, now) && ProcInv(p, d, h, now) && !p.recovery.closed
    requires Possible(p, op) && (op.Mint? ==> op.token !in h.cookies)
    ensures var h' := HistoryAfter(h, d, p, op, now); HistoryInv(h') && OutcomeInv(Perform(d, p, op, now), h', now)
  {
    hide ProcInv, DiskInv, OutcomeInv, HistoryInv, LoginReadSpec, LoginFinishSpec, RegisterSpec, SessionUserSpec, DestroySpec,
      InvalidateSpec, ResolveSpec, SweepSpec, ShutdownSpec, MintSpec;
    if op.Mint? {
      if MayMint(d, p, op.handle) && op.hashReadable {
        MintKeeps(d, p, h, now, op.handle, op.token, op.row);
      } else {
        assert h.revoked + {} == h.revoked;
        MintRefusedKeeps(d, p, h, now, op);
      }
    } else if op.Destroy? {
      DestroyKeeps(d, p, h, now, op.raw, op.write, op.rowDeleted);
    } else if op.Invalidate? {
      InvalidateKeeps(d, p, h, now, op.userId, op.affected, op.write, op.rowsDeleted);
    } else {
      assert h.revoked + {} == h.revoked;
      if op.Shutdown? {
        ShutdownKeeps(d, p, h, now, op.clean, op.write);
      } else if op.Resolve? {
        ResolveKeeps(d, p, h, now, op.raw);
      } else if op.Sweep? {
        SweepKeeps(d, p, h, now, op.rowsPruned);
      } else if op.BeginShutdown? {
        BeginShutdownKeeps(d, p, h, now);
      } else if op.LoginRead? {
        LoginReadKeeps(d, p, h, now, op.userId);
      } else if op.LoginFinish? {
        LoginFinishKeeps(d, p, h, now, op.handle, op.passwordOk);
      } else if op.Register? || op.SessionUser? {
        ProofTakenKeeps(d, p, h, now, op);
      }
    }
  }

  // ---- starting ---------------------------------------------------------------

  lemma KeysGrow(d: Disk, h: History, h': History, clock: int, later: int)
    requires DiskInv(d, h, clock) && clock <= later
    requires h'.ever == h.ever && h'.revoked == h.revoked && h.keys <= h'.keys
    ensures DiskInv(d, h', later)
  {
  }

  /** The snapshot startup writes accounts for every revocation its key can match. */
  lemma StartCovers(d: Disk, io: StartIo, h: History, clock: int)
    requires HistoryInv(h) && DiskInv(d, h, clock) && clock <= io.loadAt <= io.filterAt
    requires io.freshKey !in h.keys
    ensures Covers(StartSnapshot(d, io), h, io.filterAt)
    ensures StartSnapshot(d, io).key in h.keys + {io.freshKey}
  {
    if Trusted(ReadAtStart(d, io), Loaded(d, io)) {
      var s := ReadAtStart(d, io).value;
      ContentWellFormed(d.visible);
      LiveEntriesExact(s.revocations, io.filterAt);
      assert Covers(s, h, clock);
    }
  }

  /** A hydrated identity that was revoked under this key straddled the two clock readings. */
  lemma HydratedHotDenied(d: Disk, io: StartIo, h: History, clock: int, t: Text)
    requires HistoryInv(h) && DiskInv(d, h, clock) && clock <= io.pruneAt <= io.loadAt <= io.filterAt
    requires io.freshKey !in h.keys
    requires t in h.revoked && t.Lookup? && t.key == StartSnapshot(d, io).key && t in Hydrated(d, io)
    ensures t in Straddled(d, io) && h.ever[t].expiresAt <= io.filterAt
  {
    var s := ReadAtStart(d, io).value;
    ContentWellFormed(d.visible);
    LiveEntriesExact(s.revocations, io.filterAt);
    assert Covers(s, h, clock);
    var x := Entry(t, h.ever[t].expiresAt);
    IdsContain(s.revocations, x);
    if x.expiresAt > io.filterAt {
      IdsContain(LiveEntries(s.revocations, io.filterAt), x);
    }
  }

  lemma IdsContain(es: seq<Entry>, x: Entry)
    requires x in es
    ensures x.id in Ids(es)
  {
    var k :| 0 <= k < |es| && es[k] == x;
    assert es[k].id == x.id;
  }

  lemma StartDisk(d: Disk, io: StartIo, h: History, h': History, clock: int)
    requires HistoryInv(h) && DiskInv(d, h, clock) && clock <= io.pruneAt <= io.loadAt <= io.filterAt
    requires io.freshKey !in h.keys
    requires h'.ever == h.ever && h'.revoked == h.revoked && h'.keys == h.keys + {io.freshKey}
    ensures forall k | 0 <= k < |StartCuts(d, io)| :: DiskInv(StartCuts(d, io)[k], h', io.filterAt)
    ensures DiskInv(AfterStart(d, io), h', io.filterAt)
    ensures StartOk(d, io) ==> Fenced(AfterStart(d, io))
  {
    hide Covers, TrustworthyIfClean, KnownKey, HistoryInv, LiveEntries, Loaded, Read;
    KeysGrow(d, h, h', clock, io.filterAt);
    var pruned := d.(rows := Unexpired(d.rows, io.pruneAt));
    RowsDropped(d, Unexpired(d.rows, io.pruneAt), h', io.filterAt);
    RowsDropped(d, map[], h', io.filterAt);
    StartSnapshotWellFormed(d, io);
    StartCovers(d, io, h, clock);
    WriteKeepsDisk(pruned, StartSnapshot(d, io), io.lim, io.write, h', io.filterAt);
    WriteKeepsDisk(d.(rows := map[]), StartSnapshot(d, io), io.lim, io.write, h', io.filterAt);
  }

  lemma StartKeeps(w: World, io: StartIo)
    requires Inv(w) && StartEnabled(w, io)
    ensures Inv(Step(w, Startup(io)))
  {
    var d, h, h' := w.disk, w.hist, HistoryAfterStart(w, io);
    StartDisk(d, io, h, h', w.clock);
    if StartOk(d, io) {
      var p := Started(d, io);
      StartSnapshotWellFormed(d, io);
      StartCovers(d, io, h, w.clock);
      forall t | t in h.revoked && t.Lookup? && t.key == p.recovery.snapshot.key && t in p.auth.sessions
        ensures t in h'.straddled && h'.ever[t].expiresAt <= io.filterAt
      {
        HydratedHotDenied(d, io, h, w.clock, t);
      }
      assert SubRows(p.auth.sessions, h'.ever);
      assert ProcInv(p, AfterStart(d, io), h', io.filterAt);
    }
  }

  // ---- the whole system -------------------------------------------------------

  lemma TickKeeps(w: World, now: nat)
    requires Inv(w) && w.clock <= now
    ensures Inv(w.(clock := now))
  {
  }

  lemma OutcomeWorld(out: Outcome, h: History, clock: nat)
    requires HistoryInv(h) && OutcomeInv(out, h, clock)
    ensures Inv(World(out.disk, Some(out.proc), clock, h))
  {
  }

  lemma ServeStepKeeps(w: World, op: AuthOp)
    requires Inv(w) && ServeEnabled(w, op)
    ensures Inv(Step(w, Serve(op)))
  {
    var h' := HistoryAfter(w.hist, w.disk, w.proc.value, op, w.clock);
    var out := Perform(w.disk, w.proc.value, op, w.clock);
    ServeKeeps(w.disk, w.proc.value, w.hist, w.clock, op);
    OutcomeWorld(out, h', w.clock);
    assert Step(w, Serve(op)) == World(out.disk, Some(out.proc), w.clock, h');
  }

  lemma CrashInServeKeeps(w: World, op: AuthOp, cut: nat, lost: bool)
    requires Inv(w) && Enabled(w, CrashInServe(op, cut, lost))
    ensures Inv(Step(w, CrashInServe(op, cut, lost)))
  {
    ServeKeeps(w.disk, w.proc.value, w.hist, w.clock, op);
    var h' := HistoryAfter(w.hist, w.disk, w.proc.value, op, w.clock);
    CrashKeepsDisk(Perform(w.disk, w.proc.value, op, w.clock).cuts[cut], h', w.clock, lost);
  }

  lemma CrashInStartupKeeps(w: World, io: StartIo, cut: nat, lost: bool)
    requires Inv(w) && Enabled(w, CrashInStartup(io, cut, lost))
    ensures Inv(Step(w, CrashInStartup(io, cut, lost)))
  {
    var h' := w.hist.(keys := w.hist.keys + {io.freshKey});
    StartDisk(w.disk, io, w.hist, h', w.clock);
    CrashKeepsDisk(StartCuts(w.disk, io)[cut], h', io.filterAt, lost);
  }

  lemma StepKeeps(w: World, e: Event)
    requires Inv(w) && Enabled(w, e)
    ensures Inv(Step(w, e))
  {
    match e
    case Tick(now) => TickKeeps(w, now);
    case Crash(lost) => CrashKeepsDisk(w.disk, w.hist, w.clock, lost);
    case Startup(io) => StartKeeps(w, io);
    case Serve(op) => ServeStepKeeps(w, op);
    case CrashInStartup(io, cut, lost) => CrashInStartupKeeps(w, io, cut, lost);
    case CrashInServe(op, cut, lost) => CrashInServeKeeps(w, op, cut, lost);
    case _ =>
  }

  lemma {:induction false} RunInv(ws: seq<World>, es: seq<Event>, i: nat)
    requires Run(ws, es) && i <= |es|
    ensures Inv(ws[i])
  {
    if i > 0 {
      RunInv(ws, es, i - 1);
      StepKeeps(ws[i - 1], es[i - 1]);
    }
  }
}
