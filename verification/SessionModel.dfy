/**
 The value-level specification of session recovery and authentication.

 The SQLite `sessions` rows and the checkpoint file survive a process; the maps of
 `Auth` and the state of `SessionRecovery` do not. Every operation is given here as
 a function of both halves and of the outcomes its I/O calls had. The classes in
 SessionRecovery.dfy and Auth.dfy are proved against these functions, and
 SessionRuns.dfy proves what every run of them keeps.
 */
module SessionModel {
  import opened Wrappers

  const SESSION_TTL_MS: nat := 30 * 24 * 60 * 60 * 1000
  const MAX_SAFE_INTEGER: int := 9007199254740991
  const MAX_ENTRIES: nat := 16_384
  const MAX_BYTES: nat := 4 * 1024 * 1024

  /**
   The strings sessions are made of. A text of 64 hex digits is named by its number,
   and `sr1:` followed by the HMAC of a cookie under a key is named by that pair, so
   equality of texts is equality of strings and the keyed lookup is injective.
   */
  datatype Text = Hex64(n: nat) | Lookup(key: nat, cookie: nat) | Plain(s: string)

  datatype Session = Session(userId: nat, expiresAt: int)

  type Rows = map<Text, Session>

  // ---- the checkpoint file ----------------------------------------------------

  /** What JSON.parse can return. Objects have unique keys. */
  datatype Json =
    | JNull
    | JFraction
    | JBool(b: bool)
    | JNum(n: int)
    | JText(t: Text)
    | JArr(items: seq<Json>)
    | JObj(fields: map<string, Json>)

  datatype Entry = Entry(id: Text, expiresAt: int)

  datatype Snapshot = Snapshot(clean: bool, key: nat, revocations: seq<Entry>)

  datatype Limits = Limits(maxEntries: nat, maxBytes: nat)

  predicate ValidLimits(lim: Limits) {
    1 <= lim.maxEntries <= MAX_ENTRIES && 1 <= lim.maxBytes <= MAX_BYTES
  }

  /** A checkpoint path: nothing there, something JSON.parse rejects, or a document. */
  datatype File = Absent | Garbled | Stored(size: nat, doc: Json)

  function EncodeEntry(e: Entry): Json {
    JObj(map["id" := JText(e.id), "expiresAt" := JNum(e.expiresAt)])
  }

  function EncodeEntries(es: seq<Entry>): seq<Json> {
    seq(|es|, i requires 0 <= i < |es| => EncodeEntry(es[i]))
  }

  function Encode(s: Snapshot): Json {
    JObj(map["version" := JNum(1), "clean" := JBool(s.clean), "key" := JText(Hex64(s.key)),
             "revocations" := JArr(EncodeEntries(s.revocations))])
  }

  function Digits(n: nat): nat {
    if n < 10 then 1 else 1 + Digits(n / 10)
  }

  function NumberBytes(n: int): nat {
    if n < 0 then 1 + Digits(-n) else Digits(n)
  }

  function TextBytes(t: Text): nat {
    match t
    case Hex64(_) => 64
    case Lookup(_, _) => 68
    case Plain(s) => |s|
  }

  function EntryBytes(e: Entry): nat {
    |"{'id':''"| + TextBytes(e.id) + |",'expiresAt':}"| + NumberBytes(e.expiresAt)
  }

  function EntriesBytes(es: seq<Entry>): nat {
    if es == [] then 0
    else EntryBytes(es[0]) + (if |es| == 1 then 0 else |","|) + EntriesBytes(es[1..])
  }

  /** Buffer.byteLength(JSON.stringify(s)). */
  function SnapshotBytes(s: Snapshot): nat {
    |"{'version':1,'clean':"| + (if s.clean then |"true"| else |"false"|) +
    |",'key':''"| + 64 + |",'revocations':[]}"| + EntriesBytes(s.revocations)
  }

  function ToFile(s: Snapshot): File {
    Stored(SnapshotBytes(s), Encode(s))
  }

  function DecodeEntry(j: Json): Option<Entry> {
    if && j.JObj?
       && j.fields.Keys == {"id", "expiresAt"}
       && j.fields["id"].JText? && j.fields["id"].t.Lookup?
       && j.fields["expiresAt"].JNum? && 0 <= j.fields["expiresAt"].n <= MAX_SAFE_INTEGER
    then Some(Entry(j.fields["id"].t, j.fields["expiresAt"].n))
    else None
  }

  /** The validation loop over `value.revocations`, with its set of ids already seen. */
  function DecodeEntries(js: seq<Json>, seen: set<Text>): Option<seq<Entry>> {
    if js == [] then Some([])
    else
      match DecodeEntry(js[0])
      case None => None
      case Some(e) =>
        if e.id in seen then None
        else
          match DecodeEntries(js[1..], seen + {e.id})
          case None => None
          case Some(rest) => Some([e] + rest)
  }

  function Decode(doc: Json): Option<Snapshot> {
    if && doc.JObj?
       && doc.fields.Keys == {"version", "clean", "key", "revocations"}
       && doc.fields["version"] == JNum(1)
       && doc.fields["clean"].JBool?
       && doc.fields["key"].JText? && doc.fields["key"].t.Hex64?
       && doc.fields["revocations"].JArr?
    then
      match DecodeEntries(doc.fields["revocations"].items, {})
      case None => None
      case Some(es) => Some(Snapshot(doc.fields["clean"].b, doc.fields["key"].t.n, es))
    else None
  }

  function Read(f: File, lim: Limits): Option<Snapshot> {
    if f.Stored? && f.size <= lim.maxBytes
    then
      match Decode(f.doc)
      case None => None
      case Some(s) => if |s.revocations| <= lim.maxEntries then Some(s) else None
    else None
  }

  /** The snapshot a later process might trust, under whatever limits it runs with. */
  function Content(f: File): Option<Snapshot> {
    if f.Stored? then Decode(f.doc) else None
  }

  predicate CleanFile(f: File) {
    Content(f).Some? && Content(f).value.clean
  }

  predicate UniqueIds(es: seq<Entry>) {
    forall i, j | 0 <= i < j < |es| :: es[i].id != es[j].id
  }

  predicate WellFormedEntry(e: Entry) {
    e.id.Lookup? && 0 <= e.expiresAt <= MAX_SAFE_INTEGER
  }

  predicate WellFormedEntries(es: seq<Entry>) {
    UniqueIds(es) && forall i | 0 <= i < |es| :: WellFormedEntry(es[i])
  }

  /** Everything a checkpoint must satisfy for `read` to accept it. */
  predicate WellFormed(s: Snapshot, lim: Limits) {
    WellFormedEntries(s.revocations) && |s.revocations| <= lim.maxEntries
  }

  // ---- the two stores ---------------------------------------------------------

  /**
   `visible` is the file a reader opens now; `durable` is the one a power cut leaves.
   They differ only after a write that failed between its rename and its directory sync.
   */
  datatype Disk = Disk(visible: File, durable: File, rows: Rows, users: map<nat, string>)

  /** A checkpoint write: completed; failed before the rename; failed after it. */
  datatype WriteOutcome = Synced | Failed | Unsynced

  function WriteFile(d: Disk, s: Snapshot, lim: Limits, o: WriteOutcome): Disk {
    if SnapshotBytes(s) > lim.maxBytes || o.Failed? then d
    else if o.Synced? then d.(visible := ToFile(s), durable := ToFile(s))
    else d.(visible := ToFile(s))
  }

  predicate WriteOk(s: Snapshot, lim: Limits, o: WriteOutcome) {
    SnapshotBytes(s) <= lim.maxBytes && o.Synced?
  }

  /** What a new process finds after the old one died; `lost` when the unsynced file is lost. */
  function AfterCrash(d: Disk, lost: bool): Disk {
    if lost then d.(visible := d.durable) else d.(durable := d.visible)
  }

  function Unexpired(rows: Rows, now: int): Rows {
    map t | t in rows && rows[t].expiresAt > now :: rows[t]
  }

  function WithoutUser(rows: Rows, userId: nat): Rows {
    map t | t in rows && rows[t].userId != userId :: rows[t]
  }

  function WithoutId(rows: Rows, id: Text): Rows {
    map t | t in rows && t != id :: rows[t]
  }

  function OfUser(rows: Rows, userId: nat): Rows {
    map t | t in rows && rows[t].userId == userId :: rows[t]
  }

  // ---- the recovery owner -----------------------------------------------------

  datatype Recovery = Recovery(lim: Limits, snapshot: Snapshot, closed: bool, uncertain: bool)

  function LookupId(r: Recovery, raw: Text): Option<Text> {
    if r.closed || !raw.Hex64? then None else Some(Lookup(r.snapshot.key, raw.n))
  }

  function LiveEntries(es: seq<Entry>, now: int): seq<Entry> {
    if es == [] then []
    else if es[0].expiresAt > now then [es[0]] + LiveEntries(es[1..], now)
    else LiveEntries(es[1..], now)
  }

  /** `Map.set`: an existing id keeps its place and takes the new expiry. */
  function Upsert(es: seq<Entry>, e: Entry): seq<Entry> {
    if es == [] then [e]
    else if es[0].id == e.id then [e] + es[1..]
    else [es[0]] + Upsert(es[1..], e)
  }

  predicate Recordable(e: Entry) {
    e.id.Lookup? && -MAX_SAFE_INTEGER <= e.expiresAt <= MAX_SAFE_INTEGER
  }

  /** The merge loop of `revoke`; None when an entry makes it throw. */
  function MergeEntries(es: seq<Entry>, added: seq<Entry>, now: int): Option<seq<Entry>>
    decreases added
  {
    if added == [] then Some(es)
    else if !Recordable(added[0]) then None
    else if added[0].expiresAt > now then MergeEntries(Upsert(es, added[0]), added[1..], now)
    else MergeEntries(es, added[1..], now)
  }

  /** The snapshot `revoke` tries to write; None when it throws before writing. */
  function NextSnapshot(r: Recovery, added: seq<Entry>, now: int): Option<Snapshot> {
    match MergeEntries(LiveEntries(r.snapshot.revocations, now), added, now)
    case None => None
    case Some(es) =>
      if |es| > r.lim.maxEntries then None
      else Some(Snapshot(false, r.snapshot.key, es))
  }

  datatype RevokeResult = RevokeResult(disk: Disk, recovery: Recovery, ok: bool)

  function Revoke(d: Disk, r: Recovery, added: seq<Entry>, now: int, o: WriteOutcome): RevokeResult {
    if r.closed then RevokeResult(d, r, false)
    else
      match NextSnapshot(r, added, now)
      case None => RevokeResult(d, r.(uncertain := true), false)
      case Some(s) =>
        if WriteOk(s, r.lim, o)
        then RevokeResult(WriteFile(d, s, r.lim, o), r.(snapshot := s), true)
        else RevokeResult(WriteFile(d, s, r.lim, o), r.(uncertain := true), false)
  }

  function Close(d: Disk, r: Recovery, clean: bool, o: WriteOutcome): RevokeResult {
    if r.closed then RevokeResult(d, r, false)
    else if clean && !r.uncertain then
      var s := r.snapshot.(clean := true);
      RevokeResult(WriteFile(d, s, r.lim, o), r.(closed := true), WriteOk(s, r.lim, o))
    else RevokeResult(d, r.(closed := true), false)
  }

  // ---- startup ----------------------------------------------------------------

  datatype StoreFault = NoFault | PruneFails | LoadFails | DestroyAllFails

  /**
   One attempt to open the recovery directory. The source reads the clock for the prune,
   for the load and for the journal filter, in that order.
   */
  datatype StartIo = StartIo(lim: Limits, readable: bool, pruneAt: nat, loadAt: nat, filterAt: nat,
                             freshKey: nat, fault: StoreFault, write: WriteOutcome)

  /** Whether the checkpoint and the loaded rows may be trusted as they are. */
  predicate Trusted(checkpoint: Option<Snapshot>, active: Rows) {
    checkpoint.Some? && checkpoint.value.clean && forall t | t in active :: t.Lookup?
  }

  function ReadAtStart(d: Disk, io: StartIo): Option<Snapshot> {
    if io.readable then Read(d.visible, io.lim) else None
  }

  function Loaded(d: Disk, io: StartIo): Rows {
    Unexpired(Unexpired(d.rows, io.pruneAt), io.loadAt)
  }

  /** The dirty snapshot startup writes before anything may authenticate. */
  function StartSnapshot(d: Disk, io: StartIo): Snapshot {
    var checkpoint := ReadAtStart(d, io);
    if Trusted(checkpoint, Loaded(d, io))
    then Snapshot(false, checkpoint.value.key, LiveEntries(checkpoint.value.revocations, io.filterAt))
    else Snapshot(false, io.freshKey, [])
  }

  function Ids(es: seq<Entry>): set<Text> {
    set i | 0 <= i < |es| :: es[i].id
  }

  /** The rows startup hands to `Auth`: nothing unless trusted, and nothing journaled. */
  function Hydrated(d: Disk, io: StartIo): Rows {
    if Trusted(ReadAtStart(d, io), Loaded(d, io))
    then Loaded(d, io) - Ids(StartSnapshot(d, io).revocations)
    else map[]
  }

  /** The disk when startup writes its checkpoint: rows pruned, or all gone. */
  function StartRows(d: Disk, io: StartIo): Disk {
    if Trusted(ReadAtStart(d, io), Loaded(d, io))
    then d.(rows := Unexpired(d.rows, io.pruneAt))
    else d.(rows := map[])
  }

  predicate StartOk(d: Disk, io: StartIo) {
    && ValidLimits(io.lim)
    && (io.fault.NoFault? || (io.fault.DestroyAllFails? && Trusted(ReadAtStart(d, io), Loaded(d, io))))
    && WriteOk(StartSnapshot(d, io), io.lim, io.write)
  }

  /** Every disk a startup passes through, in order; a crash may leave any of them. */
  function StartCuts(d: Disk, io: StartIo): seq<Disk> {
    if !ValidLimits(io.lim) || io.fault.PruneFails? then []
    else
      var pruned := d.(rows := Unexpired(d.rows, io.pruneAt));
      if io.fault.LoadFails? then [pruned]
      else if Trusted(ReadAtStart(d, io), Loaded(d, io)) then
        [pruned, WriteFile(pruned, StartSnapshot(d, io), io.lim, io.write)]
      else if io.fault.DestroyAllFails? then [pruned]
      else
        [pruned, StartRows(d, io),
         WriteFile(StartRows(d, io), StartSnapshot(d, io), io.lim, io.write)]
  }

  // ---- authentication ---------------------------------------------------------

  datatype Proof = Proof(userId: nat, passwordHash: Option<string>, epoch: nat)

  /** `handle` stands for the identity of the user object a proof hangs on. */
  datatype AuthState = AuthState(
    sessions: Rows,
    tickets: map<nat, Proof>,
    proofs: map<nat, Proof>,
    epochs: map<nat, nat>,
    nextHandle: nat,
    closing: bool,
    closed: bool,
    unaccounted: bool)

  datatype Proc = Proc(recovery: Recovery, auth: AuthState)

  function EpochOf(a: AuthState, userId: nat): nat {
    if userId in a.epochs then a.epochs[userId] else 0
  }

  predicate Writable(a: AuthState) {
    !a.closing && !a.closed
  }

  function CredentialHash(d: Disk, userId: nat): Option<string> {
    if userId in d.users then Some(d.users[userId]) else None
  }

  datatype RowOutcome = RowStored | RowRejected | RowStoredThenFailed

  datatype Answer =
    | Done
    | Failure(code: string)
    | Handle(handle: nat)
    | Cookie(cookie: nat)
    | User(user: Option<nat>)
    | Removed(count: nat)
    | Certified(clean: bool)

  /** Disk and process after an operation, what it answered, and the disks on the way. */
  datatype Outcome = Outcome(disk: Disk, proc: Proc, answer: Answer, cuts: seq<Disk>)

  datatype AuthOp =
    | LoginRead(userId: nat)
    | LoginFinish(handle: nat, passwordOk: bool)
    | Register(userId: nat)
    | SessionUser(userId: nat, hashReadable: bool)
    | Mint(handle: nat, hashReadable: bool, token: nat, row: RowOutcome)
    | Destroy(raw: Text, write: WriteOutcome, rowDeleted: bool)
    | Invalidate(userId: nat, affected: seq<Text>, write: WriteOutcome, rowsDeleted: bool)
    | Resolve(raw: Text)
    | Sweep(rowsPruned: bool)
    | BeginShutdown
    | Shutdown(clean: bool, write: WriteOutcome)

  /** The first half of `login`: read the user row and its epoch, then await bcrypt. */
  function LoginReadSpec(d: Disk, p: Proc, userId: nat): Outcome {
    if !Writable(p.auth) then Outcome(d, p, Failure("auth_unavailable"), [])
    else if userId !in d.users then Outcome(d, p, Failure("invalid_credentials"), [])
    else
      var t := Proof(userId, Some(d.users[userId]), EpochOf(p.auth, userId));
      var a := p.auth.(tickets := p.auth.tickets[p.auth.nextHandle := t],
                       nextHandle := p.auth.nextHandle + 1);
      Outcome(d, p.(auth := a), Handle(p.auth.nextHandle), [])
  }

  /** The second half of `login`, run when the password comparison settles. */
  function LoginFinishSpec(d: Disk, p: Proc, handle: nat, passwordOk: bool): Outcome {
    if handle !in p.auth.tickets then Outcome(d, p, Failure("invalid_credentials"), [])
    else
      var a := p.auth.(tickets := p.auth.tickets - {handle});
      if !passwordOk then Outcome(d, p.(auth := a), Failure("invalid_credentials"), [])
      else
        var a' := a.(proofs := a.proofs[handle := p.auth.tickets[handle]]);
        Outcome(d, p.(auth := a'), Handle(handle), [])
  }

  /** A proof taken now, as `register` and `sessionUser` do. */
  function FreshProof(d: Disk, p: Proc, userId: nat): Outcome {
    var proof := Proof(userId, CredentialHash(d, userId), EpochOf(p.auth, userId));
    var a := p.auth.(proofs := p.auth.proofs[p.auth.nextHandle := proof],
                     nextHandle := p.auth.nextHandle + 1);
    Outcome(d, p.(auth := a), Handle(p.auth.nextHandle), [])
  }

  function RegisterSpec(d: Disk, p: Proc, userId: nat): Outcome {
    if !Writable(p.auth) then Outcome(d, p, Failure("auth_unavailable"), [])
    else if userId !in d.users then Outcome(d, p, Failure("registration_failed"), [])
    else FreshProof(d, p, userId)
  }

  function SessionUserSpec(d: Disk, p: Proc, userId: nat, hashReadable: bool): Outcome {
    if !Writable(p.auth) then Outcome(d, p, Failure("auth_unavailable"), [])
    else if userId !in d.users then Outcome(d, p, Failure("session_state_changed"), [])
    else if !hashReadable then Outcome(d, p, Failure("auth_unavailable"), [])
    else FreshProof(d, p, userId)
  }

  /** Whether the proof on this user object still stands. */
  predicate ProofStands(d: Disk, p: Proc, handle: nat) {
    && handle in p.auth.proofs
    && p.auth.proofs[handle].passwordHash.Some?
    && p.auth.proofs[handle].epoch == EpochOf(p.auth, p.auth.proofs[handle].userId)
  }

  predicate MayMint(d: Disk, p: Proc, handle: nat) {
    && Writable(p.auth)
    && ProofStands(d, p, handle)
    && p.auth.proofs[handle].passwordHash == CredentialHash(d, p.auth.proofs[handle].userId)
  }

  function MintSpec(d: Disk, p: Proc, handle: nat, hashReadable: bool, token: nat, row: RowOutcome,
                    now: nat): Outcome
  {
    if !Writable(p.auth) then Outcome(d, p, Failure("auth_unavailable"), [])
    else if !ProofStands(d, p, handle) then Outcome(d, p, Failure("session_state_changed"), [])
    else if !hashReadable then Outcome(d, p, Failure("auth_unavailable"), [])
    else if !MayMint(d, p, handle) then Outcome(d, p, Failure("session_state_changed"), [])
    else
      var id := Lookup(p.recovery.snapshot.key, token);
      var s := Session(p.auth.proofs[handle].userId, now + SESSION_TTL_MS);
      var a := p.auth.(proofs := p.auth.proofs - {handle});
      var d' := if row.RowRejected? then d else d.(rows := d.rows[id := s]);
      if row.RowStored?
      then Outcome(d', p.(auth := a.(sessions := a.sessions[id := s])), Cookie(token), [d'])
      else Outcome(d', p.(auth := a), Failure("session_persistence_failed"), [d'])
  }

  function DestroySpec(d: Disk, p: Proc, raw: Text, write: WriteOutcome, rowDeleted: bool, now: nat): Outcome {
    var id := LookupId(p.recovery, raw);
    if id.None? || id.value !in p.auth.sessions then Outcome(d, p, Done, [])
    else
      var known := p.auth.sessions[id.value];
      var r := Revoke(d, p.recovery, [Entry(id.value, known.expiresAt)], now, write);
      var a := p.auth.(sessions := WithoutId(p.auth.sessions, id.value),
                       unaccounted := p.auth.unaccounted || !r.ok);
      var d' := if rowDeleted then r.disk.(rows := WithoutId(r.disk.rows, id.value)) else r.disk;
      Outcome(d', Proc(r.recovery, a),
              if !rowDeleted && !r.ok then Failure("session_persistence_failed") else Done,
              [r.disk, d'])
  }

  function EntriesOf(rows: Rows, ids: seq<Text>): seq<Entry>
    requires forall i | 0 <= i < |ids| :: ids[i] in rows
  {
    seq(|ids|, i requires 0 <= i < |ids| => Entry(ids[i], rows[ids[i]].expiresAt))
  }

  /** A map of entries in some iteration order: each key once. */
  predicate Enumerates(ids: seq<Text>, rows: Rows) {
    && (forall i | 0 <= i < |ids| :: ids[i] in rows)
    && (forall i, j | 0 <= i < j < |ids| :: ids[i] != ids[j])
    && (forall t | t in rows :: t in ids)
  }

  function InvalidatedAuth(a: AuthState, userId: nat, durable: bool): AuthState {
    a.(epochs := a.epochs[userId := EpochOf(a, userId) + 1],
       sessions := WithoutUser(a.sessions, userId),
       unaccounted := a.unaccounted || !durable)
  }

  /**
   `affected` is the iteration order of the hot map restricted to the user. The order the
   source removes things in is: journal, then rows, then the hot map.
   */
  function InvalidateSpec(d: Disk, p: Proc, userId: nat, affected: seq<Text>, write: WriteOutcome,
                          rowsDeleted: bool, now: nat): Outcome
    requires Enumerates(affected, OfUser(p.auth.sessions, userId))
  {
    var r := Revoke(d, p.recovery, EntriesOf(p.auth.sessions, affected), now, write);
    var a := InvalidatedAuth(p.auth, userId, r.ok);
    var d' := if rowsDeleted then r.disk.(rows := WithoutUser(r.disk.rows, userId)) else r.disk;
    Outcome(d', Proc(r.recovery, a),
            if !rowsDeleted && !r.ok then Failure("session_persistence_failed") else Removed(|affected|),
            [r.disk, d'])
  }

  /** `getCurrentUser`: the only way a cookie is ever believed. */
  function ResolveSpec(d: Disk, p: Proc, raw: Text, now: nat): Outcome {
    var id := LookupId(p.recovery, raw);
    if id.None? || id.value !in p.auth.sessions then Outcome(d, p, User(None), [])
    else
      var s := p.auth.sessions[id.value];
      if s.expiresAt < now
      then Outcome(d, p.(auth := p.auth.(sessions := WithoutId(p.auth.sessions, id.value))), User(None), [])
      else Outcome(d, p, User(if s.userId in d.users then Some(s.userId) else None), [])
  }

  function NotBefore(rows: Rows, now: int): Rows {
    map t | t in rows && rows[t].expiresAt >= now :: rows[t]
  }

  function SweepSpec(d: Disk, p: Proc, rowsPruned: bool, now: nat): Outcome {
    var a := p.auth.(sessions := NotBefore(p.auth.sessions, now));
    var d' := if rowsPruned then d.(rows := Unexpired(d.rows, now)) else d;
    Outcome(d', p.(auth := a), Done, [d'])
  }

  function ShutdownSpec(d: Disk, p: Proc, clean: bool, write: WriteOutcome): Outcome {
    var r := Close(d, p.recovery, clean && p.auth.closing && !p.auth.unaccounted, write);
    var a := p.auth.(sessions := map[], closing := true, closed := true);
    Outcome(r.disk, Proc(r.recovery, a), Certified(r.ok), [r.disk])
  }

  /** Whether an operation's parameters name something that exists. */
  predicate Possible(p: Proc, op: AuthOp) {
    op.Invalidate? ==> Enumerates(op.affected, OfUser(p.auth.sessions, op.userId))
  }

  function Perform(d: Disk, p: Proc, op: AuthOp, now: nat): Outcome
    requires Possible(p, op)
  {
    match op
    case LoginRead(u) => LoginReadSpec(d, p, u)
    case LoginFinish(h, ok) => LoginFinishSpec(d, p, h, ok)
    case Register(u) => RegisterSpec(d, p, u)
    case SessionUser(u, ok) => SessionUserSpec(d, p, u, ok)
    case Mint(h, ok, token, row) => MintSpec(d, p, h, ok, token, row, now)
    case Destroy(raw, w, ok) => DestroySpec(d, p, raw, w, ok, now)
    case Invalidate(u, affected, w, ok) => InvalidateSpec(d, p, u, affected, w, ok, now)
    case Resolve(raw) => ResolveSpec(d, p, raw, now)
    case Sweep(ok) => SweepSpec(d, p, ok, now)
    case BeginShutdown => Outcome(d, p.(auth := p.auth.(closing := true)), Done, [])
    case Shutdown(clean, w) => ShutdownSpec(d, p, clean, w)
  }

  /** A process that has just hydrated these rows. */
  function NewProc(io: StartIo, s: Snapshot, hydrated: Rows): Proc {
    Proc(Recovery(io.lim, s, false, false),
         AuthState(hydrated, map[], map[], map[], 0, false, false, false))
  }

  function Started(d: Disk, io: StartIo): Proc {
    NewProc(io, StartSnapshot(d, io), Hydrated(d, io))
  }

  /** The disk a startup attempt leaves, successful or not. */
  function AfterStart(d: Disk, io: StartIo): Disk {
    var cuts := StartCuts(d, io);
    if cuts == [] then d else cuts[|cuts| - 1]
  }
}
