/**
 The one exception to permanent revocation, as a concrete run: log in, log out while the row
 delete fails, restart cleanly at the millisecond the session expires, with the rows loaded
 one millisecond earlier. The logged-out cookie is believed again for that millisecond.
 */
module ExpiryInstant {
  import opened Wrappers
  import opened SessionModel
  import opened JournalFormat
  import opened SessionRuns
  import opened SessionTheorems

  const LIMITS := Limits(16, 4096)
  const USERS: map<nat, string> := map[7 := "hash"]
  const ID := Lookup(1, 5)
  const ROW := Session(7, SESSION_TTL_MS)
  const LIVE := Snapshot(false, 1, [])
  const REVOKED := Snapshot(false, 1, [Entry(ID, SESSION_TTL_MS)])

  function Io(load: nat, filter: nat, key: nat): StartIo {
    StartIo(LIMITS, true, load, load, filter, key, NoFault, Synced)
  }

  function DiskOf(s: Snapshot, rows: Rows): Disk {
    Disk(ToFile(s), ToFile(s), rows, USERS)
  }

  function Events(): seq<Event> {
    [Startup(Io(0, 0, 1)),
     Serve(SessionUser(7, true)),
     Serve(Mint(0, true, 5, RowStored)),
     Serve(Destroy(Hex64(5), Synced, false)),
     Serve(BeginShutdown),
     Serve(Shutdown(true, Synced)),
     Startup(Io(SESSION_TTL_MS - 1, SESSION_TTL_MS, 2))]
  }

  function Fresh(): World {
    World(Disk(Absent, Absent, map[], USERS), None, 0, History(map[], {}, {}, {}, map[], {}, 0, {}))
  }

  function Auth(proofs: map<nat, Proof>, sessions: Rows, next: nat, closing: bool): AuthState {
    AuthState(sessions, map[], proofs, map[], next, closing, false, false)
  }

  function Serving1(s: Snapshot, rows: Rows, a: AuthState, h: History): World {
    World(DiskOf(s, rows), Some(Proc(Recovery(LIMITS, s, false, false), a)), 0, h)
  }

  function Before(): History { History(map[], {}, {1}, {}, map[], {}, 1, {}) }

  function Minted(): History { History(map[ID := ROW], {}, {1}, {5}, map[ID := 0], {0}, 1, {}) }

  function LoggedOut(): History { Minted().(revoked := {ID}) }

  function Worlds(): seq<World> {
    [Fresh(),
     Serving1(LIVE, map[], Auth(map[], map[], 0, false), Before()),
     Serving1(LIVE, map[], Auth(map[0 := Proof(7, Some("hash"), 0)], map[], 1, false), Before()),
     Serving1(LIVE, map[ID := ROW], Auth(map[], map[ID := ROW], 1, false), Minted()),
     Serving1(REVOKED, map[ID := ROW], Auth(map[], map[], 1, false), LoggedOut()),
     Serving1(REVOKED, map[ID := ROW], Auth(map[], map[], 1, true), LoggedOut()),
     Closed(),
     Restarted()]
  }

  function Closed(): World {
    World(DiskOf(REVOKED.(clean := true), map[ID := ROW]),
          Some(Proc(Recovery(LIMITS, REVOKED, true, false), Auth(map[], map[], 1, true).(closed := true))),
          0, LoggedOut())
  }

  function Restarted(): World {
    World(DiskOf(LIVE, map[ID := ROW]),
          Some(Proc(Recovery(LIMITS, LIVE, false, false), Auth(map[], map[ID := ROW], 0, false))),
          SESSION_TTL_MS,
          LoggedOut().(keys := {1, 2}, mintEpoch := map[], spent := {}, boots := 2, straddled := {ID}))
  }

  lemma TtlDigits()
    ensures Digits(SESSION_TTL_MS) == 10
  {
    assert Digits(2592) == 4;
    assert Digits(2592000) == 7;
    assert Digits(2592000000) == 10;
  }

  lemma RevokedBytes()
    ensures SnapshotBytes(REVOKED) <= 4096
  {
    TtlDigits();
    var e := Entry(ID, SESSION_TTL_MS);
    assert EntryBytes(e) <= 200;
    assert [e][1..] == [] && EntriesBytes([e]) == EntryBytes(e);
  }

  predicate StepsTo(i: nat)
    requires i < 7
  {
    Enabled(Worlds()[i], Events()[i]) && Step(Worlds()[i], Events()[i]) == Worlds()[i + 1]
  }

  lemma FirstStart()
    ensures StepsTo(0)
  {
  }

  lemma Login()
    ensures StepsTo(1)
  {
  }

  lemma MintSession()
    ensures StepsTo(2)
  {
  }

  lemma Logout()
    ensures StepsTo(3)
  {
    RevokedBytes();
    var e := Entry(ID, SESSION_TTL_MS);
    assert [e][1..] == [];
    assert MergeEntries([], [e], 0) == MergeEntries(Upsert([], e), [e][1..], 0) == Some([e]);
    assert WithoutId(map[ID := ROW], ID) == map[];
    assert Minted().revoked + {ID} == {ID};
  }

  lemma Drain()
    ensures StepsTo(4)
  {
  }

  lemma CleanShutdown()
    ensures StepsTo(5)
  {
    CleanIsShorter(REVOKED);
    RevokedBytes();
  }

  lemma RestartReads(d: Disk, io: StartIo)
    requires d == Closed().disk && io == Io(SESSION_TTL_MS - 1, SESSION_TTL_MS, 2)
    ensures ReadAtStart(d, io) == Some(REVOKED.(clean := true)) && Loaded(d, io) == map[ID := ROW]
    ensures StartSnapshot(d, io) == LIVE && Straddled(d, io) == {ID} && Hydrated(d, io) == map[ID := ROW]
  {
    var s := REVOKED.(clean := true);
    CleanIsShorter(REVOKED);
    RevokedBytes();
    ReadExact(d.visible, LIMITS, s);
    assert Loaded(d, io) == map[ID := ROW];
    assert s.revocations[0].id == ID && ID in Ids(s.revocations);
    assert LiveEntries(s.revocations, SESSION_TTL_MS) == [];
    assert StartSnapshot(d, io) == LIVE;
  }

  lemma RestartWrites(d: Disk, io: StartIo)
    requires d == Closed().disk && io == Io(SESSION_TTL_MS - 1, SESSION_TTL_MS, 2)
    ensures StartOk(d, io) && AfterStart(d, io) == Restarted().disk
  {
    RestartReads(d, io);
    assert SnapshotBytes(LIVE) <= 4096;
    assert Trusted(ReadAtStart(d, io), Loaded(d, io));
    assert Unexpired(d.rows, io.pruneAt) == map[ID := ROW];
  }

  lemma RestartServes(w: World, io: StartIo)
    requires w == Closed() && io == Io(SESSION_TTL_MS - 1, SESSION_TTL_MS, 2)
    ensures Started(w.disk, io) == Restarted().proc.value && HistoryAfterStart(w, io) == Restarted().hist
  {
    RestartReads(w.disk, io);
    hide StartSnapshot, Straddled, Hydrated, ReadAtStart, Loaded;
    assert {1} + {2} == {1, 2};
  }

  lemma Restart()
    ensures StepsTo(6)
  {
    var w, io := Closed(), Io(SESSION_TTL_MS - 1, SESSION_TTL_MS, 2);
    RestartReads(w.disk, io);
    RestartWrites(w.disk, io);
    RestartServes(w, io);
    assert Step(w, Startup(io)) == Restarted() by {
      hide AfterStart, StartOk, Started, HistoryAfterStart;
    }
  }

  lemma EveryStep(i: nat)
    requires i < 7
    ensures StepsTo(i)
  {
    match i
    case 0 => FirstStart();
    case 1 => Login();
    case 2 => MintSession();
    case 3 => Logout();
    case 4 => Drain();
    case 5 => CleanShutdown();
    case _ => Restart();
  }

  lemma FreshIsInit()
    ensures Worlds()[0] == Fresh() && Init(Fresh())
  {
  }

  lemma WholeRun()
    ensures Run(Worlds(), Events())
  {
    hide Enabled, Step, Fresh, Serving1, Closed, Restarted, Init;
    FreshIsInit();
    forall i | 0 <= i < |Events()|
      ensures Enabled(Worlds()[i], Events()[i]) && Worlds()[i + 1] == Step(Worlds()[i], Events()[i])
    {
      EveryStep(i);
      assert StepsTo(i);
    }
  }

  /** A run in which a logged-out cookie resolves again. */
  lemma LoggedOutCookieComesBack()
    ensures Run(Worlds(), Events())
    ensures RevokesAt(Worlds()[3], Events()[3], ID)
    ensures Resolved(Worlds()[7], Hex64(ID.cookie)) == Some(7)
  {
    hide Run;
    WholeRun();
    EveryStep(3);
  }
}
