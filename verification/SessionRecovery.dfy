/**
 The recovery owner over the disk it locks. Each method takes the outcomes its I/O calls
 had and is proved to leave exactly the state, and to pass through exactly the disks, that
 the specification in SessionModel.dfy gives for them.
 */
module SessionRecoveryOwner {
  import opened Wrappers
  import opened SessionModel

  /** The checkpoint file and the database, with a record of the state after each
   durable step, completed or not. */
  class Store {
    var visible: File
    var durable: File
    var rows: Rows
    var users: map<nat, string>
    ghost var trail: seq<Disk>

    ghost function Now(): Disk
      reads this
    {
      Disk(visible, durable, rows, users)
    }

    /** Write to a temporary, rename it over the checkpoint, sync the directory. */
    method Write(s: Snapshot, lim: Limits, o: WriteOutcome) returns (ok: bool)
      modifies this
      ensures Now() == WriteFile(old(Now()), s, lim, o) && ok == WriteOk(s, lim, o)
      ensures trail == old(trail) + [Now()]
    {
      var fits := SnapshotBytes(s) <= lim.maxBytes;
      if fits && !o.Failed? {
        visible := ToFile(s);
        if o.Synced? {
          durable := visible;
        }
      }
      ok := fits && o.Synced?;
      trail := trail + [Now()];
    }

    method KeepRows(kept: Rows)
      modifies this`rows, this`trail
      ensures Now() == old(Now()).(rows := kept) && trail == old(trail) + [Now()]
    {
      rows := kept;
      trail := trail + [Now()];
    }

    /** A durable step that threw before it changed anything. */
    method NothingDone()
      modifies this`trail
      ensures trail == old(trail) + [Now()]
    {
      trail := trail + [Now()];
    }
  }

  class SessionRecovery {
    const store: Store
    const lim: Limits
    var state: Snapshot
    var closed: bool
    var uncertain: bool

    ghost function Abstract(): Recovery
      reads this
    {
      Recovery(lim, state, closed, uncertain)
    }

    constructor (store: Store, lim: Limits, state: Snapshot)
      ensures this.store == store
      ensures Abstract() == Recovery(lim, state, false, false)
    {
      this.store, this.lim, this.state := store, lim, state;
      closed, uncertain := false, false;
    }

    /** `read`: the size check, the shape check, then one pass over the revocations. */
    static method ReadCheckpoint(f: File, lim: Limits) returns (s: Option<Snapshot>)
      ensures s == Read(f, lim)
    {
      if !f.Stored? || f.size > lim.maxBytes || !f.doc.JObj? {
        return None;
      }
      var fields := f.doc.fields;
      if fields.Keys != {"version", "clean", "key", "revocations"} {
        return None;
      }
      if fields["version"] != JNum(1) || !fields["clean"].JBool? || !fields["key"].JText?
         || !fields["key"].t.Hex64? || !fields["revocations"].JArr? {
        return None;
      }
      var items := fields["revocations"].items;
      var seen: set<Text> := {};
      var entries: seq<Entry> := [];
      assert items[0..] == items && forall rest: seq<Entry> :: entries + rest == rest;
      for i := 0 to |items|
        invariant |entries| == i
        invariant DecodeEntries(items, {}) ==
          (match DecodeEntries(items[i..], seen) case None => None case Some(rest) => Some(entries + rest))
      {
        assert items[i..][1..] == items[i + 1..];
        var e := DecodeEntry(items[i]);
        if e.None? || e.value.id in seen {
          return None;
        }
        seen := seen + {e.value.id};
        assert forall rest: seq<Entry> :: entries + ([e.value] + rest) == entries + [e.value] + rest;
        entries := entries + [e.value];
      }
      assert items[|items|..] == [] && entries + [] == entries;
      if |entries| > lim.maxEntries {
        return None;
      }
      return Some(Snapshot(fields["clean"].b, fields["key"].t.n, entries));
    }

    /**
     Startup. Null when the owner is unavailable; otherwise the rows that may authenticate.
     Nothing is returned before a dirty checkpoint is durable.
     */
    static method Open(store: Store, io: StartIo) returns (owner: SessionRecovery?, activeRows: Rows)
      modifies store
      ensures store.Now() == AfterStart(old(store.Now()), io)
      ensures store.trail == old(store.trail) + StartCuts(old(store.Now()), io)
      ensures owner != null <==> StartOk(old(store.Now()), io)
      ensures owner != null ==> fresh(owner) && owner.store == store
      ensures owner != null ==> owner.Abstract() == Started(old(store.Now()), io).recovery
      ensures owner != null ==> activeRows == Hydrated(old(store.Now()), io)
    {
      owner, activeRows := null, map[];
      if !ValidLimits(io.lim) {
        return;
      }
      var state: Option<Snapshot> := None;
      if io.readable {
        state := ReadCheckpoint(store.visible, io.lim);
      }
      if io.fault.PruneFails? {
        return;
      }
      store.KeepRows(Unexpired(store.rows, io.pruneAt));
      if io.fault.LoadFails? {
        return;
      }
      var active := Unexpired(store.rows, io.loadAt);
      var next: Snapshot;
      if state.None? || !state.value.clean || exists t | t in active :: !t.Lookup? {
        if io.fault.DestroyAllFails? {
          return;
        }
        store.KeepRows(map[]);
        active := map[];
        next := Snapshot(false, io.freshKey, []);
      } else {
        next := Snapshot(false, state.value.key, LiveEntries(state.value.revocations, io.filterAt));
      }
      var written := store.Write(next, io.lim, io.write);
      if !written {
        return;
      }
      activeRows := active - Ids(next.revocations);
      owner := new SessionRecovery(store, io.lim, next);
    }

    method LookupRaw(raw: Text) returns (id: Option<Text>)
      ensures id == LookupId(Abstract(), raw)
    {
      if closed || !raw.Hex64? {
        return None;
      }
      return Some(Lookup(state.key, raw.n));
    }

    /** Persist all these identities together. Called before any row is deleted. */
    method Revoke(entries: seq<Entry>, now: nat, o: WriteOutcome) returns (ok: bool)
      modifies this, store
      ensures var r := SessionModel.Revoke(old(store.Now()), old(Abstract()), entries, now, o);
        store.Now() == r.disk && Abstract() == r.recovery && ok == r.ok
      ensures store.trail == old(store.trail) + [store.Now()]
    {
      if closed {
        store.NothingDone();
        return false;
      }
      var start := LiveEntries(state.revocations, now);
      var merged := start;
      for i := 0 to |entries|
        invariant MergeEntries(start, entries, now) == MergeEntries(merged, entries[i..], now)
        invariant unchanged(this) && unchanged(store)
      {
        assert entries[i..][1..] == entries[i + 1..];
        if !Recordable(entries[i]) {
          uncertain := true;
          store.NothingDone();
          return false;
        }
        if entries[i].expiresAt > now {
          merged := Upsert(merged, entries[i]);
        }
      }
      if |merged| > lim.maxEntries {
        uncertain := true;
        store.NothingDone();
        return false;
      }
      var next := Snapshot(false, state.key, merged);
      ok := store.Write(next, lim, o);
      if ok {
        state := next;
      } else {
        uncertain := true;
      }
    }

    /** Only a drained caller asks for a clean close, and only a certain owner writes one. */
    method Close(clean: bool, o: WriteOutcome) returns (persistedClean: bool)
      modifies this, store
      ensures var r := SessionModel.Close(old(store.Now()), old(Abstract()), clean, o);
        store.Now() == r.disk && Abstract() == r.recovery && persistedClean == r.ok
      ensures store.trail == old(store.trail) + [store.Now()]
    {
      persistedClean := false;
      if closed || !clean || uncertain {
        store.NothingDone();
      } else {
        persistedClean := store.Write(state.(clean := true), lim, o);
      }
      closed := true;
    }
  }
}
