/**
 The checkpoint document and its journal: what `read` accepts is exactly what `write`
 produces from a well-formed snapshot, and every journal operation keeps it well formed.
 */
module JournalFormat {
  import opened Wrappers
  import opened SessionModel

  // ---- reading back what was written ------------------------------------------

  lemma DecodeEntryExact(j: Json, e: Entry)
    ensures DecodeEntry(j) == Some(e) <==> j == EncodeEntry(e) && WellFormedEntry(e)
  {
    if DecodeEntry(j) == Some(e) {
      assert j.fields == EncodeEntry(e).fields;
    }
  }

  lemma EncodeEntriesTail(es: seq<Entry>)
    requires es != []
    ensures EncodeEntries(es)[1..] == EncodeEntries(es[1..])
  {
  }

  predicate Disjoint(es: seq<Entry>, seen: set<Text>) {
    forall i | 0 <= i < |es| :: es[i].id !in seen
  }

  lemma {:induction false} DecodeEntriesExact(js: seq<Json>, seen: set<Text>, es: seq<Entry>)
    ensures DecodeEntries(js, seen) == Some(es)
       <==> js == EncodeEntries(es) && WellFormedEntries(es) && Disjoint(es, seen)
    decreases js
  {
    if js == [] || es == [] {
      return;
    }
    var e := es[0];
    DecodeEntryExact(js[0], e);
    DecodeEntriesExact(js[1..], seen + {e.id}, es[1..]);
    EncodeEntriesTail(es);
    if js == EncodeEntries(es) && WellFormedEntries(es) && Disjoint(es, seen) {
      assert DecodeEntry(js[0]) == Some(e);
      assert WellFormedEntries(es[1..]);
      assert Disjoint(es[1..], seen + {e.id});
      assert es == [e] + es[1..];
    }
    if DecodeEntries(js, seen) == Some(es) {
      assert es == [e] + es[1..];
      assert js == [js[0]] + js[1..];
      assert EncodeEntries(es) == [EncodeEntry(e)] + EncodeEntries(es[1..]);
      forall i, j | 0 <= i < j < |es| ensures es[i].id != es[j].id {
        if i == 0 { assert es[1..][j - 1].id !in seen + {e.id}; }
        else { assert es[1..][i - 1].id != es[1..][j - 1].id; }
      }
      forall i | 0 <= i < |es| ensures WellFormedEntry(es[i]) && es[i].id !in seen {
        if i > 0 { assert es[1..][i - 1] == es[i]; }
      }
    }
  }

  /** `read`'s validation accepts exactly the documents of well-formed snapshots. */
  lemma DecodeExact(doc: Json, s: Snapshot)
    ensures Decode(doc) == Some(s) <==> doc == Encode(s) && WellFormedEntries(s.revocations)
  {
    DecodeEntriesExact(if doc.JObj? && "revocations" in doc.fields && doc.fields["revocations"].JArr?
                       then doc.fields["revocations"].items else [], {}, s.revocations);
    if Decode(doc) == Some(s) {
      assert doc.fields == Encode(s).fields;
    }
    if doc == Encode(s) && WellFormedEntries(s.revocations) {
      assert doc.fields["revocations"] == JArr(EncodeEntries(s.revocations));
    }
  }

  lemma ContentOfWritten(s: Snapshot)
    requires WellFormedEntries(s.revocations)
    ensures Content(ToFile(s)) == Some(s)
  {
    DecodeExact(Encode(s), s);
  }

  lemma ContentWellFormed(f: File)
    requires Content(f).Some?
    ensures WellFormedEntries(Content(f).value.revocations)
  {
    DecodeExact(f.doc, Content(f).value);
  }

  /** A write that took effect, synced or not, reads back equal under the writer's limits. */
  lemma WrittenReadsBack(d: Disk, s: Snapshot, lim: Limits, o: WriteOutcome)
    requires WellFormed(s, lim)
    ensures !o.Failed? && SnapshotBytes(s) <= lim.maxBytes
       ==> Read(WriteFile(d, s, lim, o).visible, lim) == Some(s)
    ensures WriteOk(s, lim, o) ==> Read(WriteFile(d, s, lim, o).durable, lim) == Some(s)
    ensures !WriteOk(s, lim, o) ==> WriteFile(d, s, lim, o).durable == d.durable
    ensures WriteFile(d, s, lim, o).rows == d.rows && WriteFile(d, s, lim, o).users == d.users
  {
    DecodeExact(Encode(s), s);
  }

  /** What `read` returns fits its limits and came from this very document. */
  lemma ReadExact(f: File, lim: Limits, s: Snapshot)
    ensures Read(f, lim) == Some(s)
       <==> f.Stored? && f.doc == Encode(s) && f.size <= lim.maxBytes && WellFormed(s, lim)
  {
    if f.Stored? {
      DecodeExact(f.doc, s);
      if Decode(f.doc).Some? { DecodeExact(f.doc, Decode(f.doc).value); }
    }
  }

  /** Certifying a clean shutdown never fails on size: the flag gets one byte shorter. */
  lemma CleanIsShorter(s: Snapshot)
    requires !s.clean
    ensures SnapshotBytes(s.(clean := true)) == SnapshotBytes(s) - 1
  {
  }

  // ---- the journal operations -------------------------------------------------

  lemma {:induction false} LiveEntriesExact(es: seq<Entry>, now: int)
    requires WellFormedEntries(es)
    ensures WellFormedEntries(LiveEntries(es, now))
    ensures |LiveEntries(es, now)| <= |es|
    ensures forall x :: x in LiveEntries(es, now) <==> x in es && x.expiresAt > now
  {
    if es != [] {
      var rest := es[1..];
      assert es == [es[0]] + rest;
      assert WellFormedEntries(rest) by {
        forall i, j | 0 <= i < j < |rest| ensures rest[i].id != rest[j].id {
          assert es[i + 1].id != es[j + 1].id;
        }
      }
      LiveEntriesExact(rest, now);
      var live := LiveEntries(rest, now);
      forall i | 0 <= i < |live| ensures live[i].id != es[0].id {
        assert live[i] in rest;
        var k :| 0 <= k < |rest| && rest[k] == live[i];
        assert es[0].id != es[k + 1].id;
      }
    }
  }

  lemma {:induction false} UpsertExact(es: seq<Entry>, e: Entry)
    requires WellFormedEntries(es) && WellFormedEntry(e)
    ensures WellFormedEntries(Upsert(es, e))
    ensures forall x :: x in Upsert(es, e) <==> x == e || (x in es && x.id != e.id)
  {
    if es == [] {
    } else {
      var rest := es[1..];
      assert es == [es[0]] + rest;
      assert WellFormedEntries(rest) by {
        forall i, j | 0 <= i < j < |rest| ensures rest[i].id != rest[j].id {
          assert es[i + 1].id != es[j + 1].id;
        }
      }
      assert forall x | x in rest :: x.id != es[0].id;
      if es[0].id == e.id {
        var r := [e] + rest;
        forall i, j | 0 <= i < j < |r| ensures r[i].id != r[j].id {
          assert es[i].id != es[j].id;
        }
      } else {
        UpsertExact(rest, e);
        var r := Upsert(es, e);
        var up := Upsert(rest, e);
        forall i, j | 0 <= i < j < |r| ensures r[i].id != r[j].id {
          assert r[j] == up[j - 1] && up[j - 1] in up;
          if i > 0 { assert up[i - 1].id != up[j - 1].id; }
        }
      }
    }
  }

  lemma {:induction false} MergeWellFormed(es: seq<Entry>, added: seq<Entry>, now: nat)
    requires WellFormedEntries(es)
    ensures MergeEntries(es, added, now).Some? ==> WellFormedEntries(MergeEntries(es, added, now).value)
    decreases added
  {
    if added != [] && Recordable(added[0]) {
      if added[0].expiresAt > now {
        UpsertExact(es, added[0]);
        MergeWellFormed(Upsert(es, added[0]), added[1..], now);
      } else {
        MergeWellFormed(es, added[1..], now);
      }
    }
  }

  /** An entry already journaled or newly added, and not expired, is in the merged journal. */
  lemma {:induction false} MergeKeeps(es: seq<Entry>, added: seq<Entry>, now: nat, x: Entry)
    requires WellFormedEntries(es) && MergeEntries(es, added, now).Some?
    requires x in es || (x in added && x.expiresAt > now)
    requires forall a | a in added && a.id == x.id :: a == x
    ensures x in MergeEntries(es, added, now).value
    decreases added
  {
    if added != [] {
      assert added == [added[0]] + added[1..];
      if added[0].expiresAt > now {
        UpsertExact(es, added[0]);
        MergeKeeps(Upsert(es, added[0]), added[1..], now, x);
      } else {
        MergeKeeps(es, added[1..], now, x);
      }
    }
  }

  /** Nothing enters the journal except what was there or was added unexpired. */
  lemma {:induction false} MergeAddsNothingElse(es: seq<Entry>, added: seq<Entry>, now: nat, x: Entry)
    requires WellFormedEntries(es) && MergeEntries(es, added, now).Some?
    requires x in MergeEntries(es, added, now).value
    ensures x in es || (x in added && x.expiresAt > now)
    decreases added
  {
    if added != [] {
      assert added == [added[0]] + added[1..];
      if added[0].expiresAt > now {
        UpsertExact(es, added[0]);
        MergeAddsNothingElse(Upsert(es, added[0]), added[1..], now, x);
      } else {
        MergeAddsNothingElse(es, added[1..], now, x);
      }
    }
  }

  /** Every snapshot `revoke` tries to write is one `read` would accept. */
  lemma NextSnapshotWellFormed(r: Recovery, added: seq<Entry>, now: nat)
    requires WellFormed(r.snapshot, r.lim) && NextSnapshot(r, added, now).Some?
    ensures WellFormed(NextSnapshot(r, added, now).value, r.lim)
    ensures !NextSnapshot(r, added, now).value.clean
    ensures NextSnapshot(r, added, now).value.key == r.snapshot.key
  {
    LiveEntriesExact(r.snapshot.revocations, now);
    MergeWellFormed(LiveEntries(r.snapshot.revocations, now), added, now);
  }

  /** So is the one startup writes, whatever file it found. */
  lemma StartSnapshotWellFormed(d: Disk, io: StartIo)
    ensures WellFormed(StartSnapshot(d, io), io.lim) && !StartSnapshot(d, io).clean
  {
    var checkpoint := ReadAtStart(d, io);
    if checkpoint.Some? {
      ContentWellFormed(d.visible);
      LiveEntriesExact(checkpoint.value.revocations, io.filterAt);
    }
  }
}
