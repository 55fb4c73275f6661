/**
 The per-account caps of the signed-in library. Every operation keeps each account's row
 counts and stored characters within the caps, samples assigned to partners of their own
 account, and slugs unique within an account.
 */
module LibraryModels {
  import opened Wrappers
  import opened Addresses
  import opened LibraryTables
  import Slugs

  const PARTNER_NAME_MAX: nat := 200
  const PARTNER_NOTES_MAX: nat := 4000
  const CORPUS_NOTES_MAX: nat := 4096
  const EVENTS_MAX: nat := 1024 * 1024

  datatype Caps = Caps(samples: nat, corpus: nat, partners: nat, bytes: nat)

  datatype Resource = Samples | CorpusRows | Partners | Bytes

  datatype Error = PartnerNotFound | NameRequired | EventsTooLarge | QuotaExceeded(resource: Resource)

  /** `partner_id` of an update: undefined, or the new value. */
  datatype Assignment = Keep | Assign(partner: Option<nat>)

  function Or(s: Option<string>, fallback: string): string {
    if s.Some? then s.value else fallback
  }

  /** `s || fallback`: the empty string is falsy too. */
  function OrIfEmpty(s: Option<string>, fallback: string): string {
    if s.Some? && s.value != "" then s.value else fallback
  }

  function Length(s: Option<string>): nat {
    |Or(s, "")|
  }

  function Slice(s: string, max: nat): string {
    if |s| <= max then s else s[..max]
  }

  lemma {:induction false} TrimShrinks(s: string)
    ensures |TrimLeft(s)| <= |s| && |TrimRight(s)| <= |s|
  {
    if s != [] {
      TrimShrinks(s[1..]);
      TrimShrinks(s[..|s| - 1]);
    }
  }

  lemma TrimmedIsShorter(s: string)
    ensures |Trim(s)| <= |s|
  {
    TrimShrinks(s);
    TrimShrinks(TrimLeft(s));
  }

  /** What a new sample stores, and what it is charged before anything is trimmed. */
  function NewSample(id: nat, userId: nat, partner: Option<nat>, title: Option<string>, bidReq: Option<string>,
                     bidRes: Option<string>, notes: Option<string>): Row {
    Sample(id, userId, partner, Trim(OrIfEmpty(title, "untitled")), Or(bidReq, ""), Or(bidRes, ""), Trim(Or(notes, "")))
  }

  function NewSampleCharge(title: Option<string>, bidReq: Option<string>, bidRes: Option<string>, notes: Option<string>): nat {
    |OrIfEmpty(title, "untitled")| + Length(bidReq) + Length(bidRes) + Length(notes)
  }

  function EditedSample(cur: Row, partner: Assignment, title: Option<string>, bidReq: Option<string>,
                        bidRes: Option<string>, notes: Option<string>): Row
    requires cur.Sample?
  {
    Sample(cur.id, cur.userId, if partner.Keep? then cur.partner else partner.partner,
           if title.Some? then Trim(title.value) else cur.title, Or(bidReq, cur.bidReq), Or(bidRes, cur.bidRes),
           if notes.Some? then Trim(notes.value) else cur.notes)
  }

  /** By how much an edit is taken to grow the sample. */
  function Growth(cur: Row, title: Option<string>, bidReq: Option<string>, bidRes: Option<string>, notes: Option<string>): int
    requires cur.Sample?
  {
    |Or(title, cur.title)| + |Or(bidReq, cur.bidReq)| + |Or(bidRes, cur.bidRes)| + |Or(notes, cur.notes)| - Size(cur)
  }

  /** Nothing is stored that was not charged. */
  lemma StoredIsCharged(id: nat, userId: nat, cur: Row, partner: Option<nat>, a: Assignment, title: Option<string>,
                        bidReq: Option<string>, bidRes: Option<string>, notes: Option<string>)
    ensures Size(NewSample(id, userId, partner, title, bidReq, bidRes, notes)) <= NewSampleCharge(title, bidReq, bidRes, notes)
    ensures cur.Sample? ==>
      Size(EditedSample(cur, a, title, bidReq, bidRes, notes)) <= Size(cur) + Growth(cur, title, bidReq, bidRes, notes)
  {
    TrimmedIsShorter(OrIfEmpty(title, "untitled"));
    TrimmedIsShorter(Or(title, ""));
    TrimmedIsShorter(Or(notes, ""));
  }

  // ---- what every operation keeps ---------------------------------------------

  datatype Db = Db(samples: Table, corpus: Table, partners: Table)

  /** SUM over samples and corpus: what the byte cap is compared with. */
  function Used(db: Db, userId: nat): nat {
    Chars(db.samples, userId) + Chars(db.corpus, userId)
  }

  ghost predicate Typed(db: Db) {
    && (forall r | r in db.samples :: r.Sample?) && (forall r | r in db.corpus :: r.Corpus?)
    && (forall r | r in db.partners :: r.Partner?)
    && UniqueIds(db.samples) && UniqueIds(db.corpus) && UniqueIds(db.partners)
  }

  ghost predicate WithinCaps(db: Db, cap: Caps) {
    forall u: nat ::
      && Count(db.samples, u) <= cap.samples && Count(db.corpus, u) <= cap.corpus && Count(db.partners, u) <= cap.partners
      && Used(db, u) <= cap.bytes
  }

  /** Every assigned sample names a partner of its own account. */
  ghost predicate AssignmentsOwned(db: Db) {
    forall s | s in db.samples && s.Sample? && s.partner.Some? :: Get(db.partners, s.partner.value, s.userId).Some?
  }

  ghost predicate SlugsUnique(t: Table) {
    forall i, j | 0 <= i < j < |t| && t[i].Partner? && t[j].Partner? :: t[i].userId == t[j].userId ==> t[i].slug != t[j].slug
  }

  ghost predicate Sound(db: Db, cap: Caps) {
    Typed(db) && WithinCaps(db, cap) && AssignmentsOwned(db) && SlugsUnique(db.partners)
  }

  /** The slugs of an account, which `ensureUniqueSlug` looks up one by one. */
  function TakenSlugs(t: Table, userId: nat): set<string> {
    set i | 0 <= i < |t| && t[i].Partner? && t[i].userId == userId :: t[i].slug
  }

  ghost predicate Owns(db: Db, partner: Option<nat>, userId: nat) {
    partner.Some? ==> Get(db.partners, partner.value, userId).Some?
  }

  lemma SampleAdded(db: Db, cap: Caps, row: Row)
    requires Sound(db, cap) && row.Sample? && Owns(db, row.partner, row.userId)
    requires forall s | s in db.samples :: s.id != row.id
    requires Count(db.samples, row.userId) + 1 <= cap.samples && Used(db, row.userId) + Size(row) <= cap.bytes
    ensures Sound(db.(samples := db.samples + [row]), cap)
  {
    hide Count, Chars, Get;
    forall u: nat { AddedRow(db.samples, row, u); }
    forall i | 0 <= i < |db.samples| ensures db.samples[i].id != row.id { assert db.samples[i] in db.samples; }
  }

  /** A partial update: within the caps if what it stores is no larger, or fits. */
  lemma SampleUpdated(db: Db, cap: Caps, row: Row)
    requires Sound(db, cap) && row.Sample? && Owns(db, row.partner, row.userId) && Get(db.samples, row.id, row.userId).Some?
    requires var grown := Size(row) - Size(Get(db.samples, row.id, row.userId).value);
      grown <= 0 || Used(db, row.userId) + grown <= cap.bytes
    ensures Sound(db.(samples := Update(db.samples, row.id, row.userId, row)), cap)
  {
    hide Count, Chars, Get;
    var t' := Update(db.samples, row.id, row.userId, row);
    forall u: nat { UpdatedRow(db.samples, row.id, row.userId, row, u); }
    UpdateMembers(db.samples, row);
  }

  lemma UpdateMembers(t: Table, row: Row)
    requires UniqueIds(t)
    ensures UniqueIds(Update(t, row.id, row.userId, row))
    ensures forall x | x in Update(t, row.id, row.userId, row) :: x == row || x in t
  {
  }

  lemma SampleDeleted(db: Db, cap: Caps, id: nat, userId: nat)
    requires Sound(db, cap)
    ensures Sound(db.(samples := Delete(db.samples, id, userId)), cap)
  {
    hide Count, Chars, Get, Delete;
    forall u: nat { DeletedRow(db.samples, id, userId, u); }
    DeleteKeepsIds(db.samples, id, userId);
  }

  lemma CorpusAdded(db: Db, cap: Caps, row: Row)
    requires Sound(db, cap) && row.Corpus? && forall c | c in db.corpus :: c.id != row.id
    requires Count(db.corpus, row.userId) + 1 <= cap.corpus && Used(db, row.userId) + Size(row) <= cap.bytes
    ensures Sound(db.(corpus := db.corpus + [row]), cap)
  {
    hide Count, Chars, Get;
    forall u: nat { AddedRow(db.corpus, row, u); }
    forall i | 0 <= i < |db.corpus| ensures db.corpus[i].id != row.id { assert db.corpus[i] in db.corpus; }
  }

  lemma CorpusDeleted(db: Db, cap: Caps, id: nat, userId: nat)
    requires Sound(db, cap)
    ensures Sound(db.(corpus := Delete(db.corpus, id, userId)), cap)
  {
    hide Count, Chars, Get, Delete;
    forall u: nat { DeletedRow(db.corpus, id, userId, u); }
    DeleteKeepsIds(db.corpus, id, userId);
  }

  lemma PartnerAdded(db: Db, cap: Caps, row: Row)
    requires Sound(db, cap) && row.Partner? && forall p | p in db.partners :: p.id != row.id
    requires Count(db.partners, row.userId) + 1 <= cap.partners && row.slug !in TakenSlugs(db.partners, row.userId)
    ensures Sound(db.(partners := db.partners + [row]), cap)
  {
    hide Count, Chars, Get;
    forall u: nat { AddedRow(db.partners, row, u); }
    var t' := db.partners + [row];
    forall i | 0 <= i < |db.partners| ensures db.partners[i].id != row.id { assert db.partners[i] in db.partners; }
    forall p: nat, u: nat | Get(db.partners, p, u).Some? ensures Get(t', p, u).Some? {
      assert Get(db.partners, p, u).value in t';
    }
  }

  lemma PartnerUpdated(db: Db, cap: Caps, row: Row)
    requires Sound(db, cap) && row.Partner? && Get(db.partners, row.id, row.userId).Some?
    requires row.slug == Get(db.partners, row.id, row.userId).value.slug || row.slug !in TakenSlugs(db.partners, row.userId)
    ensures Sound(db.(partners := Update(db.partners, row.id, row.userId, row)), cap)
  {
    hide Count, Chars, Get;
    var t, t' := db.partners, Update(db.partners, row.id, row.userId, row);
    forall u: nat { UpdatedRow(t, row.id, row.userId, row, u); }
    UpdateMembers(t, row);
    SlugsStayUnique(t, row);
    forall p: nat, u: nat | Get(t, p, u).Some? ensures Get(t', p, u).Some? {
      var x := Get(t, p, u).value;
      var i :| 0 <= i < |t| && t[i] == x;
      assert t'[i] in t' && Names(t'[i], p, u);
    }
  }

  lemma SlugsStayUnique(t: Table, row: Row)
    requires UniqueIds(t) && SlugsUnique(t) && row.Partner? && (forall p | p in t :: p.Partner?)
    requires Get(t, row.id, row.userId).Some?
    requires row.slug == Get(t, row.id, row.userId).value.slug || row.slug !in TakenSlugs(t, row.userId)
    ensures SlugsUnique(Update(t, row.id, row.userId, row))
  {
    hide Get;
    var t' := Update(t, row.id, row.userId, row);
    var cur := Get(t, row.id, row.userId).value;
    var k :| 0 <= k < |t| && t[k] == cur;
    forall i | 0 <= i < |t| && i != k ensures t'[i] == t[i] && (t[i].userId == row.userId ==> t[i].slug != row.slug) {
      assert t[i].id != t[k].id && t[i] in t;
    }
  }

  /** Deleting a partner unassigns its samples first, so none is left pointing at nothing. */
  lemma PartnerDeleted(db: Db, cap: Caps, id: nat, userId: nat)
    requires Sound(db, cap) && Get(db.partners, id, userId).Some?
    ensures Sound(db.(partners := Delete(db.partners, id, userId), samples := Unassign(db.samples, id)), cap)
  {
    hide Count, Chars, Get, Delete, Unassign, Size;
    var t, t' := db.partners, Delete(db.partners, id, userId);
    forall u: nat { DeletedRow(t, id, userId, u); }
    forall u: nat { UnassignedRows(db.samples, id, u); }
    DeleteKeepsIds(t, id, userId);
    SlugsStayAfterDelete(t, id, userId);
    var samples' := Unassign(db.samples, id);
    forall s | s in samples' && s.Sample? && s.partner.Some? ensures Get(t', s.partner.value, s.userId).Some? {
      var i :| 0 <= i < |samples'| && samples'[i] == s;
      assert s == db.samples[i] && db.samples[i] in db.samples;
      assert Get(t, s.partner.value, s.userId).value in t';
    }
    forall s | s in samples' ensures s.Sample? {
      var i :| 0 <= i < |samples'| && samples'[i] == s;
      assert db.samples[i] in db.samples;
    }
  }

  lemma {:induction false} SlugsStayAfterDelete(t: Table, id: nat, userId: nat)
    requires SlugsUnique(t)
    ensures SlugsUnique(Delete(t, id, userId))
  {
    if t != [] {
      var init, last := t[..|t| - 1], t[|t| - 1];
      SlugsStayAfterDelete(init, id, userId);
      var rest := Delete(init, id, userId);
      forall i | 0 <= i < |rest| && rest[i].Partner? && last.Partner? && rest[i].userId == last.userId
        ensures rest[i].slug != last.slug
      {
        assert rest[i] in init;
      }
    }
  }

  // ---- the models -------------------------------------------------------------

  class Library {
    const cap: Caps
    var samples: Table
    var corpus: Table
    var partners: Table

    function State(): Db
      reads this
    {
      Db(samples, corpus, partners)
    }

    ghost predicate Valid()
      reads this
    {
      Sound(State(), cap)
    }

    constructor (cap: Caps)
      ensures Valid() && this.cap == cap && State() == Db([], [], [])
    {
      this.cap := cap;
      samples, corpus, partners := [], [], [];
    }

    function CapOf(resource: Resource): nat {
      match resource
      case Samples => cap.samples
      case CorpusRows => cap.corpus
      case Partners => cap.partners
      case Bytes => cap.bytes
    }

    function TableOf(resource: Resource): Table
      reads this
    {
      match resource
      case Samples => samples
      case CorpusRows => corpus
      case _ => partners
    }

    /** `assertCanAdd`: rows first, then characters; None when both fit. */
    method AssertCanAdd(userId: nat, resource: Resource, rows: nat, bytes: int) returns (refusal: Option<Error>)
      requires !resource.Bytes?
      ensures refusal ==
        if rows > 0 && Count(TableOf(resource), userId) + rows > CapOf(resource) then Some(QuotaExceeded(resource))
        else if bytes > 0 && Used(State(), userId) + bytes > cap.bytes then Some(QuotaExceeded(Bytes))
        else None
    {
      if rows > 0 {
        var have := Count(TableOf(resource), userId);
        if have + rows > CapOf(resource) { return Some(QuotaExceeded(resource)); }
      }
      if bytes > 0 {
        var used := Used(State(), userId);
        if used + bytes > cap.bytes { return Some(QuotaExceeded(Bytes)); }
      }
      return None;
    }

    method SampleCreate(id: nat, userId: nat, partner: Option<nat>, title: Option<string>, bidReq: Option<string>,
                        bidRes: Option<string>, notes: Option<string>) returns (r: Result<Row, Error>)
      requires Valid() && forall s | s in samples :: s.id != id
      modifies this`samples
      ensures Valid()
      ensures var charge := NewSampleCharge(title, bidReq, bidRes, notes);
        r == if partner.Some? && Get(partners, partner.value, userId).None? then Err(PartnerNotFound)
             else if Count(old(samples), userId) + 1 > cap.samples then Err(QuotaExceeded(Samples))
             else if Used(old(State()), userId) + charge > cap.bytes then Err(QuotaExceeded(Bytes))
             else Ok(NewSample(id, userId, partner, title, bidReq, bidRes, notes))
      ensures samples == if r.Ok? then old(samples) + [r.value] else old(samples)
    {
      hide Sound, Count, Chars, Used, NewSampleCharge, Size;
      if partner.Some? && Get(partners, partner.value, userId).None? { return Err(PartnerNotFound); }
      var charge := NewSampleCharge(title, bidReq, bidRes, notes);
      ChargeIsPositive(title, bidReq, bidRes, notes);
      var refusal := AssertCanAdd(userId, Samples, 1, charge);
      if refusal.Some? { return Err(refusal.value); }
      var row := NewSample(id, userId, partner, title, bidReq, bidRes, notes);
      StoredIsCharged(id, userId, row, partner, Keep, title, bidReq, bidRes, notes);
      SampleAdded(State(), cap, row);
      samples := samples + [row];
      r := Ok(row);
    }

    method SampleUpdate(id: nat, userId: nat, partner: Assignment, title: Option<string>, bidReq: Option<string>,
                        bidRes: Option<string>, notes: Option<string>) returns (r: Result<Option<Row>, Error>)
      requires Valid()
      modifies this`samples
      ensures Valid()
      ensures var cur := Get(old(samples), id, userId);
        if cur.None? then r == Ok(None) && samples == old(samples)
        else if partner.Assign? && partner.partner.Some? && Get(partners, partner.partner.value, userId).None?
        then r == Err(PartnerNotFound) && samples == old(samples)
        else
          cur.value.Sample? &&
          var grown := Growth(cur.value, title, bidReq, bidRes, notes);
          if grown > 0 && Used(old(State()), userId) + grown > cap.bytes
          then r == Err(QuotaExceeded(Bytes)) && samples == old(samples)
          else
            && r == Ok(Some(EditedSample(cur.value, partner, title, bidReq, bidRes, notes)))
            && samples == Update(old(samples), id, userId, r.value.value)
    {
      hide Sound, Count, Chars, Used, Growth, Size, Get;
      var cur := Get(samples, id, userId);
      if cur.None? { return Ok(None); }
      CurrentSample(State(), cap, id, userId);
      if partner.Assign? && partner.partner.Some? && Get(partners, partner.partner.value, userId).None? {
        return Err(PartnerNotFound);
      }
      var grown := Growth(cur.value, title, bidReq, bidRes, notes);
      if grown > 0 {
        var refusal := AssertCanAdd(userId, Samples, 0, grown);
        if refusal.Some? { return Err(refusal.value); }
      }
      var row := EditedSample(cur.value, partner, title, bidReq, bidRes, notes);
      StoredIsCharged(id, userId, cur.value, None, partner, title, bidReq, bidRes, notes);
      SampleUpdated(State(), cap, row);
      samples := Update(samples, id, userId, row);
      r := Ok(Some(row));
    }

    method SampleDelete(id: nat, userId: nat) returns (changed: bool)
      requires Valid()
      modifies this`samples
      ensures Valid() && samples == Delete(old(samples), id, userId)
      ensures changed <==> Get(old(samples), id, userId).Some?
    {
      hide Sound;
      changed := Get(samples, id, userId).Some?;
      SampleDeleted(State(), cap, id, userId);
      samples := Delete(samples, id, userId);
    }

    method CorpusCreate(id: nat, userId: nat, eventsJson: string, notes: Option<string>) returns (r: Result<Row, Error>)
      requires Valid() && forall c | c in corpus :: c.id != id
      modifies this`corpus
      ensures Valid()
      ensures var stored := Slice(Or(notes, ""), CORPUS_NOTES_MAX);
        var charge := |eventsJson| + |stored|;
        r == if |eventsJson| > EVENTS_MAX then Err(EventsTooLarge)
             else if Count(old(corpus), userId) + 1 > cap.corpus then Err(QuotaExceeded(CorpusRows))
             else if charge > 0 && Used(old(State()), userId) + charge > cap.bytes then Err(QuotaExceeded(Bytes))
             else Ok(Corpus(id, userId, eventsJson, stored))
      ensures corpus == if r.Ok? then old(corpus) + [r.value] else old(corpus)
    {
      hide Sound, Count, Chars, Used;
      if |eventsJson| > EVENTS_MAX { return Err(EventsTooLarge); }
      var stored := Slice(Or(notes, ""), CORPUS_NOTES_MAX);
      var refusal := AssertCanAdd(userId, CorpusRows, 1, |eventsJson| + |stored|);
      if refusal.Some? { return Err(refusal.value); }
      var row := Corpus(id, userId, eventsJson, stored);
      AlreadyWithin(State(), cap, userId);
      CorpusAdded(State(), cap, row);
      corpus := corpus + [row];
      r := Ok(row);
    }

    method CorpusDestroy(id: nat, userId: nat) returns (changed: bool)
      requires Valid()
      modifies this`corpus
      ensures Valid() && corpus == Delete(old(corpus), id, userId)
      ensures changed <==> Get(old(corpus), id, userId).Some?
    {
      hide Sound;
      changed := Get(corpus, id, userId).Some?;
      CorpusDeleted(State(), cap, id, userId);
      corpus := Delete(corpus, id, userId);
    }

    /** `base` is the slug the wish or the name is turned into. */
    method PartnerCreate(id: nat, userId: nat, name: string, base: string, notes: Option<string>) returns (r: Result<Row, Error>)
      requires Valid() && forall p | p in partners :: p.id != id
      modifies this`partners
      ensures Valid()
      ensures r.Err? ==> r.error == if Trim(name) == "" then NameRequired else QuotaExceeded(Partners)
      ensures r.Ok? <==> Trim(name) != "" && Count(old(partners), userId) + 1 <= cap.partners
      ensures r.Ok? ==> r.value.Partner? && Slugs.FirstFree(TakenSlugs(old(partners), userId), base, r.value.slug)
      ensures r.Ok? ==>
        r.value == Partner(id, userId, Slice(Trim(name), PARTNER_NAME_MAX), r.value.slug, Slice(Trim(Or(notes, "")), PARTNER_NOTES_MAX))
      ensures partners == if r.Ok? then old(partners) + [r.value] else old(partners)
    {
      hide Sound, Count, Chars, Used, TakenSlugs, Trim;
      if Trim(name) == "" { return Err(NameRequired); }
      var refusal := AssertCanAdd(userId, Partners, 1, 0);
      if refusal.Some? { return Err(refusal.value); }
      var slug := Slugs.EnsureUniqueSlug(TakenSlugs(partners, userId), base);
      var row := Partner(id, userId, Slice(Trim(name), PARTNER_NAME_MAX), slug, Slice(Trim(Or(notes, "")), PARTNER_NOTES_MAX));
      PartnerAdded(State(), cap, row);
      partners := partners + [row];
      r := Ok(row);
    }

    /** `slug` is the wish, empty for none, and `base` what it is turned into. */
    method PartnerUpdate(id: nat, userId: nat, name: Option<string>, slug: string, base: string, notes: Option<string>)
      returns (r: Option<Row>)
      requires Valid()
      modifies this`partners
      ensures Valid()
      ensures var cur := Get(old(partners), id, userId);
        if cur.None? then r == None && partners == old(partners)
        else
          && cur.value.Partner? && r.Some? && r.value.Partner?
          && (slug == "" || slug == cur.value.slug ==> r.value.slug == cur.value.slug)
          && (slug != "" && slug != cur.value.slug ==>
                Slugs.FirstFree(TakenSlugs(old(partners), userId), base, r.value.slug))
          && r.value == Partner(id, userId,
                                if name.Some? then Slice(Trim(name.value), PARTNER_NAME_MAX) else cur.value.name,
                                r.value.slug,
                                if notes.Some? then Slice(Trim(notes.value), PARTNER_NOTES_MAX) else cur.value.notes)
          && partners == Update(old(partners), id, userId, r.value)
    {
      hide Count, Chars, Used, TakenSlugs, Trim, Slice, WithinCaps, SlugsUnique, UniqueIds, Get;
      var cur := Get(partners, id, userId);
      if cur.None? { return None; }
      var finalSlug := cur.value.slug;
      if slug != "" && slug != cur.value.slug {
        finalSlug := Slugs.EnsureUniqueSlug(TakenSlugs(partners, userId), base);
      }
      var row := Partner(id, userId,
                         if name.Some? then Slice(Trim(name.value), PARTNER_NAME_MAX) else cur.value.name,
                         finalSlug,
                         if notes.Some? then Slice(Trim(notes.value), PARTNER_NOTES_MAX) else cur.value.notes);
      PartnerUpdated(State(), cap, row);
      partners := Update(partners, id, userId, row);
      r := Some(row);
    }

    /** The row goes, and the foreign key unassigns its samples. */
    method PartnerDelete(id: nat, userId: nat) returns (changed: bool)
      requires Valid()
      modifies this`partners, this`samples
      ensures Valid()
      ensures changed <==> Get(old(partners), id, userId).Some?
      ensures partners == if changed then Delete(old(partners), id, userId) else old(partners)
      ensures samples == if changed then Unassign(old(samples), id) else old(samples)
    {
      hide Sound;
      changed := Get(partners, id, userId).Some?;
      if changed {
        PartnerDeleted(State(), cap, id, userId);
        partners := Delete(partners, id, userId);
        samples := Unassign(samples, id);
      }
    }
  }

  lemma CurrentSample(db: Db, cap: Caps, id: nat, userId: nat)
    requires Sound(db, cap) && Get(db.samples, id, userId).Some?
    ensures var cur := Get(db.samples, id, userId).value;
      cur.Sample? && Owns(db, cur.partner, userId)
  {
  }

  lemma ChargeIsPositive(title: Option<string>, bidReq: Option<string>, bidRes: Option<string>, notes: Option<string>)
    ensures NewSampleCharge(title, bidReq, bidRes, notes) > 0
  {
  }

  lemma AlreadyWithin(db: Db, cap: Caps, userId: nat)
    requires Sound(db, cap)
    ensures Used(db, userId) <= cap.bytes
  {
  }
}
