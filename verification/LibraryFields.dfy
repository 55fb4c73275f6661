/** What a write stores, field by field, and what reads give back afterwards. */
module LibraryFields {
  import opened Wrappers
  import opened Addresses
  import opened LibraryTables
  import opened LibraryModels

  predicate Blank(s: string) {
    forall i | 0 <= i < |s| :: IsSpace(s[i])
  }

  /** `t` is `s` without the white space around it. */
  ghost predicate IsTrimmed(t: string, s: string) {
    && (exists a, b :: Blank(a) && Blank(b) && s == a + t + b)
    && (t != "" ==> !IsSpace(t[0]) && !IsSpace(t[|t| - 1]))
  }

  lemma {:induction false} TrimLeftExact(s: string) returns (a: string)
    ensures Blank(a) && s == a + TrimLeft(s) && (TrimLeft(s) != "" ==> !IsSpace(TrimLeft(s)[0]))
  {
    a := "";
    if s != "" && IsSpace(s[0]) {
      var rest := TrimLeftExact(s[1..]);
      a := [s[0]] + rest;
      assert s == [s[0]] + (rest + TrimLeft(s[1..]));
    }
  }

  lemma {:induction false} TrimRightExact(s: string) returns (b: string)
    ensures Blank(b) && s == TrimRight(s) + b && TrimRight(s) <= s
    ensures TrimRight(s) != "" ==> !IsSpace(TrimRight(s)[|TrimRight(s)| - 1])
  {
    b := "";
    if s != "" && IsSpace(s[|s| - 1]) {
      var rest := TrimRightExact(s[..|s| - 1]);
      b := rest + [s[|s| - 1]];
      assert s == (TrimRight(s[..|s| - 1]) + rest) + [s[|s| - 1]];
    }
  }

  lemma TrimExact(s: string)
    ensures IsTrimmed(Trim(s), s)
  {
    var a := TrimLeftExact(s);
    var b := TrimRightExact(TrimLeft(s));
    assert s == a + Trim(s) + b;
  }

  // ---- samples ----------------------------------------------------------------

  /** The stored value of a field: trimmed or as given, and `otherwise` when it is absent. */
  ghost predicate Stored(value: string, given: Option<string>, otherwise: string, trimmed: bool) {
    if given.None? then value == otherwise else if trimmed then IsTrimmed(value, given.value) else value == given.value
  }

  /** Each field of a new sample holds what was given for it, trimmed where the source trims, and nothing else. */
  lemma NewSampleFields(id: nat, userId: nat, partner: Option<nat>, title: Option<string>, bidReq: Option<string>,
                        bidRes: Option<string>, notes: Option<string>)
    ensures var r := NewSample(id, userId, partner, title, bidReq, bidRes, notes);
      && r.Sample? && r.id == id && r.userId == userId && r.partner == partner
      && (if title == None || title == Some("") then r.title == "untitled" else IsTrimmed(r.title, title.value))
      && Stored(r.bidReq, bidReq, "", false) && Stored(r.bidRes, bidRes, "", false) && Stored(r.notes, notes, "", true)
  {
    TrimExact(Or(title, ""));
    TrimExact(Or(notes, ""));
    assert Trim("untitled") == "untitled" && Trim("") == "";
    hide Trim, IsTrimmed;
  }

  /** A partial update changes the given fields, each in its own place, and leaves every absent one as it was. */
  lemma EditedSampleFields(cur: Row, partner: Assignment, title: Option<string>, bidReq: Option<string>,
                           bidRes: Option<string>, notes: Option<string>)
    requires cur.Sample?
    ensures var r := EditedSample(cur, partner, title, bidReq, bidRes, notes);
      && r.Sample? && r.id == cur.id && r.userId == cur.userId
      && r.partner == (match partner case Keep => cur.partner case Assign(p) => p)
      && Stored(r.title, title, cur.title, true) && Stored(r.bidReq, bidReq, cur.bidReq, false)
      && Stored(r.bidRes, bidRes, cur.bidRes, false) && Stored(r.notes, notes, cur.notes, true)
  {
    TrimExact(Or(title, ""));
    TrimExact(Or(notes, ""));
    hide Trim, IsTrimmed;
  }

  function Later<T>(first: Option<T>, second: Option<T>): Option<T> {
    if second.Some? then second else first
  }

  /** Two updates in a row are one update, in which the later value of each field wins. */
  lemma LaterEditWins(cur: Row, p1: Assignment, t1: Option<string>, q1: Option<string>, s1: Option<string>, n1: Option<string>,
                      p2: Assignment, t2: Option<string>, q2: Option<string>, s2: Option<string>, n2: Option<string>)
    requires cur.Sample?
    ensures EditedSample(EditedSample(cur, p1, t1, q1, s1, n1), p2, t2, q2, s2, n2)
         == EditedSample(cur, if p2.Keep? then p1 else p2, Later(t1, t2), Later(q1, q2), Later(s1, s2), Later(n1, n2))
  {
  }

  /** The characters charged are the characters stored, wherever there is nothing to trim. */
  lemma ChargeIsExact(id: nat, userId: nat, cur: Row, partner: Option<nat>, a: Assignment, title: Option<string>,
                      bidReq: Option<string>, bidRes: Option<string>, notes: Option<string>)
    requires title.Some? ==> Trim(title.value) == title.value
    requires notes.Some? ==> Trim(notes.value) == notes.value
    ensures Size(NewSample(id, userId, partner, title, bidReq, bidRes, notes)) == NewSampleCharge(title, bidReq, bidRes, notes)
    ensures cur.Sample? ==>
      Size(EditedSample(cur, a, title, bidReq, bidRes, notes)) == Size(cur) + Growth(cur, title, bidReq, bidRes, notes)
  {
    assert Trim("untitled") == "untitled" && Trim("") == "";
    hide Trim;
  }

  /** Cutting keeps the front, and as much of it as the limit allows. */
  lemma CutExact(s: string, max: nat)
    ensures Slice(s, max) <= s && |Slice(s, max)| == if |s| <= max then |s| else max
  {
  }

  /** A corpus entry is charged what it stores. */
  lemma CorpusCharge(id: nat, userId: nat, eventsJson: string, stored: string)
    ensures Size(Corpus(id, userId, eventsJson, stored)) == |eventsJson| + |stored|
  {
  }

  // ---- reading after writing --------------------------------------------------

  /** An inserted row is read back by its owner and by nobody else, and no other read changes. */
  lemma ReadAfterInsert(t: Table, row: Row, id: nat, userId: nat)
    requires forall x | x in t :: x.id != row.id
    ensures Get(t + [row], id, userId) == if row.id == id && row.userId == userId then Some(row) else Get(t, id, userId)
  {
    assert (t + [row])[..|t|] == t;
  }

  /** So is an updated row. */
  lemma {:induction false} ReadAfterUpdate(t: Table, row: Row, id: nat, userId: nat)
    ensures Get(Update(t, row.id, row.userId, row), id, userId)
         == if row.id == id && row.userId == userId && Get(t, id, userId).Some? then Some(row) else Get(t, id, userId)
  {
    if t != [] {
      var t' := Update(t, row.id, row.userId, row);
      assert t'[..|t| - 1] == Update(t[..|t| - 1], row.id, row.userId, row);
      ReadAfterUpdate(t[..|t| - 1], row, id, userId);
    }
  }

  lemma GetSnoc(t: Table, x: Row, id: nat, userId: nat)
    ensures Get(t + [x], id, userId) == if Names(x, id, userId) then Some(x) else Get(t, id, userId)
  {
    assert (t + [x])[..|t|] == t;
  }

  /** A deleted row is not read any more, and no other read changes. */
  lemma {:induction false} ReadAfterDelete(t: Table, gone: nat, owner: nat, id: nat, userId: nat)
    ensures Get(Delete(t, gone, owner), id, userId) == if gone == id && owner == userId then None else Get(t, id, userId)
  {
    if t != [] {
      var init, last := t[..|t| - 1], t[|t| - 1];
      assert t == init + [last];
      ReadAfterDelete(init, gone, owner, id, userId);
      GetSnoc(init, last, id, userId);
      GetSnoc(Delete(init, gone, owner), last, id, userId);
      assert Delete(t, gone, owner) == if Names(last, gone, owner) then Delete(init, gone, owner) else Delete(init, gone, owner) + [last];
      hide Get, Delete;
    }
  }
}
