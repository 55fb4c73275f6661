/** Rows of the signed-in library, and the SQL the models run over them. */
module LibraryTables {
  import opened Wrappers

  datatype Row =
    | Sample(id: nat, userId: nat, partner: Option<nat>, title: string, bidReq: string, bidRes: string, notes: string)
    | Corpus(id: nat, userId: nat, eventsJson: string, notes: string)
    | Partner(id: nat, userId: nat, name: string, slug: string, notes: string)

  type Table = seq<Row>

  /** Characters of user content: what the account's cap counts. Partners are bounded by their row cap. */
  function Size(r: Row): nat {
    match r
    case Sample(_, _, _, title, bidReq, bidRes, notes) => |title| + |bidReq| + |bidRes| + |notes|
    case Corpus(_, _, eventsJson, notes) => |eventsJson| + |notes|
    case Partner(_, _, _, _, _) => 0
  }

  /** SELECT COUNT(*) … WHERE user_id = ? */
  function Count(t: Table, userId: nat): nat {
    if t == [] then 0 else Count(t[..|t| - 1], userId) + (if t[|t| - 1].userId == userId then 1 else 0)
  }

  /** SELECT SUM(length(…)) … WHERE user_id = ? */
  function Chars(t: Table, userId: nat): nat {
    if t == [] then 0 else Chars(t[..|t| - 1], userId) + (if t[|t| - 1].userId == userId then Size(t[|t| - 1]) else 0)
  }

  predicate Names(r: Row, id: nat, userId: nat) {
    r.id == id && r.userId == userId
  }

  /** SELECT … WHERE id = ? AND user_id = ? */
  function Get(t: Table, id: nat, userId: nat): (r: Option<Row>)
    ensures r.Some? ==> r.value in t && Names(r.value, id, userId)
    ensures r.None? <==> forall x | x in t :: !Names(x, id, userId)
  {
    if t == [] then None
    else
      assert t == t[..|t| - 1] + [t[|t| - 1]];
      if Names(t[|t| - 1], id, userId) then Some(t[|t| - 1])
      else Get(t[..|t| - 1], id, userId)
  }

  /** DELETE … WHERE id = ? AND user_id = ? */
  function Delete(t: Table, id: nat, userId: nat): (t': Table)
    ensures forall x :: x in t' <==> x in t && !Names(x, id, userId)
  {
    if t == [] then []
    else
      assert t == t[..|t| - 1] + [t[|t| - 1]];
      Delete(t[..|t| - 1], id, userId) + (if Names(t[|t| - 1], id, userId) then [] else [t[|t| - 1]])
  }

  /** UPDATE … SET … WHERE id = ? AND user_id = ?, with the new row. */
  function Update(t: Table, id: nat, userId: nat, row: Row): (t': Table)
    requires Names(row, id, userId)
    ensures |t'| == |t|
    ensures forall i | 0 <= i < |t| :: t'[i] == if Names(t[i], id, userId) then row else t[i]
  {
    seq(|t|, i requires 0 <= i < |t| => if Names(t[i], id, userId) then row else t[i])
  }

  /** ON DELETE SET NULL on `samples.partner_id`. */
  function Unassign(t: Table, partner: nat): (t': Table)
    ensures |t'| == |t|
    ensures forall i | 0 <= i < |t| ::
      t'[i] == if t[i].Sample? && t[i].partner == Some(partner) then t[i].(partner := None) else t[i]
  {
    seq(|t|, i requires 0 <= i < |t| =>
      if t[i].Sample? && t[i].partner == Some(partner) then t[i].(partner := None) else t[i])
  }

  ghost predicate UniqueIds(t: Table) {
    forall i, j | 0 <= i < j < |t| :: t[i].id != t[j].id
  }

  // ---- counting over the changes ----------------------------------------------

  lemma AddedRow(t: Table, row: Row, userId: nat)
    ensures Count(t + [row], userId) == Count(t, userId) + (if row.userId == userId then 1 else 0)
    ensures Chars(t + [row], userId) == Chars(t, userId) + (if row.userId == userId then Size(row) else 0)
  {
    assert (t + [row])[..|t|] == t;
  }

  /** Deleting by owner takes nothing from anybody else. */
  lemma {:induction false} DeletedRow(t: Table, id: nat, owner: nat, userId: nat)
    ensures Count(Delete(t, id, owner), userId) <= Count(t, userId)
    ensures Chars(Delete(t, id, owner), userId) <= Chars(t, userId)
    ensures userId != owner ==>
      Count(Delete(t, id, owner), userId) == Count(t, userId) && Chars(Delete(t, id, owner), userId) == Chars(t, userId)
  {
    if t != [] {
      var init, last := t[..|t| - 1], t[|t| - 1];
      DeletedRow(init, id, owner, userId);
      if Names(last, id, owner) {
        assert Delete(t, id, owner) == Delete(init, id, owner);
      } else {
        AddedRow(Delete(init, id, owner), last, userId);
      }
    }
  }

  lemma {:induction false} DeleteKeepsIds(t: Table, id: nat, owner: nat)
    requires UniqueIds(t)
    ensures UniqueIds(Delete(t, id, owner))
  {
    if t != [] {
      var init, last := t[..|t| - 1], t[|t| - 1];
      DeleteKeepsIds(init, id, owner);
      var rest := Delete(init, id, owner);
      forall i | 0 <= i < |rest| ensures rest[i].id != last.id {
        assert rest[i] in init;
      }
    }
  }

  lemma {:induction false} UntouchedTable(t: Table, id: nat, owner: nat, row: Row)
    requires Names(row, id, owner) && Get(t, id, owner).None?
    ensures Update(t, id, owner, row) == t
  {
  }

  /** An update charges its owner the difference of sizes, and nobody else anything. */
  lemma {:induction false} UpdatedRow(t: Table, id: nat, owner: nat, row: Row, userId: nat)
    requires UniqueIds(t) && Names(row, id, owner) && Get(t, id, owner).Some?
    ensures Count(Update(t, id, owner, row), userId) == Count(t, userId)
    ensures Chars(Update(t, id, owner, row), userId)
         == Chars(t, userId) + (if userId == owner then Size(row) - Size(Get(t, id, owner).value) else 0)
  {
    hide Size, Update, Chars, Count;
    var init, last := t[..|t| - 1], t[|t| - 1];
    var t' := Update(t, id, owner, row);
    assert t'[..|t| - 1] == Update(init, id, owner, row);
    assert t == init + [last] && t' == Update(init, id, owner, row) + [t'[|t| - 1]];
    AddedRow(init, last, userId);
    AddedRow(Update(init, id, owner, row), t'[|t| - 1], userId);
    if Names(last, id, owner) {
      forall x | x in init ensures !Names(x, id, owner) {
        var i :| 0 <= i < |init| && init[i] == x;
        assert t[i].id != t[|t| - 1].id;
      }
      UntouchedTable(init, id, owner, row);
    } else {
      UpdatedRow(init, id, owner, row, userId);
    }
  }

  lemma {:induction false} UnassignedRows(t: Table, partner: nat, userId: nat)
    ensures Count(Unassign(t, partner), userId) == Count(t, userId)
    ensures Chars(Unassign(t, partner), userId) == Chars(t, userId)
  {
    if t != [] {
      UnassignedRows(t[..|t| - 1], partner, userId);
      assert Unassign(t, partner)[..|t| - 1] == Unassign(t[..|t| - 1], partner);
    }
  }
}
