/**
 * The record store the backup service talks to (the `cobrancas` table behind
 * the ORM session): committed rows keyed by `external_reference`, the order
 * in which a plain query yields them, the session's pending inserts, and
 * commit and rollback. Under the session's autoflush a query sees pending
 * inserts too.
 */
module RecordStore {
  import opened Wrappers
  import opened Json
  import opened DateTimes
  import opened CobrancaModel

  /** No two rows share an `external_reference` (the unique, non-null column). */
  predicate RefsUnique(rows: seq<Cobranca>) {
    forall i, j :: 0 <= i < j < |rows| ==> rows[i].externalReference != rows[j].externalReference
  }

  /** No two rows share a non-null `mercadopago_id` (the unique, nullable column). */
  predicate MpIdsUnique(rows: seq<Cobranca>) {
    forall i, j :: 0 <= i < j < |rows| && rows[i].mercadopagoId.Some? ==>
      rows[i].mercadopagoId != rows[j].mercadopagoId
  }

  /** The table's constraints: both unique columns hold over all rows. */
  predicate ConstraintsHold(rows: seq<Cobranca>) {
    RefsUnique(rows) && MpIdsUnique(rows)
  }

  /** The rows of `records` in the order `order` lists their references. */
  function RowsOf(records: map<string, Cobranca>, order: seq<string>): (rows: seq<Cobranca>)
    requires forall i :: 0 <= i < |order| ==> order[i] in records
    ensures |rows| == |order|
    ensures forall i :: 0 <= i < |order| ==> rows[i] == records[order[i]]
  {
    seq(|order|, i requires 0 <= i < |order| => records[order[i]])
  }

  /**
   * What an INSERT makes of pending rows: the primary keys `nextId`,
   * `nextId + 1`, ... and the column defaults `utcnow()` for both stamped
   * datetimes; every other column is kept.
   */
  function Inserted(staged: seq<Cobranca>, nextId: int, now: DateTime): (rows: seq<Cobranca>)
    ensures |rows| == |staged|
    ensures forall i :: 0 <= i < |staged| ==>
      rows[i] == staged[i].(id := Some(nextId + i), dataCriacao := Some(now), dataAtualizacao := Some(now))
  {
    seq(|staged|, i requires 0 <= i < |staged| =>
      staged[i].(id := Some(nextId + i), dataCriacao := Some(now), dataAtualizacao := Some(now)))
  }

  /** Rows keyed by their `external_reference` (a later row wins a shared key). */
  function Keyed(rows: seq<Cobranca>): (m: map<string, Cobranca>)
    ensures m.Keys == set i | 0 <= i < |rows| :: rows[i].externalReference
  {
    if rows == [] then map[]
    else
      var last := rows[|rows| - 1];
      var m0 := Keyed(rows[..|rows| - 1]);
      assert forall i :: 0 <= i < |rows| - 1 ==> rows[..|rows| - 1][i] == rows[i];
      m0[last.externalReference := last]
  }

  /** With unique references, each row is found under its own reference. */
  lemma {:induction false} KeyedAt(rows: seq<Cobranca>, i: nat)
    requires RefsUnique(rows) && i < |rows|
    ensures rows[i].externalReference in Keyed(rows) && Keyed(rows)[rows[i].externalReference] == rows[i]
  {
    if i < |rows| - 1 {
      var init := rows[..|rows| - 1];
      assert init[i] == rows[i];
      assert RefsUnique(init);
      KeyedAt(init, i);
    }
  }

  /** Rows whose references are the distinct `order`, keyed: each under its own reference, and nothing else. */
  lemma KeyedOfDistinct(rows: seq<Cobranca>, order: seq<string>)
    requires |rows| == |order|
    requires forall i :: 0 <= i < |order| ==> rows[i].externalReference == order[i]
    requires forall i, j :: 0 <= i < j < |order| ==> order[i] != order[j]
    ensures Refs(rows) == order
    ensures forall r :: r in Keyed(rows) <==> r in order
    ensures forall i :: 0 <= i < |order| ==> order[i] in Keyed(rows) && Keyed(rows)[order[i]] == rows[i]
  {
    assert RefsUnique(rows);
    forall i | 0 <= i < |order| ensures order[i] in Keyed(rows) && Keyed(rows)[order[i]] == rows[i] {
      KeyedAt(rows, i);
    }
    forall r | r in Keyed(rows) ensures r in order {
      var i :| 0 <= i < |rows| && rows[i].externalReference == r;
      assert order[i] == r;
    }
  }

  /** The references of some rows, in order. */
  function Refs(rows: seq<Cobranca>): (refs: seq<string>)
    ensures |refs| == |rows|
    ensures forall i :: 0 <= i < |rows| ==> refs[i] == rows[i].externalReference
  {
    seq(|rows|, i requires 0 <= i < |rows| => rows[i].externalReference)
  }

  /** The first pending row with reference `ref`, as a flushed query would find it. */
  function FirstStaged(staged: seq<Cobranca>, ref: string): (r: Option<Cobranca>)
    ensures r.None? <==> forall i :: 0 <= i < |staged| ==> staged[i].externalReference != ref
    ensures r.Some? ==> r.value in staged && r.value.externalReference == ref
  {
    if staged == [] then None
    else if staged[0].externalReference == ref then Some(staged[0])
    else FirstStaged(staged[1..], ref)
  }

  class Store {
    /** Committed rows, keyed by `external_reference`. */
    var records: map<string, Cobranca>
    /** The order `query.all()` yields the committed rows in (insertion order). */
    var order: seq<string>
    /** Rows added to the session and not yet committed. */
    var staged: seq<Cobranca>
    /** The next primary key the table hands out. */
    var nextId: int

    /** The store's invariant: the keying, the row order and the committed table's constraints. */
    ghost predicate Valid()
      reads this
    {
      StoreInvariant(records, order, nextId)
    }

    /** `Cobranca.query.all()`: the committed rows in table order. */
    function Rows(): (rows: seq<Cobranca>)
      reads this
      requires forall i :: 0 <= i < |order| ==> order[i] in records
    {
      RowsOf(records, order)
    }

    /**
     * `Cobranca.query.filter_by(external_reference=ref).first()`: a committed
     * row, or (autoflush) a pending one, with that reference.
     */
    function Find(ref: string): (r: Option<Cobranca>)
      reads this
      ensures r.None? <==> ref !in records && forall i :: 0 <= i < |staged| ==> staged[i].externalReference != ref
      ensures r.Some? ==> r.value.externalReference == ref || ref in records
    {
      if ref in records then Some(records[ref]) else FirstStaged(staged, ref)
    }

    constructor Empty()
      ensures Valid()
      ensures records == map[] && order == [] && staged == [] && nextId == 1
    {
      records, order, staged, nextId := map[], [], [], 1;
    }

    /** `db.session.add(c)`: queue `c` for insertion. */
    method Add(c: Cobranca)
      modifies this
      ensures staged == old(staged) + [c]
      ensures records == old(records) && order == old(order) && nextId == old(nextId)
    {
      staged := staged + [c];
    }

    /** `db.session.rollback()`: forget every pending insert. */
    method Rollback()
      modifies this
      ensures staged == []
      ensures records == old(records) && order == old(order) && nextId == old(nextId)
    {
      staged := [];
    }

    /**
     * `db.session.commit()` at time `now`. It fails when the database does
     * (`dbOk` false) or when the pending rows would break a unique
     * constraint; a failed commit changes nothing (the session still holds
     * the pending rows until a rollback). A successful one inserts them all,
     * in order, after the committed rows.
     */
    method Commit(now: DateTime, dbOk: bool) returns (success: bool)
      requires Valid() && DateTimes.Valid(now)
      requires forall i :: 0 <= i < |staged| ==> DatesValid(staged[i])
      modifies this
      ensures Valid()
      ensures success <==> dbOk && ConstraintsHold(old(Rows()) + old(staged))
      ensures !success ==> records == old(records) && order == old(order) && staged == old(staged) && nextId == old(nextId)
      ensures success ==> staged == []
      ensures success ==> records == AfterInsert(old(records), Inserted(old(staged), old(nextId), now))
      ensures success ==> order == old(order) + Refs(Inserted(old(staged), old(nextId), now))
      ensures success ==> Rows() == old(Rows()) + Inserted(old(staged), old(nextId), now)
      ensures success ==> records.Keys == old(records.Keys) + (set i | 0 <= i < |old(staged)| :: old(staged)[i].externalReference)
      ensures success ==> forall r :: r in old(records) ==> r in records && records[r] == old(records)[r]
      ensures success ==> nextId == old(nextId) + |old(staged)|
    {
      var rows := Rows();
      success := dbOk && ConstraintsHold(rows + staged);
      if !success {
        return;
      }
      ghost var records0, order0, nextId0, staged0 := records, order, nextId, staged;
      var ins := Inserted(staged, nextId, now);
      records, order, nextId, staged := AfterInsert(records, ins), order + Refs(ins), nextId + |staged|, [];
      CommitState(records0, order0, nextId0, staged0, now, records, order, nextId);
    }

    /** `Cobranca.query.filter(Cobranca.data_atualizacao >= cutoff).all()`. */
    function UpdatedSince(cutoff: DateTime): (rows: seq<Cobranca>)
      reads this
      requires Valid()
      ensures forall i :: 0 <= i < |rows| ==> rows[i] in Rows() && DatesValid(rows[i])
    {
      SelectedDatesValid(records, order, nextId, cutoff);
      var sel := SelectUpdatedSince(RowsOf(records, order), cutoff);
      assert forall i :: 0 <= i < |sel| ==> sel[i] in sel;
      sel
    }
  }

  /** The invariant of a committed table, over its three parts. */
  ghost predicate StoreInvariant(records: map<string, Cobranca>, order: seq<string>, nextId: int) {
    && (forall i :: 0 <= i < |order| ==> order[i] in records)
    && (forall r :: r in records ==> r in order)
    && (forall i, j :: 0 <= i < j < |order| ==> order[i] != order[j])
    && (forall r :: r in records ==>
          && records[r].externalReference == r
          && records[r].id.Some? && records[r].id.value < nextId
          && records[r].dataAtualizacao.Some?
          && DatesValid(records[r]))
    && MpIdsUnique(RowsOf(records, order))
  }

  /** Under the invariant, the table's rows satisfy both unique constraints. */
  lemma InvariantConstraints(records: map<string, Cobranca>, order: seq<string>, nextId: int)
    requires StoreInvariant(records, order, nextId)
    ensures ConstraintsHold(RowsOf(records, order))
  {
    var rows := RowsOf(records, order);
    forall i, j | 0 <= i < j < |rows| ensures rows[i].externalReference != rows[j].externalReference {
      assert rows[i].externalReference == order[i] && rows[j].externalReference == order[j];
    }
  }

  /** Rows appended after rows with references `order`, all references together distinct, bring new references. */
  lemma AppendedRefsNew(rows: seq<Cobranca>, ins: seq<Cobranca>, order: seq<string>)
    requires |rows| == |order| && forall j :: 0 <= j < |order| ==> rows[j].externalReference == order[j]
    requires RefsUnique(rows + ins)
    ensures forall k :: 0 <= k < |ins| ==> ins[k].externalReference !in order
  {
    forall k | 0 <= k < |ins| ensures ins[k].externalReference !in order {
      forall j | 0 <= j < |order| ensures order[j] != ins[k].externalReference {
        assert (rows + ins)[j] == rows[j];
        assert (rows + ins)[|rows| + k] == ins[k];
      }
    }
  }

  /** Pending rows that pass the constraints carry references the table does not have yet. */
  lemma StagedRefsNew(records: map<string, Cobranca>, order: seq<string>, nextId: int,
                      staged: seq<Cobranca>, now: DateTime)
    requires StoreInvariant(records, order, nextId)
    requires ConstraintsHold(RowsOf(records, order) + staged)
    ensures forall r :: r in Keyed(Inserted(staged, nextId, now)) ==> r !in records
  {
    var rows := RowsOf(records, order);
    var ins := Inserted(staged, nextId, now);
    InsertedKeepsConstraints(rows, staged, nextId, now);
    AppendedRefsNew(rows, ins, order);
    forall r | r in Keyed(ins) ensures r !in records {
      var k :| 0 <= k < |ins| && ins[k].externalReference == r;
      assert r !in order;
    }
  }


  /** The committed map after inserting `ins`. */
  function AfterInsert(records: map<string, Cobranca>, ins: seq<Cobranca>): map<string, Cobranca> {
    records + Keyed(ins)
  }

  /** The inserted rows have fresh references and come after the old rows, in order. */
  lemma InsertRows(records: map<string, Cobranca>, order: seq<string>, nextId: int,
                   staged: seq<Cobranca>, now: DateTime)
    requires StoreInvariant(records, order, nextId)
    requires ConstraintsHold(RowsOf(records, order) + staged)
    ensures var ins := Inserted(staged, nextId, now);
      && (forall i :: 0 <= i < |order + Refs(ins)| ==> (order + Refs(ins))[i] in AfterInsert(records, ins))
      && RowsOf(AfterInsert(records, ins), order + Refs(ins)) == RowsOf(records, order) + ins
      && (forall r :: r in records ==> r in AfterInsert(records, ins) && AfterInsert(records, ins)[r] == records[r])
  {
    var rows := RowsOf(records, order);
    var ins := Inserted(staged, nextId, now);
    InsertedKeepsConstraints(rows, staged, nextId, now);
    ConstraintsOfParts(rows, ins);
    StagedRefsNew(records, order, nextId, staged, now);
    var records' := AfterInsert(records, ins);
    var order' := order + Refs(ins);
    forall i | 0 <= i < |order'| ensures order'[i] in records' && records'[order'[i]] == (rows + ins)[i] {
      if i >= |rows| {
        KeyedAt(ins, i - |rows|);
      }
    }
  }

  /** The references listed after a commit are distinct. */
  lemma InsertOrderDistinct(records: map<string, Cobranca>, order: seq<string>, nextId: int,
                            staged: seq<Cobranca>, now: DateTime)
    requires StoreInvariant(records, order, nextId)
    requires ConstraintsHold(RowsOf(records, order) + staged)
    ensures var order' := order + Refs(Inserted(staged, nextId, now));
      forall i, j :: 0 <= i < j < |order'| ==> order'[i] != order'[j]
  {
    var rows := RowsOf(records, order);
    var ins := Inserted(staged, nextId, now);
    InsertedKeepsConstraints(rows, staged, nextId, now);
    var order' := order + Refs(ins);
    assert |order'| == |rows + ins|;
    forall i | 0 <= i < |order'| ensures order'[i] == (rows + ins)[i].externalReference {
      if i < |order| {
        assert order'[i] == order[i];
      } else {
        assert order'[i] == Refs(ins)[i - |order|];
      }
    }
  }

  /** The references listed after a commit cover the new map. */
  lemma InsertOrderCovers(records: map<string, Cobranca>, order: seq<string>, nextId: int,
                          staged: seq<Cobranca>, now: DateTime)
    requires StoreInvariant(records, order, nextId)
    ensures var ins := Inserted(staged, nextId, now);
      forall r :: r in AfterInsert(records, ins) ==> r in order + Refs(ins)
  {
    var ins := Inserted(staged, nextId, now);
    var order' := order + Refs(ins);
    forall r | r in AfterInsert(records, ins) ensures r in order' {
      if r !in records {
        var k :| 0 <= k < |ins| && ins[k].externalReference == r;
        assert order'[|order| + k] == r;
      } else {
        var i :| 0 <= i < |order| && order[i] == r;
        assert order'[i] == r;
      }
    }
  }

  /** Every row of the new map is keyed by its reference, has an id below the new counter and valid dates. */
  lemma InsertRecordShape(records: map<string, Cobranca>, order: seq<string>, nextId: int,
                          staged: seq<Cobranca>, now: DateTime)
    requires StoreInvariant(records, order, nextId) && DateTimes.Valid(now)
    requires forall i :: 0 <= i < |staged| ==> DatesValid(staged[i])
    ensures var ins := Inserted(staged, nextId, now);
      forall r :: r in AfterInsert(records, ins) ==>
        && AfterInsert(records, ins)[r].externalReference == r
        && AfterInsert(records, ins)[r].id.Some? && AfterInsert(records, ins)[r].id.value < nextId + |staged|
        && AfterInsert(records, ins)[r].dataAtualizacao.Some?
        && DatesValid(AfterInsert(records, ins)[r])
  {
    var ins := Inserted(staged, nextId, now);
    var added := Keyed(ins);
    var records' := AfterInsert(records, ins);
    KeyedFrom(ins);
    forall r | r in records'
      ensures && records'[r].externalReference == r
              && records'[r].id.Some? && records'[r].id.value < nextId + |staged|
              && records'[r].dataAtualizacao.Some?
              && DatesValid(records'[r])
    {
      if r in added {
        var k :| 0 <= k < |ins| && added[r] == ins[k] && ins[k].externalReference == r;
        assert records'[r] == ins[k];
        assert DatesValid(staged[k]);
      } else {
        assert records'[r] == records[r];
      }
    }
  }

  /** Each value of `Keyed(rows)` is one of the rows, under its own reference. */
  lemma {:induction false} KeyedFrom(rows: seq<Cobranca>)
    ensures forall r :: r in Keyed(rows) ==>
      exists k :: 0 <= k < |rows| && Keyed(rows)[r] == rows[k] && rows[k].externalReference == r
  {
    if rows != [] {
      var init := rows[..|rows| - 1];
      KeyedFrom(init);
      forall r | r in Keyed(rows)
        ensures exists k :: 0 <= k < |rows| && Keyed(rows)[r] == rows[k] && rows[k].externalReference == r
      {
        if r == rows[|rows| - 1].externalReference {
          assert Keyed(rows)[r] == rows[|rows| - 1];
        } else {
          var k :| 0 <= k < |init| && Keyed(init)[r] == init[k] && init[k].externalReference == r;
          assert rows[k] == init[k];
        }
      }
    }
  }

  /** A successful commit keeps the table's invariant. */
  lemma CommitKeepsInvariant(records: map<string, Cobranca>, order: seq<string>, nextId: int,
                             staged: seq<Cobranca>, now: DateTime)
    requires StoreInvariant(records, order, nextId) && DateTimes.Valid(now)
    requires forall i :: 0 <= i < |staged| ==> DatesValid(staged[i])
    requires ConstraintsHold(RowsOf(records, order) + staged)
    ensures var ins := Inserted(staged, nextId, now);
      StoreInvariant(AfterInsert(records, ins), order + Refs(ins), nextId + |staged|)
  {
    var rows := RowsOf(records, order);
    var ins := Inserted(staged, nextId, now);
    InsertRows(records, order, nextId, staged, now);
    InsertOrderDistinct(records, order, nextId, staged, now);
    InsertOrderCovers(records, order, nextId, staged, now);
    InsertRecordShape(records, order, nextId, staged, now);
    InsertedKeepsConstraints(rows, staged, nextId, now);
  }

  /** What a successful commit establishes about the new table `records'`, `order'`, `nextId'`. */
  lemma CommitState(records: map<string, Cobranca>, order: seq<string>, nextId: int,
                    staged: seq<Cobranca>, now: DateTime,
                    records': map<string, Cobranca>, order': seq<string>, nextId': int)
    requires StoreInvariant(records, order, nextId) && DateTimes.Valid(now)
    requires forall i :: 0 <= i < |staged| ==> DatesValid(staged[i])
    requires ConstraintsHold(RowsOf(records, order) + staged)
    requires records' == AfterInsert(records, Inserted(staged, nextId, now))
    requires order' == order + Refs(Inserted(staged, nextId, now))
    requires nextId' == nextId + |staged|
    ensures StoreInvariant(records', order', nextId')
    ensures RowsOf(records', order') == RowsOf(records, order) + Inserted(staged, nextId, now)
    ensures records'.Keys == records.Keys + (set i | 0 <= i < |staged| :: staged[i].externalReference)
    ensures forall r :: r in records ==> r in records' && records'[r] == records[r]
  {
    CommitKeepsInvariant(records, order, nextId, staged, now);
    InsertRows(records, order, nextId, staged, now);
    InsertKeys(records, staged, nextId, now);
  }

  /** The committed references after an insert are the old ones and the pending ones. */
  lemma InsertKeys(records: map<string, Cobranca>, staged: seq<Cobranca>, nextId: int, now: DateTime)
    ensures AfterInsert(records, Inserted(staged, nextId, now)).Keys
         == records.Keys + (set i | 0 <= i < |staged| :: staged[i].externalReference)
  {
    var ins := Inserted(staged, nextId, now);
    assert (set i | 0 <= i < |ins| :: ins[i].externalReference) == (set i | 0 <= i < |staged| :: staged[i].externalReference) by {
      forall i | 0 <= i < |ins| ensures ins[i].externalReference == staged[i].externalReference { }
    }
  }

  /** Inserting keeps the unique columns, so it keeps the constraints. */
  lemma InsertedKeepsConstraints(rows: seq<Cobranca>, staged: seq<Cobranca>, nextId: int, now: DateTime)
    requires ConstraintsHold(rows + staged)
    ensures ConstraintsHold(rows + Inserted(staged, nextId, now))
  {
    SameKeysConstraints(rows + staged, rows + Inserted(staged, nextId, now));
  }

  /** Rows keep their unique columns when only ids and stamps change. */
  lemma SameKeysConstraints(a: seq<Cobranca>, b: seq<Cobranca>)
    requires |a| == |b|
    requires forall i :: 0 <= i < |a| ==>
      a[i].externalReference == b[i].externalReference && a[i].mercadopagoId == b[i].mercadopagoId
    ensures ConstraintsHold(a) ==> ConstraintsHold(b)
  {
  }

  /** The constraints over a concatenation hold over each part. */
  lemma ConstraintsOfParts(a: seq<Cobranca>, b: seq<Cobranca>)
    requires ConstraintsHold(a + b)
    ensures ConstraintsHold(a) && ConstraintsHold(b)
  {
    forall i, j | 0 <= i < j < |b| ensures b[i].externalReference != b[j].externalReference {
      assert (a + b)[|a| + i] == b[i] && (a + b)[|a| + j] == b[j];
    }
    forall i, j | 0 <= i < j < |b| && b[i].mercadopagoId.Some? ensures b[i].mercadopagoId != b[j].mercadopagoId {
      assert (a + b)[|a| + i] == b[i] && (a + b)[|a| + j] == b[j];
    }
    forall i, j | 0 <= i < j < |a| ensures a[i].externalReference != a[j].externalReference {
      assert (a + b)[i] == a[i] && (a + b)[j] == a[j];
    }
    forall i, j | 0 <= i < j < |a| && a[i].mercadopagoId.Some? ensures a[i].mercadopagoId != a[j].mercadopagoId {
      assert (a + b)[i] == a[i] && (a + b)[j] == a[j];
    }
  }

  /** The rows whose `data_atualizacao` is set and not earlier than `cutoff`, in their order (SQL drops NULLs). */
  function SelectUpdatedSince(rows: seq<Cobranca>, cutoff: DateTime): (sel: seq<Cobranca>)
  {
    if rows == [] then []
    else
      var rest := SelectUpdatedSince(rows[..|rows| - 1], cutoff);
      var last := rows[|rows| - 1];
      if last.dataAtualizacao.Some? && AtOrAfter(last.dataAtualizacao.value, cutoff) then rest + [last] else rest
  }

  /**
   * The latest export's selection keeps exactly the records updated at or
   * after the cutoff, in their query order.
   */
  lemma {:induction false} SelectUpdatedSinceExact(rows: seq<Cobranca>, cutoff: DateTime)
    ensures forall c :: c in SelectUpdatedSince(rows, cutoff) <==>
      c in rows && c.dataAtualizacao.Some? && AtOrAfter(c.dataAtualizacao.value, cutoff)
    ensures |SelectUpdatedSince(rows, cutoff)| <= |rows|
  {
    if rows != [] {
      var init := rows[..|rows| - 1];
      SelectUpdatedSinceExact(init, cutoff);
      assert rows == init + [rows[|rows| - 1]];
    }
  }

  /** The selection is an order-preserving subsequence: kept rows appear in the order the query gave. */
  /** `pick` lists, in increasing order, the positions in `rows` that `sel` takes its elements from. */
  ghost predicate Picks(pick: seq<nat>, sel: seq<Cobranca>, rows: seq<Cobranca>) {
    && |pick| == |sel|
    && (forall k :: 0 <= k < |pick| ==> pick[k] < |rows| && sel[k] == rows[pick[k]])
    && (forall k, l :: 0 <= k < l < |pick| ==> pick[k] < pick[l])
  }

  lemma {:induction false} SelectUpdatedSinceOrder(rows: seq<Cobranca>, cutoff: DateTime)
    ensures exists pick :: Picks(pick, SelectUpdatedSince(rows, cutoff), rows)
  {
    var sel := SelectUpdatedSince(rows, cutoff);
    if rows == [] {
      var pick: seq<nat> := [];
      assert Picks(pick, sel, rows);
    } else {
      var init := rows[..|rows| - 1];
      var sel0 := SelectUpdatedSince(init, cutoff);
      SelectUpdatedSinceOrder(init, cutoff);
      var pick0: seq<nat> :| Picks(pick0, sel0, init);
      var last := rows[|rows| - 1];
      if last.dataAtualizacao.Some? && AtOrAfter(last.dataAtualizacao.value, cutoff) {
        assert sel == sel0 + [last];
        var pick: seq<nat> := pick0 + [|rows| - 1];
        forall k | 0 <= k < |pick| ensures pick[k] < |rows| && sel[k] == rows[pick[k]] {
          if k < |pick0| {
            assert sel[k] == sel0[k] && init[pick0[k]] == rows[pick0[k]];
          }
        }
        assert Picks(pick, sel, rows);
      } else {
        assert sel == sel0;
        forall k | 0 <= k < |pick0| ensures pick0[k] < |rows| && sel[k] == rows[pick0[k]] {
          assert init[pick0[k]] == rows[pick0[k]];
        }
        assert Picks(pick0, sel, rows);
      }
    }
  }


  /** The rows the 24-hour query selects are rows of the table, with valid datetimes. */
  lemma SelectedDatesValid(records: map<string, Cobranca>, order: seq<string>, nextId: int, cutoff: DateTime)
    requires StoreInvariant(records, order, nextId)
    ensures forall c :: c in SelectUpdatedSince(RowsOf(records, order), cutoff) ==>
      c in RowsOf(records, order) && DatesValid(c)
  {
    var all := RowsOf(records, order);
    var sel := SelectUpdatedSince(all, cutoff);
    SelectUpdatedSinceExact(all, cutoff);
    RowsDatesValid(records, order, nextId);
  }

  /** Every committed row has representable datetimes. */
  lemma RowsDatesValid(records: map<string, Cobranca>, order: seq<string>, nextId: int)
    requires StoreInvariant(records, order, nextId)
    ensures forall c :: c in RowsOf(records, order) ==> DatesValid(c)
  {
    var rows := RowsOf(records, order);
    forall c | c in rows ensures DatesValid(c) {
      var i :| 0 <= i < |rows| && rows[i] == c;
      assert order[i] in records;
    }
  }
}
