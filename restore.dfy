/**
 * Restoring records from a backup document: the document's validation, the
 * walk over its `cobrancas` entries that skips known references and stages
 * new records, and the all-or-nothing commit, as specification functions
 * with the properties the restore promises.
 */
module Restore {
  import opened Wrappers
  import opened Json
  import opened DateTimes
  import opened CobrancaModel
  import opened RecordStore
  import opened FileSystem
  import opened Snapshot

  /** Why a restore failed; the text of the source's exception messages is not modelled. */
  datatype RestoreError =
    | FileMissing              // `open` raises: no such file
    | NotJson                  // `json.load` raises
    | InvalidStructure         // the document has no `cobrancas`: the one failure returned, not raised
    | TypeMismatch             // a Python TypeError: subscripting or iterating a value of the wrong kind
    | MissingKey(key: string)  // a KeyError on a subscripted field
    | NullColumn(key: string)  // JSON null sent to a NOT NULL column
    | UnsupportedValue(key: string) // a JSON value of a type the column does not hold
    | CommitFailed             // the commit raised (a unique constraint or the database)

  const InvalidStructureMessage := "Arquivo de backup inválido: estrutura não reconhecida"

  /** The fields the restore subscripts (a missing one raises KeyError), besides `external_reference`. */
  const RequiredKeys: set<string> := {"cliente_nome", "cliente_email", "titulo", "valor", "status"}

  /** Python's `needle in hay` on strings. */
  predicate IsSubstring(needle: string, hay: string)
    decreases |hay|
  {
    needle <= hay || (hay != [] && IsSubstring(needle, hay[1..]))
  }

  /**
   * `'cobrancas' not in backup_data` and then `backup_data['cobrancas']`,
   * with Python's meaning of `in` and `[]` for every kind of document.
   */
  function CobrancasOf(doc: Json): (r: Result<Json, RestoreError>)
    ensures r.Ok? <==> doc.JObj? && "cobrancas" in doc.fields
    ensures r.Ok? ==> r.value == doc.fields["cobrancas"]
    ensures doc.JObj? && "cobrancas" !in doc.fields ==> r == Err(InvalidStructure)
  {
    match doc
    case JObj(m) => if "cobrancas" in m then Ok(m["cobrancas"]) else Err(InvalidStructure)
    case JArr(items) => if JStr("cobrancas") in items then Err(TypeMismatch) else Err(InvalidStructure)
    case JStr(s) => if IsSubstring("cobrancas", s) then Err(TypeMismatch) else Err(InvalidStructure)
    case _ => Err(TypeMismatch)
  }

  /**
   * The values `for cobranca_dict in cobrancas_data` visits, up to the
   * first one that makes the loop raise: a list yields its items; an empty
   * dict or string yields nothing; a non-empty dict or string yields
   * strings, which cannot be subscripted by a key; anything else is not
   * iterable.
   */
  function EntriesOf(data: Json): (r: Result<seq<Json>, RestoreError>)
    ensures data.JArr? ==> r == Ok(data.items)
    ensures r.Ok? && !data.JArr? ==> r.value == []
    ensures r.Ok? <==> data.JArr? || data == JObj(map[]) || data == JStr("")
  {
    match data
    case JArr(items) => Ok(items)
    case JObj(m) => if m == map[] then Ok([]) else Err(TypeMismatch)
    case JStr(s) => if s == "" then Ok([]) else Err(TypeMismatch)
    case _ => Err(TypeMismatch)
  }

  /** `d[key]` for a string column. */
  function Required(m: map<string, Json>, key: string): (r: Result<string, RestoreError>)
    ensures r.Ok? <==> key in m && m[key].JStr?
    ensures r.Ok? ==> r.value == m[key].s
    ensures key !in m ==> r == Err(MissingKey(key))
  {
    if key !in m then Err(MissingKey(key))
    else
      match m[key]
      case JStr(s) => Ok(s)
      case JNull => Err(NullColumn(key))
      case _ => Err(UnsupportedValue(key))
  }

  /** `d[key]` for the Float column. */
  function RequiredNumber(m: map<string, Json>, key: string): (r: Result<real, RestoreError>)
    ensures r.Ok? <==> key in m && m[key].JNum?
    ensures r.Ok? ==> r.value == m[key].n
    ensures key !in m ==> r == Err(MissingKey(key))
  {
    if key !in m then Err(MissingKey(key))
    else
      match m[key]
      case JNum(n) => Ok(n)
      case JNull => Err(NullColumn(key))
      case _ => Err(UnsupportedValue(key))
  }

  /** `d.get(key)` for a nullable string column. */
  function Optional(m: map<string, Json>, key: string): (r: Result<Option<string>, RestoreError>)
    ensures r.Ok? <==> key !in m || m[key].JNull? || m[key].JStr?
    ensures r == Ok(None) <==> key !in m || m[key].JNull?
    ensures r.Ok? && r.value.Some? ==> m[key] == JStr(r.value.value)
  {
    match GetOrNull(m, key)
    case JNull => Ok(None)
    case JStr(s) => Ok(Some(s))
    case _ => Err(UnsupportedValue(key))
  }

  /** `cobranca_dict['external_reference']` on an entry of any kind. */
  function EntryRef(entry: Json): (r: Result<string, RestoreError>)
    ensures r.Ok? <==> entry.JObj? && "external_reference" in entry.fields && entry.fields["external_reference"].JStr?
    ensures r.Ok? ==> r.value == entry.fields["external_reference"].s
  {
    if entry.JObj? then Required(entry.fields, "external_reference") else Err(TypeMismatch)
  }

  /**
   * The record `Cobranca(...)` builds from an entry whose reference is
   * `ref`: subscripted fields are required, `.get` ones nullable, the
   * primary key and every datetime left unset (the entry's dates are not
   * read), and `dados_mercadopago` set only when the entry's value is truthy.
   */
  function NewRecord(m: map<string, Json>, ref: string): Result<Cobranca, RestoreError> {
    var c :- Constructed(m, ref);
    var dados := GetOrNull(m, "dados_mercadopago");
    Ok(if Truthy(dados) then WithDados(c, dados) else c)
  }

  /** The `Cobranca(...)` call alone, before `dados_mercadopago` is set. */
  function Constructed(m: map<string, Json>, ref: string): Result<Cobranca, RestoreError> {
    var mpId :- Optional(m, "mercadopago_id");
    var nome :- Required(m, "cliente_nome");
    var email :- Required(m, "cliente_email");
    var telefone :- Optional(m, "cliente_telefone");
    var documento :- Optional(m, "cliente_documento");
    var titulo :- Required(m, "titulo");
    var descricao :- Optional(m, "descricao");
    var valor :- RequiredNumber(m, "valor");
    var status :- Required(m, "status");
    var url :- Optional(m, "payment_url");
    Ok(Cobranca(None, mpId, ref, nome, email, telefone, documento, titulo, descricao, valor, status,
                None, None, None, None, url, None))
  }

  /** The references of some rows, as a set. */
  function RefSet(rows: seq<Cobranca>): set<string> {
    set i | 0 <= i < |rows| :: rows[i].externalReference
  }

  /** The loop's state: the records staged so far and the two counters. */
  datatype MergeState = MergeState(staged: seq<Cobranca>, restored: nat, skipped: nat)

  /**
   * One iteration: an entry whose reference the store already holds
   * (committed in `existing`, or staged earlier in this restore) is
   * skipped; any other is built and staged.
   */
  function Step(existing: set<string>, st: MergeState, entry: Json): Result<MergeState, RestoreError> {
    var ref :- EntryRef(entry);
    if ref in existing || ref in RefSet(st.staged) then Ok(st.(skipped := st.skipped + 1))
    else
      var c :- NewRecord(entry.fields, ref);
      Ok(MergeState(st.staged + [c], st.restored + 1, st.skipped))
  }

  /** The loop over all entries, stopping at the first failure. */
  function Merge(existing: set<string>, entries: seq<Json>): Result<MergeState, RestoreError>
    decreases |entries|
  {
    if entries == [] then Ok(MergeState([], 0, 0))
    else
      var st :- Merge(existing, entries[..|entries| - 1]);
      Step(existing, st, entries[|entries| - 1])
  }

  /** An entry whose reference is already there is a skip. */
  lemma StepSkips(existing: set<string>, st: MergeState, entry: Json, ref: string)
    requires EntryRef(entry) == Ok(ref)
    requires ref in existing || exists k :: 0 <= k < |st.staged| && st.staged[k].externalReference == ref
    ensures Step(existing, st, entry) == Ok(st.(skipped := st.skipped + 1))
  {
    if ref !in existing {
      var k :| 0 <= k < |st.staged| && st.staged[k].externalReference == ref;
      assert ref in RefSet(st.staged);
    }
  }

  /** An entry with a new reference is built and staged, or fails the step as its record does. */
  lemma StepStages(existing: set<string>, st: MergeState, entry: Json, ref: string)
    requires EntryRef(entry) == Ok(ref)
    requires ref !in existing && forall k :: 0 <= k < |st.staged| ==> st.staged[k].externalReference != ref
    ensures var c := NewRecord(entry.fields, ref);
      Step(existing, st, entry) == if c.Err? then Err(c.error) else Ok(MergeState(st.staged + [c.value], st.restored + 1, st.skipped))
  {
    assert ref !in RefSet(st.staged);
  }

  /** The loop over one more entry is one more step. */
  lemma MergeExtend(existing: set<string>, entries: seq<Json>, i: nat, st: MergeState)
    requires i < |entries| && Merge(existing, entries[..i]) == Ok(st)
    ensures Merge(existing, entries[..i + 1]) == Step(existing, st, entries[i])
  {
    assert entries[..i + 1][..i] == entries[..i];
  }

  /** What the restore stages from a file, with the number of entries it holds. */
  function Staging(existing: set<string>, content: Option<FileContent>): Result<(MergeState, nat), RestoreError> {
    match content
    case None => Err(FileMissing)
    case Some(Garbled) => Err(NotJson)
    case Some(JsonText(doc)) =>
      var data :- CobrancasOf(doc);
      var entries :- EntriesOf(data);
      var st :- Merge(existing, entries);
      Ok((st, |entries|))
  }

  /** The committed part of the store: rows by reference, their order, the next primary key. */
  datatype Table = Table(records: map<string, Cobranca>, order: seq<string>, nextId: int)

  ghost predicate TableValid(t: Table) {
    StoreInvariant(t.records, t.order, t.nextId)
  }

  const EmptyTable := Table(map[], [], 1)

  /** The table after a successful commit of `staged` at time `now`. */
  function CommitRows(t: Table, staged: seq<Cobranca>, now: DateTime): Table {
    var ins := Inserted(staged, t.nextId, now);
    Table(AfterInsert(t.records, ins), t.order + Refs(ins), t.nextId + |staged|)
  }

  /** The counts a successful restore reports. */
  datatype Counts = Counts(restored: nat, skipped: nat, total: nat)

  /** A restore's result and the table it leaves. */
  datatype RestoreRun = RestoreRun(result: Result<Counts, RestoreError>, table: Table)

  /**
   * `restore_from_json` as a whole: stage from the file, then commit; any
   * failure, including the commit's, leaves the table as it was.
   */
  function RestoreOutcome(t: Table, content: Option<FileContent>, now: DateTime, dbOk: bool): RestoreRun
    requires forall i :: 0 <= i < |t.order| ==> t.order[i] in t.records
  {
    match Staging(t.records.Keys, content)
    case Err(e) => RestoreRun(Err(e), t)
    case Ok((st, total)) =>
      if dbOk && ConstraintsHold(RowsOf(t.records, t.order) + st.staged) then
        RestoreRun(Ok(Counts(st.restored, st.skipped, total)), CommitRows(t, st.staged, now))
      else
        RestoreRun(Err(CommitFailed), t)
  }

  /** Every datetime and the primary key unset, as a freshly built record has them. */
  predicate Unsaved(c: Cobranca) {
    c.id.None? && c.dataCriacao.None? && c.dataAtualizacao.None? && c.dataVencimento.None? && c.dataPagamento.None?
  }

  /** A built record carries the entry's reference, is unsaved and keeps only truthy `dados_mercadopago`. */
  lemma NewRecordShape(m: map<string, Json>, ref: string)
    requires NewRecord(m, ref).Ok?
    ensures NewRecord(m, ref).value.externalReference == ref
    ensures Unsaved(NewRecord(m, ref).value) && DatesValid(NewRecord(m, ref).value)
    ensures DadosNormal(NewRecord(m, ref).value)
  {
  }

  /** An entry lacking a subscripted field cannot be built. */
  lemma NewRecordNeedsRequired(m: map<string, Json>, ref: string, key: string)
    requires key in RequiredKeys && key !in m
    ensures NewRecord(m, ref).Err?
  {
  }

  /** Once the loop has failed on a prefix, it fails the same way on the whole list. */
  lemma {:induction false} MergeErrSticky(existing: set<string>, entries: seq<Json>, k: nat)
    requires k <= |entries| && Merge(existing, entries[..k]).Err?
    ensures Merge(existing, entries) == Merge(existing, entries[..k])
    decreases |entries| - k
  {
    if k < |entries| {
      var init := entries[..|entries| - 1];
      assert init[..k] == entries[..k];
      MergeErrSticky(existing, init, k);
    } else {
      assert entries[..k] == entries;
    }
  }

  /** The counters: every entry is either restored or skipped, and one record is staged per restored entry. */
  lemma {:induction false} MergeCounts(existing: set<string>, entries: seq<Json>)
    requires Merge(existing, entries).Ok?
    ensures var st := Merge(existing, entries).value;
      st.restored + st.skipped == |entries| && |st.staged| == st.restored
  {
    if entries != [] {
      MergeCounts(existing, entries[..|entries| - 1]);
    }
  }

  /**
   * The restore only inserts: staged records are unsaved, carry distinct
   * references, and none of them is already in the table.
   */
  lemma {:induction false} MergeFresh(existing: set<string>, entries: seq<Json>)
    requires Merge(existing, entries).Ok?
    ensures var st := Merge(existing, entries).value;
      && RefsUnique(st.staged)
      && (forall i :: 0 <= i < |st.staged| ==> st.staged[i].externalReference !in existing)
      && (forall i :: 0 <= i < |st.staged| ==> Unsaved(st.staged[i]) && DatesValid(st.staged[i]))
  {
    if entries != [] {
      var init := entries[..|entries| - 1];
      MergeFresh(existing, init);
      var st0 := Merge(existing, init).value;
      var entry := entries[|entries| - 1];
      var ref := EntryRef(entry).value;
      if !(ref in existing || ref in RefSet(st0.staged)) {
        NewRecordShape(entry.fields, ref);
      }
    }
  }

  /** Each staged record was built from an entry of the list with the same reference. */
  lemma {:induction false} MergeOrigin(existing: set<string>, entries: seq<Json>)
    requires Merge(existing, entries).Ok?
    ensures var st := Merge(existing, entries).value;
      forall i :: 0 <= i < |st.staged| ==>
        exists j :: 0 <= j < |entries| && EntryRef(entries[j]) == Ok(st.staged[i].externalReference)
  {
    if entries != [] {
      var init := entries[..|entries| - 1];
      MergeOrigin(existing, init);
      var st0 := Merge(existing, init).value;
      var st := Merge(existing, entries).value;
      var entry := entries[|entries| - 1];
      var ref := EntryRef(entry).value;
      forall i | 0 <= i < |st.staged|
        ensures exists j :: 0 <= j < |entries| && EntryRef(entries[j]) == Ok(st.staged[i].externalReference)
      {
        if i < |st0.staged| {
          var j :| 0 <= j < |init| && EntryRef(init[j]) == Ok(st0.staged[i].externalReference);
          assert entries[j] == init[j];
        } else {
          NewRecordShape(entry.fields, ref);
          assert EntryRef(entries[|entries| - 1]) == Ok(st.staged[i].externalReference);
        }
      }
    }
  }

  /** After a successful loop every entry's reference is in the table or among the staged records. */
  lemma {:induction false} MergeCovers(existing: set<string>, entries: seq<Json>)
    requires Merge(existing, entries).Ok?
    ensures var st := Merge(existing, entries).value;
      forall k :: 0 <= k < |entries| ==>
        EntryRef(entries[k]).Ok? && EntryRef(entries[k]).value in existing + RefSet(st.staged)
  {
    if entries != [] {
      var init := entries[..|entries| - 1];
      MergeCovers(existing, init);
      var st0 := Merge(existing, init).value;
      var st := Merge(existing, entries).value;
      MergeLast(existing, entries, st0);
      StepCovers(existing, st0, entries[|entries| - 1]);
      forall k | 0 <= k < |entries|
        ensures EntryRef(entries[k]).Ok? && EntryRef(entries[k]).value in existing + RefSet(st.staged)
      {
        if k < |init| {
          assert entries[k] == init[k];
        }
      }
    }
  }

  /** A successful step keeps every staged reference and covers its own entry's. */
  lemma StepCovers(existing: set<string>, st0: MergeState, entry: Json)
    requires Step(existing, st0, entry).Ok?
    ensures var st := Step(existing, st0, entry).value;
      && RefSet(st0.staged) <= RefSet(st.staged)
      && EntryRef(entry).Ok? && EntryRef(entry).value in existing + RefSet(st.staged)
  {
    var st := Step(existing, st0, entry).value;
    var ref := EntryRef(entry).value;
    if !(ref in existing || ref in RefSet(st0.staged)) {
      NewRecordShape(entry.fields, ref);
      assert st.staged[|st.staged| - 1].externalReference == ref;
      forall r | r in RefSet(st0.staged) ensures r in RefSet(st.staged) {
        var i :| 0 <= i < |st0.staged| && st0.staged[i].externalReference == r;
        assert st.staged[i] == st0.staged[i];
      }
    }
  }

  /** When every entry's reference is already known, the loop skips them all and stages nothing. */
  lemma {:induction false} MergeAllKnown(existing: set<string>, entries: seq<Json>)
    requires forall k :: 0 <= k < |entries| ==> EntryRef(entries[k]).Ok? && EntryRef(entries[k]).value in existing
    ensures Merge(existing, entries) == Ok(MergeState([], 0, |entries|))
  {
    if entries != [] {
      var init := entries[..|entries| - 1];
      assert forall k :: 0 <= k < |init| ==> init[k] == entries[k];
      MergeAllKnown(existing, init);
    }
  }

  /**
   * An entry with a new reference (neither in the table nor on an earlier
   * entry) that lacks a subscripted field makes the whole restore fail.
   */
  lemma RequiredFieldMissing(existing: set<string>, entries: seq<Json>, k: nat, key: string)
    requires k < |entries| && EntryRef(entries[k]).Ok?
    requires EntryRef(entries[k]).value !in existing
    requires forall j :: 0 <= j < k ==> EntryRef(entries[j]) != EntryRef(entries[k])
    requires key in RequiredKeys && key !in entries[k].fields
    ensures Merge(existing, entries).Err?
  {
    var prefix := entries[..k];
    var ref := EntryRef(entries[k]).value;
    assert entries[..k + 1][..k] == prefix;
    assert entries[..k + 1][k] == entries[k];
    if Merge(existing, prefix).Ok? {
      var st := Merge(existing, prefix).value;
      MergeOrigin(existing, prefix);
      assert ref !in RefSet(st.staged) by {
        forall i | 0 <= i < |st.staged| ensures st.staged[i].externalReference != ref {
          var j :| 0 <= j < |prefix| && EntryRef(prefix[j]) == Ok(st.staged[i].externalReference);
          assert prefix[j] == entries[j];
        }
      }
      NewRecordNeedsRequired(entries[k].fields, ref, key);
    }
    MergeErrSticky(existing, entries, k + 1);
  }

  /** What the restore makes of an exported record: its fields, unsaved, with `dados_mercadopago` kept only when truthy. */
  function Reimported(c: Cobranca): (r: Cobranca)
    ensures r.externalReference == c.externalReference && r.mercadopagoId == c.mercadopagoId
    ensures Unsaved(r) && DadosNormal(r)
    ensures DadosNormal(c) ==> r == Content(c)
  {
    var d := DadosOf(c);
    var base := Content(c).(dadosMercadopago := None);
    if Truthy(d) then WithDados(base, d) else base
  }

  /** Building a record from `to_dict()` of a record gives back its content. */
  lemma NewRecordOfDict(c: Cobranca)
    requires DatesValid(c)
    ensures NewRecord(ToDict(c), c.externalReference) == Ok(Reimported(c))
    ensures DadosNormal(c) ==> Reimported(c) == Content(c)
  {
    ConstructedOfDict(c);
    ToDictDados(c);
    assert GetOrNull(ToDict(c), "dados_mercadopago") == DadosOf(c);
  }

  /** The `Cobranca(...)` call on `to_dict()` of a record copies back every column it reads. */
  lemma ConstructedOfDict(c: Cobranca)
    requires DatesValid(c)
    ensures Constructed(ToDict(c), c.externalReference) == Ok(Content(c).(dadosMercadopago := None))
  {
    RequiredOfDict(c);
    OptionalOfDict(c);
  }

  /** The subscripted fields read back from an exported record are its own. */
  lemma RequiredOfDict(c: Cobranca)
    requires DatesValid(c)
    ensures var m := ToDict(c);
      && Required(m, "cliente_nome") == Ok(c.clienteNome)
      && Required(m, "cliente_email") == Ok(c.clienteEmail)
      && Required(m, "titulo") == Ok(c.titulo)
      && RequiredNumber(m, "valor") == Ok(c.valor)
      && Required(m, "status") == Ok(c.status)
  {
    ToDictRequired(c);
  }

  /** The `.get` fields read back from an exported record are its own. */
  lemma OptionalOfDict(c: Cobranca)
    requires DatesValid(c)
    ensures var m := ToDict(c);
      && Optional(m, "mercadopago_id") == Ok(c.mercadopagoId)
      && Optional(m, "cliente_telefone") == Ok(c.clienteTelefone)
      && Optional(m, "cliente_documento") == Ok(c.clienteDocumento)
      && Optional(m, "descricao") == Ok(c.descricao)
      && Optional(m, "payment_url") == Ok(c.paymentUrl)
  {
    ToDictNullable(c);
  }

  /** `Reimported` over a list of records. */
  function ReimportAll(rows: seq<Cobranca>): (r: seq<Cobranca>)
    ensures |r| == |rows|
    ensures forall i :: 0 <= i < |rows| ==> r[i] == Reimported(rows[i])
  {
    seq(|rows|, i requires 0 <= i < |rows| => Reimported(rows[i]))
  }

  /** Exported entries with new, distinct references are all restored, in order, as their records' content. */
  lemma {:induction false} MergeOfDicts(existing: set<string>, rows: seq<Cobranca>)
    requires RefsUnique(rows)
    requires forall i :: 0 <= i < |rows| ==> DatesValid(rows[i]) && rows[i].externalReference !in existing
    ensures Merge(existing, DictRows(rows)) == Ok(MergeState(ReimportAll(rows), |rows|, 0))
  {
    if rows == [] {
      assert DictRows(rows) == [];
      assert ReimportAll(rows) == [];
    } else {
      var init := rows[..|rows| - 1];
      var last := rows[|rows| - 1];
      LastRowFresh(existing, rows);
      MergeOfDicts(existing, init);
      var st0 := MergeState(ReimportAll(init), |init|, 0);
      DictStep(existing, st0, last);
      MergeOfLastDict(existing, rows, st0);
    }
  }

  /** The last of distinct rows is fresh after the others are reimported, and the others stay distinct. */
  lemma LastRowFresh(existing: set<string>, rows: seq<Cobranca>)
    requires rows != [] && RefsUnique(rows)
    ensures RefsUnique(rows[..|rows| - 1])
    ensures rows[|rows| - 1].externalReference !in RefSet(ReimportAll(rows[..|rows| - 1]))
  {
    var init := rows[..|rows| - 1];
    var staged0 := ReimportAll(init);
    forall i | 0 <= i < |staged0| ensures staged0[i].externalReference != rows[|rows| - 1].externalReference {
      assert staged0[i].externalReference == rows[i].externalReference;
    }
  }

  /** Merging the exported rows is merging all but the last, then one step on the last. */
  lemma MergeOfLastDict(existing: set<string>, rows: seq<Cobranca>, st0: MergeState)
    requires rows != [] && forall i :: 0 <= i < |rows| ==> DatesValid(rows[i])
    requires Merge(existing, DictRows(rows[..|rows| - 1])) == Ok(st0)
    requires st0.staged == ReimportAll(rows[..|rows| - 1])
    requires Step(existing, st0, JObj(ToDict(rows[|rows| - 1])))
          == Ok(MergeState(st0.staged + [Reimported(rows[|rows| - 1])], st0.restored + 1, st0.skipped))
    ensures Merge(existing, DictRows(rows)) == Ok(MergeState(ReimportAll(rows), st0.restored + 1, st0.skipped))
  {
    DictRowsInit(rows);
    MergeLast(existing, DictRows(rows), st0);
    ReimportAllSnoc(rows);
  }

  /** The export of all rows but the last is the export's prefix; its last entry is the last row's dict. */
  lemma DictRowsInit(rows: seq<Cobranca>)
    requires rows != [] && forall i :: 0 <= i < |rows| ==> DatesValid(rows[i])
    ensures DictRows(rows)[..|rows| - 1] == DictRows(rows[..|rows| - 1])
    ensures DictRows(rows)[|rows| - 1] == JObj(ToDict(rows[|rows| - 1]))
  {
  }

  /** Reimporting all rows is reimporting all but the last, then the last. */
  lemma ReimportAllSnoc(rows: seq<Cobranca>)
    requires rows != []
    ensures ReimportAll(rows[..|rows| - 1]) + [Reimported(rows[|rows| - 1])] == ReimportAll(rows)
  {
  }

  /** `Merge` over a non-empty list is one step after the merge of its prefix. */
  lemma MergeLast(existing: set<string>, entries: seq<Json>, st0: MergeState)
    requires entries != [] && Merge(existing, entries[..|entries| - 1]) == Ok(st0)
    ensures Merge(existing, entries) == Step(existing, st0, entries[|entries| - 1])
  {
  }

  /** An exported record with a new reference is staged as its reimported content. */
  lemma DictStep(existing: set<string>, st: MergeState, c: Cobranca)
    requires DatesValid(c) && c.externalReference !in existing && c.externalReference !in RefSet(st.staged)
    ensures Step(existing, st, JObj(ToDict(c)))
         == Ok(MergeState(st.staged + [Reimported(c)], st.restored + 1, st.skipped))
  {
    ToDictRequired(c);
    NewRecordOfDict(c);
    assert EntryRef(JObj(ToDict(c))) == Ok(c.externalReference);
  }

  /** A commit with nothing staged leaves the table as it is. */
  lemma CommitNothing(t: Table, now: DateTime)
    ensures CommitRows(t, [], now) == t
  {
    assert Keyed(Inserted([], t.nextId, now)) == map[];
    assert t.records + map[] == t.records;
    assert t.order + Refs(Inserted([], t.nextId, now)) == t.order;
  }

  /**
   * All or nothing: a failed restore leaves the table unchanged; a
   * successful one keeps the table valid, keeps every existing row, adds
   * exactly the restored records, and its counters add up to the entries.
   */
  lemma RestoreAllOrNothing(t: Table, content: Option<FileContent>, now: DateTime, dbOk: bool)
    requires TableValid(t) && Valid(now)
    ensures var run := RestoreOutcome(t, content, now, dbOk);
      run.result.Err? ==> run.table == t
    ensures var run := RestoreOutcome(t, content, now, dbOk);
      run.result.Ok? ==>
        && TableValid(run.table)
        && run.result.value.restored + run.result.value.skipped == run.result.value.total
        && |run.table.order| == |t.order| + run.result.value.restored
        && run.table.nextId == t.nextId + run.result.value.restored
        && (forall r :: r in t.records ==> r in run.table.records && run.table.records[r] == t.records[r])
  {
    var run := RestoreOutcome(t, content, now, dbOk);
    if run.result.Ok? {
      var doc := content.value.doc;
      var entries := EntriesOf(CobrancasOf(doc).value).value;
      var st := Merge(t.records.Keys, entries).value;
      MergeCounts(t.records.Keys, entries);
      MergeFresh(t.records.Keys, entries);
      assert run.table == CommitRows(t, st.staged, now);
      CommitRowsValid(t, st.staged, now);
    }
  }

  /** Committing rows that pass the constraints keeps the table valid and every old row, and adds one row each. */
  lemma CommitRowsValid(t: Table, staged: seq<Cobranca>, now: DateTime)
    requires TableValid(t) && Valid(now)
    requires forall i :: 0 <= i < |staged| ==> DatesValid(staged[i])
    requires ConstraintsHold(RowsOf(t.records, t.order) + staged)
    ensures var t' := CommitRows(t, staged, now);
      && TableValid(t')
      && |t'.order| == |t.order| + |staged|
      && t'.nextId == t.nextId + |staged|
      && (forall r :: r in t.records ==> r in t'.records && t'.records[r] == t.records[r])
  {
    var ins := Inserted(staged, t.nextId, now);
    CommitState(t.records, t.order, t.nextId, staged, now, AfterInsert(t.records, ins), t.order + Refs(ins), t.nextId + |staged|);
  }

  /** After a successful restore the table holds exactly its old references and those of the restored records. */
  lemma RestoreKeys(t: Table, content: Option<FileContent>, now: DateTime, dbOk: bool)
    requires TableValid(t) && Valid(now)
    requires RestoreOutcome(t, content, now, dbOk).result.Ok?
    ensures var entries := EntriesOf(CobrancasOf(content.value.doc).value).value;
      RestoreOutcome(t, content, now, dbOk).table.records.Keys
        == t.records.Keys + RefSet(Merge(t.records.Keys, entries).value.staged)
  {
    var entries := EntriesOf(CobrancasOf(content.value.doc).value).value;
    InsertKeys(t.records, Merge(t.records.Keys, entries).value.staged, t.nextId, now);
  }

  /**
   * Restoring the same file again after a successful restore skips every
   * entry and leaves the table as the first restore left it.
   */
  lemma RestoreIdempotent(t: Table, content: Option<FileContent>, now: DateTime, dbOk: bool, later: DateTime)
    requires TableValid(t) && Valid(now) && Valid(later)
    requires RestoreOutcome(t, content, now, dbOk).result.Ok?
    ensures var first := RestoreOutcome(t, content, now, dbOk);
      RestoreOutcome(first.table, content, later, true)
        == RestoreRun(Ok(Counts(0, first.result.value.total, first.result.value.total)), first.table)
  {
    var first := RestoreOutcome(t, content, now, dbOk);
    var t' := first.table;
    var entries := EntriesOf(CobrancasOf(content.value.doc).value).value;
    assert first.result.value.total == |entries|;
    RestoreAllOrNothing(t, content, now, dbOk);
    RestoreKeys(t, content, now, dbOk);
    MergeCovers(t.records.Keys, entries);
    StagingAllKnown(t'.records.Keys, t.records.Keys, content);
    RestoreAllKnown(t', content, later, |entries|);
  }

  /** Staging a file whose every entry names a known reference stages nothing and skips them all. */
  lemma StagingAllKnown(existing: set<string>, before: set<string>, content: Option<FileContent>)
    requires Staging(before, content).Ok?
    requires var entries := EntriesOf(CobrancasOf(content.value.doc).value).value;
      forall k :: 0 <= k < |entries| ==> EntryRef(entries[k]).Ok? && EntryRef(entries[k]).value in existing
    ensures var entries := EntriesOf(CobrancasOf(content.value.doc).value).value;
      Staging(existing, content) == Ok((MergeState([], 0, |entries|), |entries|))
  {
    var entries := EntriesOf(CobrancasOf(content.value.doc).value).value;
    MergeAllKnown(existing, entries);
  }

  /** A restore that stages nothing succeeds, skips every entry and leaves the table as it was. */
  lemma RestoreAllKnown(t: Table, content: Option<FileContent>, now: DateTime, n: nat)
    requires TableValid(t)
    requires Staging(t.records.Keys, content) == Ok((MergeState([], 0, n), n))
    ensures RestoreOutcome(t, content, now, true) == RestoreRun(Ok(Counts(0, n, n)), t)
  {
    InvariantConstraints(t.records, t.order, t.nextId);
    assert RowsOf(t.records, t.order) + [] == RowsOf(t.records, t.order);
    CommitNothing(t, now);
  }

  /** A table's rows as the full export writes them. */
  function FullSnapshot(t: Table, exportDate: DateTime): Json
    requires TableValid(t) && Valid(exportDate)
  {
    FullDocument(DictRows(RowsOf(t.records, t.order)), exportDate)
  }

  /** Restoring a fresh full backup into the table it came from skips every record and changes nothing. */
  lemma RestoreOwnSnapshot(t: Table, exportDate: DateTime, now: DateTime)
    requires TableValid(t) && Valid(exportDate) && Valid(now)
    ensures var n := |t.order|;
      RestoreOutcome(t, Some(JsonText(FullSnapshot(t, exportDate))), now, true) == RestoreRun(Ok(Counts(0, n, n)), t)
  {
    SnapshotAllKnown(t, exportDate);
    RestoreAllKnown(t, Some(JsonText(FullSnapshot(t, exportDate))), now, |t.order|);
  }

  /** Every entry of a table's own snapshot names a reference the table holds. */
  lemma SnapshotAllKnown(t: Table, exportDate: DateTime)
    requires TableValid(t) && Valid(exportDate)
    ensures Staging(t.records.Keys, Some(JsonText(FullSnapshot(t, exportDate))))
         == Ok((MergeState([], 0, |t.order|), |t.order|))
  {
    OrderFacts(t);
    var rows := RowsOf(t.records, t.order);
    var entries := DictRows(rows);
    forall k | 0 <= k < |entries| ensures EntryRef(entries[k]).Ok? && EntryRef(entries[k]).value in t.records.Keys {
      ToDictRequired(rows[k]);
    }
    MergeAllKnown(t.records.Keys, entries);
    DocumentCounts(entries, exportDate);
    StagingOfList(t.records.Keys, FullSnapshot(t, exportDate), entries);
  }


  /** Committing records with distinct references `order` into an empty table lists them in that order. */
  lemma {:induction false} CommitIntoEmpty(order: seq<string>, staged: seq<Cobranca>, now: DateTime)
    requires |staged| == |order|
    requires forall i :: 0 <= i < |order| ==> staged[i].externalReference == order[i]
    requires forall i, j :: 0 <= i < j < |order| ==> order[i] != order[j]
    ensures CommitRows(EmptyTable, staged, now).order == order
    ensures forall r :: r in CommitRows(EmptyTable, staged, now).records <==> r in order
    ensures forall i :: 0 <= i < |order| ==>
      && order[i] in CommitRows(EmptyTable, staged, now).records
      && CommitRows(EmptyTable, staged, now).records[order[i]] == Inserted(staged, 1, now)[i]
  {
    var ins := Inserted(staged, 1, now);
    assert forall i :: 0 <= i < |ins| ==> ins[i].externalReference == order[i];
    KeyedOfDistinct(ins, order);
    CommitIntoEmptyTable(staged, now);
  }

  /** Committing into an empty table leaves just the inserted rows, keyed and listed. */
  lemma CommitIntoEmptyTable(staged: seq<Cobranca>, now: DateTime)
    ensures var ins := Inserted(staged, 1, now);
      CommitRows(EmptyTable, staged, now) == Table(Keyed(ins), Refs(ins), 1 + |staged|)
  {
    var ins := Inserted(staged, 1, now);
    assert EmptyTable.order + Refs(ins) == Refs(ins);
    assert EmptyTable.records + Keyed(ins) == Keyed(ins);
  }


  /** The facts of a valid table that a round trip needs: its order lists exactly its keys, once each. */
  lemma OrderFacts(t: Table)
    requires TableValid(t)
    ensures forall i :: 0 <= i < |t.order| ==> t.order[i] in t.records && t.records[t.order[i]].externalReference == t.order[i]
    ensures forall r :: r in t.records <==> r in t.order
    ensures forall i, j :: 0 <= i < j < |t.order| ==> t.order[i] != t.order[j]
  {
  }

  /** Committing the reimported rows of a listed table into an empty table. */
  lemma RoundTripOrder(records: map<string, Cobranca>, order: seq<string>, now: DateTime)
    requires forall i :: 0 <= i < |order| ==> order[i] in records && records[order[i]].externalReference == order[i]
    requires forall r :: r in records <==> r in order
    requires forall i, j :: 0 <= i < j < |order| ==> order[i] != order[j]
    ensures CommitRows(EmptyTable, ReimportAll(RowsOf(records, order)), now).order == order
    ensures CommitRows(EmptyTable, ReimportAll(RowsOf(records, order)), now).records.Keys == records.Keys
    ensures forall i :: 0 <= i < |order| ==>
      && order[i] in CommitRows(EmptyTable, ReimportAll(RowsOf(records, order)), now).records
      && CommitRows(EmptyTable, ReimportAll(RowsOf(records, order)), now).records[order[i]]
        == Inserted(ReimportAll(RowsOf(records, order)), 1, now)[i]
  {
    var staged := ReimportAll(RowsOf(records, order));
    CommitIntoEmpty(order, staged, now);
    var t' := CommitRows(EmptyTable, staged, now);
    assert t'.records.Keys == records.Keys by {
      forall r ensures r in t'.records <==> r in records {
      }
    }
  }

  /** The table a full backup of `t` becomes when restored into an empty table. */
  lemma RoundTripTable(t: Table, now: DateTime)
    requires TableValid(t) && Valid(now)
    ensures CommitRows(EmptyTable, ReimportAll(RowsOf(t.records, t.order)), now).order == t.order
    ensures CommitRows(EmptyTable, ReimportAll(RowsOf(t.records, t.order)), now).records.Keys == t.records.Keys
    ensures forall i :: 0 <= i < |t.order| ==>
      && t.order[i] in CommitRows(EmptyTable, ReimportAll(RowsOf(t.records, t.order)), now).records
      && CommitRows(EmptyTable, ReimportAll(RowsOf(t.records, t.order)), now).records[t.order[i]]
        == Inserted(ReimportAll(RowsOf(t.records, t.order)), 1, now)[i]
  {
    OrderFacts(t);
    RoundTripOrder(t.records, t.order, now);
  }

  /** The staging of a document whose `cobrancas` is a list is the loop over that list. */
  lemma StagingOfList(existing: set<string>, doc: Json, entries: seq<Json>)
    requires doc.JObj? && "cobrancas" in doc.fields && doc.fields["cobrancas"] == JArr(entries)
    requires Merge(existing, entries).Ok?
    ensures Staging(existing, Some(JsonText(doc))) == Ok((Merge(existing, entries).value, |entries|))
  {
  }

  /** A document listing exported rows with distinct keys, restored into an empty table, restores them all. */
  lemma RestoreIntoEmpty(rows: seq<Cobranca>, doc: Json, now: DateTime)
    requires ConstraintsHold(rows) && forall i :: 0 <= i < |rows| ==> DatesValid(rows[i])
    requires doc.JObj? && "cobrancas" in doc.fields && doc.fields["cobrancas"] == JArr(DictRows(rows))
    ensures RestoreOutcome(EmptyTable, Some(JsonText(doc)), now, true)
         == RestoreRun(Ok(Counts(|rows|, 0, |rows|)), CommitRows(EmptyTable, ReimportAll(rows), now))
  {
    var staged := ReimportAll(rows);
    MergeOfDicts({}, rows);
    assert EmptyTable.records.Keys == {};
    StagingOfList({}, doc, DictRows(rows));
    assert RowsOf(EmptyTable.records, EmptyTable.order) + staged == staged;
    SameKeysConstraints(rows, staged);
  }

  /** A full backup of `t`, restored into an empty table, stages every record's content and commits. */
  lemma RoundTripStaging(t: Table, exportDate: DateTime, now: DateTime)
    requires TableValid(t) && Valid(exportDate) && Valid(now)
    ensures var rows := RowsOf(t.records, t.order);
      RestoreOutcome(EmptyTable, Some(JsonText(FullSnapshot(t, exportDate))), now, true)
        == RestoreRun(Ok(Counts(|rows|, 0, |rows|)), CommitRows(EmptyTable, ReimportAll(rows), now))
  {
    var rows := RowsOf(t.records, t.order);
    InvariantConstraints(t.records, t.order, t.nextId);
    DocumentCounts(DictRows(rows), exportDate);
    RestoreIntoEmpty(rows, FullSnapshot(t, exportDate), now);
  }

  /** A re-imported record, once inserted, has its original content. */
  lemma InsertedContent(c: Cobranca, id: int, now: DateTime)
    requires DadosNormal(c)
    ensures Content(Reimported(c).(id := Some(id), dataCriacao := Some(now), dataAtualizacao := Some(now))) == Content(c)
  {
  }

  /**
   * The export/restore round trip: a full backup restored into an empty
   * table restores every record, in the same order and under the same
   * references, with the same content. Primary keys are handed out afresh
   * in that order, both stamped datetimes become the restore's time, and
   * the due and payment datetimes are not carried over.
   */
  lemma ExportRestoreRoundTrip(t: Table, exportDate: DateTime, now: DateTime)
    requires TableValid(t) && Valid(exportDate) && Valid(now)
    requires forall r :: r in t.records ==> DadosNormal(t.records[r])
    ensures var run := RestoreOutcome(EmptyTable, Some(JsonText(FullSnapshot(t, exportDate))), now, true);
      && run.result == Ok(Counts(|t.order|, 0, |t.order|))
      && run.table.order == t.order
      && run.table.records.Keys == t.records.Keys
    ensures var t' := RestoreOutcome(EmptyTable, Some(JsonText(FullSnapshot(t, exportDate))), now, true).table;
      forall i :: 0 <= i < |t.order| ==>
        && Content(t'.records[t.order[i]]) == Content(t.records[t.order[i]])
        && t'.records[t.order[i]].id == Some(1 + i)
        && t'.records[t.order[i]].dataCriacao == Some(now) && t'.records[t.order[i]].dataAtualizacao == Some(now)
        && t'.records[t.order[i]].dataVencimento.None? && t'.records[t.order[i]].dataPagamento.None?
  {
    var rows := RowsOf(t.records, t.order);
    var staged := ReimportAll(rows);
    var ins := Inserted(staged, 1, now);
    RoundTripStaging(t, exportDate, now);
    RoundTripTable(t, now);
    var t' := CommitRows(EmptyTable, staged, now);
    forall i | 0 <= i < |t.order|
      ensures && Content(t'.records[t.order[i]]) == Content(t.records[t.order[i]])
              && t'.records[t.order[i]].id == Some(1 + i)
              && t'.records[t.order[i]].dataCriacao == Some(now) && t'.records[t.order[i]].dataAtualizacao == Some(now)
              && t'.records[t.order[i]].dataVencimento.None? && t'.records[t.order[i]].dataPagamento.None?
    {
      assert t'.records[t.order[i]] == ins[i];
      assert rows[i] == t.records[t.order[i]];
      InsertedContent(rows[i], 1 + i, now);
    }
  }
}
