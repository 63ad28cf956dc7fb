/**
 * The snapshot documents the two exports write: the full export of every
 * record and the "latest" export of the records updated in the last 24
 * hours, with their file names.
 */
module Snapshot {
  import opened Wrappers
  import opened Json
  import opened DateTimes
  import opened CobrancaModel
  import opened RecordStore

  const SystemName := "Sistema de Cobrança Mercado Pago"
  const LatestFileName := "cobrancas_latest.json"

  /** `cobrancas_backup_<YYYYMMDD_HHMMSS>.json`, from the local clock. */
  function FullBackupName(localNow: DateTime): string
    requires Valid(localNow)
  {
    "cobrancas_backup_" + CompactStamp(localNow) + ".json"
  }

  /** The records as `to_dict()` objects, one per record, in query order. */
  function DictRows(rows: seq<Cobranca>): (data: seq<Json>)
    requires forall i :: 0 <= i < |rows| ==> DatesValid(rows[i])
  {
    seq(|rows|, i requires 0 <= i < |rows| => JObj(ToDict(rows[i])))
  }

  /** The `metadata` block of a full export. */
  const FullMetadata: Json :=
    JObj(map["version" := JStr("1.0"), "system" := JStr(SystemName), "format" := JStr("JSON")])

  /** The `metadata` block of the latest export, which also names its filter. */
  const LatestMetadata: Json :=
    JObj(map["version" := JStr("1.0"), "system" := JStr(SystemName), "format" := JStr("JSON"),
             "filter" := JStr("últimas 24 horas")])

  /** The document `export_cobrancas_to_json` writes for the collected entries. */
  function FullDocument(data: seq<Json>, exportDate: DateTime): Json
    requires Valid(exportDate)
  {
    JObj(map[
      "export_date" := JStr(IsoFormat(exportDate)),
      "total_cobrancas" := JNum(|data| as real),
      "cobrancas" := JArr(data),
      "metadata" := FullMetadata])
  }

  /** The document `export_latest_cobrancas` writes for the collected entries. */
  function LatestDocument(data: seq<Json>, exportDate: DateTime): Json
    requires Valid(exportDate)
  {
    JObj(map[
      "export_date" := JStr(IsoFormat(exportDate)),
      "period" := JStr("last_24_hours"),
      "total_cobrancas" := JNum(|data| as real),
      "cobrancas" := JArr(data),
      "metadata" := LatestMetadata])
  }

  /** The full document has its four keys and declares as `total_cobrancas` the length of its `cobrancas` list. */
  lemma DocumentCounts(data: seq<Json>, exportDate: DateTime)
    requires Valid(exportDate)
    ensures FullDocument(data, exportDate).fields.Keys == {"export_date", "total_cobrancas", "cobrancas", "metadata"}
    ensures FullDocument(data, exportDate).fields["cobrancas"] == JArr(data)
    ensures FullDocument(data, exportDate).fields["total_cobrancas"] == JNum(|data| as real)
  {
  }

  /** The latest-changes document has the same keys and count, and names its period. */
  lemma LatestDocumentCounts(data: seq<Json>, exportDate: DateTime)
    requires Valid(exportDate)
    ensures LatestDocument(data, exportDate).fields.Keys == {"export_date", "period", "total_cobrancas", "cobrancas", "metadata"}
    ensures LatestDocument(data, exportDate).fields["cobrancas"] == JArr(data)
    ensures LatestDocument(data, exportDate).fields["total_cobrancas"] == JNum(|data| as real)
    ensures LatestDocument(data, exportDate).fields["period"] == JStr("last_24_hours")
  {
  }
}
