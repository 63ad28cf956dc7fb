/**
 * The billing record ("cobrança") the backup and restore work on: its
 * columns, which of them may be null, the status values, the `to_dict`
 * projection and the JSON-text column `dados_mercadopago`.
 */
module CobrancaModel {
  import opened Wrappers
  import opened Json
  import opened DateTimes

  /** The column default for `status`. */
  const DefaultStatus := "pending"

  /** The statuses the model's comment lists; the column itself accepts any string. */
  const KnownStatuses: set<string> := {"pending", "approved", "rejected", "cancelled", "in_process"}

  /**
   * One row. Required columns are plain values, nullable ones are Options.
   * `id` and the two stamped datetimes are `None` until the store inserts the
   * row. `dadosMercadopago` is the Text column holding `json.dumps` of a
   * value: `Some(j)` stands for the (never empty) text of `j`, `None` for NULL.
   */
  datatype Cobranca = Cobranca(
    id: Option<int>,
    mercadopagoId: Option<string>,
    externalReference: string,
    clienteNome: string,
    clienteEmail: string,
    clienteTelefone: Option<string>,
    clienteDocumento: Option<string>,
    titulo: string,
    descricao: Option<string>,
    valor: real,
    status: string,
    dataCriacao: Option<DateTime>,
    dataAtualizacao: Option<DateTime>,
    dataVencimento: Option<DateTime>,
    dataPagamento: Option<DateTime>,
    paymentUrl: Option<string>,
    dadosMercadopago: Option<Json>
  )

  /** A datetime column in `to_dict`: its `isoformat()` text, or `None` when unset. */
  function DateField(d: Option<DateTime>): (j: Json)
    requires d.Some? ==> Valid(d.value)
    ensures d.None? ==> j == JNull
    ensures d.Some? ==> j == JStr(IsoFormat(d.value))
  {
    match d
    case None => JNull
    case Some(t) => JStr(IsoFormat(t))
  }

  /** Every datetime the record holds is one Python can represent. */
  predicate DatesValid(c: Cobranca) {
    && (c.dataCriacao.Some? ==> Valid(c.dataCriacao.value))
    && (c.dataAtualizacao.Some? ==> Valid(c.dataAtualizacao.value))
    && (c.dataVencimento.Some? ==> Valid(c.dataVencimento.value))
    && (c.dataPagamento.Some? ==> Valid(c.dataPagamento.value))
  }

  /** What `get_dados_mercadopago()` returns: the stored value, or `None` when nothing is stored. */
  function DadosOf(c: Cobranca): Json {
    match c.dadosMercadopago
    case None => JNull
    case Some(j) => j
  }

  /** The row after `set_dados_mercadopago(dados)`: the text of `dados` stored, or NULL when `dados` is falsy. */
  function WithDados(c: Cobranca, dados: Json): (r: Cobranca)
    ensures r == c.(dadosMercadopago := r.dadosMercadopago)
    ensures Truthy(dados) <==> r.dadosMercadopago.Some?
    ensures r.dadosMercadopago.Some? ==> r.dadosMercadopago.value == dados
  {
    c.(dadosMercadopago := if Truthy(dados) then Some(dados) else None)
  }

  /** The seventeen keys of `to_dict()`. */
  const DictKeys: set<string> := {
    "id", "mercadopago_id", "external_reference", "cliente_nome", "cliente_email",
    "cliente_telefone", "cliente_documento", "titulo", "descricao", "valor", "status",
    "data_criacao", "data_atualizacao", "data_vencimento", "data_pagamento",
    "payment_url", "dados_mercadopago"}

  /** The value `to_dict()` stores under `key`. */
  function DictValue(c: Cobranca, key: string): Json
    requires DatesValid(c)
  {
    match key
    case "id" => if c.id.Some? then JNum(c.id.value as real) else JNull
    case "mercadopago_id" => OptStr(c.mercadopagoId)
    case "external_reference" => JStr(c.externalReference)
    case "cliente_nome" => JStr(c.clienteNome)
    case "cliente_email" => JStr(c.clienteEmail)
    case "cliente_telefone" => OptStr(c.clienteTelefone)
    case "cliente_documento" => OptStr(c.clienteDocumento)
    case "titulo" => JStr(c.titulo)
    case "descricao" => OptStr(c.descricao)
    case "valor" => JNum(c.valor)
    case "status" => JStr(c.status)
    case "data_criacao" => DateField(c.dataCriacao)
    case "data_atualizacao" => DateField(c.dataAtualizacao)
    case "data_vencimento" => DateField(c.dataVencimento)
    case "data_pagamento" => DateField(c.dataPagamento)
    case "payment_url" => OptStr(c.paymentUrl)
    case _ => DadosOf(c)
  }

  /** `to_dict()`: the JSON object a snapshot stores for one record. */
  function ToDict(c: Cobranca): map<string, Json>
    requires DatesValid(c)
  {
    map key | key in DictKeys :: DictValue(c, key)
  }

  /** `to_dict()` has exactly the seventeen listed keys. */
  lemma ToDictKeys(c: Cobranca)
    requires DatesValid(c)
    ensures ToDict(c).Keys == DictKeys
  {
  }

  /** The required columns are copied verbatim. */
  lemma ToDictRequired(c: Cobranca)
    requires DatesValid(c)
    ensures ToDict(c)["external_reference"] == JStr(c.externalReference)
    ensures ToDict(c)["cliente_nome"] == JStr(c.clienteNome)
    ensures ToDict(c)["cliente_email"] == JStr(c.clienteEmail)
    ensures ToDict(c)["titulo"] == JStr(c.titulo)
    ensures ToDict(c)["valor"] == JNum(c.valor)
    ensures ToDict(c)["status"] == JStr(c.status)
  {
  }

  /** The nullable scalar columns are copied verbatim, null when unset. */
  lemma ToDictNullable(c: Cobranca)
    requires DatesValid(c)
    ensures ToDict(c)["id"] == (if c.id.Some? then JNum(c.id.value as real) else JNull)
    ensures ToDict(c)["mercadopago_id"] == (if c.mercadopagoId.Some? then JStr(c.mercadopagoId.value) else JNull)
    ensures ToDict(c)["cliente_telefone"] == (if c.clienteTelefone.Some? then JStr(c.clienteTelefone.value) else JNull)
    ensures ToDict(c)["cliente_documento"] == (if c.clienteDocumento.Some? then JStr(c.clienteDocumento.value) else JNull)
    ensures ToDict(c)["descricao"] == (if c.descricao.Some? then JStr(c.descricao.value) else JNull)
    ensures ToDict(c)["payment_url"] == (if c.paymentUrl.Some? then JStr(c.paymentUrl.value) else JNull)
  {
  }

  /** Each datetime column maps to null when unset and to its ISO text otherwise. */
  lemma ToDictDates(c: Cobranca)
    requires DatesValid(c)
    ensures ToDict(c)["data_criacao"] == (if c.dataCriacao.Some? then JStr(IsoFormat(c.dataCriacao.value)) else JNull)
    ensures ToDict(c)["data_atualizacao"] == (if c.dataAtualizacao.Some? then JStr(IsoFormat(c.dataAtualizacao.value)) else JNull)
    ensures ToDict(c)["data_vencimento"] == (if c.dataVencimento.Some? then JStr(IsoFormat(c.dataVencimento.value)) else JNull)
    ensures ToDict(c)["data_pagamento"] == (if c.dataPagamento.Some? then JStr(IsoFormat(c.dataPagamento.value)) else JNull)
  {
  }

  /** `to_dict()['dados_mercadopago']` is what `get_dados_mercadopago()` returns. */
  lemma ToDictDados(c: Cobranca)
    requires DatesValid(c)
    ensures ToDict(c)["dados_mercadopago"] == DadosOf(c)
  {
  }

  /**
   * The set/get round trip: after `set(d)`, `get()` gives `d` back when `d`
   * is truthy and `None` when it is falsy, and nothing but the column changes.
   */
  lemma DadosRoundTrip(c: Cobranca, d: Json)
    ensures Truthy(d) ==> DadosOf(WithDados(c, d)) == d
    ensures !Truthy(d) ==> DadosOf(WithDados(c, d)) == JNull
    ensures !Truthy(d) ==> WithDados(c, d).dadosMercadopago.None?
  {
  }

  /** The column default is one of the listed statuses. */
  lemma DefaultStatusKnown()
    ensures DefaultStatus in KnownStatuses
  {
  }

  /** A stored `dados_mercadopago` is either NULL or a value `set` would have kept. */
  predicate DadosNormal(c: Cobranca) {
    c.dadosMercadopago.Some? ==> Truthy(c.dadosMercadopago.value)
  }

  /** A record's content: everything but the primary key and the four datetimes. */
  function Content(c: Cobranca): Cobranca {
    c.(id := None, dataCriacao := None, dataAtualizacao := None, dataVencimento := None, dataPagamento := None)
  }

  /**
   * A mapped object holding one row; `set_dados_mercadopago` assigns its
   * column in place.
   */
  class Entity {
    var row: Cobranca

    constructor (row: Cobranca)
      ensures this.row == row
    {
      this.row := row;
    }

    /** `get_dados_mercadopago()`. */
    function GetDadosMercadopago(): Json
      reads this
    {
      DadosOf(row)
    }

    /**
     * `set_dados_mercadopago(dados)`: only the column changes, and reading
     * it back gives `dados` when it is truthy and `None` otherwise.
     */
    method SetDadosMercadopago(dados: Json)
      modifies this
      ensures row == WithDados(old(row), dados)
      ensures GetDadosMercadopago() == if Truthy(dados) then dados else JNull
    {
      row := row.(dadosMercadopago := if Truthy(dados) then Some(dados) else None);
    }
  }
}
