/**
 * The Mercado Pago integration's own logic: the payment and preference
 * payloads built from a charge (description fallback, payer-name split,
 * CPF/CNPJ identification), reading the SDK's replies by status code, and
 * the webhook signature check (header parsing and manifest; the HMAC
 * itself is a parameter).
 */
module MercadoPago {
  import opened Wrappers
  import opened Json
  import opened PyStrings

  /** The fields of `dados_cobranca` that `criar_pagamento` reads. */
  datatype ChargeRequest = ChargeRequest(
    titulo: string,
    descricao: Option<string>,
    valor: real,
    clienteNome: string,
    clienteEmail: string,
    clienteDocumento: Option<string>,
    externalReference: string)

  /** `descricao or titulo`: the description when it is truthy, the title otherwise. */
  function Description(descricao: Option<string>, titulo: string): (d: string)
    ensures descricao.Some? && descricao.value != "" ==> d == descricao.value
    ensures descricao.None? || descricao.value == "" ==> d == titulo
  {
    if descricao.Some? && descricao.value != "" then descricao.value else titulo
  }

  /**
   * `nome.split()[0] if nome else ""` as written: `None` stands for the
   * IndexError raised when a non-empty name holds only whitespace.
   */
  function FirstNameAsWritten(name: string): Option<string> {
    if name == "" then Some("")
    else if Tokens(name) == [] then None
    else Some(Tokens(name)[0])
  }

  /** The first word of the name, or `""` when it has none. */
  function FirstName(name: string): string {
    if Tokens(name) == [] then "" else Tokens(name)[0]
  }

  /** `" ".join(nome.split()[1:]) if len(nome.split()) > 1 else ""`. */
  function LastName(name: string): string {
    if |Tokens(name)| > 1 then JoinSpace(Tokens(name)[1..]) else ""
  }

  /** A non-empty name made only of whitespace makes the first-name expression raise. */
  lemma WhitespaceNameRaises(name: string)
    requires name != [] && forall k :: 0 <= k < |name| ==> IsSpace(name[k])
    ensures FirstNameAsWritten(name).None?
  {
    TokensEmpty(name);
  }

  /** The corrected first name never fails, and agrees with the source wherever the source does not raise. */
  lemma FirstNameCorrected(name: string)
    ensures FirstNameAsWritten(name).Some? ==> FirstNameAsWritten(name).value == FirstName(name)
    ensures FirstNameAsWritten(name).None? <==> name != [] && forall k :: 0 <= k < |name| ==> IsSpace(name[k])
    ensures FirstName(name) == "" <==> forall k :: 0 <= k < |name| ==> IsSpace(name[k])
  {
    TokensEmpty(name);
  }

  /**
   * First and last name split the name's words: the first word, then the
   * rest joined by single spaces, which splits back into the remaining words.
   */
  lemma NameSplit(name: string)
    requires Tokens(name) != []
    ensures IsToken(FirstName(name))
    ensures [FirstName(name)] + Tokens(LastName(name)) == Tokens(name)
    ensures LastName(name) == "" <==> |Tokens(name)| == 1
  {
    var ts := Tokens(name);
    if |ts| > 1 {
      TokensOfJoin(ts[1..]);
      assert ts == [ts[0]] + ts[1..];
      assert Tokens(LastName(name)) == ts[1..];
      assert Tokens("") == [];
    } else {
      assert Tokens("") == [];
    }
  }

  /** The identification sent with the payer. */
  datatype Identification = Identification(kind: string, number: string)

  /** The document with `.` and `-` removed, the text whose length tells a CPF from a CNPJ. */
  function DocumentDigits(doc: string): string {
    Remove(Remove(doc, '.'), '-')
  }

  /** The identification number: the document with `.`, `-` and `/` removed. */
  function DocumentNumber(doc: string): string {
    Remove(DocumentDigits(doc), '/')
  }

  /**
   * `payer.identification`: present when the document is truthy; a CPF
   * when the document has 11 characters besides `.` and `-`, a CNPJ
   * otherwise; the number keeps every other character of the document,
   * as often as it occurs there, and drops `.`, `-` and `/`.
   */
  function IdentificationFor(doc: Option<string>): (r: Option<Identification>)
    ensures r.Some? <==> doc.Some? && doc.value != ""
    ensures r.Some? ==> (r.value.kind == "CPF" <==> |doc.value| - multiset(doc.value)['.'] - multiset(doc.value)['-'] == 11)
    ensures r.Some? ==> r.value.kind == "CPF" || r.value.kind == "CNPJ"
    ensures r.Some? ==> multiset(r.value.number) == multiset(doc.value)['.' := 0]['-' := 0]['/' := 0]
    ensures r.Some? ==> '.' !in r.value.number && '-' !in r.value.number && '/' !in r.value.number
    ensures r.Some? ==> forall c :: c != '.' && c != '-' && c != '/' ==> (c in r.value.number <==> c in doc.value)
  {
    if doc.Some? && doc.value != "" then
      DocumentCount(doc.value);
      Some(Identification(if |DocumentDigits(doc.value)| == 11 then "CPF" else "CNPJ",
                          DocumentNumber(doc.value)))
    else None
  }

  /** What the document cleaning keeps and drops, counted per character. */
  lemma DocumentCount(doc: string)
    ensures |DocumentDigits(doc)| == |doc| - multiset(doc)['.'] - multiset(doc)['-']
    ensures multiset(DocumentNumber(doc)) == multiset(doc)['.' := 0]['-' := 0]['/' := 0]
  {
    RemoveCount(doc, '.');
    RemoveCount(Remove(doc, '.'), '-');
    RemoveCount(DocumentDigits(doc), '/');
  }

  /** The number is cleaned piece by piece, so the digits keep the document's order. */
  lemma DocumentNumberConcat(a: string, b: string)
    ensures DocumentNumber(a + b) == DocumentNumber(a) + DocumentNumber(b)
  {
    RemoveConcat(a, b, '.');
    RemoveConcat(Remove(a, '.'), Remove(b, '.'), '-');
    RemoveConcat(DocumentDigits(a), DocumentDigits(b), '/');
  }

  datatype Payer = Payer(email: string, firstName: string, lastName: string, identification: Option<Identification>)
  datatype BackUrls = BackUrls(success: string, failure: string, pending: string)
  datatype Item = Item(id: string, title: string, description: string, quantity: int, unitPrice: real, currencyId: string)
  datatype AdditionalInfo = AdditionalInfo(items: seq<Item>, payerFirstName: string, payerLastName: string)

  /** `payment_data`, with the parts `criar_pagamento` adds after building it. */
  datatype PaymentData = PaymentData(
    transactionAmount: real,
    description: string,
    externalReference: string,
    payer: Payer,
    notificationUrl: Option<string>,
    autoReturn: string,
    backUrls: BackUrls,
    additionalInfo: Option<AdditionalInfo>)

  /** `preference_data`, less its expiration datetimes. */
  datatype Preference = Preference(
    items: seq<Item>,
    payer: Payer,
    backUrls: BackUrls,
    autoReturn: string,
    notificationUrl: Option<string>,
    externalReference: string,
    expires: bool)

  /** What an f-string makes of an optional environment variable: Python's `None` prints as `None`. */
  function Rendered(o: Option<string>): string {
    if o.Some? then o.value else "None"
  }

  /** The item line of the payment and the preference. */
  function ItemFor(req: ChargeRequest): Item {
    Item(req.externalReference, req.titulo, Description(req.descricao, req.titulo), 1, req.valor, "BRL")
  }

  /**
   * The payment payload, built as `criar_pagamento` builds it: the base
   * dict, then the payer's identification when a document is given, then
   * the additional info.
   */
  method BuildPaymentData(req: ChargeRequest, webhookUrl: Option<string>, frontendUrl: Option<string>)
    returns (p: PaymentData)
    ensures p.description == Description(req.descricao, req.titulo)
    ensures p.transactionAmount == req.valor && p.externalReference == req.externalReference
    ensures p.payer == Payer(req.clienteEmail, FirstName(req.clienteNome), LastName(req.clienteNome),
                             IdentificationFor(req.clienteDocumento))
    ensures p.notificationUrl == webhookUrl && p.autoReturn == "approved"
    ensures p.backUrls == BackUrls(Rendered(frontendUrl) + "/success", Rendered(frontendUrl) + "/failure",
                                   Rendered(frontendUrl) + "/pending")
    ensures p.additionalInfo == Some(AdditionalInfo([ItemFor(req)], p.payer.firstName, p.payer.lastName))
    ensures p.additionalInfo.value.items[0].description == p.description
  {
    var base := Rendered(frontendUrl);
    p := PaymentData(req.valor, Description(req.descricao, req.titulo), req.externalReference,
                     Payer(req.clienteEmail, FirstName(req.clienteNome), LastName(req.clienteNome), None),
                     webhookUrl, "approved", BackUrls(base + "/success", base + "/failure", base + "/pending"), None);
    if req.clienteDocumento.Some? && req.clienteDocumento.value != "" {
      var doc := req.clienteDocumento.value;
      var kind := if |DocumentDigits(doc)| == 11 then "CPF" else "CNPJ";
      p := p.(payer := p.payer.(identification := Some(Identification(kind, DocumentNumber(doc)))));
    }
    p := p.(additionalInfo := Some(AdditionalInfo([ItemFor(req)], FirstName(req.clienteNome), LastName(req.clienteNome))));
  }

  /** The preference sent to the SDK: the item again, and the payment's payer, URLs and notification URL. */
  function PreferenceFor(req: ChargeRequest, p: PaymentData): (pref: Preference)
    ensures |pref.items| == 1 && pref.items[0].description == Description(req.descricao, req.titulo)
    ensures pref.payer == p.payer && pref.backUrls == p.backUrls && pref.notificationUrl == p.notificationUrl
    ensures pref.externalReference == req.externalReference && pref.expires
  {
    Preference([ItemFor(req)], p.payer, p.backUrls, "approved", p.notificationUrl, req.externalReference, true)
  }

  /** Why a reply was not a success: the reply's message, or an exception raised while reading it. */
  datatype Failure = Message(text: Json) | Raised

  /** `reply.get("response", {}).get("message", default)`; a non-dict `response` raises. */
  function ReplyMessage(reply: map<string, Json>, default: string): (f: Failure)
    ensures "response" !in reply ==> f == Message(JStr(default))
    ensures f.Message? && "response" in reply ==> reply["response"].JObj?
  {
    match GetOrNull(reply, "response")
    case JObj(r) => if "message" in r then Message(r["message"]) else Message(JStr(default))
    case JNull => if "response" in reply then Raised else Message(JStr(default))
    case _ => Raised
  }

  /** Python's `x == 201` and `x == 200` on a decoded JSON value. */
  predicate IsStatus(j: Json, code: int) {
    j == JNum(code as real)
  }

  /** The outcome of `criar_pagamento` after the SDK call. */
  datatype CreateResult =
    | Created(preferenceId: Json, initPoint: Json, sandboxInitPoint: Json, response: Json)
    | CreateFailed(error: Failure, response: Json)

  /**
   * Reading the preference reply: status 201 gives the preference's id and
   * links (a missing one raises); any other status the reply's message or
   * "Erro desconhecido". `None` is an SDK call that raised.
   */
  function CreateOutcome(reply: Option<Json>): (r: CreateResult)
    ensures r.Created? ==> reply.Some? && reply.value.JObj? && "status" in reply.value.fields
                           && IsStatus(reply.value.fields["status"], 201)
    ensures reply.Some? && reply.value.JObj? && "status" in reply.value.fields
            && !IsStatus(reply.value.fields["status"], 201) && "response" !in reply.value.fields
            ==> r == CreateFailed(Message(JStr("Erro desconhecido")), reply.value)
  {
    if reply.None? || !reply.value.JObj? || "status" !in reply.value.fields then CreateFailed(Raised, JNull)
    else
      var m := reply.value.fields;
      if IsStatus(m["status"], 201) then
        if "response" in m && m["response"].JObj?
           && "id" in m["response"].fields && "init_point" in m["response"].fields
           && "sandbox_init_point" in m["response"].fields
        then
          var resp := m["response"].fields;
          Created(resp["id"], resp["init_point"], resp["sandbox_init_point"], m["response"])
        else CreateFailed(Raised, JNull)
      else
        match ReplyMessage(m, "Erro desconhecido")
        case Raised => CreateFailed(Raised, JNull)
        case Message(t) => CreateFailed(Message(t), reply.value)
  }

  /** Creation succeeds exactly when the status is 201 and the reply carries the preference's id and links. */
  lemma CreateSucceedsIff201(reply: Json)
    requires reply.JObj? && "status" in reply.fields && "response" in reply.fields
    requires reply.fields["response"].JObj?
    requires var resp := reply.fields["response"].fields;
      "id" in resp && "init_point" in resp && "sandbox_init_point" in resp
    ensures CreateOutcome(Some(reply)).Created? <==> IsStatus(reply.fields["status"], 201)
  {
  }

  /** The outcome of `obter_pagamento`. */
  datatype LookupResult = Found(payment: Json) | NotFound(error: Failure)

  /** Reading the payment reply: status 200 gives the payment; any other status the message or "Pagamento não encontrado". */
  function LookupOutcome(reply: Option<Json>): (r: LookupResult)
    ensures r.Found? <==> reply.Some? && reply.value.JObj? && "status" in reply.value.fields
                          && IsStatus(reply.value.fields["status"], 200) && "response" in reply.value.fields
    ensures r.Found? ==> r.payment == reply.value.fields["response"]
    ensures reply.Some? && reply.value.JObj? && "status" in reply.value.fields
            && !IsStatus(reply.value.fields["status"], 200) && "response" !in reply.value.fields
            ==> r == NotFound(Message(JStr("Pagamento não encontrado")))
  {
    if reply.None? || !reply.value.JObj? || "status" !in reply.value.fields then NotFound(Raised)
    else
      var m := reply.value.fields;
      if IsStatus(m["status"], 200) then
        if "response" in m then Found(m["response"]) else NotFound(Raised)
      else NotFound(ReplyMessage(m, "Pagamento não encontrado"))
  }

  /** One part of the signature header as `part.strip().split('=', 1)`, with key and value stripped. */
  function KeyValue(part: string): (kv: Option<(string, string)>)
    ensures kv.Some? <==> '=' in Strip(part)
  {
    var pieces := SplitOnce(Strip(part), '=');
    if |pieces| == 2 then Some((Strip(pieces[0]), Strip(pieces[1]))) else None
  }

  /** A header, part by part, as key/value pairs (`None` for a part without `=`). */
  type Pairs = seq<Option<(string, string)>>

  /** The pairs of `header.split(',')`. */
  function HeaderPairs(header: string): (kvs: Pairs)
    ensures |kvs| == |Split(header, ',')|
    ensures forall i :: 0 <= i < |kvs| ==> kvs[i] == KeyValue(Split(header, ',')[i])
  {
    var parts := Split(header, ',');
    seq(|parts|, i requires 0 <= i < |parts| => KeyValue(parts[i]))
  }

  /** Whether a pair sets `key`. */
  predicate Sets(kv: Option<(string, string)>, key: string) {
    kv.Some? && kv.value.0 == key
  }

  /** The value of the last pair whose key is `key`: later occurrences override earlier ones. */
  function LastValue(kvs: Pairs, key: string): Option<string> {
    if kvs == [] then None
    else if Sets(kvs[|kvs| - 1], key) then Some(kvs[|kvs| - 1].value.1)
    else LastValue(kvs[..|kvs| - 1], key)
  }

  /**
   * `LastValue` against its reference meaning: it finds `v` exactly when
   * some pair sets `key` to `v` and no later pair sets `key`.
   */
  lemma {:induction false} LastValueMeaning(kvs: Pairs, key: string, v: string)
    ensures LastValue(kvs, key) == Some(v) <==>
      exists i :: 0 <= i < |kvs| && kvs[i] == Some((key, v))
        && forall j :: i < j < |kvs| ==> !Sets(kvs[j], key)
  {
    if kvs != [] {
      var n := |kvs| - 1;
      var init := kvs[..n];
      LastValueMeaning(init, key, v);
      if Sets(kvs[n], key) {
        if LastValue(kvs, key) == Some(v) {
          assert kvs[n] == Some((key, v));
        }
      } else {
        if LastValue(init, key) == Some(v) {
          var i :| 0 <= i < |init| && init[i] == Some((key, v))
            && forall j :: i < j < |init| ==> !Sets(init[j], key);
          assert kvs[i] == init[i];
          forall j | i < j < |kvs| ensures !Sets(kvs[j], key) {
            if j < n {
              assert kvs[j] == init[j];
            }
          }
        }
        if exists i :: 0 <= i < |kvs| && kvs[i] == Some((key, v))
             && forall j :: i < j < |kvs| ==> !Sets(kvs[j], key) {
          var i :| 0 <= i < |kvs| && kvs[i] == Some((key, v))
             && forall j :: i < j < |kvs| ==> !Sets(kvs[j], key);
          assert i < n;
          assert init[i] == kvs[i];
          forall j | i < j < |init| ensures !Sets(init[j], key) {
            assert init[j] == kvs[j];
          }
        }
      }
    }
  }

  /** The timestamp and signature found in an `x-signature` header, read part by part. */
  method ParseSignatureHeader(header: string) returns (ts: Option<string>, v1: Option<string>)
    ensures ts == LastValue(HeaderPairs(header), "ts")
    ensures v1 == LastValue(HeaderPairs(header), "v1")
  {
    var parts := Split(header, ',');
    ghost var kvs := HeaderPairs(header);
    ts, v1 := None, None;
    for i := 0 to |parts|
      invariant ts == LastValue(kvs[..i], "ts")
      invariant v1 == LastValue(kvs[..i], "v1")
    {
      assert kvs[..i + 1][..i] == kvs[..i];
      var kv := KeyValue(parts[i]);
      assert kvs[..i + 1][i] == kv;
      if kv.Some? {
        var key := kv.value.0;
        if key == "ts" {
          ts := Some(kv.value.1);
        } else if key == "v1" {
          v1 := Some(kv.value.1);
        }
      }
    }
    assert kvs[..|parts|] == kvs;
  }

  /** The signed text: `id:<data id>;request-id:<request id>;ts:<ts>;`. */
  function Manifest(dataId: string, requestId: string, ts: string): string {
    "id:" + dataId + ";request-id:" + requestId + ";ts:" + ts + ";"
  }

  /** The first `c` of `x + [c] + y` is right after `x` when `x` holds none. */
  lemma {:induction false} IndexOfAfter(x: string, c: char, y: string)
    requires c !in x
    ensures IndexOf(x + [c] + y, c) == |x|
  {
    if x != [] {
      assert (x + [c] + y)[1..] == x[1..] + [c] + y;
      IndexOfAfter(x[1..], c, y);
    }
  }

  /** The text before the first `;` and the rest after it. */
  lemma CutAtSemicolon(x: string, y: string, x': string, y': string)
    requires ';' !in x && ';' !in x'
    requires x + ";" + y == x' + ";" + y'
    ensures x == x' && y == y'
  {
    IndexOfAfter(x, ';', y);
    IndexOfAfter(x', ';', y');
    assert |x| == |x'|;
    assert x == (x + ";" + y)[..|x|];
    assert x' == (x' + ";" + y')[..|x'|];
    assert y == (x + ";" + y)[|x| + 1..];
    assert y' == (x' + ";" + y')[|x'| + 1..];
  }

  /** A common prefix cancels. */
  lemma PrefixCancel(p: string, x: string, y: string)
    requires p + x == p + y
    ensures x == y
  {
    assert x == (p + x)[|p|..];
    assert y == (p + y)[|p|..];
  }

  /** The manifest as nested fields, each ended by `;`. */
  lemma ManifestShape(d: string, r: string, t: string)
    ensures Manifest(d, r, t) == "id:" + (d + ";" + ("request-id:" + (r + ";" + ("ts:" + (t + ";" + "")))))
  {
  }

  /** The manifest determines its three parts, as long as none of them contains `;`. */
  lemma ManifestInjective(d: string, r: string, t: string, d': string, r': string, t': string)
    requires ';' !in d && ';' !in r && ';' !in t && ';' !in d' && ';' !in r' && ';' !in t'
    requires Manifest(d, r, t) == Manifest(d', r', t')
    ensures d == d' && r == r' && t == t'
  {
    ManifestShape(d, r, t);
    ManifestShape(d', r', t');
    var afterTs, afterTs' := t + ";" + "", t' + ";" + "";
    var afterR, afterR' := r + ";" + ("ts:" + afterTs), r' + ";" + ("ts:" + afterTs');
    var afterD, afterD' := d + ";" + ("request-id:" + afterR), d' + ";" + ("request-id:" + afterR');
    PrefixCancel("id:", afterD, afterD');
    CutAtSemicolon(d, "request-id:" + afterR, d', "request-id:" + afterR');
    PrefixCancel("request-id:", afterR, afterR');
    CutAtSemicolon(r, "ts:" + afterTs, r', "ts:" + afterTs');
    PrefixCancel("ts:", afterTs, afterTs');
    CutAtSemicolon(t, "", t', "");
  }

  /**
   * `validar_webhook_signature`: `false` without a header, without a
   * non-empty `ts` or `v1`, or when `v1` differs from the HMAC of the
   * manifest under the secret (`mac` stands for HMAC-SHA256 as hex).
   */
  method ValidateWebhookSignature(header: Option<string>, requestId: Option<string>, dataId: Option<string>,
                                  secret: string, mac: (string, string) -> string)
    returns (valid: bool)
    ensures valid <==>
      && header.Some?
      && var ts := LastValue(HeaderPairs(header.value), "ts");
         var v1 := LastValue(HeaderPairs(header.value), "v1");
         && ts.Some? && ts.value != "" && v1.Some? && v1.value != ""
         && mac(secret, Manifest(Rendered(dataId), Rendered(requestId), ts.value)) == v1.value
  {
    if header.None? {
      return false;
    }
    var ts, signature := ParseSignatureHeader(header.value);
    if ts.None? || ts.value == "" || signature.None? || signature.value == "" {
      return false;
    }
    var manifest := Manifest(Rendered(dataId), Rendered(requestId), ts.value);
    var expected := mac(secret, manifest);
    valid := expected == signature.value;
  }
}
