/**
 * POST /api/sales: validate the form, resolve the city, store the receipt
 * (with a single create-the-bucket-and-retry fallback), then insert the
 * row, and map every failure to a status code.
 *
 * The decision logic is `Decide`, a function of the form, the receipt,
 * the clock reading and the platform's replies; `SubmitSale` performs the
 * same steps one call at a time against a `Platform` that logs them.
 */
module Submission {
  import opened Wrappers
  import opened Text
  import opened Filenames
  import opened Sales

  const ReceiptsBucket := "receipts"
  const DefaultCity := "General"
  const DefaultFileName := "comprobante"
  const DefaultContentType := "application/octet-stream"
  /** multer's `limits.fileSize`: 4 MiB. */
  const MaxReceiptBytes := 4 * 1024 * 1024

  const MissingFieldsMessage := "Todos los campos son obligatorios"
  const UploadFailurePrefix := "Error al subir comprobante: "
  const InternalErrorMessage := "Error interno del servidor"
  const SavedMessage := "Venta registrada exitosamente"
  const TooLargeMessage := "El archivo es demasiado grande. Máximo 4MB."
  const MulterFailurePrefix := "Error de carga: "

  /** The text fields of the multipart form; `None` is a field that was not sent. */
  datatype SaleForm = SaleForm(
    teamLeader: Option<string>,
    rrppName: Option<string>,
    ticketQuantity: Option<string>,
    city: Option<string>)

  /** The `receipt` file multer kept in memory. */
  datatype Receipt = Receipt(originalName: Option<string>, mimeType: Option<string>, content: seq<bv8>)

  /** One call to the platform, in the order the handler issues them. */
  datatype Call =
    | Upload(key: string, contentType: string, content: seq<bv8>)  // into the receipts bucket, no upsert
    | CreateBucket(name: string, isPublic: bool)
    | Insert(sale: NewSale)
  {
    function Kind(): CallKind {
      match this
      case Upload(_, _, _) => UploadCall
      case CreateBucket(_, _) => BucketCall
      case Insert(_) => InsertCall
    }
  }

  datatype CallKind = UploadCall | BucketCall | InsertCall

  /** What the database answers an insert: the new row's id and timestamp, or an error. */
  datatype InsertReply = Inserted(id: nat, createdAt: nat) | InsertFailed(error: Failure)

  /**
   * The platform's answers to the calls one submission may make: the
   * first upload, the upload retried after creating the bucket, and the
   * insert. An upload answer is its `error` (`None` when it worked).
   */
  datatype Replies = Replies(firstUpload: Option<Failure>, retryUpload: Option<Failure>, insert: InsertReply)

  datatype Body = Saved(id: nat, message: string) | ErrorJson(error: string) | DefaultErrorPage

  datatype Response = Response(status: nat, body: Body)

  /**
   * The effect of one submission: the response, the calls made, the key
   * that ended up stored in the bucket (if any) and the row that ended up
   * in the table (if any).
   */
  datatype Outcome = Outcome(response: Response, calls: seq<Call>, stored: Option<string>, saved: Option<SaleRow>)

  // ---------------------------------------------------------------------
  // Validation and the values written
  // ---------------------------------------------------------------------

  /** A form field is truthy when it was sent and is not the empty string. */
  predicate Truthy(field: Option<string>) {
    field.Some? && field.value != []
  }

  predicate HasRequiredFields(form: SaleForm) {
    Truthy(form.teamLeader) && Truthy(form.rrppName) && Truthy(form.ticketQuantity)
  }

  /** The city written: the trimmed field when that is non-empty, otherwise "General". */
  function ResolveCity(city: Option<string>): (r: string)
    ensures r != []
    ensures city.Some? && Trim(city.value) != [] ==> r == Trim(city.value)
    ensures city.None? || Trim(city.value) == [] ==> r == DefaultCity
  {
    if city.Some? && |Trim(city.value)| > 0 then Trim(city.value) else DefaultCity
  }

  /**
   * The stored city never has whitespace around it, and it is "General"
   * exactly when the field was absent, blank, or "General" once trimmed.
   */
  lemma ResolvedCityIsTrimmed(city: Option<string>)
    ensures Trim(ResolveCity(city)) == ResolveCity(city)
    ensures ResolveCity(city) == DefaultCity <==>
            city.None? || (forall i :: 0 <= i < |city.value| ==> IsJsWhitespace(city.value[i])) ||
            Trim(city.value) == DefaultCity
  {
    if city.Some? {
      TrimIdempotent(city.value);
      TrimEmptyIffBlank(city.value);
    }
    assert TrimStart(DefaultCity) == DefaultCity;
    assert TrimEnd(DefaultCity) == DefaultCity;
  }

  /** The file name sanitized: the original name, or "comprobante" when it is absent or empty. */
  function SafeName(originalName: Option<string>): (r: string)
    ensures IsSafeName(r)
    ensures Truthy(originalName) ==> r == SanitizeFilename(originalName.value)
    ensures !Truthy(originalName) ==> r == DefaultFileName
  {
    if Truthy(originalName) then SanitizeFilename(originalName.value)
    else
      DefaultNameIsSafe();
      SanitizeFixesSafeNames(DefaultFileName);
      SanitizeFilename(DefaultFileName)
  }

  /** "comprobante" is already a safe name, so it is stored as it is. */
  lemma DefaultNameIsSafe()
    ensures IsSafeName(DefaultFileName)
  {
    assert forall i :: 0 <= i < |DefaultFileName| ==> 'a' <= DefaultFileName[i] <= 'z';
  }

  /**
   * The storage key `${ts}-${safeName}`: the millisecond clock reading in
   * decimal, a `-`, then the sanitized name. It is never empty, even when
   * the sanitized name is, and uses only storage-safe characters.
   */
  function StorageKey(ts: nat, originalName: Option<string>): (key: string)
    ensures |key| > |DecimalString(ts)|
    ensures key[..|DecimalString(ts)|] == DecimalString(ts) && key[|DecimalString(ts)|] == '-'
    ensures forall i :: 0 <= i < |key| ==> IsSafeChar(key[i])
    ensures key[|DecimalString(ts)| + 1..] == SafeName(originalName)
  {
    var stamp := DecimalString(ts);
    var name := SafeName(originalName);
    JoinedKeyShape(stamp, name);
    stamp + "-" + name
  }

  /**
   * `stamp-name` is the stamp, a `-`, then the name, and keeps to safe
   * characters when both parts do.
   */
  lemma JoinedKeyShape(stamp: string, name: string)
    requires forall i :: 0 <= i < |stamp| ==> IsDecimalDigit(stamp[i])
    requires forall i :: 0 <= i < |name| ==> IsSafeChar(name[i])
    ensures var key := stamp + "-" + name;
            && |key| > |stamp| && key[..|stamp|] == stamp && key[|stamp|] == '-'
            && key[|stamp| + 1..] == name
            && forall i :: 0 <= i < |key| ==> IsSafeChar(key[i])
  {
    var key := stamp + "-" + name;
    assert key[..|stamp|] == stamp;
    assert key[|stamp| + 1..] == name;
    forall i | 0 <= i < |key|
      ensures IsSafeChar(key[i])
    {
      if i < |stamp| {
        assert key[i] == stamp[i];
      } else if i > |stamp| {
        assert key[i] == name[i - |stamp| - 1];
      }
    }
  }

  /** `parseInt` of a storage key reads back the clock reading it was made at. */
  lemma {:induction false} StorageKeyStartsWithTimestamp(ts: nat, originalName: Option<string>)
    ensures ParseInt(StorageKey(ts, originalName)) == Some(ts)
  {
    StampedKeyReadsStamp(ts, StorageKey(ts, originalName));
  }

  /** A key made of a decimal stamp, a `-` and anything parses to that stamp. */
  lemma {:induction false} StampedKeyReadsStamp(ts: nat, key: string)
    requires |key| > |DecimalString(ts)|
    requires key[..|DecimalString(ts)|] == DecimalString(ts) && key[|DecimalString(ts)|] == '-'
    ensures ParseInt(key) == Some(ts)
  {
    var stamp := DecimalString(ts);
    var rest := key[|stamp|..];
    assert key == stamp + rest;
    ParseIntReadsDecimalPrefix(ts, rest);
  }

  /**
   * Keys never collide across clock readings: equal keys come from the
   * same millisecond and the same sanitized name.
   */
  lemma StorageKeyInjective(t1: nat, n1: Option<string>, t2: nat, n2: Option<string>)
    requires StorageKey(t1, n1) == StorageKey(t2, n2)
    ensures t1 == t2 && SafeName(n1) == SafeName(n2)
  {
    var key := StorageKey(t1, n1);
    var d1, d2 := DecimalString(t1), DecimalString(t2);
    assert |d1| == |d2|;
    assert d1 == key[..|d1|] == d2;
    DecimalStringInjective(t1, t2);
    assert key == d1 + "-" + SafeName(n1) == d1 + "-" + SafeName(n2);
    assert SafeName(n1) == key[|d1| + 1..] == SafeName(n2);
  }

  function ContentType(file: Receipt): string {
    if Truthy(file.mimeType) then file.mimeType.value else DefaultContentType
  }

  /** The row the handler inserts, once the required fields are present. */
  function SaleToInsert(form: SaleForm, receiptFilename: Option<string>): NewSale
    requires HasRequiredFields(form)
  {
    NewSale(form.teamLeader.value, form.rrppName.value, ParseInt(form.ticketQuantity.value),
            ResolveCity(form.city), receiptFilename)
  }

  // ---------------------------------------------------------------------
  // The upload fallback
  // ---------------------------------------------------------------------

  /** `/not found|No such file|bucket/i` matched against an error message. */
  predicate IsBucketMissing(message: string) {
    || ContainsIgnoringCase(message, "not found")
    || ContainsIgnoringCase(message, "no such file")
    || ContainsIgnoringCase(message, "bucket")
  }

  /** The match ignores case: a message and its lower-cased form match alike. */
  lemma BucketMissingIgnoresCase(message: string)
    ensures IsBucketMissing(LowerAscii(message)) == IsBucketMissing(message)
  {
    LowerAsciiFixes(LowerAscii(message));
  }

  /** Any message that mentions "bucket", in any case and anywhere, triggers the fallback. */
  lemma MentionOfBucketMatches(message: string, i: nat)
    requires OccursAt(LowerAscii(message), "bucket", i)
    ensures IsBucketMissing(message)
  {
    ContainsIffOccursAt(LowerAscii(message), "bucket");
  }

  /** The bucket is created and the upload retried only after a first failure that names a missing bucket. */
  predicate RetriesUpload(replies: Replies) {
    replies.firstUpload.Some? && IsBucketMissing(replies.firstUpload.value.message)
  }

  /** `uploadError` once the fallback is done: the retry's error after a retry, else the first upload's. */
  function FinalUploadError(replies: Replies): (e: Option<Failure>)
    ensures replies.firstUpload.None? ==> e.None?
    ensures !RetriesUpload(replies) ==> e == replies.firstUpload
    ensures RetriesUpload(replies) ==> e == replies.retryUpload
  {
    if RetriesUpload(replies) then replies.retryUpload else replies.firstUpload
  }

  /** `${uploadError.message || uploadError}` after the fixed prefix. */
  function UploadFailureText(e: Failure): string {
    UploadFailurePrefix + (if e.message != [] then e.message else e.text)
  }

  /** `error.message || 'Error interno del servidor'`. */
  function ServerErrorText(e: Failure): string {
    if e.message != [] then e.message else InternalErrorMessage
  }

  // ---------------------------------------------------------------------
  // The decision
  // ---------------------------------------------------------------------

  /** How many calls of one kind a log holds. */
  function Count(calls: seq<Call>, kind: CallKind): nat
  {
    if calls == [] then 0 else (if calls[0].Kind() == kind then 1 else 0) + Count(calls[1..], kind)
  }

  lemma {:induction false} CountAppend(a: seq<Call>, b: seq<Call>, kind: CallKind)
    ensures Count(a + b, kind) == Count(a, kind) + Count(b, kind)
    decreases |a|
  {
    if a == [] {
      assert a + b == b;
    } else {
      assert (a + b)[0] == a[0];
      assert (a + b)[1..] == a[1..] + b;
      CountAppend(a[1..], b, kind);
    }
  }

  /** The uploads of one receipt: one attempt, or attempt, bucket creation and retry. */
  function UploadCalls(file: Receipt, key: string, replies: Replies): seq<Call>
  {
    var attempt := Upload(key, ContentType(file), file.content);
    if RetriesUpload(replies) then [attempt, CreateBucket(ReceiptsBucket, true), attempt] else [attempt]
  }

  /**
   * The order of the uploads of one receipt: the first and the last call
   * are the same upload, and a retry puts exactly the creation of the
   * public receipts bucket between them.
   */
  lemma UploadCallsOrder(file: Receipt, key: string, replies: Replies)
    ensures var calls := UploadCalls(file, key, replies);
      && calls[0] == Upload(key, ContentType(file), file.content) && calls[|calls| - 1] == calls[0]
      && (|calls| == 3 <==> RetriesUpload(replies))
      && (RetriesUpload(replies) ==> calls[1] == CreateBucket(ReceiptsBucket, true))
      && (!RetriesUpload(replies) ==> |calls| == 1)
  {
  }

  /** One or two uploads, at most one bucket creation, and no insert. */
  lemma UploadCallsCount(file: Receipt, key: string, replies: Replies)
    ensures var calls := UploadCalls(file, key, replies);
      && Count(calls, UploadCall) == (if RetriesUpload(replies) then 2 else 1)
      && Count(calls, BucketCall) == (if RetriesUpload(replies) then 1 else 0)
      && Count(calls, InsertCall) == 0
  {
    var attempt := Upload(key, ContentType(file), file.content);
    var one := [attempt];
    assert one[1..] == [];
    assert Count(one, UploadCall) == 1 && Count(one, BucketCall) == 0 && Count(one, InsertCall) == 0;
    if RetriesUpload(replies) {
      var two := [CreateBucket(ReceiptsBucket, true)] + one;
      assert two[1..] == one;
      assert Count(two, UploadCall) == 1 && Count(two, BucketCall) == 1 && Count(two, InsertCall) == 0;
      var three := one + two;
      assert three[1..] == two;
      assert three == UploadCalls(file, key, replies);
    }
  }

  /** The insert, after the calls already made, and what its reply leads to. */
  function InsertStep(before: seq<Call>, stored: Option<string>, sale: NewSale, reply: InsertReply): (o: Outcome)
    ensures o.calls == before + [Insert(sale)] && o.stored == stored
    ensures o.response.status == 200 <==> o.saved.Some?
    ensures o.response.status in {200, 500}
    ensures reply.Inserted? ==> o.saved == Some(SaleRow(reply.id, sale, reply.createdAt)) &&
                                o.response == Response(200, Saved(reply.id, SavedMessage))
    ensures reply.InsertFailed? ==> o.saved.None? &&
                                    o.response == Response(500, ErrorJson(ServerErrorText(reply.error)))
  {
    match reply
    case Inserted(id, at) =>
      Outcome(Response(200, Saved(id, SavedMessage)), before + [Insert(sale)], stored, Some(SaleRow(id, sale, at)))
    case InsertFailed(e) =>
      Outcome(Response(500, ErrorJson(ServerErrorText(e))), before + [Insert(sale)], stored, None)
  }

  /** A submission with its required fields and a receipt stored under `key`. */
  function WithReceipt(form: SaleForm, file: Receipt, key: string, replies: Replies): (o: Outcome)
    requires HasRequiredFields(form)
    ensures o.calls == UploadCalls(file, key, replies) +
                       (if FinalUploadError(replies).None? then [Insert(SaleToInsert(form, Some(key)))] else [])
    ensures o.stored == (if FinalUploadError(replies).None? then Some(key) else None)
    ensures FinalUploadError(replies).Some? ==>
              o.response == Response(500, ErrorJson(UploadFailureText(FinalUploadError(replies).value))) &&
              o.saved.None?
    ensures o.saved.Some? <==> FinalUploadError(replies).None? && replies.insert.Inserted?
    ensures o.saved.Some? ==>
              o.saved.value == SaleRow(replies.insert.id, SaleToInsert(form, Some(key)), replies.insert.createdAt) &&
              o.response == Response(200, Saved(replies.insert.id, SavedMessage))
    ensures FinalUploadError(replies).None? && replies.insert.InsertFailed? ==>
              o.response == Response(500, ErrorJson(ServerErrorText(replies.insert.error)))
  {
    var uploads := UploadCalls(file, key, replies);
    match FinalUploadError(replies)
    case Some(e) =>
      Outcome(Response(500, ErrorJson(UploadFailureText(e))), uploads, None, None)
    case None =>
      var sale := SaleToInsert(form, Some(key));
      InsertStep(uploads, Some(key), sale, replies.insert)
  }

  /** A submission with its required fields and no receipt: only the insert. */
  function WithoutReceipt(form: SaleForm, replies: Replies): (o: Outcome)
    requires HasRequiredFields(form)
    ensures o.calls == [Insert(SaleToInsert(form, None))] && o.stored.None?
    ensures o.saved.Some? <==> replies.insert.Inserted?
    ensures o.saved.Some? ==>
              o.saved.value == SaleRow(replies.insert.id, SaleToInsert(form, None), replies.insert.createdAt) &&
              o.response == Response(200, Saved(replies.insert.id, SavedMessage))
    ensures replies.insert.InsertFailed? ==>
              o.response == Response(500, ErrorJson(ServerErrorText(replies.insert.error)))
  {
    InsertStep([], None, SaleToInsert(form, None), replies.insert)
  }

  /**
   * The POST /api/sales handler body as a function of its inputs: the
   * form, the receipt multer accepted, the clock reading `now` and the
   * platform's replies.
   */
  function Decide(form: SaleForm, receipt: Option<Receipt>, now: nat, replies: Replies): Outcome
  {
    if !HasRequiredFields(form) then
      Outcome(Response(400, ErrorJson(MissingFieldsMessage)), [], None, None)
    else if receipt.None? then
      WithoutReceipt(form, replies)
    else
      WithReceipt(form, receipt.value, StorageKey(now, receipt.value.originalName), replies)
  }

  /**
   * What one submission leads to: the status, the error cases, what is
   * stored and what is saved.
   */
  lemma {:induction false} DecideOutcome(form: SaleForm, receipt: Option<Receipt>, now: nat, replies: Replies)
    ensures var o := Decide(form, receipt, now, replies);
      // a missing field is a 400 with no upload and no insert
      && (!HasRequiredFields(form) ==> o == Outcome(Response(400, ErrorJson(MissingFieldsMessage)), [], None, None))
      && (o.response.status == 400 <==> !HasRequiredFields(form))
      && o.response.status in {200, 400, 500}
      // a failed upload is a 500 naming it, with nothing inserted
      && (HasRequiredFields(form) && receipt.Some? && FinalUploadError(replies).Some? ==>
            o.response == Response(500, ErrorJson(UploadFailureText(FinalUploadError(replies).value))) &&
            o.saved.None?)
      // the key ends up in the bucket exactly when the upload worked
      && (o.stored.Some? <==> HasRequiredFields(form) && receipt.Some? && FinalUploadError(replies).None?)
      && (o.stored.Some? ==> o.stored == Some(StorageKey(now, receipt.value.originalName)))
      // a saved row is what the form says, and names only a stored receipt
      && (o.response.status == 200 <==> o.saved.Some?)
      && (o.saved.Some? ==>
            replies.insert.Inserted? && o.saved.value.id == replies.insert.id &&
            o.saved.value.sale.city == ResolveCity(form.city) &&
            o.saved.value.sale.receiptFilename == o.stored &&
            (receipt.None? <==> o.saved.value.sale.receiptFilename.None?))
  {
  }

  /**
   * The calls one submission makes: at most two uploads, one bucket
   * creation and one insert; the bucket is created, and the upload
   * retried, only after a first failure that names a missing bucket; the
   * insert comes last, and only when no upload failed.
   */
  lemma {:induction false} DecideCallProtocol(form: SaleForm, receipt: Option<Receipt>, now: nat, replies: Replies)
    ensures var o := Decide(form, receipt, now, replies);
      && Count(o.calls, UploadCall) <= 2 && Count(o.calls, BucketCall) <= 1 && Count(o.calls, InsertCall) <= 1
      && (Count(o.calls, UploadCall) > 0 <==> HasRequiredFields(form) && receipt.Some?)
      && (Count(o.calls, BucketCall) == 1 <==> HasRequiredFields(form) && receipt.Some? && RetriesUpload(replies))
      && (Count(o.calls, UploadCall) == 2 <==> Count(o.calls, BucketCall) == 1)
      && (Count(o.calls, InsertCall) == 1 <==>
            HasRequiredFields(form) && (receipt.None? || FinalUploadError(replies).None?))
      && (Count(o.calls, InsertCall) == 1 ==>
            o.calls[|o.calls| - 1] ==
            Insert(SaleToInsert(form, if receipt.Some? then Some(StorageKey(now, receipt.value.originalName)) else None)))
  {
    var o := Decide(form, receipt, now, replies);
    if !HasRequiredFields(form) {
      assert o.calls == [];
    } else if receipt.None? {
      var sale := SaleToInsert(form, None);
      assert o.calls == [] + [Insert(sale)];
      InsertCallCounts([], sale);
    } else {
      var key := StorageKey(now, receipt.value.originalName);
      var uploads := UploadCalls(receipt.value, key, replies);
      UploadCallsCount(receipt.value, key, replies);
      if FinalUploadError(replies).None? {
        var sale := SaleToInsert(form, Some(key));
        assert o.calls == uploads + [Insert(sale)];
        InsertCallCounts(uploads, sale);
      } else {
        assert o.calls == uploads;
      }
    }
  }

  /** Appending the insert adds one insert call and nothing else, and puts it last. */
  lemma InsertCallCounts(before: seq<Call>, sale: NewSale)
    ensures Count(before + [Insert(sale)], UploadCall) == Count(before, UploadCall)
    ensures Count(before + [Insert(sale)], BucketCall) == Count(before, BucketCall)
    ensures Count(before + [Insert(sale)], InsertCall) == Count(before, InsertCall) + 1
  {
    assert [Insert(sale)][1..] == [];
    CountAppend(before, [Insert(sale)], UploadCall);
    CountAppend(before, [Insert(sale)], BucketCall);
    CountAppend(before, [Insert(sale)], InsertCall);
  }

  // ---------------------------------------------------------------------
  // The handler, step by step, against the platform
  // ---------------------------------------------------------------------

  /**
   * The database and object store as the handler sees them: every call
   * made, in order; the keys stored in the receipts bucket; the rows of
   * the sales table. Each reply is supplied by the caller.
   */
  class Platform {
    var calls: seq<Call>
    var objects: set<string>
    var rows: seq<SaleRow>

    /** Every receipt a row names is in the bucket: no row points at a missing file. */
    ghost predicate Valid()
      reads this
    {
      forall r :: r in rows && r.sale.receiptFilename.Some? ==> r.sale.receiptFilename.value in objects
    }

    constructor ()
      ensures Valid()
      ensures calls == [] && objects == {} && rows == []
    {
      calls, objects, rows := [], {}, [];
    }

    /** `upload(key, content, { contentType, upsert: false })` on the receipts bucket. */
    method Upload(key: string, contentType: string, content: seq<bv8>, reply: Option<Failure>)
      returns (error: Option<Failure>)
      requires Valid()
      modifies this
      ensures Valid()
      ensures error == reply
      ensures calls == old(calls) + [Call.Upload(key, contentType, content)]
      ensures objects == if reply.None? then old(objects) + {key} else old(objects)
      ensures rows == old(rows)
    {
      calls := calls + [Call.Upload(key, contentType, content)];
      if reply.None? {
        objects := objects + {key};
      }
      error := reply;
    }

    /** `createBucket(name, { public })`; the handler ignores its reply. */
    method CreateBucket(name: string, isPublic: bool)
      requires Valid()
      modifies this
      ensures Valid()
      ensures calls == old(calls) + [Call.CreateBucket(name, isPublic)]
      ensures objects == old(objects) && rows == old(rows)
    {
      calls := calls + [Call.CreateBucket(name, isPublic)];
    }

    /** `from('sales').insert([sale]).select()`. */
    method Insert(sale: NewSale, reply: InsertReply) returns (result: InsertReply)
      requires Valid()
      requires sale.receiptFilename.Some? ==> sale.receiptFilename.value in objects
      modifies this
      ensures Valid()
      ensures result == reply
      ensures calls == old(calls) + [Call.Insert(sale)]
      ensures objects == old(objects)
      ensures rows == if reply.Inserted? then old(rows) + [SaleRow(reply.id, sale, reply.createdAt)] else old(rows)
    {
      calls := calls + [Call.Insert(sale)];
      if reply.Inserted? {
        rows := rows + [SaleRow(reply.id, sale, reply.createdAt)];
      }
      result := reply;
    }
  }

  /**
   * The upload with its fallback: upload the receipt under `key`; if that
   * fails with a message naming a missing bucket, create the public
   * receipts bucket and upload once more. The error left is the one the
   * handler goes on with.
   */
  method StoreReceipt(platform: Platform, file: Receipt, key: string, replies: Replies)
    returns (error: Option<Failure>)
    requires platform.Valid()
    modifies platform
    ensures platform.Valid()
    ensures error == FinalUploadError(replies)
    ensures platform.calls == old(platform.calls) + UploadCalls(file, key, replies)
    ensures platform.objects == if error.None? then old(platform.objects) + {key} else old(platform.objects)
    ensures platform.rows == old(platform.rows)
  {
    var contentType := ContentType(file);
    ghost var attempt := Call.Upload(key, contentType, file.content);
    error := platform.Upload(key, contentType, file.content, replies.firstUpload);
    if error.Some? && IsBucketMissing(error.value.message) {
      platform.CreateBucket(ReceiptsBucket, true);
      error := platform.Upload(key, contentType, file.content, replies.retryUpload);
      assert platform.calls == old(platform.calls) + [attempt, Call.CreateBucket(ReceiptsBucket, true), attempt];
    }
  }

  /**
   * The handler body, from reading the form to answering: the calls it
   * makes and the response are those `Decide` gives, and the platform
   * keeps every row's receipt in the bucket.
   */
  method SubmitSale(platform: Platform, form: SaleForm, receipt: Option<Receipt>, now: nat, replies: Replies)
    returns (response: Response)
    requires platform.Valid()
    modifies platform
    ensures platform.Valid()
    ensures var o := Decide(form, receipt, now, replies);
            && response == o.response
            && platform.calls == old(platform.calls) + o.calls
            && platform.objects == old(platform.objects) + (if o.stored.Some? then {o.stored.value} else {})
            && platform.rows == old(platform.rows) + (if o.saved.Some? then [o.saved.value] else [])
  {
    if !HasRequiredFields(form) {
      response := Response(400, ErrorJson(MissingFieldsMessage));
    } else if receipt.None? {
      response := SubmitWithoutReceipt(platform, form, replies);
    } else {
      var storagePath := StorageKey(now, receipt.value.originalName);
      response := SubmitWithReceipt(platform, form, receipt.value, storagePath, replies);
    }
  }

  /** A complete submission without a receipt: the insert alone. */
  method SubmitWithoutReceipt(platform: Platform, form: SaleForm, replies: Replies) returns (response: Response)
    requires HasRequiredFields(form)
    requires platform.Valid()
    modifies platform
    ensures platform.Valid()
    ensures var o := WithoutReceipt(form, replies);
            && response == o.response
            && platform.calls == old(platform.calls) + o.calls
            && platform.objects == old(platform.objects)
            && platform.rows == old(platform.rows) + (if o.saved.Some? then [o.saved.value] else [])
  {
    var sale := NewSale(form.teamLeader.value, form.rrppName.value, ParseInt(form.ticketQuantity.value),
                        ResolveCity(form.city), None);
    response := SaveSale(platform, sale, replies.insert);
  }

  /**
   * A complete submission with a receipt stored under `storagePath`: the
   * upload with its fallback, then the insert only if the upload worked.
   */
  method SubmitWithReceipt(platform: Platform, form: SaleForm, file: Receipt, storagePath: string, replies: Replies)
    returns (response: Response)
    requires HasRequiredFields(form)
    requires platform.Valid()
    modifies platform
    ensures platform.Valid()
    ensures var o := WithReceipt(form, file, storagePath, replies);
            && response == o.response
            && platform.calls == old(platform.calls) + o.calls
            && platform.objects == old(platform.objects) + (if o.stored.Some? then {o.stored.value} else {})
            && platform.rows == old(platform.rows) + (if o.saved.Some? then [o.saved.value] else [])
  {
    var uploadError := StoreReceipt(platform, file, storagePath, replies);
    if uploadError.Some? {
      response := Response(500, ErrorJson(UploadFailureText(uploadError.value)));
      return;
    }
    var sale := NewSale(form.teamLeader.value, form.rrppName.value, ParseInt(form.ticketQuantity.value),
                        ResolveCity(form.city), Some(storagePath));
    ghost var before := UploadCalls(file, storagePath, replies);
    response := SaveSale(platform, sale, replies.insert);
    assert platform.calls == old(platform.calls) + (before + [Insert(sale)]);
  }

  /**
   * The insert and its answer: 200 with the new row's id once the row is
   * in the table, otherwise 500 with the database's message.
   */
  method SaveSale(platform: Platform, sale: NewSale, reply: InsertReply) returns (response: Response)
    requires platform.Valid()
    requires sale.receiptFilename.Some? ==> sale.receiptFilename.value in platform.objects
    modifies platform
    ensures platform.Valid()
    ensures platform.calls == old(platform.calls) + [Insert(sale)] && platform.objects == old(platform.objects)
    ensures reply.Inserted? ==>
              response == Response(200, Saved(reply.id, SavedMessage)) &&
              platform.rows == old(platform.rows) + [SaleRow(reply.id, sale, reply.createdAt)]
    ensures reply.InsertFailed? ==>
              response == Response(500, ErrorJson(ServerErrorText(reply.error))) &&
              platform.rows == old(platform.rows)
  {
    var inserted := platform.Insert(sale, reply);
    match inserted {
      case Inserted(id, _) =>
        response := Response(200, Saved(id, SavedMessage));
      case InsertFailed(e) =>
        response := Response(500, ErrorJson(ServerErrorText(e)));
    }
  }

  // ---------------------------------------------------------------------
  // Multer, in front of the handler
  // ---------------------------------------------------------------------

  /**
   * What multer made of the multipart body: the receipt it kept (at most
   * `MaxReceiptBytes` long), or one of its errors.
   */
  datatype MulterOutcome = Accepted(receipt: Option<Receipt>) | FileTooLarge | MulterFailed(message: string)

  /** The answer to a multer error that the handler's catch block spells out: 413 for size, else 400. */
  function MulterRejection(m: MulterOutcome): (r: Response)
    requires !m.Accepted?
    ensures r.status == (if m.FileTooLarge? then 413 else 400)
    ensures m.FileTooLarge? ==> r.body == ErrorJson(TooLargeMessage)
    ensures m.MulterFailed? ==> r.body == ErrorJson(MulterFailurePrefix + m.message)
  {
    match m
    case FileTooLarge => Response(413, ErrorJson(TooLargeMessage))
    case MulterFailed(message) => Response(400, ErrorJson(MulterFailurePrefix + message))
  }

  /**
   * The answer a multer error actually gets: multer runs as route
   * middleware and hands its error to `next`, so the handler and its
   * catch block never run and Express's default error handler answers
   * with a 500 page.
   */
  function MulterRejectionAsWired(m: MulterOutcome): (r: Response)
    requires !m.Accepted?
    ensures r.status == 500
  {
    Response(500, DefaultErrorPage)
  }

  /** An oversized receipt is answered 500, not the 413 the catch block intends. */
  lemma OversizedReceiptAsWired()
    ensures MulterRejectionAsWired(FileTooLarge).status == 500
    ensures MulterRejection(FileTooLarge).status == 413
  {
  }

  /**
   * Every multer error gets a server error as wired, where the catch
   * block means a client error: the two answers never agree.
   */
  lemma MulterErrorsAsWiredDiffer(m: MulterOutcome)
    requires !m.Accepted?
    ensures MulterRejectionAsWired(m).status == 500
    ensures 400 <= MulterRejection(m).status < 500
    ensures MulterRejectionAsWired(m) != MulterRejection(m)
  {
  }

  /**
   * POST /api/sales as wired, with multer in front: a multer error is
   * answered by the framework's default handler without touching the
   * platform; otherwise the handler body runs.
   */
  method PostSales(platform: Platform, upload: MulterOutcome, form: SaleForm, now: nat, replies: Replies)
    returns (response: Response)
    requires platform.Valid()
    requires upload.Accepted? && upload.receipt.Some? ==> |upload.receipt.value.content| <= MaxReceiptBytes
    modifies platform
    ensures platform.Valid()
    ensures !upload.Accepted? ==>
              response == MulterRejectionAsWired(upload) &&
              platform.calls == old(platform.calls) && platform.objects == old(platform.objects) &&
              platform.rows == old(platform.rows)
    ensures upload.Accepted? ==>
              var o := Decide(form, upload.receipt, now, replies);
              && response == o.response
              && platform.calls == old(platform.calls) + o.calls
              && platform.objects == old(platform.objects) + (if o.stored.Some? then {o.stored.value} else {})
              && platform.rows == old(platform.rows) + (if o.saved.Some? then [o.saved.value] else [])
  {
    if upload.Accepted? {
      response := SubmitSale(platform, form, upload.receipt, now, replies);
    } else {
      response := MulterRejectionAsWired(upload);
    }
  }

  /**
   * POST /api/sales as its catch block intends it: a multer error is
   * answered 413 or 400 without touching the platform; otherwise the
   * handler body runs.
   */
  method PostSalesCorrected(platform: Platform, upload: MulterOutcome, form: SaleForm, now: nat, replies: Replies)
    returns (response: Response)
    requires platform.Valid()
    requires upload.Accepted? && upload.receipt.Some? ==> |upload.receipt.value.content| <= MaxReceiptBytes
    modifies platform
    ensures platform.Valid()
    ensures !upload.Accepted? ==>
              response == MulterRejection(upload) &&
              platform.calls == old(platform.calls) && platform.objects == old(platform.objects) &&
              platform.rows == old(platform.rows)
    ensures upload.Accepted? ==>
              var o := Decide(form, upload.receipt, now, replies);
              && response == o.response
              && platform.calls == old(platform.calls) + o.calls
              && platform.objects == old(platform.objects) + (if o.stored.Some? then {o.stored.value} else {})
              && platform.rows == old(platform.rows) + (if o.saved.Some? then [o.saved.value] else [])
  {
    if upload.Accepted? {
      response := SubmitSale(platform, form, upload.receipt, now, replies);
    } else {
      response := MulterRejection(upload);
    }
  }
}
