/** The one piece of state the interface owns: the ordered list of icon
    records it displays. It starts empty, is replaced wholesale by the listing
    response, and grows by one record per accepted upload. */
module IconList {
  import opened Wrappers

  /** An icon record as parsed from JSON. Each property is `None` when the
      object does not have it; a present value is carried as the text a
      template literal renders it to (so a JSON `null` id is `Some("null")`:
      the source only asks whether the property is `undefined`). */
  datatype IconRecord = IconRecord(id: Option<string>, name: Option<string>, kind: Option<string>)

  /** The body of a status-200 upload response after `response.json()`.
      `Unparseable` covers text that is not JSON and the JSON value `null`,
      on which reading `json["id"]` throws. `Parsed` is any other JSON value:
      reading a property from it gives `undefined` (`None`) unless it is an
      object that has that property. */
  datatype Body = Unparseable | Parsed(record: IconRecord)

  /** What the upload request produced: no response at all (the request
      itself failed), or an HTTP status with its body. */
  datatype UploadResponse = NetworkError | Http(status: int, body: Body)

  /** Which notification, if any, ends an upload. `Succeeded` is the
      auto-dismissing toast; `SizeHint` is the modal telling the user the
      minimal icon size is 512x512px; `UploadError` is the modal "Error
      uploading icon"; `Rejected` is an exception escaping the handler, with
      no notification at all. */
  datatype Outcome = Succeeded | SizeHint | UploadError | Rejected

  datatype UploadResult = UploadResult(icons: seq<IconRecord>, outcome: Outcome)

  /** The only status the upload flow treats as a response to read. */
  const OkStatus := 200

  /** The server took the icon: status 200 and a payload that has an `id`. */
  predicate Accepted(resp: UploadResponse) {
    && resp.Http?
    && resp.status == OkStatus
    && resp.body.Parsed?
    && resp.body.record.id.Some?
  }

  /** The payload the server returned for an accepted upload. */
  function AcceptedRecord(resp: UploadResponse): IconRecord
    requires Accepted(resp)
  {
    resp.body.record
  }

  /** One completed upload applied to the list the upload observed. */
  function UploadStep(icons: seq<IconRecord>, resp: UploadResponse): (r: UploadResult)
    ensures r.outcome == Succeeded <==> Accepted(resp)
    ensures Accepted(resp) ==> r.icons == icons + [AcceptedRecord(resp)]
    ensures !Accepted(resp) ==> r.icons == icons
    ensures r.outcome == SizeHint <==>
      resp.Http? && resp.status == OkStatus && resp.body.Parsed? && resp.body.record.id.None?
    ensures r.outcome == UploadError <==> resp.Http? && resp.status != OkStatus
    ensures r.outcome == Rejected <==>
      resp.NetworkError? || (resp.Http? && resp.status == OkStatus && resp.body.Unparseable?)
  {
    match resp
    case NetworkError => UploadResult(icons, Rejected)
    case Http(status, body) =>
      if status != OkStatus then UploadResult(icons, UploadError)
      else
        match body
        case Unparseable => UploadResult(icons, Rejected)
        case Parsed(record) =>
          if record.id.Some? then UploadResult(icons + [record], Succeeded)
          else UploadResult(icons, SizeHint)
  }

  /** Uploads completing one after another, in arrival order, each seeing
      the list the previous one left. The list never loses or reorders a
      record, and everything added to it carries an `id`. */
  function UploadAll(icons: seq<IconRecord>, resps: seq<UploadResponse>): (r: seq<IconRecord>)
    ensures icons <= r
    ensures |r| <= |icons| + |resps|
    ensures forall i :: |icons| <= i < |r| ==> r[i].id.Some?
    decreases |resps|
  {
    if resps == [] then icons
    else UploadAll(UploadStep(icons, resps[0]).icons, resps[1..])
  }

  /** The payloads of the accepted uploads among `resps`, in order. */
  function AcceptedRecords(resps: seq<UploadResponse>): seq<IconRecord>
    decreases |resps|
  {
    if resps == [] then []
    else if Accepted(resps[0]) then [AcceptedRecord(resps[0])] + AcceptedRecords(resps[1..])
    else AcceptedRecords(resps[1..])
  }

  /** A run of uploads appends exactly the accepted payloads, in arrival
      order, after the records already shown. */
  lemma {:induction false} UploadAllAppendsAccepted(icons: seq<IconRecord>, resps: seq<UploadResponse>)
    ensures UploadAll(icons, resps) == icons + AcceptedRecords(resps)
    decreases |resps|
  {
    if resps != [] {
      var next := UploadStep(icons, resps[0]).icons;
      UploadAllAppendsAccepted(next, resps[1..]);
      if Accepted(resps[0]) {
        assert icons + AcceptedRecords(resps)
            == (icons + [AcceptedRecord(resps[0])]) + AcceptedRecords(resps[1..]);
      } else {
        assert next == icons;
      }
    }
  }

  /** What the listing request produced: a failure of the request or of
      reading its body (both swallowed), or the parsed array of records. */
  datatype ListingResponse = ListingFailed | Listing(records: seq<IconRecord>)

  /** The list shown before anything has loaded. */
  const InitialIcons: seq<IconRecord> := []

  /** The startup load: a listing replaces the list wholesale, a failure
      leaves it as it was. */
  function Load(icons: seq<IconRecord>, resp: ListingResponse): (r: seq<IconRecord>)
    ensures resp.Listing? ==> r == resp.records
    ensures resp.ListingFailed? ==> r == icons
  {
    match resp
    case ListingFailed => icons
    case Listing(records) => records
  }

  /** Loading the same listing again yields the same list: no duplicates,
      no reordering. */
  lemma LoadIdempotent(icons: seq<IconRecord>, resp: ListingResponse)
    ensures Load(Load(icons, resp), resp) == Load(icons, resp)
  {
  }

  /** One lifetime of the interface with the listing completing before any
      upload: the listing's records (none if it failed), followed by the
      accepted uploads' payloads in arrival order. */
  function Session(listing: ListingResponse, uploads: seq<UploadResponse>): (r: seq<IconRecord>)
    ensures r == (if listing.Listing? then listing.records else []) + AcceptedRecords(uploads)
  {
    var loaded := Load(InitialIcons, listing);
    UploadAllAppendsAccepted(loaded, uploads);
    UploadAll(loaded, uploads)
  }

  /** No two records in the list share an `id`. */
  predicate UniqueIds(icons: seq<IconRecord>) {
    forall i, j :: 0 <= i < j < |icons| ==> icons[i].id != icons[j].id
  }

  /** An upload keeps the ids unique exactly when the server hands out an
      `id` the list does not already show; the interface itself never
      checks. */
  lemma UploadKeepsIdsUnique(icons: seq<IconRecord>, resp: UploadResponse)
    requires UniqueIds(icons)
    ensures UniqueIds(UploadStep(icons, resp).icons) <==>
      (Accepted(resp) ==> forall i :: 0 <= i < |icons| ==> icons[i].id != AcceptedRecord(resp).id)
  {
    var r := UploadStep(icons, resp).icons;
    if Accepted(resp) {
      var rec := AcceptedRecord(resp);
      assert r == icons + [rec];
      if forall i :: 0 <= i < |icons| ==> icons[i].id != rec.id {
        forall i, j | 0 <= i < j < |r| ensures r[i].id != r[j].id {
          assert r[i] == icons[i];
          if j < |icons| {
            assert r[j] == icons[j];
          }
        }
      } else {
        var i :| 0 <= i < |icons| && icons[i].id == rec.id;
        assert r[i] == icons[i] && r[|icons|] == rec;
      }
    }
  }
}
