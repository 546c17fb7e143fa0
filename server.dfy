/** The catalogue service of server/index.js: the in-memory item list with the
    `POST /items` and `GET /items` routes, the upload filename rule of the disk
    storage, the URLs built for uploaded files, and the `POST /enquire` mail. */
module Server {
  import opened Text
  import opened Items

  const Port: nat := 5000

  /** The most files `upload.array("images", 10)` accepts in one request. */
  const MaxFiles: nat := 10

  const EnquirySubjectPrefix: string := "Enquiry about: "
  const EnquiryTextPrefix: string := "A user is interested in the item: "

  // ---------------------------------------------------------------------------
  // Upload filenames and URLs

  /** A file of a multipart request, with the clock reading (`Date.now()`, in
      milliseconds) at which the disk storage names it. */
  datatype IncomingFile = IncomingFile(originalName: string, receivedAt: nat)

  /** A file after the disk storage wrote it: `filename` is its name on disk. */
  datatype StoredFile = StoredFile(originalName: string, filename: string)

  /** The name the disk storage gives a file: `${Date.now()}-${originalname}`. */
  function StoredFilename(now: nat, originalName: string): (r: string)
    ensures |r| == |Decimal(now)| + 1 + |originalName|
    ensures StartsWith(r, Decimal(now)) && r[|Decimal(now)|] == '-'
    ensures EndsWith(r, originalName)
  {
    Decimal(now) + "-" + originalName
  }

  /** Reads a stored filename back as its clock reading and original name:
      the digits before the first `-`, and everything after it. */
  function SplitStoredFilename(f: string): (r: Option<(nat, string)>)
  {
    var i := IndexOf(f, '-');
    if 0 < i < |f| && AllDigits(f[..i]) then Some((ParseDecimal(f[..i]), f[i + 1..])) else None
  }

  /** The stored filename keeps both the clock reading and the original name. */
  lemma SplitStoredFilenameInverse(now: nat, originalName: string)
    ensures SplitStoredFilename(StoredFilename(now, originalName)) == Some((now, originalName))
  {
    var d := Decimal(now);
    var f := StoredFilename(now, originalName);
    assert '-' !in d;
    IndexOfAfterFree(d, '-', originalName);
    assert f[..|d|] == d;
    assert f[|d| + 1..] == originalName;
    ParseDecimalOfDecimal(now);
  }

  /** Two files get the same name on disk exactly when they have the same
      original name and are named in the same millisecond. */
  lemma StoredFilenameCollision(now1: nat, name1: string, now2: nat, name2: string)
    ensures StoredFilename(now1, name1) == StoredFilename(now2, name2)
            <==> now1 == now2 && name1 == name2
  {
    if StoredFilename(now1, name1) == StoredFilename(now2, name2) {
      SplitStoredFilenameInverse(now1, name1);
      SplitStoredFilenameInverse(now2, name2);
    }
  }

  function StoreFile(f: IncomingFile): (s: StoredFile)
    ensures s.originalName == f.originalName
    ensures s.filename == StoredFilename(f.receivedAt, f.originalName)
    ensures SplitStoredFilename(s.filename) == Some((f.receivedAt, f.originalName))
  {
    SplitStoredFilenameInverse(f.receivedAt, f.originalName);
    StoredFile(f.originalName, StoredFilename(f.receivedAt, f.originalName))
  }

  /** The disk storage writes the files of one request in the order they came. */
  function StoreFiles(files: seq<IncomingFile>): (stored: seq<StoredFile>)
    ensures |stored| == |files|
    ensures forall k :: 0 <= k < |files| ==> stored[k] == StoreFile(files[k])
  {
    seq(|files|, k requires 0 <= k < |files| => StoreFile(files[k]))
  }

  /** `http://localhost:${PORT}/uploads/`, where the uploads are served. */
  function UploadPrefix(): string {
    "http://localhost:" + Decimal(Port) + "/uploads/"
  }

  lemma UploadPrefixLiteral()
    ensures UploadPrefix() == "http://localhost:5000/uploads/"
  {
  }

  function UploadUrl(filename: string): (r: string)
    ensures |r| == |UploadPrefix()| + |filename|
    ensures StartsWith(r, UploadPrefix()) && EndsWith(r, filename)
    ensures StartsWith(r, "http")
  {
    UploadPrefixLiteral();
    UploadPrefix() + filename
  }

  /** The stored filename a served upload URL names, if it is one. */
  function FilenameOfUrl(url: string): (r: Option<string>)
    ensures r.Some? <==> StartsWith(url, UploadPrefix())
    ensures r.Some? ==> UploadUrl(r.value) == url
  {
    if StartsWith(url, UploadPrefix()) then Some(url[|UploadPrefix()|..]) else None
  }

  lemma FilenameOfUploadUrl(filename: string)
    ensures FilenameOfUrl(UploadUrl(filename)) == Some(filename)
  {
  }

  /** `req.files.map(file => `http://localhost:${PORT}/uploads/${file.filename}`)`. */
  function UploadedImages(files: seq<StoredFile>): (urls: seq<string>)
    ensures |urls| == |files|
    ensures forall k :: 0 <= k < |files| ==> FilenameOfUrl(urls[k]) == Some(files[k].filename)
  {
    if files == [] then []
    else
      FilenameOfUploadUrl(files[0].filename);
      [UploadUrl(files[0].filename)] + UploadedImages(files[1..])
  }

  // ---------------------------------------------------------------------------
  // POST /items and GET /items

  /** A request to `POST /items`. `multipart` says whether it is
      multipart/form-data: only then does the upload middleware set `req.files`.
      The body fields are those the request carried. */
  datatype ItemRequest = ItemRequest(
    multipart: bool,
    name: Option<string>,
    itemType: Option<string>,
    description: Option<string>,
    coverImage: Option<string>,
    files: seq<IncomingFile>)

  datatype Body =
    | ItemJson(item: Item)
    | ItemListJson(items: seq<Item>)
    | ErrorJson(error: string)
    | ErrorPage      // the framework's default error page
    | PlainText(text: string)

  datatype Response = Response(status: nat, body: Body)

  /** The store after a request, and the reply. */
  datatype Outcome = Outcome(store: seq<Item>, response: Response)

  /** A request the route handler completes: the upload middleware accepted it
      and `req.files` is defined. */
  function Accepted(req: ItemRequest): (ok: bool)
    ensures ok ==> req.multipart && |req.files| <= 10
    ensures !req.multipart || |req.files| > 10 ==> !ok
  {
    req.multipart && |req.files| <= MaxFiles
  }

  /** The item `POST /items` builds from a request. */
  function NewItem(req: ItemRequest): (item: Item)
    ensures item.name == req.name && item.itemType == req.itemType
    ensures item.description == req.description && item.coverImage == req.coverImage
    ensures |item.images| == |req.files|
    ensures forall k :: 0 <= k < |req.files| ==>
              item.images[k] == UploadUrl(StoredFilename(req.files[k].receivedAt, req.files[k].originalName))
  {
    var stored := StoreFiles(req.files);
    var urls := UploadedImages(stored);
    forall k | 0 <= k < |req.files|
      ensures urls[k] == UploadUrl(StoredFilename(req.files[k].receivedAt, req.files[k].originalName))
    {
      assert FilenameOfUrl(urls[k]) == Some(stored[k].filename);
    }
    Item(req.name, req.itemType, req.description, req.coverImage, urls)
  }

  /** `POST /items` on a store: the upload middleware rejects more than
      `MaxFiles` files before the handler runs; a request that is not multipart
      leaves `req.files` undefined, so the handler throws and answers 500. */
  function Post(store: seq<Item>, req: ItemRequest): (o: Outcome)
    ensures o.response.status == 201 <==> Accepted(req)
    ensures Accepted(req) ==>
              o.store == store + [NewItem(req)] && o.response.body == ItemJson(NewItem(req))
    ensures !Accepted(req) ==> o.store == store && o.response.status == 500
  {
    if !req.multipart then
      Outcome(store, Response(500, ErrorJson("Internal Server Error")))
    else if |req.files| > MaxFiles then
      Outcome(store, Response(500, ErrorPage))
    else
      var item := NewItem(req);
      Outcome(store + [item], Response(201, ItemJson(item)))
  }

  /** The store after handling `reqs` one after another. */
  function Replay(store: seq<Item>, reqs: seq<ItemRequest>): seq<Item>
    decreases |reqs|
  {
    if reqs == [] then store else Replay(Post(store, reqs[0]).store, reqs[1..])
  }

  /** The items built from the accepted requests among `reqs`, in order. */
  function AcceptedItems(reqs: seq<ItemRequest>): seq<Item>
  {
    if reqs == [] then []
    else (if Accepted(reqs[0]) then [NewItem(reqs[0])] else []) + AcceptedItems(reqs[1..])
  }

  /** The store only ever grows at its end, by one item per accepted request. */
  lemma {:induction false} ReplayAppendsAccepted(store: seq<Item>, reqs: seq<ItemRequest>)
    ensures Replay(store, reqs) == store + AcceptedItems(reqs)
    decreases |reqs|
  {
    if reqs != [] {
      var next := Post(store, reqs[0]).store;
      ReplayAppendsAccepted(next, reqs[1..]);
    }
  }

  lemma {:induction false} AcceptedItemsOfAccepted(reqs: seq<ItemRequest>)
    requires forall k :: 0 <= k < |reqs| ==> Accepted(reqs[k])
    ensures |AcceptedItems(reqs)| == |reqs|
    ensures forall k :: 0 <= k < |reqs| ==> AcceptedItems(reqs)[k] == NewItem(reqs[k])
  {
    if reqs != [] {
      AcceptedItemsOfAccepted(reqs[1..]);
      assert Accepted(reqs[0]);
    }
  }

  /** After K accepted posts on the empty initial store, `GET /items` lists
      exactly the K items built, in submission order. */
  lemma PostsFromEmpty(reqs: seq<ItemRequest>)
    requires forall k :: 0 <= k < |reqs| ==> Accepted(reqs[k])
    ensures |Replay([], reqs)| == |reqs|
    ensures forall k :: 0 <= k < |reqs| ==> Replay([], reqs)[k] == NewItem(reqs[k])
  {
    ReplayAppendsAccepted([], reqs);
    AcceptedItemsOfAccepted(reqs);
  }

  /** The process-wide `items` list and the two routes over it. */
  class CatalogServer {
    var items: seq<Item>

    constructor ()
      ensures items == []
    {
      items := [];
    }

    method PostItems(req: ItemRequest) returns (res: Response)
      modifies this
      ensures items == Post(old(items), req).store
      ensures res == Post(old(items), req).response
      ensures res.status == 201 ==> items == old(items) + [res.body.item]
    {
      var o := Post(items, req);
      items := o.store;
      res := o.response;
    }

    method GetItems() returns (res: Response)
      ensures res.status == 200 && res.body == ItemListJson(items)
    {
      res := Response(200, ItemListJson(items));
    }
  }

  // ---------------------------------------------------------------------------
  // POST /enquire

  datatype Mail = Mail(subject: string, text: string)

  /** The mail sent for an enquiry; an absent `itemName` prints as `undefined`. */
  function EnquiryMail(itemName: Option<string>): (m: Mail)
    ensures StartsWith(m.subject, EnquirySubjectPrefix) && EndsWith(m.subject, Render(itemName))
    ensures StartsWith(m.text, EnquiryTextPrefix) && EndsWith(m.text, Render(itemName))
    ensures |m.subject| == |EnquirySubjectPrefix| + |Render(itemName)|
    ensures |m.text| == |EnquiryTextPrefix| + |Render(itemName)|
  {
    Mail(EnquirySubjectPrefix + Render(itemName), EnquiryTextPrefix + Render(itemName))
  }

  /** The item name an enquiry subject names, if it is one. */
  function ItemNameOfSubject(subject: string): (r: Option<string>)
    ensures r.Some? <==> StartsWith(subject, EnquirySubjectPrefix)
  {
    if StartsWith(subject, EnquirySubjectPrefix) then Some(subject[|EnquirySubjectPrefix|..]) else None
  }

  lemma ItemNameOfEnquirySubject(itemName: Option<string>)
    ensures ItemNameOfSubject(EnquiryMail(itemName).subject) == Some(Render(itemName))
  {
  }

  datatype EnquiryReply = EnquiryReply(mail: Mail, response: Response)

  /** `POST /enquire`: one mail is handed to the mail transport, whose outcome
      is `delivered`; the reply is 200 when it was sent and 500 otherwise. */
  function Enquire(itemName: Option<string>, delivered: bool): (r: EnquiryReply)
    ensures r.mail == EnquiryMail(itemName)
    ensures r.response.status == 200 <==> delivered
    ensures !delivered ==> r.response.status == 500
  {
    var mail := EnquiryMail(itemName);
    if delivered then EnquiryReply(mail, Response(200, PlainText("Enquiry email sent.")))
    else EnquiryReply(mail, Response(500, PlainText("Failed to send enquiry email.")))
  }
}
