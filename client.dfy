/** The view state of the single-page client of src/App.js: the item list, the
    controlled form, the selected item with its image carousel, the success
    flag, and the pure rules the page renders with (image URL resolution, the
    carousel's index arithmetic in JavaScript's `%`). Network replies are
    inputs of the handlers. */
module Client {
  import opened Text
  import opened Items
  import Server

  const ApiBase: string := "http://localhost:5000"
  const Placeholder: string := "https://via.placeholder.com/150"

  // ---------------------------------------------------------------------------
  // Image URL resolution

  /** JavaScript's `!image` on a value that is `undefined` or a string. */
  function Falsy(image: Option<string>): (b: bool)
    ensures b <==> image == None || image == Some("")
  {
    image.None? || image.value == ""
  }

  /** `getImageUrl`: a placeholder for a missing image, an absolute URL as it
      is, and anything else as a file under the server's upload path. */
  function GetImageUrl(image: Option<string>): (r: string)
    ensures StartsWith(r, "http")
    ensures Falsy(image) ==> r == Placeholder
    ensures !Falsy(image) && StartsWith(image.value, "http") ==> r == image.value
    ensures !Falsy(image) && !StartsWith(image.value, "http") ==>
              |r| == |ApiBase + "/uploads/"| + |image.value| &&
              StartsWith(r, ApiBase + "/uploads/") && EndsWith(r, image.value)
  {
    if Falsy(image) then Placeholder
    else if StartsWith(image.value, "http") then image.value
    else ApiBase + "/uploads/" + image.value
  }

  /** Resolving an already resolved URL changes nothing. */
  lemma GetImageUrlIdempotent(image: Option<string>)
    ensures GetImageUrl(Some(GetImageUrl(image))) == GetImageUrl(image)
  {
  }

  /** A bare filename resolves to the very URL under which the server serves
      the stored file, and a URL the server built passes through unchanged. */
  lemma GetImageUrlAgreesWithServer(filename: string)
    ensures filename != "" && !StartsWith(filename, "http") ==>
              GetImageUrl(Some(filename)) == Server.UploadUrl(filename)
    ensures GetImageUrl(Some(Server.UploadUrl(filename))) == Server.UploadUrl(filename)
  {
  }

  /** `item.images?.[0]`. */
  function FirstImage(item: Item): (r: Option<string>)
    ensures r.Some? <==> |item.images| > 0
    ensures |item.images| > 0 ==> r == Some(item.images[0])
  {
    if |item.images| > 0 then Some(item.images[0]) else None
  }

  /** The grid tile's picture: `getImageUrl(item.coverImage || item.images?.[0])`. */
  function CoverUrl(item: Item): (r: string)
    ensures !Falsy(item.coverImage) ==> r == GetImageUrl(item.coverImage)
    ensures Falsy(item.coverImage) && |item.images| > 0 ==> r == GetImageUrl(Some(item.images[0]))
    ensures Falsy(item.coverImage) && |item.images| == 0 ==> r == Placeholder
  {
    GetImageUrl(if Falsy(item.coverImage) then FirstImage(item) else item.coverImage)
  }

  // ---------------------------------------------------------------------------
  // Carousel arithmetic

  /** JavaScript's `a % n` for a positive divisor: the remainder takes the sign
      of the dividend (Dafny's `%` is Euclidean and never negative). */
  function JsRem(a: int, n: int): (r: int)
    requires n > 0
    ensures -n < r < n
    ensures a >= 0 ==> r >= 0
    ensures a <= 0 ==> r <= 0
    ensures a >= 0 ==> r == a % n
  {
    if a >= 0 then a % n else -((-a) % n)
  }

  /** Without the `+ length` of `prevImage`, stepping back from the first
      image would give a negative index. */
  lemma JsRemOfMinusOne(n: int)
    requires n > 1
    ensures JsRem(0 - 1, n) == -1
  {
  }

  /** The index `nextImage` computes: `(prev + 1) % length`. */
  function NextIndex(i: int, n: int): (r: int)
    requires n > 0
    ensures 0 <= i < n ==> 0 <= r < n
    ensures 0 <= i < n - 1 ==> r == i + 1
    ensures i == n - 1 ==> r == 0
  {
    JsRem(i + 1, n)
  }

  /** The index `prevImage` computes: `(prev - 1 + length) % length`. */
  function PrevIndex(i: int, n: int): (r: int)
    requires n > 0
    ensures 0 <= i < n ==> 0 <= r < n
    ensures 0 < i < n ==> r == i - 1
    ensures i == 0 ==> r == n - 1
  {
    JsRem(i - 1 + n, n)
  }

  lemma PrevUndoesNext(i: int, n: int)
    requires 0 <= i < n
    ensures PrevIndex(NextIndex(i, n), n) == i
    ensures NextIndex(PrevIndex(i, n), n) == i
  {
  }

  /** The index after `k` presses of the next button. */
  function NextRepeated(i: int, n: int, k: nat): int
    requires n > 0
  {
    if k == 0 then i else NextIndex(NextRepeated(i, n, k - 1), n)
  }

  /** Within one lap, `k` presses move the index `k` places forward, wrapping
      past the last image to the first. */
  lemma {:induction false} NextRepeatedWraps(i: int, n: int, k: nat)
    requires 0 <= i < n && k <= n
    ensures NextRepeated(i, n, k) == if i + k < n then i + k else i + k - n
  {
    if k > 0 {
      NextRepeatedWraps(i, n, k - 1);
    }
  }

  /** As many presses of the next button as there are images return to the
      image the carousel started at. */
  lemma NextFullCycle(i: int, n: int)
    requires 0 <= i < n
    ensures NextRepeated(i, n, n) == i
  {
    NextRepeatedWraps(i, n, n);
  }

  /** `carouselIndex` as a JavaScript number: an integer, or NaN once an
      update divided by an image count of zero. */
  datatype CarouselIndex = Index(i: int) | NaN

  /** The index fits an image list of length `n`: in range when there are
      images; 0 or NaN when there are none. */
  predicate Fits(c: CarouselIndex, n: nat) {
    if n > 0 then c.Index? && 0 <= c.i < n else c == Index(0) || c == NaN
  }

  /** The updater passed by `nextImage`. */
  function Advance(c: CarouselIndex, n: nat): (r: CarouselIndex)
    ensures Fits(c, n) ==> Fits(r, n)
    ensures n == 0 ==> r == NaN
    ensures n > 0 && Fits(c, n) ==> r == Index(NextIndex(c.i, n))
  {
    match c
    case NaN => NaN
    case Index(i) => if n == 0 then NaN else Index(NextIndex(i, n))
  }

  /** The updater passed by `prevImage`. */
  function Retreat(c: CarouselIndex, n: nat): (r: CarouselIndex)
    ensures Fits(c, n) ==> Fits(r, n)
    ensures n == 0 ==> r == NaN
    ensures n > 0 && Fits(c, n) ==> r == Index(PrevIndex(c.i, n))
  {
    match c
    case NaN => NaN
    case Index(i) => if n == 0 then NaN else Index(PrevIndex(i, n))
  }

  /** `selectedItem.images?.[carouselIndex]`. */
  function CarouselImage(item: Item, c: CarouselIndex): (r: Option<string>)
    ensures Fits(c, |item.images|) && |item.images| > 0 ==> r == Some(item.images[c.i])
    ensures |item.images| == 0 ==> r == None
  {
    if c.Index? && 0 <= c.i < |item.images| then Some(item.images[c.i]) else None
  }

  // ---------------------------------------------------------------------------
  // Form and submission

  /** A browser `File` chosen in the file input; `name` is the name the server
      sees as `originalname`. */
  datatype FileRef = FileRef(name: string)

  /** An entry of `form.images`: `{ url: URL.createObjectURL(file), file }`. */
  datatype SelectedImage = SelectedImage(previewUrl: string, file: FileRef)

  datatype Form = Form(
    name: string,
    itemType: string,
    description: string,
    coverImage: string,
    images: seq<SelectedImage>)

  const EmptyForm: Form := Form("", "", "", "", [])

  /** The browser's constraint validation of the inputs marked `required`:
      name, type and description must be non-empty; the cover filename and
      the files are optional. */
  function RequiredFilled(form: Form): (ok: bool)
    ensures ok <==> form.name != [] && form.itemType != [] && form.description != []
    ensures form == EmptyForm ==> !ok
  {
    form.name != "" && form.itemType != "" && form.description != ""
  }

  datatype FormField = NameField | TypeField | DescriptionField | CoverImageField

  /** The form after one text input's `onChange`: `{ ...form, [field]: value }`. */
  function WithField(form: Form, field: FormField, value: string): (r: Form)
    ensures r.images == form.images
    ensures r.name == (if field == NameField then value else form.name)
    ensures r.itemType == (if field == TypeField then value else form.itemType)
    ensures r.description == (if field == DescriptionField then value else form.description)
    ensures r.coverImage == (if field == CoverImageField then value else form.coverImage)
  {
    match field
    case NameField => form.(name := value)
    case TypeField => form.(itemType := value)
    case DescriptionField => form.(description := value)
    case CoverImageField => form.(coverImage := value)
  }

  /** The multipart body `handleSubmit` posts. */
  datatype Submission = Submission(
    name: string,
    itemType: string,
    description: string,
    coverImage: string,
    files: seq<FileRef>)

  /** The body built from the form: the four text fields, then one `images`
      part per selected file, in the order they were chosen. */
  function Payload(form: Form): (s: Submission)
    ensures s.name == form.name && s.itemType == form.itemType
    ensures s.description == form.description && s.coverImage == form.coverImage
    ensures |s.files| == |form.images|
    ensures forall k :: 0 <= k < |form.images| ==> s.files[k] == form.images[k].file
  {
    Submission(form.name, form.itemType, form.description, form.coverImage,
               seq(|form.images|, k requires 0 <= k < |form.images| => form.images[k].file))
  }

  /** The request the server receives for a submission, `times[k]` being the
      clock reading at which the server's disk storage names file `k`. */
  function SubmissionRequest(s: Submission, times: seq<nat>): (req: Server.ItemRequest)
    requires |times| == |s.files|
    ensures req.multipart && |req.files| == |s.files|
    ensures req.name == Some(s.name) && req.itemType == Some(s.itemType)
    ensures req.description == Some(s.description) && req.coverImage == Some(s.coverImage)
    ensures forall k :: 0 <= k < |s.files| ==>
              req.files[k] == Server.IncomingFile(s.files[k].name, times[k])
  {
    Server.ItemRequest(true, Some(s.name), Some(s.itemType), Some(s.description), Some(s.coverImage),
      seq(|s.files|, k requires 0 <= k < |s.files| => Server.IncomingFile(s.files[k].name, times[k])))
  }

  /** The URL the server builds for an uploaded file ends with the file's
      original name, and the client shows it as it is. */
  lemma UploadedUrlNamesFile(now: nat, originalName: string)
    ensures EndsWith(Server.UploadUrl(Server.StoredFilename(now, originalName)), originalName)
    ensures GetImageUrl(Some(Server.UploadUrl(Server.StoredFilename(now, originalName))))
            == Server.UploadUrl(Server.StoredFilename(now, originalName))
  {
  }

  /** A form with at most ten files is accepted by the server (so stored as
      one new item, by `Server.Post`), and that item carries its text fields and one image URL per selected file, in
      order, each naming that file; the client shows each such URL as it is. */
  lemma SubmitThroughServer(form: Form, times: seq<nat>)
    requires |times| == |form.images| <= Server.MaxFiles
    ensures Server.Accepted(SubmissionRequest(Payload(form), times))
    ensures var item := Server.NewItem(SubmissionRequest(Payload(form), times));
            item.name == Some(form.name) && item.itemType == Some(form.itemType) &&
            item.description == Some(form.description) && item.coverImage == Some(form.coverImage) &&
            |item.images| == |form.images|
    ensures var item := Server.NewItem(SubmissionRequest(Payload(form), times));
            forall k :: 0 <= k < |form.images| ==>
              EndsWith(item.images[k], form.images[k].file.name) &&
              GetImageUrl(Some(item.images[k])) == item.images[k]
  {
    var req := SubmissionRequest(Payload(form), times);
    var item := Server.NewItem(req);
    forall k | 0 <= k < |form.images|
      ensures EndsWith(item.images[k], form.images[k].file.name)
      ensures GetImageUrl(Some(item.images[k])) == item.images[k]
    {
      assert req.files[k] == Server.IncomingFile(form.images[k].file.name, times[k]);
      UploadedUrlNamesFile(times[k], form.images[k].file.name);
    }
  }

  // ---------------------------------------------------------------------------
  // Network outcomes, as inputs

  /** The initial `GET /items`: the list it parsed, or a rejected promise. */
  datatype LoadReply = Loaded(data: seq<Item>) | LoadFailed

  /** The `POST /items` of `handleSubmit`: an ok reply with its parsed item, a
      reply whose `ok` is false, or a rejected promise. */
  datatype SubmitReply = Created(item: Item) | NotOk | SubmitFailed

  /** The `POST /enquire` of `handleEnquire`: the reply's status, or a rejected promise. */
  datatype EnquiryFetch = Resolved(status: nat) | Rejected

  const SentAlert: string := "Enquiry email sent."
  const FailedAlert: string := "Failed to send enquiry."

  /** The alert `handleEnquire` shows once a request was sent: success
      whenever the fetch resolves, whatever the status. */
  function EnquiryAlert(f: EnquiryFetch): (alert: string)
    ensures alert == SentAlert <==> f.Resolved?
    ensures alert == SentAlert || alert == FailedAlert
  {
    if f.Resolved? then SentAlert else FailedAlert
  }

  /** When the mail transport fails, the server answers 500 and the page still
      reports the enquiry as sent. */
  lemma EnquiryAlertIgnoresServerFailure(itemName: Option<string>)
    ensures Server.Enquire(itemName, false).response.status == 500
    ensures EnquiryAlert(Resolved(Server.Enquire(itemName, false).response.status)) == SentAlert
  {
  }

  /** The alert with the reply's `ok` flag checked, as `handleSubmit` does. */
  function CheckedEnquiryAlert(f: EnquiryFetch): (alert: string)
    ensures alert == SentAlert <==> f.Resolved? && 200 <= f.status < 300
    ensures alert == SentAlert || alert == FailedAlert
  {
    if f.Resolved? && 200 <= f.status < 300 then SentAlert else FailedAlert
  }

  /** With the status checked, the page reports success exactly when the mail
      was delivered. */
  lemma CheckedEnquiryAlertMatchesServer(itemName: Option<string>, delivered: bool)
    ensures CheckedEnquiryAlert(Resolved(Server.Enquire(itemName, delivered).response.status)) == SentAlert
            <==> delivered
  {
  }

  // ---------------------------------------------------------------------------
  // The component state

  class App {
    var items: seq<Item>
    var form: Form
    var selectedItem: Option<Item>
    var carouselIndex: CarouselIndex
    var success: bool

    /** While an item is selected, the carousel index fits its image list. */
    predicate Valid()
      reads this
    {
      selectedItem.Some? ==> Fits(carouselIndex, |selectedItem.value.images|)
    }

    constructor ()
      ensures Valid()
      ensures items == [] && form == EmptyForm && selectedItem == None
      ensures carouselIndex == Index(0) && !success
    {
      items := [];
      form := EmptyForm;
      selectedItem := None;
      carouselIndex := Index(0);
      success := false;
    }

    /** The mount effect: the fetched list replaces `items`; a failure is only logged. */
    method ItemsLoaded(reply: LoadReply)
      requires Valid()
      modifies this
      ensures Valid()
      ensures items == (if reply.Loaded? then reply.data else old(items))
      ensures form == old(form) && selectedItem == old(selectedItem)
      ensures carouselIndex == old(carouselIndex) && success == old(success)
    {
      if reply.Loaded? {
        items := reply.data;
      }
    }

    /** A text input's `onChange`. */
    method EditField(field: FormField, value: string)
      requires Valid()
      modifies this
      ensures Valid()
      ensures form == WithField(old(form), field, value)
      ensures items == old(items) && selectedItem == old(selectedItem)
      ensures carouselIndex == old(carouselIndex) && success == old(success)
    {
      form := WithField(form, field, value);
    }

    /** `handleImageList`: the chosen files replace the selected images. */
    method HandleImageList(chosen: seq<SelectedImage>)
      requires Valid()
      modifies this
      ensures Valid()
      ensures form == old(form).(images := chosen)
      ensures items == old(items) && selectedItem == old(selectedItem)
      ensures carouselIndex == old(carouselIndex) && success == old(success)
    {
      form := form.(images := chosen);
    }

    /** A submit of the form: the browser runs `handleSubmit` only when every
        `required` input is filled in. `handleSubmit` posts the form; on an ok
        reply it appends the returned item, clears the form and raises the
        success flag; otherwise it changes nothing. Returns the body posted,
        if any. */
    method HandleSubmit(reply: SubmitReply) returns (posted: Option<Submission>)
      requires Valid()
      modifies this
      ensures Valid()
      ensures !RequiredFilled(old(form)) ==>
                posted == None && items == old(items) && form == old(form) && success == old(success)
      ensures RequiredFilled(old(form)) ==> posted == Some(Payload(old(form)))
      ensures RequiredFilled(old(form)) && reply.Created? ==>
                items == old(items) + [reply.item] && form == EmptyForm && success
      ensures RequiredFilled(old(form)) && !reply.Created? ==>
                items == old(items) && form == old(form) && success == old(success)
      ensures selectedItem == old(selectedItem) && carouselIndex == old(carouselIndex)
    {
      if !RequiredFilled(form) {
        posted := None;
        return;
      }
      posted := Some(Payload(form));
      if reply.Created? {
        items := items + [reply.item];
        form := EmptyForm;
        success := true;
      }
    }

    /** The timer set by a successful submit lowers the success flag. */
    method SuccessTimerFired()
      requires Valid()
      modifies this
      ensures Valid()
      ensures !success
      ensures items == old(items) && form == old(form)
      ensures selectedItem == old(selectedItem) && carouselIndex == old(carouselIndex)
    {
      success := false;
    }

    /** A click on grid tile `idx`: opens that item at its first image. */
    method SelectItem(idx: nat)
      requires Valid()
      requires idx < |items|
      modifies this
      ensures Valid()
      ensures items == old(items) && form == old(form) && success == old(success)
      ensures selectedItem == Some(items[idx]) && carouselIndex == Index(0)
    {
      selectedItem := Some(items[idx]);
      carouselIndex := Index(0);
    }

    /** The Close button. The carousel index keeps its value. */
    method CloseModal()
      requires Valid()
      modifies this
      ensures Valid()
      ensures selectedItem == None
      ensures carouselIndex == old(carouselIndex)
      ensures items == old(items) && form == old(form) && success == old(success)
    {
      selectedItem := None;
    }

    /** `nextImage`: advances the index when an item is selected. */
    method NextImage()
      requires Valid()
      modifies this
      ensures Valid()
      ensures selectedItem == old(selectedItem)
      ensures selectedItem.None? ==> carouselIndex == old(carouselIndex)
      ensures selectedItem.Some? ==>
                carouselIndex == Advance(old(carouselIndex), |selectedItem.value.images|)
      ensures items == old(items) && form == old(form) && success == old(success)
    {
      if selectedItem.Some? {
        carouselIndex := Advance(carouselIndex, |selectedItem.value.images|);
      }
    }

    /** `prevImage`: steps the index back when an item is selected. */
    method PrevImage()
      requires Valid()
      modifies this
      ensures Valid()
      ensures selectedItem == old(selectedItem)
      ensures selectedItem.None? ==> carouselIndex == old(carouselIndex)
      ensures selectedItem.Some? ==>
                carouselIndex == Retreat(old(carouselIndex), |selectedItem.value.images|)
      ensures items == old(items) && form == old(form) && success == old(success)
    {
      if selectedItem.Some? {
        carouselIndex := Retreat(carouselIndex, |selectedItem.value.images|);
      }
    }

    /** The picture in the modal's carousel. */
    function CarouselUrl(): (r: string)
      reads this
      requires Valid() && selectedItem.Some?
      ensures |selectedItem.value.images| > 0 ==>
                r == GetImageUrl(Some(selectedItem.value.images[carouselIndex.i]))
      ensures |selectedItem.value.images| == 0 ==> r == Placeholder
    {
      GetImageUrl(CarouselImage(selectedItem.value, carouselIndex))
    }

    /** `handleEnquire`: posts the selected item's name and reports the outcome.
        Without a selected item, reading its name throws before anything is
        sent. `sent` is the `itemName` posted, if a request was made. */
    method HandleEnquire(reply: EnquiryFetch) returns (sent: Option<Option<string>>, alert: string)
      ensures selectedItem.None? ==> sent == None && alert == FailedAlert
      ensures selectedItem.Some? ==>
                sent == Some(selectedItem.value.name) && alert == EnquiryAlert(reply)
    {
      if selectedItem.None? {
        sent := None;
        alert := FailedAlert;
        return;
      }
      sent := Some(selectedItem.value.name);
      alert := EnquiryAlert(reply);
    }
  }
}
