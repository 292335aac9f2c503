/** The new-bill controller: it checks and uploads the receipt an employee selects, keeps
    what the upload returned, and on submit builds the bill record, asks the store to update
    it and sends the user back to the list of bills. */
module NewBillContainer {
  import opened Wrappers
  import opened JsStrings
  import opened JsParseInt

  // ---------------------------------------------------------------------------------------
  // Attachment check

  /** `allowedExtension.includes(ext)`: the extensions a receipt may have, lower case. */
  predicate IsAllowedExtension(ext: string)
  {
    ext == "jpg" || ext == "jpeg" || ext == "png"
  }

  /** The file name the browser reports: the last `\`-separated segment of the input's value. */
  function FileNameOf(inputValue: string): (name: string)
    ensures '\\' !in name
    ensures |name| <= |inputValue| && name == inputValue[|inputValue| - |name|..]
    ensures |name| == |inputValue| || inputValue[|inputValue| - |name| - 1] == '\\'
  {
    LastSegmentSpec(inputValue, '\\');
    LastSegment(inputValue, '\\')
  }

  /** `isFileEXtensionIsAllowed`: the lower-cased text after the last `.` (all of the name when
      it has none) is one of the allowed extensions. */
  predicate IsFileExtensionAllowed(fileName: string)
  {
    IsAllowedExtension(ToLowerAscii(LastSegment(fileName, '.')))
  }

  /** `name` ends, ignoring case, with `ext`, which starts the name or follows a `.`. */
  ghost predicate HasExtension(name: string, ext: string)
  {
    |ext| <= |name| && ToLowerAscii(name[|name| - |ext|..]) == ext &&
    (|ext| == |name| || name[|name| - |ext| - 1] == '.')
  }

  lemma AllowedExtensionHasNoDot(ext: string)
    requires IsAllowedExtension(ext)
    ensures forall i :: 0 <= i < |ext| ==> ext[i] != '.'
  {
  }

  /** A name with one of the allowed extensions in that sense passes the check. */
  lemma HasExtensionIsAllowed(name: string, ext: string)
    requires IsAllowedExtension(ext) && HasExtension(name, ext)
    ensures IsFileExtensionAllowed(name)
  {
    var r := name[|name| - |ext|..];
    AllowedExtensionHasNoDot(ext);
    forall i | 0 <= i < |r|
      ensures r[i] != '.'
    {
      assert LowerChar(r[i]) == ext[i];
    }
    LastSegmentUnique(name, '.', r);
  }

  /** The check accepts exactly the names that end, ignoring case, in `.jpg`, `.jpeg` or
      `.png`, or that are one of those words on their own. */
  lemma IsFileExtensionAllowedIff(name: string)
    ensures IsFileExtensionAllowed(name) <==>
            HasExtension(name, "jpg") || HasExtension(name, "jpeg") || HasExtension(name, "png")
  {
    if IsFileExtensionAllowed(name) {
      LastSegmentSpec(name, '.');
      var ext := ToLowerAscii(LastSegment(name, '.'));
      assert HasExtension(name, ext);
    }
    if HasExtension(name, "jpg") {
      HasExtensionIsAllowed(name, "jpg");
    } else if HasExtension(name, "jpeg") {
      HasExtensionIsAllowed(name, "jpeg");
    } else if HasExtension(name, "png") {
      HasExtensionIsAllowed(name, "png");
    }
  }

  /** The extension check on a name whose last segment is already known. */
  lemma CheckWithExtension(name: string, ext: string)
    requires '.' !in ext
    requires |ext| <= |name| && name[|name| - |ext|..] == ext
    requires |ext| == |name| || name[|name| - |ext| - 1] == '.'
    ensures IsFileExtensionAllowed(name) <==> IsAllowedExtension(ToLowerAscii(ext))
  {
    LastSegmentUnique(name, '.', ext);
  }

  /** Accepted names: the case of the extension does not matter, only the last extension
      counts, and a name without a `.` is checked as a whole. */
  lemma AcceptedExamples()
    ensures IsFileExtensionAllowed("a.b.PNG")
    ensures IsFileExtensionAllowed("image.png")
    ensures IsFileExtensionAllowed("png")
  {
    assert ToLowerAscii("PNG") == "png";
    assert IsFileExtensionAllowed("a.b.PNG") by {
      CheckWithExtension("a.b.PNG", "PNG");
    }
    assert IsFileExtensionAllowed("image.png") by {
      CheckWithExtension("image.png", "png");
    }
    assert IsFileExtensionAllowed("png") by {
      CheckWithExtension("png", "png");
    }
  }

  /** A name with another extension is rejected. */
  lemma RejectsOtherExtension()
    ensures !IsFileExtensionAllowed("test.pdf")
  {
    CheckWithExtension("test.pdf", "pdf");
    assert ToLowerAscii("pdf") == "pdf";
    assert "pdf" != "jpg" by { assert "pdf"[0] != "jpg"[0]; }
    assert "pdf" != "png" by { assert "pdf"[1] != "png"[1]; }
  }

  /** A name ending in `.` has an empty extension and is rejected. */
  lemma RejectsEmptyExtension()
    ensures !IsFileExtensionAllowed("a.")
  {
    assert |ToLowerAscii("")| == 0;
    CheckWithExtension("a.", "");
  }

  /** A name without `.` is checked as a whole, so the empty name, and any other that is not
      itself an allowed extension, is rejected. */
  lemma RejectsBareName()
    ensures !IsFileExtensionAllowed("")
    ensures !IsFileExtensionAllowed("a")
  {
    assert |ToLowerAscii("")| == 0 && |ToLowerAscii("a")| == 1;
    CheckWithExtension("", "");
    CheckWithExtension("a", "a");
  }

  // ---------------------------------------------------------------------------------------
  // The bill record

  /** The values of the new-bill form's fields, as the browser gives them. */
  datatype BillForm = BillForm(
    expenseType: string,
    expenseName: string,
    amount: string,
    date: string,
    vat: string,
    pct: string,
    commentary: string)

  /** The record `handleSubmit` sends to the store. `None` in `amount` is `NaN`; `None` in
      `fileUrl` and `fileName` is `null`. */
  datatype Bill = Bill(
    email: string,
    expenseType: string,
    name: string,
    amount: Option<int>,
    date: string,
    vat: string,
    pct: int,
    commentary: string,
    fileUrl: Option<string>,
    fileName: Option<string>,
    status: string)

  const Pending: string := "pending"

  /** `parseInt(value) || 20`: `NaN` and `0` are both falsy, so both give 20. */
  function PctOrDefault(value: string): (pct: int)
    ensures pct != 0
    ensures ParseInt(value).Some? && ParseInt(value).value != 0 ==> pct == ParseInt(value).value
    ensures ParseInt(value).None? || ParseInt(value) == Some(0) ==> pct == 20
  {
    match ParseInt(value)
    case Some(p) => if p != 0 then p else 20
    case None => 20
  }

  /** The object literal of `handleSubmit`. */
  function BuildBill(email: string, form: BillForm, fileUrl: Option<string>, fileName: Option<string>): (bill: Bill)
    ensures bill.status == Pending
    ensures bill.fileUrl == fileUrl && bill.fileName == fileName
    ensures bill.amount == ParseInt(form.amount) && bill.pct == PctOrDefault(form.pct)
    ensures bill.email == email && bill.expenseType == form.expenseType && bill.name == form.expenseName
    ensures bill.date == form.date && bill.vat == form.vat && bill.commentary == form.commentary
  {
    Bill(email, form.expenseType, form.expenseName, ParseInt(form.amount), form.date, form.vat,
         PctOrDefault(form.pct), form.commentary, fileUrl, fileName, Pending)
  }

  /** A number typed in the percentage field is kept, unless it is 0. */
  lemma PctKeepsNumber(ws: string, n: int, tail: string)
    requires forall i :: 0 <= i < |ws| ==> IsWhitespace(ws[i])
    requires tail == [] || (!IsDigit(tail[0], 10) && tail[0] != 'x' && tail[0] != 'X')
    ensures PctOrDefault(ws + FormatInt(n) + tail) == if n == 0 then 20 else n
  {
    ParseIntReadsDecimal(ws, n, tail);
  }

  /** Field values without a digit: the amount stays `NaN`, while the percentage falls back
      to 20. */
  lemma NoDigitsAmountIsNaN(email: string, form: BillForm, fileUrl: Option<string>, fileName: Option<string>)
    requires forall i :: 0 <= i < |form.amount| ==> !IsDigit(form.amount[i], 10)
    requires forall i :: 0 <= i < |form.pct| ==> !IsDigit(form.pct[i], 10)
    ensures BuildBill(email, form, fileUrl, fileName).amount == None
    ensures BuildBill(email, form, fileUrl, fileName).pct == 20
  {
    ParseIntWithoutDigits(form.amount);
    ParseIntWithoutDigits(form.pct);
  }

  // ---------------------------------------------------------------------------------------
  // The controller

  /** Where `onNavigate` is asked to go; only the Bills page occurs here. */
  datatype Route = BillsPage

  /** A call made on `store.bills()`: `create` carries the owner's e-mail with the file
      (the file itself is not modelled); `update` carries the bill and the selector. */
  datatype StoreCall =
    | Create(email: string)
    | Update(data: Bill, selector: Option<string>)

  /** What a successful `create` returns. */
  datatype Upload = Upload(fileUrl: string, key: string)

  /** How a store promise settles. */
  datatype Settled<T> = Fulfilled(value: T) | Rejected(reason: string)

  /** The file input element; `handleChangeFile` reads and may clear its value. */
  class FileInput {
    var value: string

    constructor (value: string)
      ensures this.value == value
    {
      this.value := value;
    }
  }

  /** The `NewBill` container. `hasStore` says whether a store was passed to the constructor.
      The ghost fields record what the outside world sees: the store calls in order, the
      navigations in order, the file names captured by `create` continuations that have not
      run yet, and the number of `update` continuations that have not run yet. */
  class NewBill {
    const hasStore: bool
    const fileInput: FileInput
    var fileUrl: Option<string>
    var fileName: Option<string>
    var billId: Option<string>
    ghost var storeCalls: seq<StoreCall>
    ghost var navigations: seq<Route>
    ghost var pendingUploads: multiset<string>
    ghost var pendingUpdates: nat

    /** The staged fields are written together, the staged name (like every name a pending
        upload will write) is a bare file name without `\`, and without a store nothing is
        ever sent to one. */
    ghost predicate Valid()
      reads this
    {
      fileUrl.Some? == fileName.Some? && fileName.Some? == billId.Some? &&
      (fileName.Some? ==> '\\' !in fileName.value) &&
      (forall name :: name in pendingUploads ==> '\\' !in name) &&
      (!hasStore ==> storeCalls == [] && pendingUploads == multiset{} && pendingUpdates == 0)
    }

    /** Nothing is staged yet. */
    constructor (fileInput: FileInput, hasStore: bool)
      ensures Valid()
      ensures this.fileInput == fileInput && this.hasStore == hasStore
      ensures fileUrl == None && fileName == None && billId == None
      ensures storeCalls == [] && navigations == []
      ensures pendingUploads == multiset{} && pendingUpdates == 0
    {
      this.fileInput := fileInput;
      this.hasStore := hasStore;
      fileUrl, fileName, billId := None, None, None;
      storeCalls, navigations := [], [];
      pendingUploads, pendingUpdates := multiset{}, 0;
    }

    /** `handleChangeFile`: takes the file name from the input's value, clears the input when
        the extension is not allowed, and then uploads the file anyway. Without a store the
        handler stops with an error at the upload, after the check. Returns the name the
        upload's continuation captured and whether the upload was issued. */
    method HandleChangeFile(email: string) returns (name: string, uploaded: bool)
      requires Valid()
      modifies this`storeCalls, this`pendingUploads, fileInput
      ensures Valid()
      ensures name == FileNameOf(old(fileInput.value))
      ensures fileInput.value == if IsFileExtensionAllowed(name) then old(fileInput.value) else ""
      ensures uploaded == hasStore
      ensures storeCalls == old(storeCalls) + if hasStore then [Create(email)] else []
      ensures pendingUploads == old(pendingUploads) + if hasStore then multiset{name} else multiset{}
    {
      name := FileNameOf(fileInput.value);
      if !IsFileExtensionAllowed(name) {
        fileInput.value := "";
      }
      uploaded := hasStore;
      if hasStore {
        storeCalls := storeCalls + [Create(email)];
        pendingUploads := pendingUploads + multiset{name};
      }
    }

    /** The continuation of the `create` issued for the file named `name`: on success it
        stages the returned key and URL with that name; on failure it only logs. */
    method OnUploadSettled(name: string, outcome: Settled<Upload>)
      requires Valid() && name in pendingUploads
      modifies this`fileUrl, this`fileName, this`billId, this`pendingUploads
      ensures Valid()
      ensures pendingUploads == old(pendingUploads) - multiset{name}
      ensures outcome.Fulfilled? ==>
                billId == Some(outcome.value.key) && fileUrl == Some(outcome.value.fileUrl) &&
                fileName == Some(name)
      ensures outcome.Rejected? ==>
                billId == old(billId) && fileUrl == old(fileUrl) && fileName == old(fileName)
    {
      if outcome.Fulfilled? {
        billId := Some(outcome.value.key);
        fileUrl := Some(outcome.value.fileUrl);
        fileName := Some(name);
      }
      pendingUploads := pendingUploads - multiset{name};
    }

    /** `updateBill`: with a store, one `update` of `bill` selected by the staged bill id;
        without one, nothing. */
    method UpdateBill(bill: Bill)
      requires Valid()
      modifies this`storeCalls, this`pendingUpdates
      ensures Valid()
      ensures storeCalls == old(storeCalls) + if hasStore then [Update(bill, billId)] else []
      ensures pendingUpdates == old(pendingUpdates) + if hasStore then 1 else 0
    {
      if hasStore {
        storeCalls := storeCalls + [Update(bill, billId)];
        pendingUpdates := pendingUpdates + 1;
      }
    }

    /** The continuation of an `update`: on success it navigates to the Bills page once more;
        on failure it only logs. */
    method OnUpdateSettled(outcome: Settled<Bill>)
      requires Valid() && pendingUpdates > 0
      modifies this`navigations, this`pendingUpdates
      ensures Valid()
      ensures pendingUpdates == old(pendingUpdates) - 1
      ensures navigations == old(navigations) + if outcome.Fulfilled? then [BillsPage] else []
    {
      if outcome.Fulfilled? {
        navigations := navigations + [BillsPage];
      }
      pendingUpdates := pendingUpdates - 1;
    }

    /** `handleSubmit`: builds the pending bill from the form and the staged attachment,
        persists it through `updateBill` and navigates to the Bills page straight away,
        whatever the store does. The staged fields are left as they are. Returns the bill. */
    method HandleSubmit(email: string, form: BillForm) returns (bill: Bill)
      requires Valid()
      modifies this`storeCalls, this`pendingUpdates, this`navigations
      ensures Valid()
      ensures bill == BuildBill(email, form, fileUrl, fileName)
      ensures storeCalls == old(storeCalls) + if hasStore then [Update(bill, billId)] else []
      ensures pendingUpdates == old(pendingUpdates) + if hasStore then 1 else 0
      ensures navigations == old(navigations) + [BillsPage]
    {
      bill := BuildBill(email, form, fileUrl, fileName);
      UpdateBill(bill);
      navigations := navigations + [BillsPage];
    }
  }

  // ---------------------------------------------------------------------------------------
  // Scenarios

  /** Selecting `test.pdf` with a store: the input is cleared, yet the upload goes out, and
      when it succeeds the rejected file is staged and submitted with the bill. */
  method DisallowedFileScenario(form: BillForm)
    returns (inputAfter: string, stagedName: Option<string>, submitted: Bill)
    ensures inputAfter == ""
    ensures stagedName == Some("test.pdf") && !IsFileExtensionAllowed("test.pdf")
    ensures submitted.fileName == Some("test.pdf") && submitted.fileUrl == Some("https://localhost/test.pdf")
  {
    var input := new FileInput("C:\\fakepath\\test.pdf");
    var controller := new NewBill(input, true);
    LastSegmentUnique("C:\\fakepath\\test.pdf", '\\', "test.pdf");
    RejectsOtherExtension();
    var name, uploaded := controller.HandleChangeFile("a@a");
    inputAfter := input.value;
    controller.OnUploadSettled(name, Fulfilled(Upload("https://localhost/test.pdf", "1234")));
    stagedName := controller.fileName;
    submitted := controller.HandleSubmit("a@a", form);
  }

  /** Selecting `image.png` keeps the input; when its upload fails nothing is staged, so the
      bill goes out without an attachment and the update has no selector. */
  method FailedUploadScenario(form: BillForm)
    returns (inputAfter: string, submitted: Bill, selector: Option<string>)
    ensures inputAfter == "C:\\fakepath\\image.png"
    ensures submitted.fileUrl == None && submitted.fileName == None && submitted.status == Pending
    ensures selector == None
  {
    var input := new FileInput("C:\\fakepath\\image.png");
    var controller := new NewBill(input, true);
    LastSegmentUnique("C:\\fakepath\\image.png", '\\', "image.png");
    AcceptedExamples();
    var name, uploaded := controller.HandleChangeFile("a@a");
    inputAfter := input.value;
    controller.OnUploadSettled(name, Rejected("Erreur 404"));
    submitted := controller.HandleSubmit("a@a", form);
    selector := controller.billId;
  }

  /** Submitting without a store: no store call, one navigation to the Bills page. */
  method SubmitWithoutStoreScenario(form: BillForm) returns (controller: NewBill)
    ensures controller.storeCalls == [] && controller.navigations == [BillsPage]
  {
    var input := new FileInput("");
    controller := new NewBill(input, false);
    var bill := controller.HandleSubmit("a@a", form);
  }

  /** Submitting with a store: one update, then one navigation at once and a second one when
      the update succeeds. */
  method SubmitWithStoreScenario(form: BillForm) returns (controller: NewBill)
    ensures |controller.storeCalls| == 1 && controller.storeCalls[0].Update?
    ensures controller.storeCalls[0].selector == None
    ensures controller.navigations == [BillsPage, BillsPage]
  {
    var input := new FileInput("");
    controller := new NewBill(input, true);
    var bill := controller.HandleSubmit("a@a", form);
    controller.OnUpdateSettled(Fulfilled(bill));
  }
}
