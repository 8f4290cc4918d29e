/**
  The two request rules of main.py's HTTP API that are pure decisions: the
  length checks of `register` and the file-type classification of
  `upload_file`.
*/
module ChatApi {
  import opened Wrappers
  import opened Tables
  import opened Storage

  const MinUsernameLength := 2
  const MaxUsernameLength := 20
  const MinPasswordLength := 4

  /** What `register` answers: success, or the reason of its HTTP 400. */
  datatype RegisterOutcome = Registered | BadUsername | BadPassword | UsernameTaken

  /** The length checks, in the order `register` makes them; `None` when both pass. */
  function CheckCredentials(username: string, password: string): (r: Option<RegisterOutcome>)
    ensures r == None <==>
      MinUsernameLength <= |username| <= MaxUsernameLength && MinPasswordLength <= |password|
    ensures r == Some(BadUsername) <==> !(MinUsernameLength <= |username| <= MaxUsernameLength)
    ensures r == Some(BadPassword) <==>
      MinUsernameLength <= |username| <= MaxUsernameLength && |password| < MinPasswordLength
    ensures r != Some(Registered) && r != Some(UsernameTaken)
  {
    if |username| < MinUsernameLength || |username| > MaxUsernameLength then Some(BadUsername)
    else if |password| < MinPasswordLength then Some(BadPassword)
    else None
  }

  /**
    `register`: the length checks, then `create_user`.  An account is
    created exactly when both checks pass and the name is free; otherwise
    nothing changes.
  */
  method Register(db: Database, username: string, password: string, now: real) returns (outcome: RegisterOutcome)
    requires db.Valid()
    modifies db
    ensures db.Valid()
    ensures outcome == Registered <==> CheckCredentials(username, password) == None && !HasUser(old(db.users), username)
    ensures CheckCredentials(username, password).Some? ==> outcome == CheckCredentials(username, password).value
    ensures outcome == UsernameTaken <==>
      CheckCredentials(username, password) == None && HasUser(old(db.users), username)
    ensures db.users == if outcome == Registered
      then old(db.users) + [UserRow(username, Sha256Hex(password), now, DefaultAvatarColor, DefaultStatus, "")]
      else old(db.users)
    ensures db.messages == old(db.messages) && db.reactions == old(db.reactions)
    ensures db.receipts == old(db.receipts) && db.nextMessageId == old(db.nextMessageId)
  {
    var rejected := CheckCredentials(username, password);
    if rejected.Some? {
      return rejected.value;
    }
    var created := db.CreateUser(username, password, now);
    outcome := if created then Registered else UsernameTaken;
  }

  /** The `file_type` of an upload. */
  datatype FileKind = Image | Pdf | Document | Spreadsheet | Presentation | Archive | Video | Audio | OtherFile

  /** The string the API reports for each kind. */
  function KindName(k: FileKind): string
  {
    match k
    case Image => "image"
    case Pdf => "pdf"
    case Document => "document"
    case Spreadsheet => "spreadsheet"
    case Presentation => "presentation"
    case Archive => "archive"
    case Video => "video"
    case Audio => "audio"
    case OtherFile => "file"
  }

  /** The extensions named for each kind (an image is recognised by content type instead). */
  function Extensions(k: FileKind): set<string>
  {
    match k
    case Image => {}
    case Pdf => {".pdf"}
    case Document => {".doc", ".docx"}
    case Spreadsheet => {".xls", ".xlsx"}
    case Presentation => {".ppt", ".pptx"}
    case Archive => {".zip", ".rar", ".7z"}
    case Video => {".mp4", ".avi", ".mov"}
    case Audio => {".mp3", ".wav", ".ogg"}
    case OtherFile => {}
  }

  predicate IsImageType(contentType: Option<string>)
  {
    contentType.Some? && |contentType.value| >= 6 && contentType.value[..6] == "image/"
  }

  /**
    The `if/elif` chain of `upload_file`: an `image/...` content type wins;
    otherwise the lower-cased extension decides, and anything unlisted is a
    plain file.
  */
  function ClassifyUpload(contentType: Option<string>, extension: string): FileKind
  {
    if IsImageType(contentType) then Image
    else if extension in [".pdf"] then Pdf
    else if extension in [".doc", ".docx"] then Document
    else if extension in [".xls", ".xlsx"] then Spreadsheet
    else if extension in [".ppt", ".pptx"] then Presentation
    else if extension in [".zip", ".rar", ".7z"] then Archive
    else if extension in [".mp4", ".avi", ".mov"] then Video
    else if extension in [".mp3", ".wav", ".ogg"] then Audio
    else OtherFile
  }

  /**
    The classification agrees with the extension table: an `image/...`
    content type makes the upload an image whatever its extension; without
    one, an upload is of kind `k` exactly when its extension is one of `k`'s,
    and a plain file exactly when no kind lists it.
  */
  lemma ClassifyMatchesTable(contentType: Option<string>, extension: string, k: FileKind)
    ensures IsImageType(contentType) ==> ClassifyUpload(contentType, extension) == Image
    ensures !IsImageType(contentType) && k != OtherFile ==>
      (ClassifyUpload(contentType, extension) == k <==> extension in Extensions(k))
    ensures !IsImageType(contentType) ==>
      (ClassifyUpload(contentType, extension) == OtherFile <==> forall j :: extension !in Extensions(j))
  {
    if IsImageType(contentType) {
    } else if forall j :: extension !in Extensions(j) {
      assert extension !in Extensions(Pdf) && extension !in Extensions(Document);
      assert extension !in Extensions(Spreadsheet) && extension !in Extensions(Presentation);
      assert extension !in Extensions(Archive) && extension !in Extensions(Video);
      assert extension !in Extensions(Audio);
    } else {
      var j :| extension in Extensions(j);
      assert ClassifyUpload(contentType, extension) == j;
    }
  }
}
