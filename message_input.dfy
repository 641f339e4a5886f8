/**
 * The message composer: the typed text, the attached file and the upload
 * flag, the file-size check, the submit handler and the send button.
 * The upload request and `validateMessage` are parameters.
 */
module MessageInputModel {
  import opened Wrappers
  import opened Strings

  /** Files above 5 MiB are refused. */
  const MaxFileSize: nat := 5 * 1024 * 1024

  datatype SelectedFile = SelectedFile(name: string, size: nat)

  /** What the upload endpoint answers with. */
  datatype Upload = Upload(url: string, originalName: string, formattedSize: string, mimetype: string)

  /** The `send_message` payload. */
  datatype Payload = Payload(content: string, roomId: Option<string>, messageType: string,
                             fileUrl: Option<string>, fileName: Option<string>, fileSize: Option<string>)

  /** How a submit ended. */
  datatype SubmitResult = Ignored | Invalid(message: string) | Failed | Sent(payload: Payload)

  predicate Blank(text: string)
  {
    Trim(text) == ""
  }

  /** `messageType`: image for an uploaded `image/` type, file for any other upload, text without one. */
  function MessageType(upload: Option<Upload>): (t: string)
    ensures t == "image" <==> upload.Some? && StartsWith(upload.value.mimetype, "image/")
    ensures t == "file" <==> upload.Some? && !StartsWith(upload.value.mimetype, "image/")
    ensures t == "text" <==> upload.None?
  {
    match upload
    case None => "text"
    case Some(u) => if StartsWith(u.mimetype, "image/") then "image" else "file"
  }

  /** The payload for the text and the upload, addressed to the open room. */
  function BuildPayload(text: string, currentRoom: Option<string>, upload: Option<Upload>): (p: Payload)
    ensures p.content == Trim(text)
    ensures p.roomId == currentRoom && p.messageType == MessageType(upload)
    ensures p.fileUrl.Some? <==> upload.Some?
    ensures upload.Some? ==> p.fileUrl == Some(upload.value.url) && p.fileName == Some(upload.value.originalName)
                             && p.fileSize == Some(upload.value.formattedSize)
  {
    Payload(Trim(text), currentRoom, MessageType(upload),
            if upload.Some? then Some(upload.value.url) else None,
            if upload.Some? then Some(upload.value.originalName) else None,
            if upload.Some? then Some(upload.value.formattedSize) else None)
  }

  /** The content that goes out neither starts nor ends with whitespace, and trimming it again changes nothing. */
  lemma PayloadContentTrimmed(text: string, currentRoom: Option<string>, upload: Option<Upload>)
    ensures var c := BuildPayload(text, currentRoom, upload).content;
      && Trim(c) == c
      && (|c| > 0 ==> !IsWhitespace(c[0]) && !IsWhitespace(c[|c| - 1]))
  {
    TrimIdempotent(text);
  }

  /** `validateMessage` reported an error: it returned a non-empty message. */
  predicate Rejects(validate: string -> Option<string>, text: string)
  {
    validate(text).Some? && validate(text).value != ""
  }

  /** The two early returns of the submit handler both let the text and file through. */
  predicate PassesGuards(text: string, file: Option<SelectedFile>, validate: string -> Option<string>)
  {
    !(Blank(text) && file.None?) && !(!Blank(text) && Rejects(validate, text))
  }

  /** The send button: disabled with blank text and no file, or while uploading. */
  predicate SendDisabled(text: string, file: Option<SelectedFile>, uploading: bool)
  {
    (Blank(text) && file.None?) || uploading
  }

  /** A click on an enabled button always gets past the blank guard; Enter is not held back by `uploading`. */
  lemma EnabledSendPassesBlankGuard(text: string, file: Option<SelectedFile>, uploading: bool)
    requires !SendDisabled(text, file, uploading)
    ensures !Blank(text) || file.Some?
    ensures !uploading
  {
  }

  class Composer {
    var text: string
    var file: Option<SelectedFile>
    var uploading: bool

    constructor ()
      ensures text == "" && file == None && !uploading
    {
      text, file, uploading := "", None, false;
    }

    method HandleInputChange(value: string)
      modifies this
      ensures text == value && file == old(file) && uploading == old(uploading)
    {
      text := value;
    }

    /** `handleFileSelect`: a chosen file over the limit is refused and the attached file stays. */
    method HandleFileSelect(selected: Option<SelectedFile>) returns (rejected: bool)
      modifies this
      ensures rejected <==> selected.Some? && selected.value.size > MaxFileSize
      ensures file == if selected.Some? && !rejected then selected else old(file)
      ensures text == old(text) && uploading == old(uploading)
    {
      rejected := false;
      if selected.Some? {
        if selected.value.size > MaxFileSize {
          return true;
        }
        file := selected;
      }
    }

    method RemoveFile()
      modifies this
      ensures file == None && text == old(text) && uploading == old(uploading)
    {
      file := None;
    }

    /**
     * `handleSubmit` as one step; `upload` is the answer of the upload
     * request (`None`: it failed) and is used only when a file is attached.
     */
    method HandleSubmit(currentRoom: Option<string>, validate: string -> Option<string>, upload: Option<Upload>)
      returns (r: SubmitResult)
      modifies this
      ensures Blank(old(text)) && old(file).None? ==> r == Ignored
      ensures r.Invalid? <==> !Blank(old(text)) && Rejects(validate, old(text))
      ensures r.Invalid? ==> r.message == validate(old(text)).value
      ensures r.Ignored? || r.Invalid? ==> text == old(text) && file == old(file) && uploading == old(uploading)
      ensures r.Failed? <==> PassesGuards(old(text), old(file), validate) && old(file).Some? && upload.None?
      ensures r.Failed? ==> text == old(text) && file == old(file) && !uploading
      ensures r.Sent? <==> PassesGuards(old(text), old(file), validate) && (old(file).None? || upload.Some?)
      ensures r.Sent? ==>
        && r.payload == BuildPayload(old(text), currentRoom, if old(file).Some? then upload else None)
        && text == "" && file == None && !uploading
        && (r.payload.content != "" || r.payload.messageType != "text")
    {
      if Blank(text) && file.None? {
        return Ignored;
      }
      if !Blank(text) && Rejects(validate, text) {
        return Invalid(validate(text).value);
      }
      var fileData: Option<Upload> := None;
      if file.Some? {
        uploading := true;
        if upload.None? {
          uploading := false;
          return Failed;
        }
        fileData := upload;
      }
      var p := BuildPayload(text, currentRoom, fileData);
      text, file, uploading := "", None, false;
      r := Sent(p);
    }
  }
}
