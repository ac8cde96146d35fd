/** The image picker's upload state: the preview shown, the busy flag, the
    file input's value, and the calls it makes to its `onChange` and
    `onRemove` callbacks. File validation, preview-URL creation and the
    upload reply are inputs; the upload call itself is still a stub in the
    component, whose reply is `StubReply`. */
module ImageUpload {
  import opened Wrappers

  /** A chosen file, known by name. */
  datatype File = File(name: string)

  /** The upload reply: its status and `data?.url`. */
  datatype UploadReply = UploadReply(status: int, url: Option<string>)

  /** The reply the component awaits today: status 200 and an empty url. */
  const StubReply := UploadReply(200, Some(""))

  /** `response.status === 200 && response.data?.url`. */
  predicate Succeeded(reply: UploadReply) {
    reply.status == 200 && reply.url.Some? && reply.url.value != ""
  }

  /** `files?.[0]` / `files && files[0]`: the first file, if any. */
  function FirstFile(files: Option<seq<File>>): (r: Option<File>)
    ensures r.Some? <==> files.Some? && |files.value| > 0
    ensures r.Some? ==> r.value == files.value[0]
  {
    if files.Some? && |files.value| > 0 then Some(files.value[0]) else None
  }

  class ImageUploadState {
    const disabled: bool
    const hasOnRemove: bool
    var isUploading: bool
    var previewUrl: string
    /** The hidden file input's value; `None` while the input is not
        mounted. */
    var fileInput: Option<string>

    constructor (value: Option<string>, disabled: bool, hasOnRemove: bool)
      ensures this.disabled == disabled && this.hasOnRemove == hasOnRemove
      ensures previewUrl == value.GetOr("") && !isUploading && fileInput == Some("")
    {
      this.disabled := disabled;
      this.hasOnRemove := hasOnRemove;
      isUploading := false;
      previewUrl := value.GetOr("");
      fileInput := Some("");
    }

    /** The synchronous part of `handleFileUpload`: a file that fails
        validation changes nothing; a valid one marks the upload busy and
        shows the local preview. */
    method UploadStart(valid: bool, preview: string) returns (started: bool)
      modifies this
      ensures started == valid
      ensures !valid ==> isUploading == old(isUploading) && previewUrl == old(previewUrl)
      ensures valid ==> isUploading && previewUrl == preview
      ensures fileInput == old(fileInput)
    {
      if !valid {
        return false;
      }
      isUploading := true;
      previewUrl := preview;
      started := true;
    }

    /** The rest of `handleFileUpload`, once the reply is in: on success the
        local preview is revoked, the uploaded url shown and passed to
        `onChange`; on any failure the preview is cleared; either way the
        busy flag drops. */
    method UploadSettle(preview: string, reply: UploadReply)
      returns (changed: Option<string>, revoked: Option<string>)
      modifies this
      ensures !isUploading
      ensures Succeeded(reply) ==>
                previewUrl == reply.url.value && changed == Some(reply.url.value) && revoked == Some(preview)
      ensures !Succeeded(reply) ==> previewUrl == "" && changed == None && revoked == None
      ensures fileInput == old(fileInput)
    {
      changed, revoked := None, None;
      if reply.status == 200 && reply.url.Some? && reply.url.value != "" {
        revoked := Some(preview);
        previewUrl := reply.url.value;
        changed := Some(reply.url.value);
      } else {
        previewUrl := "";
      }
      isUploading := false;
    }

    /** A whole upload of one file. */
    method FileUpload(valid: bool, preview: string, reply: UploadReply) returns (changed: Option<string>)
      modifies this
      ensures !valid ==> isUploading == old(isUploading) && previewUrl == old(previewUrl) && changed == None
      ensures valid ==> !isUploading
      ensures valid && Succeeded(reply) ==> previewUrl == reply.url.value && changed == reply.url
      ensures valid && !Succeeded(reply) ==> previewUrl == "" && changed == None
      ensures valid && reply == StubReply ==> previewUrl == "" && changed == None
      ensures fileInput == old(fileInput)
    {
      changed := None;
      var started := UploadStart(valid, preview);
      if started {
        var revoked;
        changed, revoked := UploadSettle(preview, reply);
      }
    }

    /** `handleFileSelect` and `handleDrop`: only the first file is
        uploaded, and nothing happens without one. */
    method Choose(files: Option<seq<File>>, validate: File -> bool, previewOf: File -> string,
                  reply: UploadReply)
      returns (uploaded: Option<File>, changed: Option<string>)
      modifies this
      ensures uploaded == FirstFile(files)
      ensures uploaded.None? ==> isUploading == old(isUploading) && previewUrl == old(previewUrl) && changed == None
      ensures uploaded.Some? && validate(uploaded.value) ==> !isUploading
      ensures uploaded.Some? && validate(uploaded.value) && Succeeded(reply) ==> changed == reply.url
      ensures fileInput == old(fileInput)
    {
      uploaded := FirstFile(files);
      changed := None;
      if uploaded.Some? {
        var file := uploaded.value;
        changed := FileUpload(validate(file), previewOf(file), reply);
      }
    }

    /** `handleRemove`: clear the preview, report `''` to `onChange`, call
        `onRemove` when supplied, and clear the file input if mounted. */
    method Remove() returns (changed: string, removeCalled: bool)
      modifies this
      ensures previewUrl == "" && changed == "" && removeCalled == hasOnRemove
      ensures fileInput == if old(fileInput).Some? then Some("") else None
      ensures isUploading == old(isUploading)
    {
      previewUrl := "";
      changed := "";
      removeCalled := hasOnRemove;
      if fileInput.Some? {
        fileInput := Some("");
      }
    }

    /** A click opens the file picker. */
    predicate ClickOpensPicker()
      reads this
    {
      !disabled && !isUploading && fileInput.Some?
    }

    /** A key press opens the file picker: Enter or Space, under the same
        gate as a click. */
    function KeyOpensPicker(key: string): (r: bool)
      reads this
      ensures r ==> !disabled && !isUploading
      ensures r <==> (key == "Enter" || key == " ") && ClickOpensPicker()
    {
      (key == "Enter" || key == " ") && !disabled && !isUploading && fileInput.Some?
    }
  }

  /** With the stubbed reply a valid upload ends with no preview and no
      `onChange` call, whatever was shown before. */
  method StubbedUpload(before: string, preview: string) returns (shown: string, changed: Option<string>, busy: bool)
    ensures shown == "" && changed == None && !busy
  {
    var u := new ImageUploadState(Some(before), false, false);
    changed := u.FileUpload(true, preview, StubReply);
    shown := u.previewUrl;
    busy := u.isUploading;
  }
}
