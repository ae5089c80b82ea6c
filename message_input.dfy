/** The composer of `src/components/chat/MessageInput.tsx`: the text field,
    the upload flag and the hidden file input, with the submit and
    file-selection handlers. The toasts it raises are not modelled. */
module MessageInput {
  import opened Wrappers
  import opened Text
  import opened ChatTypes
  import opened ChatsService
  import opened ChatsStore

  /** Files larger than 10 MiB are refused before anything is sent. */
  const MaxFileSize := 10 * 1024 * 1024

  const ImageText := "Sent an image: "
  const FileText := "Sent a file: "

  /** The text sent with a file: an image when its MIME type contains "image"
      anywhere, a file otherwise, followed by the file name. */
  function FileMessageText(file: FileInfo): (t: string)
    ensures |file.name| <= |t| && t[|t| - |file.name|..] == file.name
  {
    (if Contains(file.mimeType, "image") then ImageText else FileText) + file.name
  }

  /** The announcement and the stored attachment kind agree: the text speaks of
      an image exactly when the upload is classified as an image. */
  lemma FileTextMatchesKind(file: FileInfo)
    ensures StartsWith(FileMessageText(file), ImageText) <==> ClassifyMime(file.mimeType) == Image
    ensures StartsWith(FileMessageText(file), FileText) <==> ClassifyMime(file.mimeType) != Image
    ensures FileMessageText(file) == (if ClassifyMime(file.mimeType) == Image then ImageText else FileText) + file.name
  {
    var t := FileMessageText(file);
    if ClassifyMime(file.mimeType) == Image {
      assert t[..|ImageText|] == ImageText;
      assert t[6] != FileText[6];
    } else {
      assert t[..|FileText|] == FileText;
      assert t[6] != ImageText[6];
    }
  }

  class Composer {
    /** The text field. */
    var message: string
    /** Set while a picked file is being handled. */
    var isUploading: bool
    /** The value of the hidden file input. */
    var fileInputValue: string

    constructor ()
      ensures message == [] && !isUploading && fileInputValue == []
    {
      message, isUploading, fileInputValue := [], false, [];
    }

    /** Typing replaces the text field. */
    method Edit(text: string)
      modifies this`message
      ensures message == text
    {
      message := text;
    }

    /** The send button is disabled while the message is blank (only
        whitespace) or a file is being handled. */
    function SendDisabled(): (d: bool)
      reads this
      ensures d <==> isUploading || forall i :: 0 <= i < |message| ==> IsWhitespace(message[i])
    {
      BlankIffAllWhitespace(message);
      IsBlank(message) || isUploading
    }

    /** The composer is rendered only while a chat is open. */
    function Visible(store: Store): (v: bool)
      reads store
      ensures v <==> store.currentChat.Some?
    {
      store.currentChat.Some?
    }

    /** `handleSubmit`: a blank message is ignored; otherwise the text as typed
        (not trimmed) goes to `sendMessage` and the field is cleared, whatever
        the outcome. */
    method HandleSubmit(store: Store, env: SendEnv) returns (report: Option<SendReport>)
      modifies this`message
      ensures report.None? <==> IsBlank(old(message))
      ensures report.None? ==> message == old(message)
      ensures report.Some? ==> message == []
      ensures report.Some? ==>
        (report.value.Refused? <==> store.currentChat.None? || store.user.None? || !store.initialized)
      ensures report.Some? && report.value.Attempted? ==> report.value.writes != [] && report.value.writes[0].InsertMessage?
      ensures report.Some? && report.value.Attempted? ==>
        && (report.value.result.Success? <==> !env.insertFails)
        && report.value.writes ==
             [InsertMessage(SentRow(store.currentChat.value.id, store.user.value.id, old(message), None, env))]
             + (if env.insertFails then [] else [TouchChat(store.currentChat.value.id, env.updateClock)])
      ensures report.Some? && report.value.Attempted? && report.value.result.Success? ==>
        report.value.result.value.content == old(message)
    {
      if IsBlank(message) {
        return None;
      }
      var r := store.SendMessage(message, None, env);
      message := [];
      report := Some(r);
    }

    /** `handleFileSelect`: with no file nothing happens. Otherwise the upload
        flag is raised; a file over 10 MiB is refused; any other is sent with
        `FileMessageText`; in every case the flag is lowered and the file input
        cleared at the end. */
    method HandleFileSelect(file: Option<FileInfo>, store: Store, env: SendEnv)
      returns (report: Option<SendReport>)
      modifies this`isUploading, this`fileInputValue
      ensures file.None? ==>
        report.None? && isUploading == old(isUploading) && fileInputValue == old(fileInputValue)
      ensures file.Some? ==> !isUploading && fileInputValue == []
      ensures report.Some? <==> file.Some? && file.value.size <= MaxFileSize
      ensures report.Some? ==>
        (report.value.Refused? <==> store.currentChat.None? || store.user.None? || !store.initialized)
      ensures report.Some? && report.value.Attempted? ==>
        report.value.writes != [] && report.value.writes[0] == Upload(AttachmentPath(store.user.value.id, env.pathClock, file.value))
      ensures report.Some? && report.value.Attempted? && report.value.result.Success? ==>
        && report.value.result.value.content == FileMessageText(file.value)
        && report.value.result.value.attachmentType == Some(ClassifyMime(file.value.mimeType))
      ensures report.Some? && report.value.Attempted? ==>
        (report.value.result.Success? <==> !env.uploadFails && !env.insertFails)
      ensures report.Some? && report.value.Attempted? && env.uploadFails ==>
        report.value.writes == [Upload(AttachmentPath(store.user.value.id, env.pathClock, file.value))]
      ensures report.Some? && report.value.Attempted? && !env.uploadFails ==>
        report.value.writes ==
          [Upload(AttachmentPath(store.user.value.id, env.pathClock, file.value)),
           InsertMessage(SentRow(store.currentChat.value.id, store.user.value.id, FileMessageText(file.value), file, env))]
          + (if env.insertFails then [] else [TouchChat(store.currentChat.value.id, env.updateClock)])
    {
      if file.None? {
        return None;
      }
      isUploading := true;
      if file.value.size > MaxFileSize {
        report := None;
      } else {
        var r := store.SendMessage(FileMessageText(file.value), file, env);
        report := Some(r);
      }
      isUploading := false;
      fileInputValue := [];
    }
  }
}
