/** The chat list sidebar (`ChatSidebar`): the create/rename dialog and the delete dialog, as
    state cells changed by the handlers. The chat-list mutations (`createChat`, `editChat`,
    `deleteChat`) are recorded as a log of the requests they receive; they are fired and not
    awaited. */
module ChatSidebar {
  import opened Wrappers
  import Text

  /** The fields of a listed chat that the sidebar uses. */
  datatype ChatItem = ChatItem(chatId: string, title: string)

  datatype Mutation =
    | CreateChat(title: string)
    | EditChat(chatId: string, newTitle: string)
    | DeleteChat(deleteId: string)

  /** What the dialog shows: the title and description keys and whether "save" is enabled. */
  datatype DialogView = DialogView(titleKey: string, descriptionKey: string, saveEnabled: bool)

  /** `disabled={!newTitle.trim()}` negated. */
  predicate SaveEnabled(newTitle: string) {
    Text.JsTrim(newTitle) != ""
  }

  /** The dialog's texts: editing when a chat is selected, creating otherwise. */
  function Dialog(currentChat: Option<ChatItem>, newTitle: string): (r: DialogView)
    ensures currentChat.Some? <==> r.titleKey == "edit_chat"
    ensures currentChat.None? <==> r.titleKey == "new_chat"
    ensures currentChat.Some? <==> r.descriptionKey == "enter_new_title"
    ensures r.saveEnabled <==> SaveEnabled(newTitle)
  {
    if currentChat.Some? then DialogView("edit_chat", "enter_new_title", SaveEnabled(newTitle))
    else DialogView("new_chat", "enter_chat_title", SaveEnabled(newTitle))
  }

  class Sidebar {
    var dialogOpen: bool
    var currentChat: Option<ChatItem>
    var newTitle: string
    var deleteDialogOpen: bool
    var chatToDelete: Option<ChatItem>
    /** Every mutation request sent, in order. */
    var mutations: seq<Mutation>

    /** The initial state: both dialogs closed, nothing selected, empty title. */
    constructor ()
      ensures !dialogOpen && currentChat.None? && newTitle == ""
      ensures !deleteDialogOpen && chatToDelete.None? && mutations == []
    {
      dialogOpen := false;
      currentChat := None;
      newTitle := "";
      deleteDialogOpen := false;
      chatToDelete := None;
      mutations := [];
    }

    /** `openCreateDialog`. */
    method OpenCreateDialog()
      modifies this
      ensures dialogOpen && currentChat.None? && newTitle == ""
      ensures deleteDialogOpen == old(deleteDialogOpen) && chatToDelete == old(chatToDelete)
      ensures mutations == old(mutations)
    {
      currentChat := None;
      newTitle := "";
      dialogOpen := true;
    }

    /** `openEditDialog(chat)`: the chat is selected and its title preloaded. */
    method OpenEditDialog(chat: ChatItem)
      modifies this
      ensures dialogOpen && currentChat == Some(chat) && newTitle == chat.title
      ensures deleteDialogOpen == old(deleteDialogOpen) && chatToDelete == old(chatToDelete)
      ensures mutations == old(mutations)
    {
      currentChat := Some(chat);
      newTitle := chat.title;
      dialogOpen := true;
    }

    /** The title input's `onChange`. */
    method SetTitle(text: string)
      modifies this
      ensures newTitle == text
      ensures dialogOpen == old(dialogOpen) && currentChat == old(currentChat)
      ensures deleteDialogOpen == old(deleteDialogOpen) && chatToDelete == old(chatToDelete)
      ensures mutations == old(mutations)
    {
      newTitle := text;
    }

    /** The dialog's `onOpenChange` and its "cancel" button: the selection is kept. */
    method SetDialogOpen(open: bool)
      modifies this
      ensures dialogOpen == open
      ensures currentChat == old(currentChat) && newTitle == old(newTitle)
      ensures deleteDialogOpen == old(deleteDialogOpen) && chatToDelete == old(chatToDelete)
      ensures mutations == old(mutations)
    {
      dialogOpen := open;
    }

    /** `handleDialogSubmit`: a blank title does nothing; otherwise exactly one request with
        the trimmed title (a rename of the selected chat, or a creation) and the dialog
        closes. */
    method HandleDialogSubmit()
      modifies this
      ensures Text.JsTrim(old(newTitle)) == "" ==>
                dialogOpen == old(dialogOpen) && mutations == old(mutations)
      ensures Text.JsTrim(old(newTitle)) != "" ==> !dialogOpen
      ensures Text.JsTrim(old(newTitle)) != "" && old(currentChat).Some? ==>
                mutations == old(mutations) + [EditChat(old(currentChat).value.chatId, Text.JsTrim(old(newTitle)))]
      ensures Text.JsTrim(old(newTitle)) != "" && old(currentChat).None? ==>
                mutations == old(mutations) + [CreateChat(Text.JsTrim(old(newTitle)))]
      ensures currentChat == old(currentChat) && newTitle == old(newTitle)
      ensures deleteDialogOpen == old(deleteDialogOpen) && chatToDelete == old(chatToDelete)
    {
      var title := Text.JsTrim(newTitle);
      if title == "" {
        return;
      }
      if currentChat.Some? {
        mutations := mutations + [EditChat(currentChat.value.chatId, title)];
      } else {
        mutations := mutations + [CreateChat(title)];
      }
      dialogOpen := false;
    }

    /** `openDeleteDialog(chat)`. */
    method OpenDeleteDialog(chat: ChatItem)
      modifies this
      ensures deleteDialogOpen && chatToDelete == Some(chat)
      ensures dialogOpen == old(dialogOpen) && currentChat == old(currentChat) && newTitle == old(newTitle)
      ensures mutations == old(mutations)
    {
      chatToDelete := Some(chat);
      deleteDialogOpen := true;
    }

    /** The delete dialog's `onOpenChange` and its "cancel" button. */
    method SetDeleteDialogOpen(open: bool)
      modifies this
      ensures deleteDialogOpen == open && chatToDelete == old(chatToDelete)
      ensures dialogOpen == old(dialogOpen) && currentChat == old(currentChat) && newTitle == old(newTitle)
      ensures mutations == old(mutations)
    {
      deleteDialogOpen := open;
    }

    /** `handleDeleteConfirm`: a delete request only when a chat is selected; the dialog
        closes either way. */
    method HandleDeleteConfirm()
      modifies this
      ensures !deleteDialogOpen && chatToDelete == old(chatToDelete)
      ensures old(chatToDelete).Some? ==> mutations == old(mutations) + [DeleteChat(old(chatToDelete).value.chatId)]
      ensures old(chatToDelete).None? ==> mutations == old(mutations)
      ensures dialogOpen == old(dialogOpen) && currentChat == old(currentChat) && newTitle == old(newTitle)
    {
      if chatToDelete.Some? {
        mutations := mutations + [DeleteChat(chatToDelete.value.chatId)];
      }
      deleteDialogOpen := false;
    }
  }

  /** The sidebar renders nothing when logged out; otherwise the dialog as its state says. */
  function Render(isLoggedIn: bool, currentChat: Option<ChatItem>, newTitle: string): (r: Option<DialogView>)
    ensures r.None? <==> !isLoggedIn
    ensures r.Some? ==> r.value == Dialog(currentChat, newTitle)
  {
    if !isLoggedIn then None else Some(Dialog(currentChat, newTitle))
  }

  /** "Save" is enabled exactly when submitting would send a request. */
  lemma SaveEnabledIffSubmitSends(newTitle: string)
    ensures SaveEnabled(newTitle) <==> exists k :: 0 <= k < |newTitle| && newTitle[k] !in Text.JsWhitespace
  {
    Text.TrimEmptyIff(newTitle, Text.JsWhitespace);
  }

  /** Renaming: opening the edit dialog on a chat and saving a new title sends one rename of
      that chat with the trimmed title and closes the dialog; a blank title sends nothing and
      keeps the dialog open. */
  method RenameFlow(s: Sidebar, chat: ChatItem, title: string)
    modifies s
    ensures Text.JsTrim(title) != "" ==>
              s.mutations == old(s.mutations) + [EditChat(chat.chatId, Text.JsTrim(title))] && !s.dialogOpen
    ensures Text.JsTrim(title) == "" ==> s.mutations == old(s.mutations) && s.dialogOpen
  {
    s.OpenEditDialog(chat);
    s.SetTitle(title);
    s.HandleDialogSubmit();
  }

  /** Creating after a cancelled rename: the earlier selection is cleared, so the request is a
      creation, not a rename. */
  method CreateAfterCancelledEdit(s: Sidebar, chat: ChatItem, title: string)
    requires Text.JsTrim(title) != ""
    modifies s
    ensures s.mutations == old(s.mutations) + [CreateChat(Text.JsTrim(title))]
  {
    s.OpenEditDialog(chat);
    s.SetDialogOpen(false);
    s.OpenCreateDialog();
    s.SetTitle(title);
    s.HandleDialogSubmit();
  }
}
