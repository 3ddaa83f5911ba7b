/**
  The administrator's conversation: its states, the replies the bot sends,
  and the button handler, which decides the next state from the pressed
  button alone.
*/
module Conversation {
  import opened Wrappers
  import opened OrderedDict

  /**
    `End` is `ConversationHandler.END`: no conversation is going on (the idle
    state). The other three are the conversation's steps.
  */
  datatype State = End | AddSloganText | AddSloganScore | RemoveSlogan

  /** The replies the bot sends, without their (Persian) wording or keyboards. */
  datatype Reply =
    | Silent                        // no reply is sent
    | NoAccess                      // "you have no access"
    | AskSloganText                 // "send the slogan text"
    | AskSloganToRemove             // "slogan text to delete"
    | NoSlogans                     // "no slogan registered"
    | SloganList(entries: Dict)     // one line per slogan and score, in table order
    | BackToPanel                   // "back to the panel"
    | AskScore                      // "send the slogan's score"
    | InvalidNumber                 // "invalid number"
    | Saved                         // "slogan saved"
    | Removed                       // "deleted"
    | NotFound                      // "not found"
    | Congratulations(awarded: int, total: int)

  /**
    What `button_handler` returns: the next state of the presser's
    conversation and the reply. `next == None` is the handler falling off its
    end for unknown button data: it returns nothing, and the conversation
    stays in the state it was in.
  */
  datatype ButtonResult = ButtonResult(next: Option<State>, reply: Reply)

  /**
    `button_handler` for a button with callback data `data` pressed by user
    `from`. Only the administrator gets anywhere; the four buttons of the
    admin menu lead to the add step, the remove step, or back to idle (the
    list being shown on the way); a button never leads to the score step,
    which only the slogan text message reaches.
  */
  function ButtonHandler(adminId: int, from: int, data: string, slogans: Dict): (r: ButtonResult)
    ensures from != adminId ==> r == ButtonResult(Some(End), NoAccess)
    ensures r.next != Some(AddSloganScore)
    ensures r.next == None <==>
              from == adminId && data != "add_slogan" && data != "remove_slogan" &&
              data != "list_slogan" && data != "back_main"
    ensures r.reply.SloganList? ==> r.reply.entries == slogans && slogans != []
    ensures from == adminId && data == "add_slogan" ==> r.next == Some(AddSloganText)
    ensures from == adminId && data == "remove_slogan" ==> r.next == Some(RemoveSlogan)
    ensures from == adminId && data == "back_main" ==> r.next == Some(End)
    ensures from == adminId && data == "list_slogan" ==>
              r == ButtonResult(Some(End), if slogans == [] then NoSlogans else SloganList(slogans))
  {
    if from != adminId then ButtonResult(Some(End), NoAccess)
    else if data == "add_slogan" then ButtonResult(Some(AddSloganText), AskSloganText)
    else if data == "remove_slogan" then ButtonResult(Some(RemoveSlogan), AskSloganToRemove)
    else if data == "list_slogan" then
      if slogans == [] then ButtonResult(Some(End), NoSlogans)
      else ButtonResult(Some(End), SloganList(slogans))
    else if data == "back_main" then ButtonResult(Some(End), BackToPanel)
    else ButtonResult(None, Silent)
  }
}
