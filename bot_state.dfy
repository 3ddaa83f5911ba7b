/**
  The bot's mutable state and its handlers. The module-level document `data`
  (the slogan table and the score table) and the administrator's
  conversation (its state and the slogan staged in `context.user_data`) are
  the fields of one object; each handler is a method that updates them in
  place, and saving the document after a change is not modelled.
*/
module BotState {
  import opened Wrappers
  import opened OrderedDict
  import opened IntText
  import opened Matching
  import opened Leaderboard
  import opened Conversation

  class SloganBot {
    /** The administrator's user id, read once from the environment. */
    const adminId: int
    /** `data["slogans"]`: slogan text -> score, in insertion order. */
    var slogans: Dict
    /** `data["users"]`: `str(user id)` -> total score, in insertion order. */
    var users: Dict
    /** The state of the administrator's conversation. */
    var state: State
    /** `context.user_data["slogan"]`: the slogan text waiting for its score. */
    var pending: Option<string>

    /**
      Both tables have distinct keys (they are dicts), and the score step is
      only ever reached with a staged slogan, so the lookup of the staged
      slogan in `add_slogan_score` never fails.
    */
    ghost predicate Valid()
      reads this
    {
      && Distinct(slogans)
      && Distinct(users)
      && (state == State.AddSloganScore ==> pending.Some?)
    }

    /** The bot as started from a loaded document, with no conversation going on. */
    constructor (adminId: int, slogans: Dict, users: Dict)
      requires Distinct(slogans) && Distinct(users)
      ensures Valid()
      ensures this.adminId == adminId && this.slogans == slogans && this.users == users
      ensures state == End && pending == None
    {
      this.adminId := adminId;
      this.slogans := slogans;
      this.users := users;
      state := End;
      pending := None;
    }

    /**
      A button press, handled by `button_handler` (the conversation's entry
      point and its fallback in every state). The tables are left alone. The
      administrator's conversation moves to the state the handler returns, or
      stays put when it returns nothing; a press by anybody else only ends
      that user's own conversation, so the administrator's is unaffected.
    */
    method PressButton(from: int, data: string) returns (reply: Reply)
      requires Valid()
      modifies this`state
      ensures Valid()
      ensures slogans == old(slogans) && users == old(users) && pending == old(pending)
      ensures reply == ButtonHandler(adminId, from, data, slogans).reply
      ensures from != adminId ==> state == old(state)
      ensures from == adminId ==> state == ButtonHandler(adminId, from, data, slogans).next.GetOr(old(state))
    {
      var r := ButtonHandler(adminId, from, data, slogans);
      reply := r.reply;
      if from == adminId && r.next.Some? {
        state := r.next.value;
      }
    }

    /** `add_slogan_text`: the message text is staged as the new slogan and its score is asked for. */
    method AddSloganText(text: string) returns (reply: Reply)
      requires Valid() && state == State.AddSloganText
      modifies this`state, this`pending
      ensures Valid()
      ensures slogans == old(slogans) && users == old(users)
      ensures pending == Some(text) && state == State.AddSloganScore && reply == AskScore
    {
      pending := Some(text);
      state := State.AddSloganScore;
      reply := AskScore;
    }

    /**
      `add_slogan_score`: a message that reads as an integer becomes the score
      of the staged slogan (overwriting it in place when the slogan exists,
      appended otherwise) and the conversation ends; any other message is
      refused and the conversation stays at the score step. The staged slogan
      is not cleared.
    */
    method AddSloganScore(text: string) returns (reply: Reply)
      requires Valid() && state == State.AddSloganScore
      modifies this`state, this`slogans
      ensures Valid()
      ensures users == old(users) && pending == old(pending)
      ensures ParseInt(text).None? ==>
                slogans == old(slogans) && state == State.AddSloganScore && reply == InvalidNumber
      ensures ParseInt(text).Some? ==>
                slogans == Put(old(slogans), pending.value, ParseInt(text).value) &&
                state == End && reply == Saved
    {
      var score := ParseInt(text);
      if score.None? {
        reply := InvalidNumber;
        state := State.AddSloganScore;
        return;
      }
      PutDistinct(slogans, pending.value, score.value);
      slogans := Put(slogans, pending.value, score.value);
      state := End;
      reply := Saved;
    }

    /**
      `remove_slogan`: a message naming a registered slogan deletes exactly
      that entry; any other message leaves the table as it is. Either way the
      conversation ends.
    */
    method RemoveSlogan(text: string) returns (reply: Reply)
      requires Valid() && state == State.RemoveSlogan
      modifies this`state, this`slogans
      ensures Valid()
      ensures users == old(users) && pending == old(pending) && state == End
      ensures HasKey(old(slogans), text) ==> slogans == Remove(old(slogans), text) && reply == Removed
      ensures !HasKey(old(slogans), text) ==> slogans == old(slogans) && reply == NotFound
    {
      if HasKey(slogans, text) {
        slogans := Remove(slogans, text);
        reply := Removed;
      } else {
        reply := NotFound;
      }
      state := End;
    }

    /**
      A text message from the administrator, routed by the conversation to
      the handler of its current state; outside a conversation the
      conversation does not take the message at all.
    */
    method ReceiveText(text: string) returns (reply: Reply)
      requires Valid()
      modifies this`state, this`pending, this`slogans
      ensures Valid()
      ensures users == old(users)
      ensures old(state) == End ==>
                slogans == old(slogans) && state == End && pending == old(pending) && reply == Silent
      ensures old(state) == State.AddSloganText ==>
                slogans == old(slogans) && state == State.AddSloganScore && pending == Some(text) &&
                reply == AskScore
      ensures old(state) == State.AddSloganScore ==>
                pending == old(pending) &&
                if ParseInt(text).Some? then
                  slogans == Put(old(slogans), pending.value, ParseInt(text).value) && state == End &&
                  reply == Saved
                else
                  slogans == old(slogans) && state == State.AddSloganScore && reply == InvalidNumber
      ensures old(state) == State.RemoveSlogan ==>
                pending == old(pending) && state == End &&
                if HasKey(old(slogans), text) then
                  slogans == Remove(old(slogans), text) && reply == Removed
                else
                  slogans == old(slogans) && reply == NotFound
    {
      if state == State.AddSloganText {
        reply := AddSloganText(text);
      } else if state == State.AddSloganScore {
        reply := AddSloganScore(text);
      } else if state == State.RemoveSlogan {
        reply := RemoveSlogan(text);
      } else {
        reply := Silent;
      }
    }

    /**
      `check_messages`, for a group message: the slogans are scanned in table
      order, the first one that occurs in the text is credited to the sender,
      and the scan stops there. The slogan table is not touched.
    */
    method CheckMessages(senderId: int, text: string) returns (reply: Reply)
      requires Valid()
      modifies this`users
      ensures Valid()
      ensures users == Score(old(users), slogans, ShowInt(senderId), text)
      ensures reply == match FirstMatch(slogans, text)
                       case None => Silent
                       case Some(e) => Congratulations(e.1, GetDefault(users, ShowInt(senderId), 0))
    {
      var uid := ShowInt(senderId);
      reply := Silent;
      var i := 0;
      while i < |slogans|
        invariant 0 <= i <= |slogans|
        invariant users == old(users)
        invariant FirstMatch(slogans, text) == FirstMatch(slogans[i..], text)
      {
        var (slogan, score) := slogans[i];
        FirstMatchStep(slogans, text, i);
        if Occurs(slogan, text) {
          users := Credit(users, uid, score);
          reply := Congratulations(score, GetDefault(users, uid, 0));
          return;
        }
        i := i + 1;
      }
      assert slogans[i..] == [];
    }

    /** `total_point`: the sender's total, 0 for a user who never scored. */
    method TotalPoint(senderId: int) returns (total: int)
      requires Valid()
      ensures HasKey(users, ShowInt(senderId)) ==> (ShowInt(senderId), total) in users
      ensures !HasKey(users, ShowInt(senderId)) ==> total == 0
      ensures total == var m := ToMap(users); if ShowInt(senderId) in m then m[ShowInt(senderId)] else 0
    {
      var uid := ShowInt(senderId);
      total := GetDefault(users, uid, 0);
      GetAgreesWithMap(users, uid);
    }

    /** `leader_board`: the ten best totals (see `TopSpec`); empty when nobody has scored. */
    method LeaderBoard() returns (board: Dict)
      ensures board == Top(users)
      ensures board == [] <==> users == []
    {
      board := Top(users);
      TopEmpty(users);
    }
  }
}
