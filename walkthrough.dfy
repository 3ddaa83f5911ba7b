/**
  Two complete interactions with the bot, derived from the handlers'
  contracts alone: the administrator registering a slogan through the
  conversation, and a group member scoring with it twice.
*/
module Walkthrough {
  import opened Wrappers
  import opened OrderedDict
  import opened IntText
  import opened Matching
  import opened Conversation
  import opened BotState

  /**
    From idle, the administrator presses "add slogan", sends "GoTeam", first
    mistypes the score as "abc" (refused, still at the score step) and then
    sends "10": "GoTeam" is registered with score 10 and the conversation is
    over. Nobody's score changed.
  */
  method RegisterSlogan(adminId: int) returns (bot: SloganBot)
    ensures bot.Valid() && bot.adminId == adminId
    ensures bot.slogans == [("GoTeam", 10)] && bot.users == []
    ensures bot.state == End && bot.pending == Some("GoTeam")
  {
    bot := new SloganBot(adminId, [], []);
    var reply := bot.PressButton(adminId, "add_slogan");
    assert bot.state == State.AddSloganText;
    reply := bot.ReceiveText("GoTeam");
    ParseIntRefuses();
    reply := bot.ReceiveText("abc");
    assert bot.state == State.AddSloganScore && bot.slogans == [] && reply == InvalidNumber;
    ParseIntAccepts();
    reply := bot.ReceiveText("10");
  }

  /**
    With the slogan "cat" worth 5, a member posting "concatenate" and then
    "cat!" is credited twice: their total goes from nothing to 5 to 10, and
    the slogan table is untouched.
  */
  method ScoreTwice(senderId: int) returns (bot: SloganBot)
    ensures bot.Valid() && bot.slogans == [("cat", 5)]
    ensures Get(bot.users, ShowInt(senderId)) == Some(10)
  {
    bot := new SloganBot(senderId + 1, [("cat", 5)], []);
    assert OccursAt("cat", "concatenate", 3);
    assert FirstMatch(bot.slogans, "concatenate") == Some(("cat", 5));
    var reply := bot.CheckMessages(senderId, "concatenate");
    assert Get(bot.users, ShowInt(senderId)) == Some(5);
    assert OccursAt("cat", "cat!", 0);
    reply := bot.CheckMessages(senderId, "cat!");
  }
}
