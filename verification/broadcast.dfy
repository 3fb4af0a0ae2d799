/**
 Free-text messages in run.py: parse_message routes any text holding the
 broadcast tag to broadcast, everything else to the generic echo reply;
 broadcast lets only the admin chat send a personalised copy of the text
 to every user.
 */
module Broadcast {
  import opened Strings

  const BroadcastTag := "#BROADCAST: "
  const UserPlaceholder := "[USER]"
  const EchoText := "Comando não reconhecido :white_check_mark:"
  const DeniedText := "Erro: Somente o administrador pode enviar mensagens via broadcast pelo bot."

  /** A row of get_users: the chat and the display name. */
  datatype User = User(chatId: int, name: string)

  /** A message the bot sends to a chat. */
  datatype Send = Send(chatId: int, text: string)

  /** What handling one text message produced. */
  datatype Handled =
    | Echoed(reply: string)          // echo's reply to the sender
    | Broadcasted(sends: seq<Send>)  // one message per user, in get_users order
    | Denied(reply: string)          // a non-admin tried to broadcast

  /** The copy of `text` a user receives: the tag removed, the placeholder replaced by their name. */
  function Personalise(text: string, name: string): string {
    ReplaceAll(ReplaceAll(text, BroadcastTag, ""), UserPlaceholder, name)
  }

  /** The loop of broadcast: one send per user, in order. */
  function SendAll(text: string, users: seq<User>): (sends: seq<Send>)
    ensures |sends| == |users|
    ensures forall i :: 0 <= i < |users| ==>
      sends[i].chatId == users[i].chatId && sends[i].text == Personalise(text, users[i].name)
  {
    if users == [] then []
    else [Send(users[0].chatId, Personalise(text, users[0].name))] + SendAll(text, users[1..])
  }

  /** broadcast: the admin reaches every user; anyone else gets the error reply and nobody is sent anything. */
  function HandleBroadcast(text: string, chat: int, admin: int, users: seq<User>): (r: Handled)
    ensures chat == admin ==> r.Broadcasted? && |r.sends| == |users|
    ensures chat == admin ==> forall i :: 0 <= i < |users| ==>
      r.sends[i] == Send(users[i].chatId, Personalise(text, users[i].name))
    ensures chat != admin ==> r == Denied(DeniedText)
  {
    if chat == admin then Broadcasted(SendAll(text, users)) else Denied(DeniedText)
  }

  /** parse_message: a text is broadcast exactly when it contains the tag anywhere. */
  function ParseMessage(text: string, chat: int, admin: int, users: seq<User>): (r: Handled)
    ensures !Contains(text, BroadcastTag) <==> r == Echoed(EchoText)
    ensures Contains(text, BroadcastTag) && chat == admin ==> r.Broadcasted?
    ensures Contains(text, BroadcastTag) && chat != admin ==> r == Denied(DeniedText)
  {
    if Contains(text, BroadcastTag) then HandleBroadcast(text, chat, admin, users)
    else Echoed(EchoText)
  }

  /** Removing the tag from a tagged body without '#' yields the body. */
  lemma RemoveTag(body: string)
    requires '#' !in body
    ensures ReplaceAll(BroadcastTag + body, BroadcastTag, "") == body
  {
    ReplaceAllLeading(BroadcastTag, body, "");
    NotContainsWithoutFirstChar(body, BroadcastTag);
    ReplaceAllAbsent(body, BroadcastTag, "");
    assert "" + body == body;
  }

  /** The placeholder between two '['-free parts is replaced by the name. */
  lemma FillPlaceholder(pre: string, post: string, name: string)
    requires '[' !in pre && '[' !in post
    ensures ReplaceAll(pre + UserPlaceholder + post, UserPlaceholder, name) == pre + name + post
  {
    assert pre + UserPlaceholder + post == pre + (UserPlaceholder + post);
    ReplaceAllSkips(pre, UserPlaceholder + post, UserPlaceholder, name);
    ReplaceAllLeading(UserPlaceholder, post, name);
    NotContainsWithoutFirstChar(post, UserPlaceholder);
    ReplaceAllAbsent(post, UserPlaceholder, name);
    assert pre + (name + post) == pre + name + post;
  }

  /**
   A message "#BROADCAST: <pre>[USER]<post>" reaches each user as
   "<pre><their name><post>", provided the body holds no further tag or
   placeholder (no '#' and no '[' in it).
   */
  lemma BroadcastGreetsEachUser(pre: string, post: string, name: string)
    requires '#' !in pre && '#' !in post && '[' !in pre && '[' !in post
    ensures Personalise(BroadcastTag + pre + UserPlaceholder + post, name) == pre + name + post
  {
    var body := pre + UserPlaceholder + post;
    assert BroadcastTag + pre + UserPlaceholder + post == BroadcastTag + body;
    assert '#' !in body by {
      assert forall i :: 0 <= i < |body| ==> body[i] in pre || body[i] in UserPlaceholder || body[i] in post;
    }
    RemoveTag(body);
    FillPlaceholder(pre, post, name);
  }

  /** A plain tagged message without placeholders reaches every user as the text after the tag. */
  lemma BroadcastDeliversBody(body: string, admin: int, users: seq<User>)
    requires '#' !in body && '[' !in body
    ensures var r := ParseMessage(BroadcastTag + body, admin, admin, users);
            r.Broadcasted? && |r.sends| == |users|
            && forall i :: 0 <= i < |users| ==> r.sends[i] == Send(users[i].chatId, body)
  {
    assert BroadcastTag <= BroadcastTag + body;
    RemoveTag(body);
    NotContainsWithoutFirstChar(body, UserPlaceholder);
    forall name: string
      ensures Personalise(BroadcastTag + body, name) == body
    {
      ReplaceAllAbsent(body, UserPlaceholder, name);
    }
  }
}
