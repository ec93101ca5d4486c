/**
 * The support widget: a keyword router that answers a message with the reply of the first rule,
 * in a fixed order, whose keyword occurs in the lower-cased message, and the chat state the
 * widget keeps. Reply delays (`setTimeout`) become an explicit queue of pending bot replies that
 * `DeliverBotReply` drains; message ids and timestamps are not modelled.
 */
module Chatbot {
  import opened Common
  import opened Strings

  // ---------------------------------------------------------------------------
  // Canned replies
  // ---------------------------------------------------------------------------

  const UploadReply := "To upload an image, simply drag and drop your image onto the upload area on the dashboard, or click to browse your files. I support JPG, PNG, and GIF formats up to 10MB! 📸"
  const LanguageReply := "I generate captions in three languages: English, Telugu, and Hindi! Each caption is AI-powered and captures the essence of your image. 🌍"
  const DeleteReply := "To delete an image and its captions, go to your History page and click the red trash icon next to any image. You'll get a confirmation dialog before deletion. 🗑️"
  const DownloadReply := "You can download your captions as a text file by clicking the download icon next to any image in your history. The file will include all three language versions! 💾"
  const TroubleReply := "I'm sorry you're experiencing issues! Try refreshing the page first. If the problem persists, please contact our support team at 8688195228 or ganumulapally@gmail.com. 🛠️"
  const ThanksReply := "You're very welcome! I'm here whenever you need help. Feel free to ask me anything about MultiLang Caption! 😊"
  const GreetingReply := "Hello there! 👋 I'm here to help you with any questions about MultiLang Caption. What would you like to know?"
  const ContactReply := "You can reach our support team in several ways:\n📞 Call: 8688195228\n📧 Email: ganumulapally@gmail.com\nOr just chat with me here for quick help! 💬"
  const AccountReply := "We use secure Replit authentication for your account. If you're having login issues, make sure you're using the correct Replit credentials or try clearing your browser cache. 🔐"
  const DefaultReply := "I'd be happy to help! I can assist with uploading images, using different languages, downloading captions, or any other questions about MultiLang Caption. For complex issues, please contact our support team at 8688195228. What specifically would you like to know? 🤔"

  /** The bot's first message when the widget is opened on an empty conversation. */
  const WelcomeText := "Hello! 👋 I'm your friendly support assistant. How can I help you today?"

  // ---------------------------------------------------------------------------
  // Keyword routing
  // ---------------------------------------------------------------------------

  /** Which canned reply a message gets. */
  datatype Topic =
    | UploadHelp | Languages | Deleting | Downloading | Trouble
    | Gratitude | Greeting | Contact | Account | Fallback

  /** The text of each canned reply. */
  function ReplyText(t: Topic): string
  {
    match t
    case UploadHelp => UploadReply
    case Languages => LanguageReply
    case Deleting => DeleteReply
    case Downloading => DownloadReply
    case Trouble => TroubleReply
    case Gratitude => ThanksReply
    case Greeting => GreetingReply
    case Contact => ContactReply
    case Account => AccountReply
    case Fallback => DefaultReply
  }

  /** `message.includes(k1) || message.includes(k2) || ...`: some keyword occurs in the message. */
  predicate Mentions(message: string, keywords: seq<string>)
  {
    exists k :: k in keywords && Includes(message, k)
  }

  /** The branches of `getBotResponse` as written, on the already lower-cased message, in source order. */
  function Classify(message: string): (t: Topic)
    ensures Mentions(message, ["upload", "how to"]) ==> t == UploadHelp
    ensures t == Fallback <==>
      && !Mentions(message, ["upload", "how to"])
      && !Mentions(message, ["language", "translation"])
      && !Mentions(message, ["delete", "remove"])
      && !Mentions(message, ["download", "save"])
      && !Mentions(message, ["error", "problem", "not working"])
      && !Mentions(message, ["thank", "thanks"])
      && !Mentions(message, ["hello", "hi", "hey"])
      && !Mentions(message, ["contact", "support", "help"])
      && !Mentions(message, ["account", "login", "signin"])
  {
    if Mentions(message, ["upload", "how to"]) then UploadHelp
    else
    if Mentions(message, ["language", "translation"]) then Languages
    else
    if Mentions(message, ["delete", "remove"]) then Deleting
    else
    if Mentions(message, ["download", "save"]) then Downloading
    else
    if Mentions(message, ["error", "problem", "not working"]) then Trouble
    else
    if Mentions(message, ["thank", "thanks"]) then Gratitude
    else
    if Mentions(message, ["hello", "hi", "hey"]) then Greeting
    else
    if Mentions(message, ["contact", "support", "help"]) then Contact
    else
    if Mentions(message, ["account", "login", "signin"]) then Account
    else Fallback
  }

  /** The topic `getBotResponse` answers: the branches applied to the lower-cased message. */
  function BotTopic(userMessage: string): Topic
  {
    Classify(ToLower(userMessage))
  }

  /** `getBotResponse`: the text of the first rule whose keyword occurs in the lower-cased message. */
  function GetBotResponse(userMessage: string): (r: string)
    ensures r != []
    ensures r == ReplyText(Route(Rules, ToLower(userMessage)))
  {
    ClassifyIsFirstMatch(ToLower(userMessage));
    ReplyText(BotTopic(userMessage))
  }

  /** A routing rule: its keywords and the topic it selects. */
  datatype Rule = Rule(keywords: seq<string>, topic: Topic)

  /** The router's rules as a table, in source order. */
  const Rules: seq<Rule> := [
    Rule(["upload", "how to"], UploadHelp),
    Rule(["language", "translation"], Languages),
    Rule(["delete", "remove"], Deleting),
    Rule(["download", "save"], Downloading),
    Rule(["error", "problem", "not working"], Trouble),
    Rule(["thank", "thanks"], Gratitude),
    Rule(["hello", "hi", "hey"], Greeting),
    Rule(["contact", "support", "help"], Contact),
    Rule(["account", "login", "signin"], Account)
  ]

  /** Some keyword of the rule occurs in the message. */
  predicate Matches(rule: Rule, message: string)
  {
    Mentions(message, rule.keywords)
  }

  /** The index of the first rule that matches, if any. */
  function FirstMatching(rules: seq<Rule>, message: string): (r: Option<nat>)
    ensures r.Some? ==> r.value < |rules| && Matches(rules[r.value], message)
    ensures r.Some? ==> forall j :: 0 <= j < r.value ==> !Matches(rules[j], message)
    ensures r.None? <==> forall j :: 0 <= j < |rules| ==> !Matches(rules[j], message)
  {
    if |rules| == 0 then None
    else if Matches(rules[0], message) then Some(0)
    else
      match FirstMatching(rules[1..], message)
      case None => None
      case Some(i) => Some(i + 1)
  }

  /** The table-driven router: the first matching rule's reply, else the default. */
  function Route(rules: seq<Rule>, message: string): Topic
  {
    match FirstMatching(rules, message)
    case Some(i) => rules[i].topic
    case None => Fallback
  }

  /** Peeling one rule off the table: a match answers, otherwise the rest decides. */
  lemma RouteCons(rules: seq<Rule>, message: string)
    requires |rules| > 0
    ensures Route(rules, message) == if Matches(rules[0], message) then rules[0].topic else Route(rules[1..], message)
  {
  }

  /** A two-keyword test holds when either keyword occurs. */
  lemma MentionsPair(message: string, a: string, b: string)
    ensures Mentions(message, [a, b]) <==> Includes(message, a) || Includes(message, b)
  {
    assert a in [a, b] && b in [a, b];
  }

  /** The written-out branches and the rule table route every message alike. */
  lemma ClassifyIsFirstMatch(m: string)
    ensures Classify(m) == Route(Rules, m)
  {
    assert Rules[9..] == [];
    RouteCons(Rules[8..], m);
    assert Rules[8..][1..] == Rules[9..];
    RouteCons(Rules[7..], m);
    assert Rules[7..][1..] == Rules[8..];
    RouteCons(Rules[6..], m);
    assert Rules[6..][1..] == Rules[7..];
    RouteCons(Rules[5..], m);
    assert Rules[5..][1..] == Rules[6..];
    RouteCons(Rules[4..], m);
    assert Rules[4..][1..] == Rules[5..];
    RouteCons(Rules[3..], m);
    assert Rules[3..][1..] == Rules[4..];
    RouteCons(Rules[2..], m);
    assert Rules[2..][1..] == Rules[3..];
    RouteCons(Rules[1..], m);
    assert Rules[1..][1..] == Rules[2..];
    RouteCons(Rules[0..], m);
    assert Rules[0..][1..] == Rules[1..];
    assert Rules[0..] == Rules;
  }

  /** The topic answered is the first matching rule's, or the default. */
  lemma BotTopicIsFirstMatch(userMessage: string)
    ensures BotTopic(userMessage) == Route(Rules, ToLower(userMessage))
  {
    ClassifyIsFirstMatch(ToLower(userMessage));
  }

  /** Case does not matter: a message and its lower-cased form get the same reply. */
  lemma BotTopicIgnoresCase(userMessage: string)
    ensures BotTopic(userMessage) == BotTopic(ToLower(userMessage))
  {
    ToLowerIdempotent(userMessage);
  }

  /** When no keyword of any rule occurs, the default reply is given. */
  lemma NoKeywordGivesDefault(userMessage: string)
    requires forall j :: 0 <= j < |Rules| ==> !Matches(Rules[j], ToLower(userMessage))
    ensures BotTopic(userMessage) == Fallback
  {
    BotTopicIsFirstMatch(userMessage);
  }

  /** A keyword longer than the message cannot occur in it. */
  lemma {:induction false} NoRoomNoMatch(s: string, k: string)
    requires |k| > |s|
    ensures !Includes(s, k)
  {
  }

  /** Substring matching: "hi" inside "This" triggers the greeting. */
  lemma HiInsideAWord()
    ensures BotTopic("This") == Greeting
  {
    var m := ToLower("This");
    assert m == "this";
    assert !Mentions(m, ["upload", "how to"]) by {
      NoRoomNoMatch(m, "upload");
      NoRoomNoMatch(m, "how to");
    }
    assert !Mentions(m, ["language", "translation"]) by {
      NoRoomNoMatch(m, "language");
      NoRoomNoMatch(m, "translation");
    }
    assert !Mentions(m, ["delete", "remove"]) by {
      NoRoomNoMatch(m, "delete");
      NoRoomNoMatch(m, "remove");
    }
    assert !Mentions(m, ["download", "save"]) by {
      NoRoomNoMatch(m, "download");
      assert !OccursAt(m, "save", 0) by { assert m[0] != "save"[0]; }
    }
    assert !Mentions(m, ["error", "problem", "not working"]) by {
      NoRoomNoMatch(m, "error");
      NoRoomNoMatch(m, "problem");
      NoRoomNoMatch(m, "not working");
    }
    assert !Mentions(m, ["thank", "thanks"]) by {
      NoRoomNoMatch(m, "thank");
      NoRoomNoMatch(m, "thanks");
    }
    assert Mentions(m, ["hello", "hi", "hey"]) by {
      assert OccursAt(m, "hi", 1);
      IncludesAt(m, "hi", 1);
    }
  }

  /** An earlier rule shadows a later one: "how to" wins over "delete". */
  lemma EarlierRuleShadows()
    ensures Includes(ToLower("How to delete?"), "delete")
    ensures BotTopic("How to delete?") == UploadHelp
  {
    var m := ToLower("How to delete?");
    assert m == "how to delete?";
    assert OccursAt(m, "delete", 7);
    IncludesAt(m, "delete", 7);
    assert StartsWith(m, "how to");
    MentionsPair(m, "upload", "how to");
    assert Classify(m) == UploadHelp;
  }

  // ---------------------------------------------------------------------------
  // Conversation state
  // ---------------------------------------------------------------------------

  /** What a bot message says: the greeting, or the canned reply of a topic. */
  datatype BotReply = Welcome | Answer(topic: Topic)

  /** A chat message: typed by the user, or sent by the bot. */
  datatype Message = UserMessage(text: string) | BotMessage(reply: BotReply)

  /** The text a bot message shows. */
  function BotText(b: BotReply): string
  {
    match b
    case Welcome => WelcomeText
    case Answer(t) => ReplyText(t)
  }

  /**
   * The widget's state: whether it is open, the messages shown, the input box, the typing
   * indicator, and the bot replies scheduled but not yet shown (oldest first).
   */
  datatype ChatState = ChatState(
    isOpen: bool,
    messages: seq<Message>,
    input: string,
    typing: bool,
    pending: seq<BotReply>)

  /** `addMessage`: append at the end, keeping every earlier message in place. */
  function AddMessage(st: ChatState, m: Message): (r: ChatState)
    ensures |r.messages| == |st.messages| + 1
    ensures r.messages[..|st.messages|] == st.messages
    ensures r.messages[|st.messages|] == m
    ensures r.(messages := st.messages) == st
  {
    st.(messages := st.messages + [m])
  }

  /** `addBotMessage`: show the typing indicator and schedule the reply. */
  function AddBotMessage(st: ChatState, b: BotReply): (r: ChatState)
    ensures r.typing && r.pending == st.pending + [b] && r.messages == st.messages
    ensures r.(typing := st.typing, pending := st.pending) == st
  {
    st.(typing := true, pending := st.pending + [b])
  }

  /** The reply timer fires: the oldest scheduled reply is shown and the indicator cleared. */
  function DeliverBotReply(st: ChatState): (r: ChatState)
    requires |st.pending| > 0
    ensures r.messages == st.messages + [BotMessage(st.pending[0])]
    ensures r.pending == st.pending[1..] && !r.typing
    ensures r.(messages := st.messages, typing := st.typing, pending := st.pending) == st
  {
    AddMessage(st, BotMessage(st.pending[0])).(typing := false, pending := st.pending[1..])
  }

  /** `handleSend`: blank input does nothing; otherwise the user message, its reply, a cleared box. */
  function HandleSend(st: ChatState): (r: ChatState)
    ensures IsBlank(st.input) ==> r == st
    ensures !IsBlank(st.input) ==>
      && r.messages == st.messages + [UserMessage(st.input)]
      && r.pending == st.pending + [Answer(BotTopic(st.input))]
      && r.input == [] && r.typing && r.isOpen == st.isOpen
  {
    if Trim(st.input) == [] then st
    else AddBotMessage(AddMessage(st, UserMessage(st.input)), Answer(BotTopic(st.input))).(input := [])
  }

  /**
   * The `openChatbot` window event: the widget opens, and the greeting is queued only when the
   * conversation is still empty.
   */
  function OpenChatbot(st: ChatState): (r: ChatState)
    ensures r.isOpen && r.messages == st.messages
    ensures |st.messages| == 0 ==> r == st.(isOpen := true, typing := true, pending := st.pending + [Welcome])
    ensures |st.messages| > 0 ==> r == st.(isOpen := true)
  {
    var shown := st.(isOpen := true);
    if |st.messages| == 0 then AddBotMessage(shown, Welcome) else shown
  }

  /** The floating chat button: it only opens the widget. */
  function OpenByButton(st: ChatState): (r: ChatState)
    ensures r.isOpen && r.(isOpen := st.isOpen) == st
  {
    st.(isOpen := true)
  }

  /** The button never greets, even an empty conversation; only the `openChatbot` event does. */
  lemma ButtonNeverGreets(st: ChatState)
    requires Welcome !in st.pending
    ensures Welcome !in OpenByButton(st).pending
    ensures |st.messages| == 0 ==> Welcome in OpenChatbot(st).pending
  {
  }

  /** A send followed by its reply leaves the question and then its answer at the end of the chat. */
  lemma SendThenReply(st: ChatState)
    requires !IsBlank(st.input) && st.pending == []
    ensures DeliverBotReply(HandleSend(st)).messages
         == st.messages + [UserMessage(st.input), BotMessage(Answer(BotTopic(st.input)))]
    ensures DeliverBotReply(HandleSend(st)).pending == []
  {
    var sent := HandleSend(st);
    assert sent.pending == [Answer(BotTopic(st.input))];
  }

  /**
   * Two quick sends schedule two replies, and the first timer already clears the indicator while
   * the second reply is still pending.
   */
  lemma TypingClearedEarly(st: ChatState, second: string)
    requires !IsBlank(st.input) && !IsBlank(second) && st.pending == []
    ensures var r := DeliverBotReply(HandleSend(HandleSend(st).(input := second)));
      !r.typing && r.pending == [Answer(BotTopic(second))]
  {
  }

  /** The answer queued for a message shows exactly the text `getBotResponse` computes for it. */
  lemma ShownAnswerIsResponse(userMessage: string)
    ensures BotText(Answer(BotTopic(userMessage))) == GetBotResponse(userMessage)
  {
  }
}
