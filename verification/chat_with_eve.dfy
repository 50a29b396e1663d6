/** The chat with an assistant of components/chat-with-eve.tsx: the keyword
    responder, and the conversation state that a send and the delayed reply
    update. The reply timer is a queue of sent texts that `DeliverReply` pops. */
module ChatWithEve {
  import opened Base
  import opened Text

  datatype Sender = UserSender | EveSender

  datatype ChatMessage = ChatMessage(id: string, sender: Sender, content: string, timestamp: int)

  const Greeting: string := "Hello! How can I assist you today?"
  const HelpReply: string := "I'm here to help! What do you need assistance with?"
  const ThanksReply: string := "You're welcome! Is there anything else I can help you with?"
  const ByeReply: string := "Goodbye! Feel free to chat with me anytime."
  const DefaultOpening: string := "I understand you're asking about \""

  /** The reply classes in the order the responder tries them. */
  datatype ReplyKind = Greet | Help | Thanks | Bye | Echo

  /** The first keyword class the lowered text contains. */
  function Classify(input: string): (k: ReplyKind)
    ensures k == Greet <==> Contains(Lower(input), "hello") || Contains(Lower(input), "hi")
    ensures k == Echo <==>
      (!Contains(Lower(input), "hello") && !Contains(Lower(input), "hi") && !Contains(Lower(input), "help")
       && !Contains(Lower(input), "thank") && !Contains(Lower(input), "bye"))
    ensures k == Help <==>
      !Contains(Lower(input), "hello") && !Contains(Lower(input), "hi") && Contains(Lower(input), "help")
    ensures k == Thanks <==>
      (!Contains(Lower(input), "hello") && !Contains(Lower(input), "hi") && !Contains(Lower(input), "help")
       && Contains(Lower(input), "thank"))
    ensures k == Bye <==>
      (!Contains(Lower(input), "hello") && !Contains(Lower(input), "hi") && !Contains(Lower(input), "help")
       && !Contains(Lower(input), "thank") && Contains(Lower(input), "bye"))
  {
    var lower := Lower(input);
    if Contains(lower, "hello") || Contains(lower, "hi") then Greet
    else if Contains(lower, "help") then Help
    else if Contains(lower, "thank") then Thanks
    else if Contains(lower, "bye") then Bye
    else Echo
  }

  /** `${eveData?.department}`: an absent department prints as "undefined". */
  function Shown(department: Option<string>): string {
    department.GetOr("undefined")
  }

  /** `generateEveResponse`: a fixed reply per keyword class, and otherwise one
      that quotes the text as typed. */
  function GenerateEveResponse(input: string, department: Option<string>): (r: string)
    ensures Classify(input) == Greet <==> r == Greeting
    ensures Classify(input) == Help <==> r == HelpReply
    ensures Classify(input) == Thanks <==> r == ThanksReply
    ensures Classify(input) == Bye <==> r == ByeReply
    ensures Classify(input) == Echo ==> r == DefaultOpening + input + EchoTail(department)
  {
    match Classify(input)
    case Greet => Greeting
    case Help => HelpReply
    case Thanks => ThanksReply
    case Bye => ByeReply
    case Echo => DefaultOpening + input + EchoTail(department)
  }

  /** What follows the quoted text in the fallback reply. */
  function EchoTail(department: Option<string>): (r: string)
    ensures |r| > 0 && r[0] == '"'
  {
    "\"" + (". Let me look into that for you. As an EVE employee from the "
      + Shown(department) + " department, I can provide you with detailed information on this topic.")
  }

  /** The fallback reply quotes the typed text verbatim, right after the opening quote. */
  lemma EchoQuotesInput(input: string, department: Option<string>)
    requires Classify(input) == Echo
    ensures var r := GenerateEveResponse(input, department);
      |r| > |DefaultOpening| + |input|
      && r[|DefaultOpening|..|DefaultOpening| + |input|] == input
      && r[|DefaultOpening| + |input|] == '"'
  {
    var r := GenerateEveResponse(input, department);
    var n := |DefaultOpening|;
    var tail := EchoTail(department);
    assert r == (DefaultOpening + input) + tail;
    assert r[..n + |input|] == DefaultOpening + input;
    assert r[n..n + |input|] == r[..n + |input|][n..];
    assert r[n + |input|] == tail[0];
  }

  /** Matching ignores case: a text and its lowered form fall in the same class. */
  lemma ClassifyIgnoresCase(input: string)
    ensures Classify(Lower(input)) == Classify(input)
  {
    LowerIdempotent(input);
  }

  /** Matching is by substring, so "this" is taken for a greeting. */
  lemma ThisIsAGreeting(department: Option<string>)
    ensures GenerateEveResponse("this", department) == Greeting
  {
    assert Lower("this") == "this";
    assert "this"[1..] == "his";
    assert "hi" <= "his";
  }

  /** A greeting keyword wins over any later one. */
  lemma GreetingWins(input: string, department: Option<string>)
    requires Contains(Lower(input), "hello")
    ensures GenerateEveResponse(input, department) == Greeting
  {
  }

  class Conversation {
    var messages: seq<ChatMessage>
    var input: string
    var isLoading: bool
    /** The texts whose reply timers have not fired yet, oldest first. */
    var pending: seq<string>
    const department: Option<string>

    constructor(department: Option<string>)
      ensures messages == [] && input == "" && !isLoading && pending == []
      ensures this.department == department
    {
      messages := [];
      input := "";
      isLoading := false;
      pending := [];
      this.department := department;
    }

    /** A blank text sends nothing. Otherwise the text is appended as the user's
        message, the input is cleared, and a reply to that text is scheduled. */
    method HandleSendMessage(id: string, now: int)
      modifies this
      ensures IsBlank(old(input)) ==>
        messages == old(messages) && input == old(input) && isLoading == old(isLoading) && pending == old(pending)
      ensures !IsBlank(old(input)) ==>
        && messages == old(messages) + [ChatMessage(id, UserSender, old(input), now)]
        && input == "" && isLoading && pending == old(pending) + [old(input)]
    {
      if IsBlank(input) {
        return;
      }
      messages := messages + [ChatMessage(id, UserSender, input, now)];
      pending := pending + [input];
      input := "";
      isLoading := true;
    }

    /** Enter without Shift sends; every other key does nothing here. */
    method HandleKeyPress(key: string, shiftKey: bool, id: string, now: int)
      modifies this
      ensures key != "Enter" || shiftKey || IsBlank(old(input)) ==>
        messages == old(messages) && input == old(input) && pending == old(pending) && isLoading == old(isLoading)
      ensures key == "Enter" && !shiftKey && !IsBlank(old(input)) ==>
        && messages == old(messages) + [ChatMessage(id, UserSender, old(input), now)] && input == ""
        && isLoading && pending == old(pending) + [old(input)]
    {
      if key == "Enter" && !shiftKey {
        HandleSendMessage(id, now);
      }
    }

    /** The oldest reply timer fires: the reply to its text is appended and the
        loading flag drops. */
    method DeliverReply(id: string, now: int)
      modifies this
      ensures old(pending) == [] ==> messages == old(messages) && pending == [] && isLoading == old(isLoading)
      ensures old(pending) != [] ==>
        && messages == old(messages) + [ChatMessage(id, EveSender, GenerateEveResponse(old(pending)[0], department), now)]
        && pending == old(pending)[1..] && !isLoading
      ensures input == old(input)
    {
      if pending != [] {
        messages := messages + [ChatMessage(id, EveSender, GenerateEveResponse(pending[0], department), now)];
        pending := pending[1..];
        isLoading := false;
      }
    }
  }

  /** A send followed by its timer leaves the user's text and then the reply to
      that very text at the end of the conversation. */
  method SendThenReply(c: Conversation, id1: string, id2: string, now: int, later: int)
    requires !IsBlank(c.input) && c.pending == []
    modifies c
    ensures c.messages == old(c.messages)
      + [ChatMessage(id1, UserSender, old(c.input), now),
         ChatMessage(id2, EveSender, GenerateEveResponse(old(c.input), c.department), later)]
    ensures c.pending == [] && !c.isLoading && c.input == ""
  {
    c.HandleSendMessage(id1, now);
    c.DeliverReply(id2, later);
  }
}
