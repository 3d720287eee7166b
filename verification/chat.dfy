/**
 * The chat screen's transcript: a list of messages seeded with one greeting
 * from the companion, and the text the user is typing. Pressing send appends
 * the trimmed text as a user message and clears the input, unless the
 * trimmed text is empty.
 */
module Chat {
  import opened JsString

  /** A chat message; the timestamp the screen stores beside it is not modelled. */
  datatype Message = Message(id: string, text: string, isUser: bool)

  const GreetingText: string :=
    "I'm always here to listen, understand, and support you through life's ups and downs. "
    + "I can offer personalized emotional guidance, recommend coping strategies, and provide "
    + "resources tailored to your unique needs. Together, let's make every conversation a step "
    + "towards a healthier, happier you."

  /** The companion's opening message. */
  const Greeting: Message := Message("1", GreetingText, false)

  /** The text field accepts at most this many characters. */
  const MaxInputLength: nat := 500

  /** The two pieces of screen state. */
  datatype ChatState = ChatState(messages: seq<Message>, inputText: string)

  /** The state the screen starts in. */
  const Initial: ChatState := ChatState([Greeting], "")

  /** Send is enabled (and does something) exactly when the trimmed input is non-empty. */
  predicate CanSend(input: string) {
    Trim(input) != []
  }

  /**
   * One press of the send button, with `id` standing for the clock value the
   * screen uses as the new message's id.
   */
  function SendStep(s: ChatState, id: string): (r: ChatState)
    ensures !CanSend(s.inputText) ==> r == s
    ensures CanSend(s.inputText) ==>
      && |r.messages| == |s.messages| + 1
      && r.messages[..|s.messages|] == s.messages
      && r.messages[|s.messages|] == Message(id, Trim(s.inputText), true)
      && r.inputText == ""
  {
    if CanSend(s.inputText) then
      ChatState(s.messages + [Message(id, Trim(s.inputText), true)], "")
    else
      s
  }

  /**
   * The transcript invariant: the greeting comes first, and every later
   * message is a user message whose text is non-empty and trimmed.
   */
  predicate WellFormed(messages: seq<Message>) {
    && |messages| >= 1
    && messages[0] == Greeting
    && forall k :: 1 <= k < |messages| ==> UserText(messages[k])
  }

  predicate UserText(m: Message) {
    m.isUser && m.text != [] && IsTrimmed(m.text)
  }

  lemma InitialWellFormed()
    ensures WellFormed(Initial.messages)
    ensures Initial.inputText == ""
    ensures |Initial.messages| == 1 && !Initial.messages[0].isUser
  {
  }

  /** A send keeps the transcript well formed: it never adds a companion message or a blank one. */
  lemma SendPreservesWellFormed(s: ChatState, id: string)
    requires WellFormed(s.messages)
    ensures WellFormed(SendStep(s, id).messages)
  {
    var r := SendStep(s, id);
    if CanSend(s.inputText) {
      forall k | 1 <= k < |r.messages|
        ensures UserText(r.messages[k])
      {
        if k < |s.messages| {
          assert r.messages[k] == r.messages[..|s.messages|][k];
        }
      }
    }
  }

  /** A send changes the state if and only if it was enabled. */
  lemma SendChangesIffEnabled(s: ChatState, id: string)
    ensures SendStep(s, id) != s <==> CanSend(s.inputText)
  {
    if CanSend(s.inputText) {
      assert |SendStep(s, id).messages| != |s.messages|;
    }
  }

  /** What the user can do: type into the field or press send. */
  datatype Event = Type(text: string) | Press(id: string)

  function Step(s: ChatState, e: Event): ChatState {
    match e
    case Type(text) => ChatState(s.messages, text)
    case Press(id) => SendStep(s, id)
  }

  function Run(s: ChatState, events: seq<Event>): ChatState
    decreases |events|
  {
    if events == [] then s else Run(Step(s, events[0]), events[1..])
  }

  /**
   * Over any sequence of typing and sends the transcript only grows at its
   * end, and it stays well formed.
   */
  lemma {:induction false} RunAppendOnly(s: ChatState, events: seq<Event>)
    requires WellFormed(s.messages)
    ensures |s.messages| <= |Run(s, events).messages|
    ensures Run(s, events).messages[..|s.messages|] == s.messages
    ensures WellFormed(Run(s, events).messages)
    decreases |events|
  {
    if events != [] {
      var t := Step(s, events[0]);
      if events[0].Press? {
        SendPreservesWellFormed(s, events[0].id);
      }
      RunAppendOnly(t, events[1..]);
      var r := Run(t, events[1..]);
      assert r.messages[..|s.messages|] == r.messages[..|t.messages|][..|s.messages|];
    }
  }

  /**
   * From the opening state, whatever the user does, the greeting stays first
   * and is the only message that is not the user's.
   */
  lemma ReachableTranscript(events: seq<Event>)
    ensures var m := Run(Initial, events).messages;
      && |m| >= 1 && m[0] == Greeting
      && forall k :: 0 <= k < |m| ==> (m[k].isUser <==> k != 0)
  {
    RunAppendOnly(Initial, events);
  }

  /** Running two sequences of events one after the other is running their concatenation. */
  lemma {:induction false} RunAppend(s: ChatState, first: seq<Event>, second: seq<Event>)
    ensures Run(s, first + second) == Run(Run(s, first), second)
    decreases |first|
  {
    if first != [] {
      assert (first + second)[1..] == first[1..] + second;
      RunAppend(Step(s, first[0]), first[1..], second);
    } else {
      assert first + second == second;
    }
  }

  lemma RunTwo(s: ChatState, a: Event, b: Event)
    ensures Run(s, [a, b]) == Step(Step(s, a), b)
  {
    assert [a, b][1..] == [b];
    assert Run(Step(s, a), [b]) == Run(Step(Step(s, a), b), []);
  }

  // The example lemmas take their literals as parameters fixed by the precondition, so the solver does not unfold the functions on them eagerly; this keeps the proofs fast.
  lemma TrimExamples(blank: string, hello: string)
    requires blank == "  " && hello == " Hello "
    ensures Trim(blank) == [] && Trim(hello) == "Hello"
  {
    assert AllWhitespace(blank);
    assert FirstNonWhitespace(hello, 1) == 1;
    assert FirstNonWhitespace(hello, 0) == 1;
    assert EndOfNonWhitespace(hello, 1, 6) == 6;
    assert EndOfNonWhitespace(hello, 1, 7) == 6;
    assert hello[1..6] == "Hello";
  }

  /**
   * A short session: sending blank input does nothing; sending " Hello "
   * adds the user message "Hello" and clears the field; sending again with
   * the cleared field does nothing.
   */
  lemma SessionExample(blank: string, hello: string, id1: string, id2: string, id3: string)
    requires blank == "  " && hello == " Hello "
    ensures Run(Initial, [Type(blank), Press(id1)]) == ChatState([Greeting], blank)
    ensures Run(Initial, [Type(blank), Press(id1)] + [Type(hello), Press(id2)])
         == ChatState([Greeting, Message(id2, "Hello", true)], "")
    ensures Run(Initial, [Type(blank), Press(id1)] + [Type(hello), Press(id2)] + [Press(id3)])
         == ChatState([Greeting, Message(id2, "Hello", true)], "")
  {
    TrimExamples(blank, hello);
    var e1 := [Type(blank), Press(id1)];
    var e2 := [Type(hello), Press(id2)];
    var e3 := [Press(id3)];
    var s1 := ChatState([Greeting], blank);
    var s2 := ChatState([Greeting, Message(id2, "Hello", true)], "");
    assert Run(Initial, e1) == s1 by {
      RunTwo(Initial, Type(blank), Press(id1));
      assert Step(Initial, Type(blank)) == s1;
      assert Step(s1, Press(id1)) == s1;
    }
    assert Run(s1, e2) == s2 by {
      RunTwo(s1, Type(hello), Press(id2));
      assert Step(s1, Type(hello)) == ChatState([Greeting], hello);
      assert Step(ChatState([Greeting], hello), Press(id2)) == s2;
    }
    assert Run(s2, e3) == s2 by {
      assert Step(s2, Press(id3)) == s2;
    }
    RunAppend(Initial, e1, e2);
    RunAppend(Initial, e1 + e2, e3);
  }

  /** The screen itself: its two state fields, updated in place by its handlers. */
  class ChatScreen {
    var messages: seq<Message>
    var inputText: string

    ghost predicate Valid()
      reads this
    {
      WellFormed(messages) && |inputText| <= MaxInputLength
    }

    function State(): ChatState
      reads this
    {
      ChatState(messages, inputText)
    }

    constructor ()
      ensures Valid()
      ensures State() == Initial
    {
      messages := [Greeting];
      inputText := "";
    }

    /** The text field's change handler; the field itself refuses more than 500 characters. */
    method ChangeText(text: string)
      requires Valid()
      requires |text| <= MaxInputLength
      modifies this
      ensures Valid()
      ensures messages == old(messages) && inputText == text
    {
      inputText := text;
    }

    /** The send button is enabled exactly when the input has a non-whitespace character. */
    function SendEnabled(): (enabled: bool)
      reads this
      ensures enabled <==> exists k :: 0 <= k < |inputText| && !IsWhitespace(inputText[k])
    {
      CanSend(inputText)
    }

    /** `handleSend`. */
    method Send(id: string)
      requires Valid()
      modifies this
      ensures Valid()
      ensures State() == SendStep(old(State()), id)
    {
      SendPreservesWellFormed(State(), id);
      var text := Trim(inputText);
      if text != [] {
        messages := messages + [Message(id, text, true)];
        inputText := "";
      }
    }
  }
}
