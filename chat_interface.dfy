/**
 * The chat panel of the workflow editor: a transcript of user and assistant
 * messages and the text currently typed in the input box.  Sending a
 * non-blank input appends the user's message and a canned assistant reply,
 * clears the input, and hands a code update to the page through the
 * `onUpdateCode` callback.
 */
module ChatInterface {
  import opened Wrappers

  datatype Role = User | Assistant

  datatype Message = Message(role: Role, content: string)

  /** The fixed reply the assistant gives to every message. */
  const AssistantReply: string := "I've updated the code based on your request."

  /** The text put in front of the user's input in the code update. */
  const UpdatePrefix: string := "// Updated code based on chat\n"

  // ---------------------------------------------------------------------
  // String.prototype.trim
  // ---------------------------------------------------------------------

  /**
   * The characters `trim` removes: ECMAScript's WhiteSpace (tab, vertical
   * tab, form feed, the byte order mark and every space separator) and
   * LineTerminator (line feed, carriage return, line and paragraph
   * separators).
   */
  predicate IsTrimmed(c: char) {
    c == '\t' || c == '\U{000B}' || c == '\U{000C}' || c == ' ' || c == '\U{00A0}' ||
    c == '\U{FEFF}' || c == '\U{1680}' || ('\U{2000}' <= c <= '\U{200A}') ||
    c == '\U{202F}' || c == '\U{205F}' || c == '\U{3000}' ||
    c == '\n' || c == '\r' || c == '\U{2028}' || c == '\U{2029}'
  }

  /** Every character of `s` is one that `trim` removes. */
  ghost predicate Blank(s: string) {
    forall i :: 0 <= i < |s| ==> IsTrimmed(s[i])
  }

  /** How many trimmable characters `s` starts with. */
  function LeadingCount(s: string): (n: nat)
    ensures n <= |s|
    ensures forall k :: 0 <= k < n ==> IsTrimmed(s[k])
    ensures n < |s| ==> !IsTrimmed(s[n])
  {
    if |s| > 0 && IsTrimmed(s[0]) then
      var n := LeadingCount(s[1..]);
      assert forall k :: 1 <= k < n + 1 ==> s[k] == s[1..][k - 1];
      n + 1
    else 0
  }

  /** Where the trailing run of trimmable characters of `s` begins. */
  function TrailingStart(s: string): (n: nat)
    ensures n <= |s|
    ensures forall k :: n <= k < |s| ==> IsTrimmed(s[k])
    ensures n > 0 ==> !IsTrimmed(s[n - 1])
  {
    if |s| > 0 && IsTrimmed(s[|s| - 1]) then
      var n := TrailingStart(s[..|s| - 1]);
      assert forall k :: n <= k < |s| - 1 ==> s[k] == s[..|s| - 1][k];
      n
    else |s|
  }

  /** `s.trim()`: drop the leading run, then the trailing run. */
  function Trim(s: string): string {
    var t := s[LeadingCount(s)..];
    t[..TrailingStart(t)]
  }

  /**
   * `trim` returns the slice of `s` left after dropping removable
   * characters on both sides, and that slice neither starts nor ends with
   * one.
   */
  lemma TrimIsMiddleSlice(s: string)
    ensures exists i, j ::
              0 <= i <= j <= |s| && Trim(s) == s[i..j] &&
              (forall k :: 0 <= k < i ==> IsTrimmed(s[k])) &&
              (forall k :: j <= k < |s| ==> IsTrimmed(s[k]))
    ensures Trim(s) != [] ==> !IsTrimmed(Trim(s)[0]) && !IsTrimmed(Trim(s)[|Trim(s)| - 1])
  {
    var i := LeadingCount(s);
    var t := s[i..];
    var j := TrailingStart(t);
    assert Trim(s) == s[i..i + j];
    assert forall k :: i + j <= k < |s| ==> s[k] == t[k - i];
  }

  /** The send guard `!input.trim()` holds exactly for blank inputs. */
  lemma TrimEmptyIffBlank(s: string)
    ensures Trim(s) == "" <==> Blank(s)
  {
    var i := LeadingCount(s);
    var t := s[i..];
    var j := TrailingStart(t);
    if Trim(s) == "" {
      assert j == 0;
    } else {
      assert i < |s|;
    }
  }

  // ---------------------------------------------------------------------
  // Sending
  // ---------------------------------------------------------------------

  /** The component state: `messages` and `input`. */
  datatype Transcript = Transcript(messages: seq<Message>, input: string)

  /** What one `handleSend` produces: the new state and the code update, if one is emitted. */
  datatype Sent = Sent(after: Transcript, update: Option<string>)

  /**
   * `handleSend`: a blank input changes nothing and emits nothing;
   * otherwise the transcript gains exactly the user's untrimmed input and
   * the canned reply, the input box is cleared, and the update text is the
   * fixed prefix followed by the input as it was before the clear.
   */
  function Send(t: Transcript): (r: Sent)
    ensures Blank(t.input) ==> r == Sent(t, None)
    ensures !Blank(t.input) ==>
      |r.after.messages| == |t.messages| + 2 &&
      r.after.messages[..|t.messages|] == t.messages &&
      r.after.messages[|t.messages|] == Message(User, t.input) &&
      r.after.messages[|t.messages| + 1] == Message(Assistant, AssistantReply) &&
      r.after.input == "" &&
      r.update == Some(UpdatePrefix + t.input)
  {
    TrimEmptyIffBlank(t.input);
    if Trim(t.input) == "" then Sent(t, None)
    else
      Sent(Transcript(t.messages + [Message(User, t.input), Message(Assistant, AssistantReply)], ""),
           Some(UpdatePrefix + t.input))
  }

  /**
   * The shape every transcript has: user and assistant messages alternate,
   * starting with the user, each user message is non-blank, and each
   * assistant message is the canned reply.
   */
  ghost predicate WellFormed(ms: seq<Message>) {
    |ms| % 2 == 0 &&
    forall i :: 0 <= i < |ms| ==>
      if i % 2 == 0 then ms[i].role == User && !Blank(ms[i].content)
      else ms[i] == Message(Assistant, AssistantReply)
  }

  /** Sending keeps a transcript well formed. */
  lemma SendKeepsWellFormed(t: Transcript)
    requires WellFormed(t.messages)
    ensures WellFormed(Send(t).after.messages)
  {
    if !Blank(t.input) {
      var n := |t.messages|;
      var ms := Send(t).after.messages;
      assert ms == t.messages + [Message(User, t.input), Message(Assistant, AssistantReply)];
      forall i | 0 <= i < |ms|
        ensures if i % 2 == 0 then ms[i].role == User && !Blank(ms[i].content)
                else ms[i] == Message(Assistant, AssistantReply)
      {
        if i < n {
          assert ms[i] == t.messages[i];
        }
      }
    }
  }

  /** A send clears the input, so sending again right away does nothing. */
  lemma SecondSendDoesNothing(t: Transcript)
    ensures Send(Send(t).after) == Sent(Send(t).after, None)
  {
  }

  // ---------------------------------------------------------------------
  // The component as an object updated in place
  // ---------------------------------------------------------------------

  class Chat {
    var messages: seq<Message>
    var input: string

    function State(): Transcript
      reads this
    {
      Transcript(messages, input)
    }

    ghost predicate Valid()
      reads this
    {
      WellFormed(messages)
    }

    constructor ()
      ensures Valid()
      ensures messages == [] && input == ""
    {
      messages := [];
      input := "";
    }

    /** The input box's change handler. */
    method SetInput(text: string)
      modifies this
      ensures input == text && messages == old(messages)
    {
      input := text;
    }

    /** The send handler; `update` is what reaches `onUpdateCode`, None when it is not called. */
    method HandleSend() returns (update: Option<string>)
      requires Valid()
      modifies this
      ensures Valid()
      ensures Sent(State(), update) == Send(old(State()))
    {
      SendKeepsWellFormed(State());
      TrimEmptyIffBlank(input);
      if Trim(input) == "" {
        return None;
      }
      var sent := input;
      messages := messages + [Message(User, sent), Message(Assistant, AssistantReply)];
      input := "";
      update := Some(UpdatePrefix + sent);
    }
  }

  /**
   * A fresh chat panel: typing "hi" and sending records the pair and emits
   * the update; sending again with a blank input changes nothing.
   */
  method ChatExample() returns (first: Option<string>, second: Option<string>, count: nat)
    ensures first == Some(UpdatePrefix + "hi")
    ensures second == None
    ensures count == 2
  {
    var chat := new Chat();
    chat.SetInput("hi");
    assert !IsTrimmed('h');
    first := chat.HandleSend();
    chat.SetInput(" \n");
    second := chat.HandleSend();
    count := |chat.messages|;
  }
}
