/** The chat panel: the keyword test that routes a message to task assignment, the send
    guard, and the reply listing generated tasks. */
module ChatBot {
  import opened Wrappers
  import opened Text

  // ---------------------------------------------------------------- assignment intent

  const Keywords: seq<string> := [
    "assign", "give", "set assignee", "delegate", "put", "give to",
    "should be done by", "is responsible for", "assign all", "assign everything"
  ]

  /** `parseAssignmentIntent`: some keyword occurs in the lower-cased input. */
  predicate IsAssignmentRequest(input: string) {
    exists i | 0 <= i < |Keywords| :: Contains(ToLower(input), ToLower(Keywords[i]))
  }

  predicate NoUpper(s: string) {
    forall i | 0 <= i < |s| :: !('A' <= s[i] <= 'Z')
  }

  lemma LowerKeepsLower(s: string)
    requires NoUpper(s)
    ensures ToLower(s) == s
  {
  }

  lemma LowerTwice(s: string)
    ensures ToLower(ToLower(s)) == ToLower(s)
  {
  }

  /** The keywords are written in lower case already. */
  lemma KeywordsLower()
    ensures forall i | 0 <= i < |Keywords| :: ToLower(Keywords[i]) == Keywords[i]
  {
    forall i | 0 <= i < |Keywords| ensures ToLower(Keywords[i]) == Keywords[i] {
      var w := Keywords[i];
      assert NoUpper(w) by {
        forall j | 0 <= j < |w| ensures !('A' <= w[j] <= 'Z') {
          assert w[j] == ' ' || 'a' <= w[j] <= 'z';
        }
      }
      LowerKeepsLower(w);
    }
  }

  /** The six keywords that decide: the other four contain one of them. */
  const Essential: seq<string> := ["assign", "give", "delegate", "put", "should be done by", "is responsible for"]

  /** The classification depends only on the input with its letters in lower case. */
  lemma CaseInsensitive(s: string)
    ensures IsAssignmentRequest(ToUpper(s)) == IsAssignmentRequest(s)
    ensures IsAssignmentRequest(ToLower(s)) == IsAssignmentRequest(s)
  {
    LowerOfUpper(s);
    LowerTwice(s);
  }

  /** Adding text around a request keeps it a request. */
  lemma {:induction false} Monotone(s: string, t: string)
    requires IsAssignmentRequest(s) && Contains(t, s)
    ensures IsAssignmentRequest(t)
  {
    var i :| 0 <= i < |Keywords| && Contains(ToLower(s), ToLower(Keywords[i]));
    LowerKeepsContains(t, s);
    ContainsTransitive(ToLower(t), ToLower(s), ToLower(Keywords[i]));
  }

  lemma ContainsAt(s: string, t: string, i: nat)
    requires i + |t| <= |s| && s[i..i + |t|] == t
    ensures Contains(s, t)
  {
    assert HasAt(s, t, i);
  }

  /** A message is an assignment request exactly when it contains one of the six essential
      keywords, in any case. */
  lemma {:induction false} EssentialKeywordsDecide(s: string)
    ensures IsAssignmentRequest(s) <==> exists k | 0 <= k < |Essential| :: Contains(ToLower(s), Essential[k])
  {
    KeywordsLower();
    var low := ToLower(s);
    if IsAssignmentRequest(s) {
      var i :| 0 <= i < |Keywords| && Contains(low, ToLower(Keywords[i]));
      KeywordHasEssential(low, i);
    }
    if exists k | 0 <= k < |Essential| :: Contains(low, Essential[k]) {
      var k :| 0 <= k < |Essential| && Contains(low, Essential[k]);
      var i := if k == 0 then 0 else if k == 1 then 1 else if k == 2 then 3 else if k == 3 then 4 else if k == 4 then 6 else 7;
      assert ToLower(Keywords[i]) == Essential[k];
    }
  }

  /** Text holding a keyword holds an essential one. */
  lemma KeywordHasEssential(low: string, i: nat)
    requires i < |Keywords| && Contains(low, Keywords[i])
    ensures exists k | 0 <= k < |Essential| :: Contains(low, Essential[k])
  {
    if i == 2 {
      ContainsAt("set assignee", "assign", 4);
      ContainsTransitive(low, Keywords[i], "assign");
      assert Contains(low, Essential[0]);
    } else if i == 8 || i == 9 {
      ContainsAt(Keywords[i], "assign", 0);
      ContainsTransitive(low, Keywords[i], "assign");
      assert Contains(low, Essential[0]);
    } else if i == 5 {
      ContainsAt("give to", "give", 0);
      ContainsTransitive(low, Keywords[i], "give");
      assert Contains(low, Essential[1]);
    } else {
      var k := if i == 0 then 0 else if i == 1 then 1 else if i == 3 then 2 else if i == 4 then 3 else if i == 6 then 4 else 5;
      assert Essential[k] == Keywords[i];
    }
  }

  /** Since "put" is a keyword, any text containing it is a request, whatever it means. */
  lemma PutAnywhere(s: string)
    requires Contains(ToLower(s), "put")
    ensures IsAssignmentRequest(s)
  {
    KeywordsLower();
    assert ToLower(Keywords[4]) == "put";
  }

  lemma InputIsARequest()
    ensures IsAssignmentRequest("Please input the data")
    ensures IsAssignmentRequest("Fix my computer")
  {
    var a := "Please input the data";
    var b := "Fix my computer";
    LowerOfSlice(a, 9, 12);
    assert a[9..12] == "put";
    ContainsAt(ToLower(a), "put", 9);
    PutAnywhere(a);
    LowerOfSlice(b, 10, 13);
    assert b[10..13] == "put";
    ContainsAt(ToLower(b), "put", 10);
    PutAnywhere(b);
  }

  // ---------------------------------------------------------------- the generation reply

  function Header(n: nat): string {
    "I've created " + NatToString(n) + " tasks based on your request:"
  }

  function TitleLines(titles: seq<string>): (r: seq<string>)
    ensures |r| == |titles| && forall i | 0 <= i < |titles| :: r[i] == "- " + titles[i]
  {
    seq(|titles|, i requires 0 <= i < |titles| => "- " + titles[i])
  }

  /** The reply after a successful generation, given the tasks' titles as text. */
  function SummaryText(titles: seq<string>): string {
    Header(|titles|) + "\n" + Join(TitleLines(titles), "\n")
  }

  /** Read line by line, the reply is the count line, then one "- title" line per task in
      order (a single empty line when there are none), as long as no title spans lines. */
  lemma SummaryLines(titles: seq<string>)
    requires forall i | 0 <= i < |titles| :: Free(titles[i], '\n')
    ensures Split(SummaryText(titles), '\n') == [Header(|titles|)] + (if titles == [] then [""] else TitleLines(titles))
  {
    var digits := NatToString(|titles|);
    assert Free(Header(|titles|), '\n') by {
      var h := Header(|titles|);
      forall j | 0 <= j < |h| ensures h[j] != '\n' {
        if 13 <= j < 13 + |digits| {
          assert h[j] == digits[j - 13];
        }
      }
    }
    var lines := if titles == [] then [""] else TitleLines(titles);
    forall i | 0 <= i < |lines| ensures Free(lines[i], '\n') {
      if titles != [] {
        assert lines[i] == "- " + titles[i];
      }
    }
    if titles == [] {
      assert Join(TitleLines(titles), "\n") == "";
      assert Join([Header(0)] + [""], "\n") == Header(0) + "\n" + Join([""], "\n");
    } else {
      JoinCons(Header(|titles|), lines, "\n");
    }
    SplitJoin([Header(|titles|)] + lines, '\n');
  }

  // ---------------------------------------------------------------- the conversation

  datatype Sender = User | Ai

  datatype Message = Message(id: int, text: string, sender: Sender)

  /** How `generateTasks` settled, as the component sees it: the titles of the tasks as
      text, or the error text (possibly empty). */
  datatype GenerationReply = Tasks(titles: seq<string>) | GenerationFailed(message: string)

  /** The text of the message added once a request settles. `processTaskAssignments` is
      imported but not defined, so an assignment request fails with `assignmentError`. */
  function ReplyText(prompt: string, reply: GenerationReply, assignmentError: string): string {
    if IsAssignmentRequest(prompt) then
      "Error: " + (if assignmentError == "" then "Something went wrong. Please try again." else assignmentError)
    else if reply.Tasks? then SummaryText(reply.titles)
    else "Error: " + (if reply.message == "" then "Failed to generate tasks" else reply.message)
  }

  /** The error banner after a request settles. */
  function ReplyError(prompt: string, reply: GenerationReply, assignmentError: string): Option<string> {
    if IsAssignmentRequest(prompt) then Some(assignmentError)
    else if reply.Tasks? then None
    else Some(if reply.message == "" then "Failed to generate tasks" else reply.message)
  }

  /** A failed or assignment request is reported as an error message; a generation lists
      its tasks. */
  lemma ReplyKinds(prompt: string, reply: GenerationReply, assignmentError: string)
    ensures ReplyError(prompt, reply, assignmentError).None? <==> !IsAssignmentRequest(prompt) && reply.Tasks?
    ensures ReplyError(prompt, reply, assignmentError).Some? ==> ReplyText(prompt, reply, assignmentError)[..7] == "Error: "
  {
  }

  class ChatSession {
    var messages: seq<Message>
    var input: string
    var isLoading: bool
    var error: Option<string>

    constructor ()
      ensures messages == [] && input == "" && !isLoading && error.None?
    {
      messages := [];
      input := "";
      isLoading := false;
      error := None;
    }

    method Type(text: string)
      modifies this
      ensures input == text
      ensures messages == old(messages) && isLoading == old(isLoading) && error == old(error)
    {
      input := text;
    }

    /** The synchronous start of `handleSend`: unless the input is blank or a request is in
        flight, post the user's message, clear the box and return the prompt to process. */
    method Send(now: int) returns (prompt: Option<string>)
      modifies this
      ensures Trim(old(input)) == "" || old(isLoading) ==>
        prompt.None? && messages == old(messages) && input == old(input) && isLoading == old(isLoading) && error == old(error)
      ensures Trim(old(input)) != "" && !old(isLoading) ==>
        prompt == Some(old(input)) && messages == old(messages) + [Message(now, old(input), User)] &&
        input == "" && isLoading && error.None?
    {
      if Trim(input) == "" || isLoading {
        return None;
      }
      isLoading := true;
      error := None;
      messages := messages + [Message(now, input, User)];
      prompt := Some(input);
      input := "";
    }

    /** The rest of `handleSend`, once the request settles: add the reply and stop loading.
        Returns the titles handed to the board (none unless tasks were generated). */
    method Settle(prompt: string, now: int, reply: GenerationReply, assignmentError: string)
      returns (handedOff: seq<string>)
      requires isLoading
      modifies this
      ensures messages == old(messages) + [Message(now + 1, ReplyText(prompt, reply, assignmentError), Ai)]
      ensures error == (if ReplyError(prompt, reply, assignmentError).Some? then ReplyError(prompt, reply, assignmentError) else old(error))
      ensures !isLoading && input == old(input)
      ensures handedOff == if !IsAssignmentRequest(prompt) && reply.Tasks? then reply.titles else []
    {
      messages := messages + [Message(now + 1, ReplyText(prompt, reply, assignmentError), Ai)];
      var e := ReplyError(prompt, reply, assignmentError);
      if e.Some? {
        error := e;
      }
      handedOff := if !IsAssignmentRequest(prompt) && reply.Tasks? then reply.titles else [];
      isLoading := false;
    }
  }
}
