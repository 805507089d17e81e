/** The client's task-generation service: validation of the model's answer, extraction of
    JSON from the answer text, and the prompt and provider gating in front of the calls. */
module AiService {
  import opened Wrappers
  import opened Seqs
  import opened Text
  import opened Js

  // ---------------------------------------------------------------- validation

  /** Why an answer is refused; task numbers are 1-based, as in the messages. */
  datatype ValidationError =
    | NotAnArray
    | UnreadableTask(task: nat)
    | MissingField(task: nat, field: string)
    | InvalidPriority(task: nat, priority: Value)
    | InvalidEstimatedTime(task: nat)

  const RequiredFields: seq<string> := ["title", "description", "priority", "estimatedTime", "status"]
  const ValidPriorities: seq<string> := ["high", "medium", "low"]

  predicate ValidPriority(v: Value) {
    v.Str? && v.s in ValidPriorities
  }

  predicate PositiveNumber(v: Value) {
    v.Num? && v.n > 0.0
  }

  /** What a well-formed generated task is, stated independently of the check order. */
  predicate TaskValid(task: Value) {
    Readable(task) &&
    (forall f | f in RequiredFields :: Truthy(Field(task, f))) &&
    ValidPriority(Field(task, "priority")) &&
    PositiveNumber(Field(task, "estimatedTime"))
  }

  /** The index of the first field the task lacks (is falsy on), or -1. */
  function FirstMissing(task: Value, fields: seq<string>): (r: int)
    requires Readable(task)
    ensures -1 <= r < |fields|
    ensures r == -1 <==> forall f | f in fields :: Truthy(Field(task, f))
    ensures r >= 0 ==> !Truthy(Field(task, fields[r])) && forall j | 0 <= j < r :: Truthy(Field(task, fields[j]))
  {
    if fields == [] then -1
    else if !Truthy(Field(task, fields[0])) then 0
    else
      var r := FirstMissing(task, fields[1..]);
      assert forall f | f in fields :: f == fields[0] || f in fields[1..];
      if r < 0 then -1 else r + 1
  }

  /** The checks on the task numbered `n`: readable, required fields, priority, time. */
  function CheckTask(task: Value, n: nat): (r: Option<ValidationError>)
    ensures r.None? <==> TaskValid(task)
  {
    if !Readable(task) then Some(UnreadableTask(n))
    else
      var k := FirstMissing(task, RequiredFields);
      if k >= 0 then Some(MissingField(n, RequiredFields[k]))
      else if !ValidPriority(Field(task, "priority")) then Some(InvalidPriority(n, Field(task, "priority")))
      else if !PositiveNumber(Field(task, "estimatedTime")) then Some(InvalidEstimatedTime(n))
      else None
  }

  /** The conditions are tested in order: a missing field is reported before a bad priority,
      which is reported before a bad time, and the missing field named is the first one in
      the order title, description, priority, estimatedTime, status. */
  lemma CheckTaskOrder(task: Value, n: nat)
    requires Readable(task)
    ensures forall k | 0 <= k < |RequiredFields| ::
      (!Truthy(Field(task, RequiredFields[k])) && forall j | 0 <= j < k :: Truthy(Field(task, RequiredFields[j]))) ==>
      CheckTask(task, n) == Some(MissingField(n, RequiredFields[k]))
    ensures (forall f | f in RequiredFields :: Truthy(Field(task, f))) && !ValidPriority(Field(task, "priority")) ==>
      CheckTask(task, n) == Some(InvalidPriority(n, Field(task, "priority")))
    ensures ((forall f | f in RequiredFields :: Truthy(Field(task, f))) && ValidPriority(Field(task, "priority")) &&
             !PositiveNumber(Field(task, "estimatedTime"))) ==>
      CheckTask(task, n) == Some(InvalidEstimatedTime(n))
  {
    var m := FirstMissing(task, RequiredFields);
    forall k | 0 <= k < |RequiredFields| &&
      !Truthy(Field(task, RequiredFields[k])) && (forall j | 0 <= j < k :: Truthy(Field(task, RequiredFields[j])))
      ensures m == k
    {
      assert RequiredFields[k] in RequiredFields;
    }
  }

  /** The first failing check among the tasks from index `i` on. */
  function FirstFailure(items: seq<Value>, i: nat): (r: Option<ValidationError>)
    requires i <= |items|
    ensures r.None? <==> forall k | i <= k < |items| :: TaskValid(items[k])
    ensures r.Some? ==> exists k | i <= k < |items| ::
      r == CheckTask(items[k], k + 1) && forall j | i <= j < k :: TaskValid(items[j])
    decreases |items| - i
  {
    if i == |items| then None
    else
      match CheckTask(items[i], i + 1)
      case Some(e) => Some(e)
      case None => FirstFailure(items, i + 1)
  }

  /** `validateTasksResponse`: the answer unchanged when every task is well formed. */
  function Validate(v: Value): (r: Result<Value, ValidationError>)
    ensures r.Success? <==> v.Arr? && forall k | 0 <= k < |v.items| :: TaskValid(v.items[k])
    ensures r.Success? ==> r.value == v
    ensures !v.Arr? ==> r == Failure(NotAnArray)
  {
    if !v.Arr? then Failure(NotAnArray)
    else
      match FirstFailure(v.items, 0)
      case Some(e) => Failure(e)
      case None => Success(v)
  }

  /** The error reported is that of the lowest-numbered bad task. */
  lemma {:induction false} FirstBadTaskDecides(items: seq<Value>, k: nat)
    requires k < |items| && !TaskValid(items[k])
    requires forall j | 0 <= j < k :: TaskValid(items[j])
    ensures Validate(Arr(items)) == Failure(CheckTask(items[k], k + 1).value)
  {
    FirstFailureAt(items, 0, k);
  }

  lemma {:induction false} FirstFailureAt(items: seq<Value>, i: nat, k: nat)
    requires i <= k < |items| && !TaskValid(items[k])
    requires forall j | i <= j < k :: TaskValid(items[j])
    ensures FirstFailure(items, i) == CheckTask(items[k], k + 1)
    decreases k - i
  {
    if i < k {
      FirstFailureAt(items, i + 1, k);
    }
  }

  // ---------------------------------------------------------------- extraction

  const Fence := "```"

  /** The index after the leading whitespace of `s[i..]`. */
  function SkipSpace(s: string, i: nat): (r: nat)
    requires i <= |s|
    ensures i <= r <= |s|
    ensures forall k | i <= k < r :: IsSpace(s[k])
    ensures r == |s| || !IsSpace(s[r])
    decreases |s| - i
  {
    if i < |s| && IsSpace(s[i]) then SkipSpace(s, i + 1) else i
  }

  /** Where the captured text of a block opened by the fence at `p` starts: after the fence,
      an optional `json` tag and any whitespace. No fence can start in between. */
  function ContentStart(s: string, p: nat): (r: nat)
    requires HasAt(s, Fence, p)
    ensures p + 3 <= r <= |s|
    ensures forall k | p + 3 <= k < r :: s[k] != '`'
  {
    var q := if HasAt(s, "json", p + 3) then p + 7 else p + 3;
    assert forall k | p + 3 <= k < q :: s[k] == "json"[k - p - 3];
    SkipSpace(s, q)
  }

  /** The capture of ```` /```(?:json)?\s*([\s\S]*?)```/ ````: from the first fence, the
      text up to the next fence, without the tag and the leading whitespace. */
  function FencedBlock(s: string): (r: Option<string>)
    ensures r.Some? ==> |r.value| + 2 * |Fence| <= |s|
    ensures r.Some? ==> forall k :: !HasAt(r.value, Fence, k)
  {
    var p := FindFrom(s, Fence, 0);
    if p < 0 then None
    else
      var b := ContentStart(s, p);
      var e := FindFrom(s, Fence, b);
      if e < 0 then None
      else
        // The lazy capture stops at the first closing fence, so it holds none.
        assert forall k | 0 <= k && k + |Fence| <= e - b :: !HasAt(s[b..e], Fence, k) by {
          forall k | 0 <= k && k + |Fence| <= e - b ensures !HasAt(s[b..e], Fence, k) {
            SliceOfSlice(s, b, e, k, k + |Fence|);
            assert !HasAt(s, Fence, b + k);
          }
        }
        Some(s[b..e])
  }

  /** A block is found exactly when the text holds two fences that do not overlap. */
  lemma FencedBlockExists(s: string)
    ensures FencedBlock(s).Some? <==>
      exists i, j | 0 <= i && 0 <= j :: HasAt(s, Fence, i) && HasAt(s, Fence, j) && j >= i + 3
  {
    var p := FindFrom(s, Fence, 0);
    if p >= 0 {
      var b := ContentStart(s, p);
      var e := FindFrom(s, Fence, b);
      if e >= 0 {
        assert HasAt(s, Fence, p) && HasAt(s, Fence, e) && e >= p + 3;
      }
      forall i, j | 0 <= i && 0 <= j && HasAt(s, Fence, i) && HasAt(s, Fence, j) && j >= i + 3
        ensures e >= 0
      {
        assert p <= i;
        assert s[j] == '`' by { assert s[j..j + 3] == Fence; }
        assert j >= b;
      }
    }
  }

  /** The usual fenced answer, "```json" and a line break, the payload, a line break and a
      closing fence, yields the payload, provided it holds no fence and starts and ends with
      a non-space character. */
  lemma FencedPayload(x: string)
    requires x != [] && !IsSpace(x[0]) && !IsSpace(x[|x| - 1])
    requires forall k | 0 <= k :: !HasAt(x, Fence, k)
    ensures FencedBlock("```json\n" + x + "\n```") == Some(x + "\n")
    ensures Trim(x + "\n") == x
  {
    var s := "```json\n" + x + "\n```";
    assert HasAt(s, Fence, 0);
    assert HasAt(s, "json", 3);
    assert s[7] == '\n' && s[8] == x[0];
    assert SkipSpace(s, 8) == 8;
    assert SkipSpace(s, 7) == 8;
    assert ContentStart(s, 0) == 8;
    var e := 9 + |x|;
    assert HasAt(s, Fence, e);
    forall k | 8 <= k < e ensures !HasAt(s, Fence, k) {
      NoFenceBefore(x, k);
    }
    FindFromFirst(s, Fence, 8, e);
    assert s[8..e] == x + "\n";
    TrimAroundLine(x);
  }

  /** No fence starts inside the payload or at its closing line break. */
  lemma NoFenceBefore(x: string, k: nat)
    requires forall k | 0 <= k :: !HasAt(x, Fence, k)
    requires 8 <= k < 9 + |x|
    ensures !HasAt("```json\n" + x + "\n```", Fence, k)
  {
    var s := "```json\n" + x + "\n```";
    if k + 3 <= 8 + |x| {
      assert s[k..k + 3] == x[k - 8..k - 5];
      assert !HasAt(x, Fence, k - 8);
    } else {
      assert s[8 + |x|] == '\n';
    }
  }

  lemma {:induction false} FindFromFirst(s: string, pat: string, from: nat, e: nat)
    requires from <= e && HasAt(s, pat, e)
    requires forall k | from <= k < e :: !HasAt(s, pat, k)
    ensures FindFrom(s, pat, from) == e
    decreases e - from
  {
    if from < e {
      FindFromFirst(s, pat, from + 1, e);
    }
  }

  lemma TrimAroundLine(x: string)
    requires x != [] && !IsSpace(x[0]) && !IsSpace(x[|x| - 1])
    ensures Trim(x + "\n") == x
  {
    var s := x + "\n";
    assert TrimStart(s) == s;
    assert s[..|s| - 1] == x;
    assert TrimEnd(s) == TrimEnd(x) == x;
  }

  /** The text of ```` /\[([\s\S]*)\]/ ````, re-wrapped in brackets: from the first `[` to
      the last `]`, both included. */
  function BracketSpan(s: string): (r: Option<string>)
    ensures r.Some? ==> 2 <= |r.value| <= |s| && r.value[0] == '[' && r.value[|r.value| - 1] == ']'
  {
    var p := IndexOf(s, '[');
    var q := LastIndexOf(s, ']');
    if p < 0 || q < p then None else Some(s[p..q + 1])
  }

  /** `s.lastIndexOf(c)`. */
  function LastIndexOf(s: string, c: char): (r: int)
    ensures -1 <= r < |s|
    ensures r >= 0 ==> s[r] == c && forall k | r < k < |s| :: s[k] != c
    ensures r == -1 ==> forall k | 0 <= k < |s| :: s[k] != c
  {
    if s == [] then -1
    else if s[|s| - 1] == c then |s| - 1
    else LastIndexOf(s[..|s| - 1], c)
  }

  /** A bracket span exists exactly when some `[` comes before some `]`; it then opens with
      `[`, closes with `]`, and has no `[` before it and no `]` after it. */
  lemma BracketSpanShape(s: string)
    ensures BracketSpan(s).Some? <==> exists i, j | 0 <= i < j < |s| :: s[i] == '[' && s[j] == ']'
    ensures BracketSpan(s).Some? ==>
      var p := IndexOf(s, '[');
      var t := BracketSpan(s).value;
      |t| >= 2 && t[0] == '[' && t[|t| - 1] == ']' && t == s[p..p + |t|] &&
      Free(s[..p], '[') && forall k | p + |t| <= k < |s| :: s[k] != ']'
  {
    var p := IndexOf(s, '[');
    var q := LastIndexOf(s, ']');
    if p >= 0 && q >= p {
      assert s[p] == '[' && s[q] == ']';
    }
    forall i, j | 0 <= i < j < |s| && s[i] == '[' && s[j] == ']' ensures p >= 0 && q >= p {
      assert !Free(s, '[');
      if p > i {
        assert s[..p][i] == '[';
      }
    }
  }

  datatype ExtractError = ParseError(text: string) | NotFound

  /** `extractJsonFromResponse`, with `JSON.parse` as `parse`: the whole text, else the
      trimmed first fenced block, else the bracket span, else an error. */
  function Extract(content: string, parse: string -> Option<Value>): (r: Result<Value, ExtractError>)
    ensures r.Failure? && r.error.ParseError? ==> parse(r.error.text).None?
    ensures r == Failure(NotFound) <==>
      parse(content).None? && FencedBlock(content).None? && BracketSpan(content).None?
  {
    match parse(content)
    case Some(v) => Success(v)
    case None =>
      match FencedBlock(content)
      case Some(block) =>
        (match parse(Trim(block))
         case Some(v) => Success(v)
         case None => Failure(ParseError(Trim(block))))
      case None =>
        match BracketSpan(content)
        case Some(span) =>
          (match parse(span)
           case Some(v) => Success(v)
           case None => Failure(ParseError(span)))
        case None => Failure(NotFound)
  }

  /** Text that parses as it stands is taken whole: no block or span is looked for. */
  lemma DirectParseFirst(content: string, parse: string -> Option<Value>)
    requires parse(content).Some?
    ensures Extract(content, parse) == Success(parse(content).value)
  {
  }

  /** Whatever is extracted is the parse of a piece of the content. */
  lemma ExtractSound(content: string, parse: string -> Option<Value>)
    ensures Extract(content, parse).Success? ==>
      exists i, j | 0 <= i <= j <= |content| :: parse(content[i..j]) == Some(Extract(content, parse).value)
  {
    if Extract(content, parse).Success? {
      var i, j := ExtractedPiece(content, parse);
    }
  }

  /** The bounds of the piece that `Extract` parsed successfully. */
  lemma ExtractedPiece(content: string, parse: string -> Option<Value>) returns (i: nat, j: nat)
    requires Extract(content, parse).Success?
    ensures i <= j <= |content| && parse(content[i..j]) == Some(Extract(content, parse).value)
  {
    if parse(content).Some? {
      i, j := 0, |content|;
      assert content[i..j] == content;
    } else if FencedBlock(content).Some? {
      ExtractFromBlock(content, parse);
      i, j := BlockPiece(content);
    } else {
      ExtractFromSpan(content, parse);
      var p := IndexOf(content, '[');
      var q := LastIndexOf(content, ']');
      i, j := p, q + 1;
    }
  }

  lemma ExtractFromBlock(content: string, parse: string -> Option<Value>)
    requires parse(content).None? && FencedBlock(content).Some?
    ensures Extract(content, parse).Success? ==>
      parse(Trim(FencedBlock(content).value)) == Some(Extract(content, parse).value)
  {
  }

  lemma ExtractFromSpan(content: string, parse: string -> Option<Value>)
    requires parse(content).None? && FencedBlock(content).None?
    ensures Extract(content, parse).Success? ==>
      BracketSpan(content).Some? && parse(BracketSpan(content).value) == Some(Extract(content, parse).value)
  {
  }

  /** The trimmed fenced block is a slice of the content. */
  lemma BlockPiece(content: string) returns (i: nat, j: nat)
    requires FencedBlock(content).Some?
    ensures i <= j <= |content| && content[i..j] == Trim(FencedBlock(content).value)
  {
    var p := FindFrom(content, Fence, 0);
    var b := ContentStart(content, p);
    var e := FindFrom(content, Fence, b);
    assert FencedBlock(content).value == content[b..e];
    i, j := TrimmedSlice(content, b, e);
  }

  /** The trimmed slice `s[b..e]` is itself a slice of `s`. */
  lemma TrimmedSlice(s: string, b: nat, e: nat) returns (i: nat, j: nat)
    requires b <= e <= |s|
    ensures i <= j <= |s| && s[i..j] == Trim(s[b..e])
  {
    var k := TrimOffset(s[b..e]);
    i, j := b + k, b + k + |Trim(s[b..e])|;
    PieceOfSlice(s, b, e, k, Trim(s[b..e]));
  }

  /** The fallbacks are tried strictly in turn: once a fenced block is found, a parse failure
      of its content is final, even if the bracket span would parse. */
  lemma FenceFailureIsFinal(content: string, parse: string -> Option<Value>)
    requires parse(content).None? && FencedBlock(content).Some?
    requires parse(Trim(FencedBlock(content).value)).None?
    ensures Extract(content, parse) == Failure(ParseError(Trim(FencedBlock(content).value)))
  {
  }

  /** A fenced block whose trimmed content parses gives that value, whatever else the text holds. */
  lemma FenceSuccessIsFinal(content: string, parse: string -> Option<Value>)
    requires parse(content).None? && FencedBlock(content).Some?
    requires parse(Trim(FencedBlock(content).value)).Some?
    ensures Extract(content, parse) == Success(parse(Trim(FencedBlock(content).value)).value)
  {
  }

  /** The bracket span is consulted only when the text neither parses nor holds a block. */
  lemma SpanOnlyWithoutFence(content: string, parse: string -> Option<Value>)
    requires parse(content).None? && FencedBlock(content).None? && BracketSpan(content).Some?
    ensures Extract(content, parse) ==
      match parse(BracketSpan(content).value)
      case Some(v) => Success(v)
      case None => Failure(ParseError(BracketSpan(content).value))
  {
  }

  // ---------------------------------------------------------------- generation

  datatype Provider = OpenAI | Claude

  /** The outcome of one provider request: unreachable, an HTTP error status, or an answer
      whose text is present (None when the reply lacks the expected text field). */
  datatype Reply = NetworkFailure | HttpError(status: int) | Answer(text: Option<string>)

  datatype ParseCause = MalformedReply | Extraction(extractError: ExtractError) | Invalid(validationError: ValidationError)

  datatype GenerateError =
    | InvalidPrompt
    | KeyMissing(provider: Provider)
    | NoProvider
    | ApiError(provider: Provider, status: int)
    | Unreachable(provider: Provider)
    | ParseFailure(provider: Provider, cause: ParseCause)

  /** `{ success, data }` or `{ success: false, error }`. */
  datatype Response = Generated(data: Value) | Failed(error: GenerateError)

  datatype Route = Reject(error: GenerateError) | Call(provider: Provider)

  /** A prompt is accepted when it is a string with a non-whitespace character. */
  predicate PromptValid(prompt: Value) {
    Truthy(prompt) && prompt.Str? && Trim(prompt.s) != []
  }

  /** `!!key`. */
  predicate KeyPresent(key: Option<string>) {
    key.Some? && key.value != ""
  }

  /** The gating in `generateTasks`; an undefined provider argument means "openai". */
  function ChooseRoute(prompt: Value, provider: Value, openAIKey: Option<string>, claudeKey: Option<string>): (r: Route)
    ensures r.Call? ==> PromptValid(prompt)
    ensures r == Call(OpenAI) ==> KeyPresent(openAIKey)
    ensures r == Call(Claude) ==> KeyPresent(claudeKey)
    ensures r.Reject? && PromptValid(prompt) ==> r.error.KeyMissing? || r.error.NoProvider?
  {
    var requested := if provider.Undefined? then Str("openai") else provider;
    var hasOpenAI, hasClaude := KeyPresent(openAIKey), KeyPresent(claudeKey);
    if !PromptValid(prompt) then Reject(InvalidPrompt)
    else if requested == Str("openai") && !hasOpenAI then Reject(KeyMissing(OpenAI))
    else if requested == Str("claude") && !hasClaude then Reject(KeyMissing(Claude))
    else if requested == Str("openai") && hasOpenAI then Call(OpenAI)
    else if requested == Str("claude") && hasClaude then Call(Claude)
    else if hasOpenAI then Call(OpenAI)
    else if hasClaude then Call(Claude)
    else Reject(NoProvider)
  }

  /** The route is decided by the prompt first and then by the requested provider's key:
      an explicitly requested provider is used when its key is set and refused when not;
      any other request falls back to OpenAI, then Claude. */
  lemma RouteRules(prompt: Value, provider: Value, openAIKey: Option<string>, claudeKey: Option<string>)
    ensures var r := ChooseRoute(prompt, provider, openAIKey, claudeKey);
      (!PromptValid(prompt) ==> r == Reject(InvalidPrompt)) &&
      (PromptValid(prompt) && (provider.Undefined? || provider == Str("openai")) ==>
         r == if KeyPresent(openAIKey) then Call(OpenAI) else Reject(KeyMissing(OpenAI))) &&
      (PromptValid(prompt) && provider == Str("claude") ==>
         r == if KeyPresent(claudeKey) then Call(Claude) else Reject(KeyMissing(Claude))) &&
      (PromptValid(prompt) && !provider.Undefined? && provider != Str("openai") && provider != Str("claude") ==>
         r == if KeyPresent(openAIKey) then Call(OpenAI)
              else if KeyPresent(claudeKey) then Call(Claude) else Reject(NoProvider))
  {
    assert Str("openai") != Str("claude") by { assert "openai"[0] != "claude"[0]; }
    if PromptValid(prompt) {
      if provider.Undefined? || provider == Str("openai") {
        assert provider != Str("claude");
      }
    }
  }

  /** One provider call after its request: the reply's text, extracted and validated. */
  function Handle(p: Provider, reply: Reply, parse: string -> Option<Value>): (r: Response)
    ensures r.Generated? ==>
      reply.Answer? && reply.text.Some? && Extract(reply.text.value, parse) == Success(r.data) &&
      Validate(r.data) == Success(r.data)
    ensures r.Failed? ==>
      (r.error.ApiError? || r.error.Unreachable? || r.error.ParseFailure?) && r.error.provider == p
    ensures reply.Answer? && reply.text.Some? && Extract(reply.text.value, parse).Success? &&
            Validate(Extract(reply.text.value, parse).value).Success? ==>
      r == Generated(Extract(reply.text.value, parse).value)
  {
    match reply
    case NetworkFailure => Failed(Unreachable(p))
    case HttpError(status) => Failed(ApiError(p, status))
    case Answer(None) => Failed(ParseFailure(p, MalformedReply))
    case Answer(Some(text)) =>
      match Extract(text, parse)
      case Failure(e) => Failed(ParseFailure(p, Extraction(e)))
      case Success(v) =>
        match Validate(v)
        case Failure(e) => Failed(ParseFailure(p, Invalid(e)))
        case Success(data) => Generated(data)
  }

  /** `generateTasks`, with each provider's reply to the request it would be sent. */
  function GenerateTasks(prompt: Value, provider: Value, openAIKey: Option<string>, claudeKey: Option<string>,
                         openAIReply: Reply, claudeReply: Reply, parse: string -> Option<Value>): (r: Response)
    ensures ChooseRoute(prompt, provider, openAIKey, claudeKey).Reject? ==>
      r == Failed(ChooseRoute(prompt, provider, openAIKey, claudeKey).error)
    ensures r.Generated? ==> PromptValid(prompt) && Validate(r.data) == Success(r.data)
    ensures ChooseRoute(prompt, provider, openAIKey, claudeKey) == Call(OpenAI) ==>
      r == Handle(OpenAI, openAIReply, parse)
    ensures ChooseRoute(prompt, provider, openAIKey, claudeKey) == Call(Claude) ==>
      r == Handle(Claude, claudeReply, parse)
  {
    match ChooseRoute(prompt, provider, openAIKey, claudeKey)
    case Reject(e) => Failed(e)
    case Call(OpenAI) => Handle(OpenAI, openAIReply, parse)
    case Call(Claude) => Handle(Claude, claudeReply, parse)
  }

  /** A rejected prompt or missing key fails before any request: the outcome does not depend
      on what either provider would have answered. */
  lemma RejectedBeforeAnyCall(prompt: Value, provider: Value, openAIKey: Option<string>, claudeKey: Option<string>,
                              r1: Reply, r2: Reply, s1: Reply, s2: Reply, parse: string -> Option<Value>)
    requires ChooseRoute(prompt, provider, openAIKey, claudeKey).Reject?
    ensures GenerateTasks(prompt, provider, openAIKey, claudeKey, r1, r2, parse) ==
            GenerateTasks(prompt, provider, openAIKey, claudeKey, s1, s2, parse) ==
            Failed(ChooseRoute(prompt, provider, openAIKey, claudeKey).error)
  {
  }

  /** Generated data is always a validated array of well-formed tasks, extracted from the
      answer of a provider whose key is set, for a valid prompt. */
  lemma GeneratedIsValidated(prompt: Value, provider: Value, openAIKey: Option<string>, claudeKey: Option<string>,
                             openAIReply: Reply, claudeReply: Reply, parse: string -> Option<Value>)
    ensures var r := GenerateTasks(prompt, provider, openAIKey, claudeKey, openAIReply, claudeReply, parse);
      r.Generated? ==>
        PromptValid(prompt) && r.data.Arr? &&
        (forall k | 0 <= k < |r.data.items| :: TaskValid(r.data.items[k])) &&
        ((KeyPresent(openAIKey) && openAIReply.Answer? && openAIReply.text.Some? &&
          Extract(openAIReply.text.value, parse) == Success(r.data)) ||
         (KeyPresent(claudeKey) && claudeReply.Answer? && claudeReply.text.Some? &&
          Extract(claudeReply.text.value, parse) == Success(r.data)))
  {
    var r := GenerateTasks(prompt, provider, openAIKey, claudeKey, openAIReply, claudeReply, parse);
    if r.Generated? {
      var route := ChooseRoute(prompt, provider, openAIKey, claudeKey);
      assert route.Call?;
      if route.provider == OpenAI {
        assert r == Handle(OpenAI, openAIReply, parse);
      } else {
        assert r == Handle(Claude, claudeReply, parse);
      }
    }
  }
}
